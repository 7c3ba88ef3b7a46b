/** The `messages` table: rows, the query `get_messages` runs over them, and the update
    `mark_messages_seen` applies. Rows are kept in insertion order, which is also the order
    of their auto-increment ids. */
module Messages {
  import opened Wrappers
  import opened Json

  /** A row: `id, link_token, encrypted_message, created_at, seen, metadata`. */
  datatype Message = Message(
    id: int,
    linkToken: string,
    encryptedMessage: string,
    createdAt: int,
    seen: bool,
    metadata: Option<string>)

  /** Ids grow strictly along the table. */
  predicate IdsIncreasing(ms: seq<Message>) {
    forall i, j :: 0 <= i < j < |ms| ==> ms[i].id < ms[j].id
  }

  predicate IdsDecreasing(ms: seq<Message>) {
    forall i, j :: 0 <= i < j < |ms| ==> ms[i].id > ms[j].id
  }

  /** The `WHERE` clause: the recipient, `seen = FALSE` unless seen rows are wanted, and
      the optional `id < before_id` and `id > since_id` cursors. */
  datatype Query = Query(linkToken: string, includeSeen: bool, beforeId: Option<int>, sinceId: Option<int>)

  predicate Matches(m: Message, q: Query) {
    && m.linkToken == q.linkToken
    && (q.includeSeen || !m.seen)
    && (q.beforeId.None? || m.id < q.beforeId.value)
    && (q.sinceId.None? || m.id > q.sinceId.value)
  }

  /** Every matching row, in table order. */
  function Filter(ms: seq<Message>, q: Query): (r: seq<Message>)
    ensures |r| <= |ms|
    ensures forall i :: 0 <= i < |r| ==> r[i] in ms && Matches(r[i], q)
  {
    if ms == [] then []
    else
      var init := Filter(ms[..|ms| - 1], q);
      if Matches(ms[|ms| - 1], q) then init + [ms[|ms| - 1]] else init
  }

  /** `ORDER BY id DESC LIMIT n`: the last `n` matching rows, newest first. */
  function Newest(ms: seq<Message>, q: Query, n: nat): (r: seq<Message>)
    ensures |r| <= n
    ensures forall i :: 0 <= i < |r| ==> r[i] in ms && Matches(r[i], q)
  {
    if ms == [] || n == 0 then []
    else
      var last := ms[|ms| - 1];
      if Matches(last, q) then [last] + Newest(ms[..|ms| - 1], q, n - 1)
      else Newest(ms[..|ms| - 1], q, n)
  }

  /** `ORDER BY id ASC LIMIT n`: the first `n` matching rows, oldest first. */
  function Oldest(ms: seq<Message>, q: Query, n: nat): (r: seq<Message>)
    ensures |r| <= n
    ensures forall i :: 0 <= i < |r| ==> r[i] in ms && Matches(r[i], q)
  {
    if ms == [] || n == 0 then []
    else if Matches(ms[0], q) then [ms[0]] + Oldest(ms[1..], q, n - 1)
    else Oldest(ms[1..], q, n)
  }

  function Reverse<T>(s: seq<T>): (r: seq<T>)
    ensures |r| == |s| && forall i :: 0 <= i < |s| ==> r[i] == s[|s| - 1 - i]
  {
    if s == [] then [] else [s[|s| - 1]] + Reverse(s[..|s| - 1])
  }

  function Min(a: int, b: int): int {
    if a <= b then a else b
  }

  /** The newest `n` matching rows are the first `n` of the matching rows read backwards. */
  lemma {:induction false} NewestIsReversedFilter(ms: seq<Message>, q: Query, n: nat)
    ensures var f := Reverse(Filter(ms, q));
      Newest(ms, q, n) == f[..Min(n, |f|)]
  {
    if ms != [] && n != 0 {
      var init := ms[..|ms| - 1];
      var last := ms[|ms| - 1];
      var fi := Reverse(Filter(init, q));
      if Matches(last, q) {
        NewestIsReversedFilter(init, q, n - 1);
        assert Reverse(Filter(ms, q)) == [last] + fi;
      } else {
        NewestIsReversedFilter(init, q, n);
      }
    }
  }

  /** The oldest `n` matching rows are the first `n` matching rows. */
  lemma {:induction false} OldestIsFilterPrefix(ms: seq<Message>, q: Query, n: nat)
    ensures var f := Filter(ms, q);
      Oldest(ms, q, n) == f[..Min(n, |f|)]
  {
    if ms != [] && n != 0 {
      OldestIsFilterPrefix(ms[1..], q, if Matches(ms[0], q) then n - 1 else n);
      FilterCons(ms, q);
    }
  }

  /** Filtering peels off the first row as well as the last. */
  lemma {:induction false} FilterCons(ms: seq<Message>, q: Query)
    requires ms != []
    ensures Filter(ms, q) == (if Matches(ms[0], q) then [ms[0]] else []) + Filter(ms[1..], q)
    decreases |ms|
  {
    if |ms| > 1 {
      var init := ms[..|ms| - 1];
      FilterCons(init, q);
      assert init[1..] == ms[1..][..|ms[1..]| - 1];
      assert init[0] == ms[0];
    } else {
      assert ms[..0] == [] && ms[1..] == [];
    }
  }

  /** Every matching row is among the filtered rows. */
  lemma {:induction false} FilterComplete(ms: seq<Message>, q: Query, m: Message)
    requires m in ms && Matches(m, q)
    ensures m in Filter(ms, q)
  {
    var init := ms[..|ms| - 1];
    if m != ms[|ms| - 1] {
      var j :| 0 <= j < |ms| && ms[j] == m;
      assert init[j] == m;
      FilterComplete(init, q, m);
    }
  }

  /** A page holds as many rows as were asked for, or every matching row when fewer match. */
  lemma PageLengths(ms: seq<Message>, q: Query, n: nat)
    ensures |Newest(ms, q, n)| == Min(n, |Filter(ms, q)|)
    ensures |Oldest(ms, q, n)| == Min(n, |Filter(ms, q)|)
  {
    NewestIsReversedFilter(ms, q, n);
    OldestIsFilterPrefix(ms, q, n);
  }

  /** A matching row left out of an oldest-first page means the page is full. */
  lemma OldestMaximal(ms: seq<Message>, q: Query, n: nat, m: Message)
    requires m in ms && Matches(m, q) && m !in Oldest(ms, q, n)
    ensures |Oldest(ms, q, n)| == n
  {
    OldestIsFilterPrefix(ms, q, n);
    FilterComplete(ms, q, m);
  }

  /** With ids increasing along the table, the newest rows come out in strictly
      decreasing id order. */
  lemma {:induction false} NewestDescending(ms: seq<Message>, q: Query, n: nat)
    requires IdsIncreasing(ms)
    ensures IdsDecreasing(Newest(ms, q, n))
  {
    if ms != [] && n != 0 {
      var init, last := ms[..|ms| - 1], ms[|ms| - 1];
      InitIncreasing(ms);
      if Matches(last, q) {
        NewestDescending(init, q, n - 1);
        var rest := Newest(init, q, n - 1);
        BelowLast(ms, rest);
        ConsDecreasing(last, rest);
        assert Newest(ms, q, n) == [last] + rest;
      } else {
        NewestDescending(init, q, n);
        assert Newest(ms, q, n) == Newest(init, q, n);
      }
    }
  }

  lemma InitIncreasing(ms: seq<Message>)
    requires IdsIncreasing(ms) && ms != []
    ensures IdsIncreasing(ms[..|ms| - 1]) && IdsIncreasing(ms[1..])
  {
  }

  /** Rows taken from before the table's last row have lower ids than it. */
  lemma BelowLast(ms: seq<Message>, rest: seq<Message>)
    requires IdsIncreasing(ms) && ms != []
    requires forall k :: 0 <= k < |rest| ==> rest[k] in ms[..|ms| - 1]
    ensures forall k :: 0 <= k < |rest| ==> rest[k].id < ms[|ms| - 1].id
  {
    forall k | 0 <= k < |rest| ensures rest[k].id < ms[|ms| - 1].id {
      var init := ms[..|ms| - 1];
      assert rest[k] in init;
      var j :| 0 <= j < |init| && init[j] == rest[k];
      assert ms[j] == rest[k];
    }
  }

  /** Rows taken from after the table's first row have higher ids than it. */
  lemma AboveFirst(ms: seq<Message>, rest: seq<Message>)
    requires IdsIncreasing(ms) && ms != []
    requires forall k :: 0 <= k < |rest| ==> rest[k] in ms[1..]
    ensures forall k :: 0 <= k < |rest| ==> ms[0].id < rest[k].id
  {
    forall k | 0 <= k < |rest| ensures ms[0].id < rest[k].id {
      var tail := ms[1..];
      assert rest[k] in tail;
      var j :| 0 <= j < |tail| && tail[j] == rest[k];
      assert ms[j + 1] == rest[k];
    }
  }

  lemma ConsDecreasing(x: Message, rest: seq<Message>)
    requires IdsDecreasing(rest) && forall k :: 0 <= k < |rest| ==> rest[k].id < x.id
    ensures IdsDecreasing([x] + rest)
  {
    var r := [x] + rest;
    forall i, j | 0 <= i < j < |r| ensures r[i].id > r[j].id {
      assert r[j] == rest[j - 1];
      if i > 0 {
        assert r[i] == rest[i - 1];
      }
    }
  }

  lemma ConsIncreasing(x: Message, rest: seq<Message>)
    requires IdsIncreasing(rest) && forall k :: 0 <= k < |rest| ==> x.id < rest[k].id
    ensures IdsIncreasing([x] + rest)
  {
    var r := [x] + rest;
    forall i, j | 0 <= i < j < |r| ensures r[i].id < r[j].id {
      assert r[j] == rest[j - 1];
      if i > 0 {
        assert r[i] == rest[i - 1];
      }
    }
  }

  /** With ids increasing along the table, the oldest rows come out in strictly
      increasing id order. */
  lemma {:induction false} OldestAscending(ms: seq<Message>, q: Query, n: nat)
    requires IdsIncreasing(ms)
    ensures IdsIncreasing(Oldest(ms, q, n))
  {
    if ms != [] && n != 0 {
      var rest := ms[1..];
      InitIncreasing(ms);
      if Matches(ms[0], q) {
        OldestAscending(rest, q, n - 1);
        var r := Oldest(rest, q, n - 1);
        AboveFirst(ms, r);
        ConsIncreasing(ms[0], r);
        assert Oldest(ms, q, n) == [ms[0]] + r;
      } else {
        OldestAscending(rest, q, n);
        assert Oldest(ms, q, n) == Oldest(rest, q, n);
      }
    }
  }

  /** The newest `n` rows are the highest-id matching rows: a matching row left out means
      the page is full and every row on it has a higher id. */
  lemma {:induction false} NewestMaximal(ms: seq<Message>, q: Query, n: nat, m: Message)
    requires IdsIncreasing(ms)
    requires m in ms && Matches(m, q) && m !in Newest(ms, q, n)
    ensures |Newest(ms, q, n)| == n
    ensures forall x :: x in Newest(ms, q, n) ==> x.id > m.id
  {
    var init := ms[..|ms| - 1];
    var last := ms[|ms| - 1];
    if n != 0 {
      assert m != last;
      var j :| 0 <= j < |ms| && ms[j] == m;
      assert m in init by { assert init[j] == m; }
      if Matches(last, q) {
        NewestMaximal(init, q, n - 1, m);
        assert last.id > m.id;
      } else {
        NewestMaximal(init, q, n, m);
      }
    }
  }

  /** Two queries that agree on every row select the same newest rows. */
  lemma {:induction false} NewestSameSelection(ms: seq<Message>, q: Query, q': Query, n: nat)
    requires forall i :: 0 <= i < |ms| ==> (Matches(ms[i], q) <==> Matches(ms[i], q'))
    ensures Newest(ms, q, n) == Newest(ms, q', n)
  {
    if ms != [] && n != 0 {
      var init := ms[..|ms| - 1];
      assert forall i :: 0 <= i < |init| ==> init[i] == ms[i];
      NewestSameSelection(init, q, q', n - 1);
      NewestSameSelection(init, q, q', n);
    }
  }

  /** The query for the page after a cursor: the same query with `before_id` moved to it. */
  function After(q: Query, cursor: int): Query {
    q.(beforeId := Some(cursor))
  }

  /** Cursor pagination loses and repeats nothing: a full page of `n` rows followed by the
      page of `n'` rows before its last id `c` is exactly the first `n + n'` rows. */
  lemma {:induction false} NewestContinues(ms: seq<Message>, q: Query, n: nat, n': nat, c: int)
    requires IdsIncreasing(ms)
    requires n > 0 && |Newest(ms, q, n)| == n && c == Newest(ms, q, n)[n - 1].id
    ensures Newest(ms, q, n + n') == Newest(ms, q, n) + Newest(ms, After(q, c), n')
    decreases |ms|, 1
  {
    if !Matches(ms[|ms| - 1], q) {
      ContinuesBeforeLast(ms, q, n, n', c);
    } else if n == 1 {
      ContinuesAtLast(ms, q, n');
    } else {
      ContinuesPastLast(ms, q, n, n', c);
    }
  }

  /** `NewestContinues` when the table's last row does not match. */
  lemma {:induction false} ContinuesBeforeLast(ms: seq<Message>, q: Query, n: nat, n': nat, c: int)
    requires IdsIncreasing(ms) && ms != [] && !Matches(ms[|ms| - 1], q)
    requires n > 0 && |Newest(ms, q, n)| == n && c == Newest(ms, q, n)[n - 1].id
    ensures Newest(ms, q, n + n') == Newest(ms, q, n) + Newest(ms, After(q, c), n')
    decreases |ms|, 0
  {
    PageBeforeLast(ms, q, n, n', c);
    NewestContinues(ms[..|ms| - 1], q, n, n', c);
    SkipLast(ms, q, c, n');
  }

  /** `NewestContinues` when the page starts with the table's last row and goes on. */
  lemma {:induction false} ContinuesPastLast(ms: seq<Message>, q: Query, n: nat, n': nat, c: int)
    requires IdsIncreasing(ms) && ms != [] && Matches(ms[|ms| - 1], q)
    requires n > 1 && |Newest(ms, q, n)| == n && c == Newest(ms, q, n)[n - 1].id
    ensures Newest(ms, q, n + n') == Newest(ms, q, n) + Newest(ms, After(q, c), n')
    decreases |ms|, 0
  {
    PageThroughLast(ms, q, n, n', c);
    NewestContinues(ms[..|ms| - 1], q, n - 1, n', c);
    ContinuesThroughLast(ms, q, n, n', c);
  }

  /** The step of `NewestContinues` when the page starts with the table's last row. */
  lemma ContinuesThroughLast(ms: seq<Message>, q: Query, n: nat, n': nat, c: int)
    requires ms != [] && n > 1 && c < ms[|ms| - 1].id
    requires Newest(ms, q, n) == [ms[|ms| - 1]] + Newest(ms[..|ms| - 1], q, n - 1)
    requires Newest(ms, q, n + n') == [ms[|ms| - 1]] + Newest(ms[..|ms| - 1], q, n - 1 + n')
    requires Newest(ms[..|ms| - 1], q, n - 1 + n')
      == Newest(ms[..|ms| - 1], q, n - 1) + Newest(ms[..|ms| - 1], After(q, c), n')
    ensures Newest(ms, q, n + n') == Newest(ms, q, n) + Newest(ms, After(q, c), n')
  {
    var init, last := ms[..|ms| - 1], ms[|ms| - 1];
    var p, t := Newest(init, q, n - 1), Newest(init, After(q, c), n');
    SkipLast(ms, q, c, n');
    assert [last] + (p + t) == ([last] + p) + t;
  }

  /** A page that includes the table's last row, and more, is that row and a page of the
      rest of the table. */
  lemma PageThroughLast(ms: seq<Message>, q: Query, n: nat, n': nat, c: int)
    requires IdsIncreasing(ms) && ms != [] && Matches(ms[|ms| - 1], q)
    requires n > 1 && |Newest(ms, q, n)| == n && c == Newest(ms, q, n)[n - 1].id
    ensures IdsIncreasing(ms[..|ms| - 1])
    ensures Newest(ms, q, n) == [ms[|ms| - 1]] + Newest(ms[..|ms| - 1], q, n - 1)
    ensures Newest(ms, q, n + n') == [ms[|ms| - 1]] + Newest(ms[..|ms| - 1], q, n - 1 + n')
    ensures |Newest(ms[..|ms| - 1], q, n - 1)| == n - 1
    ensures c == Newest(ms[..|ms| - 1], q, n - 1)[n - 2].id && c < ms[|ms| - 1].id
  {
    var init, last := ms[..|ms| - 1], ms[|ms| - 1];
    var rest := Newest(init, q, n - 1);
    assert Newest(ms, q, n) == [last] + rest;
    var j :| 0 <= j < |init| && init[j] == rest[n - 2];
    assert init[j] == ms[j];
  }

  /** A page that leaves out the table's last row is a page of the rest of the table. */
  lemma PageBeforeLast(ms: seq<Message>, q: Query, n: nat, n': nat, c: int)
    requires IdsIncreasing(ms) && ms != [] && !Matches(ms[|ms| - 1], q)
    requires n > 0 && |Newest(ms, q, n)| == n && c == Newest(ms, q, n)[n - 1].id
    ensures IdsIncreasing(ms[..|ms| - 1])
    ensures Newest(ms, q, n) == Newest(ms[..|ms| - 1], q, n)
    ensures Newest(ms, q, n + n') == Newest(ms[..|ms| - 1], q, n + n')
    ensures c < ms[|ms| - 1].id
  {
    var init, last := ms[..|ms| - 1], ms[|ms| - 1];
    var r := Newest(init, q, n);
    assert Newest(ms, q, n) == r;
    var j :| 0 <= j < |init| && init[j] == r[n - 1];
    assert init[j] == ms[j];
  }

  /** A page that ends at the table's last row is continued from the rest of the table. */
  lemma ContinuesAtLast(ms: seq<Message>, q: Query, n': nat)
    requires IdsIncreasing(ms) && ms != [] && Matches(ms[|ms| - 1], q)
    ensures Newest(ms, q, 1 + n') == [ms[|ms| - 1]] + Newest(ms, After(q, ms[|ms| - 1].id), n')
  {
    var init := ms[..|ms| - 1];
    var last := ms[|ms| - 1];
    var q' := After(q, last.id);
    forall i | 0 <= i < |init| ensures Matches(init[i], q) <==> Matches(init[i], q') {
      assert init[i] == ms[i];
    }
    NewestSameSelection(init, q, q', n');
    assert !Matches(last, q');
  }

  /** The table's last row is never on a page after a cursor below its id. */
  lemma SkipLast(ms: seq<Message>, q: Query, c: int, n': nat)
    requires ms != [] && c < ms[|ms| - 1].id
    ensures Newest(ms, After(q, c), n') == Newest(ms[..|ms| - 1], After(q, c), n')
  {
  }

  // ---------------------------------------------------------------------------
  // mark_messages_seen

  /** One row under `UPDATE messages SET seen = TRUE WHERE id IN ids AND link_token = t`. */
  function Mark(m: Message, linkToken: string, ids: set<int>): Message {
    if m.linkToken == linkToken && m.id in ids then m.(seen := true) else m
  }

  /** The update applied to the whole table. */
  function MarkSeen(ms: seq<Message>, linkToken: string, ids: set<int>): (r: seq<Message>)
    ensures |r| == |ms|
    ensures forall i :: 0 <= i < |ms| ==> r[i] == Mark(ms[i], linkToken, ids)
  {
    if ms == [] then [] else [Mark(ms[0], linkToken, ids)] + MarkSeen(ms[1..], linkToken, ids)
  }

  /** Marking sets `seen` exactly on the listed rows of the recipient, changes nothing else
      about any row, and never makes a seen row unseen. */
  lemma MarkSeenEffect(ms: seq<Message>, linkToken: string, ids: set<int>, i: int)
    requires 0 <= i < |ms|
    ensures var r := MarkSeen(ms, linkToken, ids);
      && r[i].seen == (ms[i].seen || (ms[i].linkToken == linkToken && ms[i].id in ids))
      && r[i].(seen := ms[i].seen) == ms[i]
  {
  }

  /** After an acknowledgement, the acknowledged rows no longer come back from a query
      for unseen rows. */
  lemma AcknowledgedHidden(ms: seq<Message>, linkToken: string, ids: set<int>, q: Query, n: nat)
    requires !q.includeSeen
    ensures forall x :: x in Newest(MarkSeen(ms, linkToken, ids), q, n) ==>
      !(x.linkToken == linkToken && x.id in ids)
  {
    var r := MarkSeen(ms, linkToken, ids);
    forall x | x in Newest(r, q, n) ensures !(x.linkToken == linkToken && x.id in ids) {
      var i :| 0 <= i < |r| && r[i] == x;
    }
  }

  /** The table invariant: ids increase along the table and stay below the next
      auto-increment value. */
  predicate WellFormed(ms: seq<Message>, nextId: int) {
    IdsIncreasing(ms) && forall i :: 0 <= i < |ms| ==> ms[i].id < nextId
  }

  /** An insert takes the next id, which keeps the invariant. */
  lemma AppendWellFormed(ms: seq<Message>, m: Message, nextId: int)
    requires WellFormed(ms, nextId) && m.id == nextId
    ensures WellFormed(ms + [m], nextId + 1)
  {
  }

  /** Marking keeps every id, so it keeps the invariant. */
  lemma MarkSeenWellFormed(ms: seq<Message>, linkToken: string, ids: set<int>, nextId: int)
    requires WellFormed(ms, nextId)
    ensures WellFormed(MarkSeen(ms, linkToken, ids), nextId)
  {
  }

  /** The ids a list of parameters names, as `IN (...)` compares them with the integer
      `id` column (see `SqlId`); an element that converts to no integer names no id. */
  function ListedIds(items: seq<Json>): (ids: set<int>)
    ensures forall k :: 0 <= k < |items| && SqlId(items[k]).Some? ==> SqlId(items[k]).value in ids
    ensures forall id :: id in ids ==> exists k :: 0 <= k < |items| && SqlId(items[k]) == Some(id)
  {
    set k | 0 <= k < |items| && SqlId(items[k]).Some? :: SqlId(items[k]).value
  }
}
