/** The `challenges` table: the single-use nonces of challenge-response authentication,
    with the queries and updates the store and the rate limiter apply to them. `now` is the
    database clock in whole seconds. */
module Challenges {
  import opened Wrappers

  /** A row: `id, link_token, challenge_nonce, client_ip, user_agent, created_at,
      expires_at, used`. */
  datatype Challenge = Challenge(
    id: int,
    linkToken: string,
    nonce: string,
    clientIp: Option<string>,
    userAgent: Option<string>,
    createdAt: int,
    expiresAt: int,
    used: bool)

  predicate IdsIncreasing(cs: seq<Challenge>) {
    forall i, j :: 0 <= i < j < |cs| ==> cs[i].id < cs[j].id
  }

  /** Rows are inserted at the current time, so `created_at` never decreases along the table. */
  predicate CreatedInOrder(cs: seq<Challenge>) {
    forall i, j :: 0 <= i < j < |cs| ==> cs[i].createdAt <= cs[j].createdAt
  }

  /** `used = FALSE AND expires_at > NOW()` for the identity. */
  predicate Outstanding(c: Challenge, linkToken: string, now: int) {
    c.linkToken == linkToken && !c.used && c.expiresAt > now
  }

  /** A row `get_challenge` may return for this identity and nonce. */
  predicate Live(c: Challenge, linkToken: string, nonce: string, now: int) {
    Outstanding(c, linkToken, now) && c.nonce == nonce
  }

  /** `SELECT COUNT(*) ... WHERE link_token = %s AND used = FALSE AND expires_at > NOW()`. */
  function CountOutstanding(cs: seq<Challenge>, linkToken: string, now: int): (n: nat)
    ensures n <= |cs|
  {
    if cs == [] then 0
    else
      var k := if Outstanding(cs[|cs| - 1], linkToken, now) then 1 else 0;
      CountOutstanding(cs[..|cs| - 1], linkToken, now) + k
  }

  /** The positions of the identity's outstanding rows. */
  ghost function OutstandingRows(cs: seq<Challenge>, linkToken: string, now: int): set<int> {
    set i | 0 <= i < |cs| && Outstanding(cs[i], linkToken, now)
  }

  /** The count is the number of outstanding rows of the identity. */
  lemma {:induction false} CountIsCardinality(cs: seq<Challenge>, linkToken: string, now: int)
    ensures CountOutstanding(cs, linkToken, now) == |OutstandingRows(cs, linkToken, now)|
  {
    if cs != [] {
      var init := cs[..|cs| - 1];
      CountIsCardinality(init, linkToken, now);
      var before := OutstandingRows(init, linkToken, now);
      var after := OutstandingRows(cs, linkToken, now);
      assert forall i :: 0 <= i < |init| ==> init[i] == cs[i];
      if Outstanding(cs[|cs| - 1], linkToken, now) {
        assert after == before + {|cs| - 1};
      } else {
        assert after == before;
      }
    }
  }

  /** Counting along an appended row. */
  lemma CountAppend(cs: seq<Challenge>, c: Challenge, linkToken: string, now: int)
    ensures CountOutstanding(cs + [c], linkToken, now)
      == CountOutstanding(cs, linkToken, now) + (if Outstanding(c, linkToken, now) then 1 else 0)
  {
    assert (cs + [c])[..|cs|] == cs;
  }

  /** Time passing only lets challenges expire: the count never grows with the clock. */
  lemma {:induction false} CountAntitone(cs: seq<Challenge>, linkToken: string, now: int, later: int)
    requires now <= later
    ensures CountOutstanding(cs, linkToken, later) <= CountOutstanding(cs, linkToken, now)
  {
    if cs != [] {
      CountAntitone(cs[..|cs| - 1], linkToken, now, later);
    }
  }

  /** The row `get_challenge` returns: a live row, the last one inserted among those with the
      latest `created_at`; `None` when there is none. */
  function FindLive(cs: seq<Challenge>, linkToken: string, nonce: string, now: int): (r: Option<Challenge>)
    ensures r.Some? ==> r.value in cs && Live(r.value, linkToken, nonce, now)
    ensures r.None? ==> forall i :: 0 <= i < |cs| ==> !Live(cs[i], linkToken, nonce, now)
  {
    if cs == [] then None
    else if Live(cs[|cs| - 1], linkToken, nonce, now) then Some(cs[|cs| - 1])
    else
      var r := FindLive(cs[..|cs| - 1], linkToken, nonce, now);
      assert forall i :: 0 <= i < |cs| - 1 ==> cs[..|cs| - 1][i] == cs[i];
      r
  }

  /** `ORDER BY created_at DESC`: no live row was created after the one returned. */
  lemma {:induction false} FindLiveLatest(cs: seq<Challenge>, linkToken: string, nonce: string, now: int, d: Challenge)
    requires CreatedInOrder(cs)
    requires d in cs && Live(d, linkToken, nonce, now)
    ensures FindLive(cs, linkToken, nonce, now).Some?
    ensures d.createdAt <= FindLive(cs, linkToken, nonce, now).value.createdAt
  {
    var last := cs[|cs| - 1];
    var j :| 0 <= j < |cs| && cs[j] == d;
    if !Live(last, linkToken, nonce, now) {
      var init := cs[..|cs| - 1];
      assert j < |cs| - 1 && init[j] == d;
      FindLiveLatest(init, linkToken, nonce, now, d);
    }
  }

  /** `UPDATE challenges SET used = TRUE WHERE id = %s`. */
  function MarkUsed(cs: seq<Challenge>, id: int): (r: seq<Challenge>)
    ensures |r| == |cs|
    ensures forall i :: 0 <= i < |cs| ==> r[i] == (if cs[i].id == id then cs[i].(used := true) else cs[i])
  {
    if cs == [] then []
    else [if cs[0].id == id then cs[0].(used := true) else cs[0]] + MarkUsed(cs[1..], id)
  }

  /** Marking a challenge never adds an outstanding one. */
  lemma {:induction false} CountMarkUsed(cs: seq<Challenge>, id: int, linkToken: string, now: int)
    ensures CountOutstanding(MarkUsed(cs, id), linkToken, now) <= CountOutstanding(cs, linkToken, now)
  {
    if cs != [] {
      var r := MarkUsed(cs, id);
      assert r[..|r| - 1] == MarkUsed(cs[..|cs| - 1], id);
      CountMarkUsed(cs[..|cs| - 1], id, linkToken, now);
    }
  }

  /** A used challenge cannot be presented again: after marking, lookup never returns that row,
      and finds nothing at all unless another live row carries the same nonce. */
  lemma MarkUsedIsFinal(cs: seq<Challenge>, id: int, linkToken: string, nonce: string, now: int)
    ensures FindLive(MarkUsed(cs, id), linkToken, nonce, now).Some? ==>
      FindLive(MarkUsed(cs, id), linkToken, nonce, now).value.id != id
    ensures (forall i :: 0 <= i < |cs| && Live(cs[i], linkToken, nonce, now) ==> cs[i].id == id)
      ==> FindLive(MarkUsed(cs, id), linkToken, nonce, now).None?
  {
    var m := MarkUsed(cs, id);
    var r := FindLive(m, linkToken, nonce, now);
    if r.Some? {
      var i :| 0 <= i < |m| && m[i] == r.value;
    }
  }

  /** `DELETE FROM challenges WHERE expires_at < NOW()`: the rows kept, in order. */
  function Purge(cs: seq<Challenge>, now: int): (r: seq<Challenge>)
    ensures |r| <= |cs|
    ensures forall i :: 0 <= i < |r| ==> r[i] in cs && r[i].expiresAt >= now
    ensures forall i :: 0 <= i < |cs| && cs[i].expiresAt >= now ==> cs[i] in r
  {
    if cs == [] then []
    else
      var init := Purge(cs[..|cs| - 1], now);
      assert forall i :: 0 <= i < |cs| - 1 ==> cs[..|cs| - 1][i] == cs[i];
      if cs[|cs| - 1].expiresAt >= now then init + [cs[|cs| - 1]] else init
  }

  /** Purging deletes only expired rows, so it leaves the outstanding count alone. */
  lemma {:induction false} CountPurge(cs: seq<Challenge>, linkToken: string, now: int)
    ensures CountOutstanding(Purge(cs, now), linkToken, now) == CountOutstanding(cs, linkToken, now)
  {
    if cs != [] {
      var init := cs[..|cs| - 1];
      CountPurge(init, now := now, linkToken := linkToken);
      if cs[|cs| - 1].expiresAt >= now {
        CountAppend(Purge(init, now), cs[|cs| - 1], linkToken, now);
      }
    }
  }

  /** A row expiring exactly now survives the purge, yet lookup already refuses it. */
  lemma PurgeBoundary(cs: seq<Challenge>, now: int, c: Challenge)
    requires c in cs && c.expiresAt == now
    ensures c in Purge(cs, now)
    ensures forall linkToken, nonce :: !Live(c, linkToken, nonce, now)
  {
  }

  /** Purging keeps ids and creation times in order. */
  lemma PurgeKeepsOrder(cs: seq<Challenge>, now: int)
    requires IdsIncreasing(cs) && CreatedInOrder(cs)
    ensures IdsIncreasing(Purge(cs, now)) && CreatedInOrder(Purge(cs, now))
    decreases |cs|
  {
    if cs != [] {
      var init := cs[..|cs| - 1];
      var last := cs[|cs| - 1];
      assert IdsIncreasing(init) && CreatedInOrder(init);
      PurgeKeepsOrder(init, now);
      var p := Purge(init, now);
      forall k | 0 <= k < |p| ensures p[k].id < last.id && p[k].createdAt <= last.createdAt {
        var j :| 0 <= j < |init| && init[j] == p[k];
        assert init[j] == cs[j];
      }
      assert Purge(cs, now) == if last.expiresAt >= now then p + [last] else p;
      if last.expiresAt >= now {
        AppendKeepsOrder(p, last);
      }
    }
  }

  /** A row after every row of an ordered table, in both id and time, keeps it ordered. */
  lemma AppendKeepsOrder(p: seq<Challenge>, last: Challenge)
    requires IdsIncreasing(p) && CreatedInOrder(p)
    requires forall k :: 0 <= k < |p| ==> p[k].id < last.id && p[k].createdAt <= last.createdAt
    ensures IdsIncreasing(p + [last]) && CreatedInOrder(p + [last])
  {
  }

  /** The `created_at` of the most recent challenge issued to the identity, used or not. */
  function LatestCreated(cs: seq<Challenge>, linkToken: string): (t: Option<int>)
    ensures t.Some? <==> exists i :: 0 <= i < |cs| && cs[i].linkToken == linkToken
    ensures t.Some? ==> forall i :: 0 <= i < |cs| && cs[i].linkToken == linkToken ==> cs[i].createdAt <= t.value
    ensures t.Some? ==> exists i :: 0 <= i < |cs| && cs[i].linkToken == linkToken && cs[i].createdAt == t.value
  {
    if cs == [] then None
    else
      var init := cs[..|cs| - 1];
      var last := cs[|cs| - 1];
      var rest := LatestCreated(init, linkToken);
      assert forall i :: 0 <= i < |cs| - 1 ==> init[i] == cs[i];
      if last.linkToken != linkToken then rest
      else if rest.Some? && rest.value > last.createdAt then rest
      else Some(last.createdAt)
  }

  /** The cooldown: the latest challenge of the identity is less than three seconds old. */
  predicate TooFrequent(cs: seq<Challenge>, linkToken: string, now: int) {
    var t := LatestCreated(cs, linkToken);
    t.Some? && now - t.value < 3
  }

  /** The cooldown holds exactly when some challenge of the identity, used or not, was issued
      less than three seconds ago. */
  lemma TooFrequentMeans(cs: seq<Challenge>, linkToken: string, now: int)
    ensures TooFrequent(cs, linkToken, now) <==>
      exists i :: 0 <= i < |cs| && cs[i].linkToken == linkToken && now - cs[i].createdAt < 3
  {
  }

  /** The table invariant: ids increase and stay below the next auto-increment value, and
      rows were created in order, never after the current time. */
  predicate WellFormed(cs: seq<Challenge>, nextId: int, now: int) {
    && IdsIncreasing(cs) && CreatedInOrder(cs)
    && forall i :: 0 <= i < |cs| ==> cs[i].id < nextId && cs[i].createdAt <= now
  }

  /** An insert at the current time with the next id keeps the invariant. */
  lemma AppendWellFormed(cs: seq<Challenge>, c: Challenge, nextId: int, now: int)
    requires WellFormed(cs, nextId, now) && c.id == nextId && c.createdAt == now
    ensures WellFormed(cs + [c], nextId + 1, now)
  {
  }

  lemma MarkUsedWellFormed(cs: seq<Challenge>, id: int, nextId: int, now: int)
    requires WellFormed(cs, nextId, now)
    ensures WellFormed(MarkUsed(cs, id), nextId, now)
  {
    var r := MarkUsed(cs, id);
    assert forall i :: 0 <= i < |r| ==> r[i].id == cs[i].id && r[i].createdAt == cs[i].createdAt;
  }

  lemma PurgeWellFormed(cs: seq<Challenge>, nextId: int, now: int)
    requires WellFormed(cs, nextId, now)
    ensures WellFormed(Purge(cs, now), nextId, now)
  {
    PurgeKeepsOrder(cs, now);
  }

  lemma ClockWellFormed(cs: seq<Challenge>, nextId: int, now: int, later: int)
    requires WellFormed(cs, nextId, now) && now <= later
    ensures WellFormed(cs, nextId, later)
  {
  }
}
