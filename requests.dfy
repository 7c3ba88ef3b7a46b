/** The `message_requests` table: a sender asks a recipient for permission to message it,
    and the recipient accepts or rejects. Permission is directed: from sender to recipient. */
module Requests {
  import opened Wrappers
  import opened Json

  /** The `ENUM('pending', 'accepted', 'rejected')` column. */
  datatype Status = Pending | Accepted | Rejected

  /** A row: `id, from_link_token, to_link_token, from_nickname, status, created_at,
      updated_at`. */
  datatype Request = Request(
    id: int,
    fromLinkToken: string,
    toLinkToken: string,
    fromNickname: Json,
    status: Status,
    createdAt: int,
    updatedAt: int)

  predicate IdsIncreasing(rs: seq<Request>) {
    forall i, j :: 0 <= i < j < |rs| ==> rs[i].id < rs[j].id
  }

  predicate CreatedInOrder(rs: seq<Request>) {
    forall i, j :: 0 <= i < j < |rs| ==> rs[i].createdAt <= rs[j].createdAt
  }

  predicate CreatedNonincreasing(rs: seq<Request>) {
    forall i, j :: 0 <= i < j < |rs| ==> rs[i].createdAt >= rs[j].createdAt
  }

  predicate Grants(r: Request, fromLinkToken: string, toLinkToken: string) {
    r.fromLinkToken == fromLinkToken && r.toLinkToken == toLinkToken && r.status == Accepted
  }

  /** `check_message_permission`: an accepted request from the sender to the recipient. */
  predicate HasPermission(rs: seq<Request>, fromLinkToken: string, toLinkToken: string) {
    exists i :: 0 <= i < |rs| && Grants(rs[i], fromLinkToken, toLinkToken)
  }

  /** A grant does not work backwards: accepting a request from `a` to `b` lets `a` message
      `b`, and gives `b` permission to message `a` only if it already had it (or is `a`). */
  lemma PermissionIsDirected(rs: seq<Request>, id: int, a: string, b: string, nickname: Json, created: int, updated: int)
    ensures var g := Request(id, a, b, nickname, Accepted, created, updated);
      && HasPermission(rs + [g], a, b)
      && (HasPermission(rs + [g], b, a) <==> HasPermission(rs, b, a) || a == b)
  {
    var g := Request(id, a, b, nickname, Accepted, created, updated);
    var t := rs + [g];
    assert Grants(t[|rs|], a, b);
    if HasPermission(t, b, a) && a != b {
      var i :| 0 <= i < |t| && Grants(t[i], b, a);
      assert i < |rs| && Grants(rs[i], b, a);
    }
    if HasPermission(rs, b, a) {
      var i :| 0 <= i < |rs| && Grants(rs[i], b, a);
      assert Grants(t[i], b, a);
    }
  }

  predicate PendingTo(r: Request, toLinkToken: string) {
    r.toLinkToken == toLinkToken && r.status == Pending
  }

  /** `get_pending_requests`: the pending requests addressed to the recipient, newest first. */
  function PendingFor(rs: seq<Request>, toLinkToken: string): (r: seq<Request>)
    ensures |r| <= |rs|
    ensures forall k :: 0 <= k < |r| ==> r[k] in rs && PendingTo(r[k], toLinkToken)
    ensures forall i :: 0 <= i < |rs| && PendingTo(rs[i], toLinkToken) ==> rs[i] in r
  {
    if rs == [] then []
    else
      var last := rs[|rs| - 1];
      var rest := PendingFor(rs[..|rs| - 1], toLinkToken);
      assert forall i :: 0 <= i < |rs| - 1 ==> rs[..|rs| - 1][i] == rs[i];
      if PendingTo(last, toLinkToken) then [last] + rest else rest
  }

  /** `ORDER BY created_at DESC`: the listing never goes forward in time. */
  lemma {:induction false} PendingNewestFirst(rs: seq<Request>, toLinkToken: string)
    requires CreatedInOrder(rs)
    ensures CreatedNonincreasing(PendingFor(rs, toLinkToken))
  {
    if rs != [] {
      var init := rs[..|rs| - 1];
      var last := rs[|rs| - 1];
      PendingNewestFirst(init, toLinkToken);
      var rest := PendingFor(init, toLinkToken);
      if PendingTo(last, toLinkToken) {
        forall k | 0 <= k < |rest| ensures rest[k].createdAt <= last.createdAt {
          var j :| 0 <= j < |init| && init[j] == rest[k];
          assert init[j] == rs[j];
        }
        ConsNonincreasing(last, rest);
      } else {
        assert PendingFor(rs, toLinkToken) == rest;
      }
    }
  }

  lemma ConsNonincreasing(r: Request, rest: seq<Request>)
    requires CreatedNonincreasing(rest)
    requires forall k :: 0 <= k < |rest| ==> rest[k].createdAt <= r.createdAt
    ensures CreatedNonincreasing([r] + rest)
  {
    var s := [r] + rest;
    forall i, j | 0 <= i < j < |s| ensures s[i].createdAt >= s[j].createdAt {
      assert s[j] == rest[j - 1];
      if i > 0 {
        assert s[i] == rest[i - 1];
      }
    }
  }

  /** `SELECT * FROM message_requests WHERE id = %s`. */
  function FindRequest(rs: seq<Request>, id: int): (r: Option<Request>)
    ensures r.Some? ==> r.value in rs && r.value.id == id
    ensures r.None? ==> forall i :: 0 <= i < |rs| ==> rs[i].id != id
  {
    if rs == [] then None
    else if rs[0].id == id then Some(rs[0])
    else
      var r := FindRequest(rs[1..], id);
      assert forall i :: 0 < i < |rs| ==> rs[i] == rs[1..][i - 1];
      r
  }

  /** `UPDATE message_requests SET status = %s, updated_at = NOW() WHERE id = %s`. */
  function SetStatus(rs: seq<Request>, id: int, status: Status, now: int): (r: seq<Request>)
    ensures |r| == |rs|
    ensures forall i :: 0 <= i < |rs| ==>
      r[i] == (if rs[i].id == id then rs[i].(status := status, updatedAt := now) else rs[i])
  {
    if rs == [] then []
    else
      [if rs[0].id == id then rs[0].(status := status, updatedAt := now) else rs[0]]
      + SetStatus(rs[1..], id, status, now)
  }

  /** Accepting a request grants its sender permission to message its recipient, and no
      permission that existed before is lost. */
  lemma AcceptGrants(rs: seq<Request>, id: int, now: int, fromLinkToken: string, toLinkToken: string)
    ensures FindRequest(rs, id).Some? ==>
      HasPermission(SetStatus(rs, id, Accepted, now),
        FindRequest(rs, id).value.fromLinkToken, FindRequest(rs, id).value.toLinkToken)
    ensures HasPermission(rs, fromLinkToken, toLinkToken) ==>
      HasPermission(SetStatus(rs, id, Accepted, now), fromLinkToken, toLinkToken)
  {
    var s := SetStatus(rs, id, Accepted, now);
    var f := FindRequest(rs, id);
    if f.Some? {
      var i :| 0 <= i < |rs| && rs[i] == f.value;
      assert Grants(s[i], f.value.fromLinkToken, f.value.toLinkToken);
    }
    if HasPermission(rs, fromLinkToken, toLinkToken) {
      var i :| 0 <= i < |rs| && Grants(rs[i], fromLinkToken, toLinkToken);
      assert Grants(s[i], fromLinkToken, toLinkToken);
    }
  }

  /** Rejecting a request grants nothing: every permission afterwards already held before. */
  lemma RejectGrantsNothing(rs: seq<Request>, id: int, now: int, fromLinkToken: string, toLinkToken: string)
    ensures HasPermission(SetStatus(rs, id, Rejected, now), fromLinkToken, toLinkToken) ==>
      HasPermission(rs, fromLinkToken, toLinkToken)
  {
    var s := SetStatus(rs, id, Rejected, now);
    if HasPermission(s, fromLinkToken, toLinkToken) {
      var i :| 0 <= i < |s| && Grants(s[i], fromLinkToken, toLinkToken);
      assert Grants(rs[i], fromLinkToken, toLinkToken);
    }
  }

  /** Once answered, a request leaves the recipient's pending list. */
  lemma AnsweredLeavesPending(rs: seq<Request>, id: int, status: Status, now: int, toLinkToken: string)
    requires status != Pending
    ensures forall k :: 0 <= k < |PendingFor(SetStatus(rs, id, status, now), toLinkToken)| ==>
      PendingFor(SetStatus(rs, id, status, now), toLinkToken)[k].id != id
  {
    var s := SetStatus(rs, id, status, now);
    var p := PendingFor(s, toLinkToken);
    forall k | 0 <= k < |p| ensures p[k].id != id {
      var i :| 0 <= i < |s| && s[i] == p[k];
    }
  }

  /** A new request is created pending, so it changes no permission. */
  lemma NewRequestGrantsNothing(rs: seq<Request>, r: Request, fromLinkToken: string, toLinkToken: string)
    requires r.status == Pending
    ensures HasPermission(rs + [r], fromLinkToken, toLinkToken) == HasPermission(rs, fromLinkToken, toLinkToken)
  {
    if HasPermission(rs + [r], fromLinkToken, toLinkToken) {
      var i :| 0 <= i < |rs + [r]| && Grants((rs + [r])[i], fromLinkToken, toLinkToken);
      assert i < |rs| && Grants(rs[i], fromLinkToken, toLinkToken);
    }
    if HasPermission(rs, fromLinkToken, toLinkToken) {
      var i :| 0 <= i < |rs| && Grants(rs[i], fromLinkToken, toLinkToken);
      assert Grants((rs + [r])[i], fromLinkToken, toLinkToken);
    }
  }

  /** The table invariant: ids increase and stay below the next auto-increment value, and
      rows were created in order, never after the current time. */
  predicate WellFormed(rs: seq<Request>, nextId: int, now: int) {
    && IdsIncreasing(rs) && CreatedInOrder(rs)
    && forall i :: 0 <= i < |rs| ==> rs[i].id < nextId && rs[i].createdAt <= now
  }

  lemma AppendWellFormed(rs: seq<Request>, r: Request, nextId: int, now: int)
    requires WellFormed(rs, nextId, now) && r.id == nextId && r.createdAt == now
    ensures WellFormed(rs + [r], nextId + 1, now)
  {
  }

  /** Answering changes only status and `updated_at`, so it keeps the invariant. */
  lemma SetStatusWellFormed(rs: seq<Request>, id: int, status: Status, nextId: int, now: int)
    requires WellFormed(rs, nextId, now)
    ensures WellFormed(SetStatus(rs, id, status, now), nextId, now)
  {
    var r := SetStatus(rs, id, status, now);
    assert forall i :: 0 <= i < |r| ==> r[i].id == rs[i].id && r[i].createdAt == rs[i].createdAt;
  }

  lemma ClockWellFormed(rs: seq<Request>, nextId: int, now: int, later: int)
    requires WellFormed(rs, nextId, now) && now <= later
    ensures WellFormed(rs, nextId, later)
  {
  }
}
