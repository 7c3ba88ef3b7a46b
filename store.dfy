/** The `Database` class: a connection to the four tables and the queries the relay runs
    on them. The tables are kept as sequences in insertion order; `clock` stands for the
    server's `NOW()` in whole seconds; the `next...Id` counters are the auto-increment values.
    Writers fail with `Database connection not available` when there is no connection;
    readers then answer nothing. */
module Store {
  import opened Wrappers
  import opened Json
  import Text
  import opened Foreign
  import Messages
  import Challenges
  import Clients
  import Requests

  const NotAvailable: string := "Database connection not available"
  /** MySQL error 1062, raised by the `UNIQUE` index on `clients.link_token`. */
  const DuplicateLinkToken: string := "(1062, \"Duplicate entry for key 'link_token'\")"
  /** MySQL error 1048, raised by inserting `NULL` into the `NOT NULL` nickname column. */
  const NicknameNull: string := "(1048, \"Column 'from_nickname' cannot be null\")"
  const DefaultPageSize: nat := 50
  const MaxPageSize: nat := 200
  /** `expires_in_seconds` as the relay always passes it. */
  const ChallengeLifetime: int := 300

  /** The result of a write: the new row's id (`cursor.lastrowid`), or the exception text. */
  datatype Outcome<T> = Ok(value: T) | Failed(error: string)

  /** The public part of a client row, as `get_client_info_by_link` selects it. */
  datatype ClientInfo = ClientInfo(linkToken: string, displayName: Json, createdAt: int)

  /** Every field of the database at once. */
  datatype Tables = Tables(
    connected: bool,
    clock: int,
    clients: seq<Clients.Client>,
    nextClientId: int,
    messages: seq<Messages.Message>,
    nextMessageId: int,
    challenges: seq<Challenges.Challenge>,
    nextChallengeId: int,
    requests: seq<Requests.Request>,
    nextRequestId: int)

  /** The widths of the bounded text columns; `VARCHAR(n)` counts characters. */
  const DisplayNameWidth: nat := 255
  const ClientIpWidth: nat := 45
  const UserAgentWidth: nat := 255
  const NicknameWidth: nat := 255

  /** MySQL error 1406, raised in strict mode by a value longer than its column. */
  function DataTooLong(column: string): string {
    "(1406, \"Data too long for column '" + column + "' at row 1\")"
  }

  /** A JSON value a `VARCHAR(width)` column accepts: text no longer than the width, or a
      value that is not text. */
  predicate FitsColumn(value: Json, width: nat) {
    !value.JStr? || |value.s| <= width
  }

  /** An optional text a `VARCHAR(width)` column accepts. */
  predicate FitsText(value: Option<string>, width: nat) {
    value.None? || |value.value| <= width
  }

  /** A nickname `message_requests` accepts: not `NULL`, and within its width. */
  predicate NicknameStorable(nickname: Json) {
    nickname != JNull && FitsColumn(nickname, NicknameWidth)
  }

  /** The page size `get_messages` uses: a missing or non-integer limit means 50, and any
      integer is clamped into 1 to 200. */
  function PageSize(limit: Json): (n: nat)
    ensures 1 <= n <= MaxPageSize
    ensures IntInstance(limit).None? ==> n == DefaultPageSize
    ensures IntInstance(limit).Some? && 1 <= IntInstance(limit).value <= MaxPageSize ==>
      n == IntInstance(limit).value
    ensures IntInstance(limit).Some? && IntInstance(limit).value > MaxPageSize ==> n == MaxPageSize
    ensures IntInstance(limit).Some? && IntInstance(limit).value < 1 ==> n == 1
  {
    match IntInstance(limit)
    case None => DefaultPageSize
    case Some(v) => if v > MaxPageSize then MaxPageSize else if v < 1 then 1 else v
  }

  /** Each character of a string as a one-character string, as `*message_ids` unpacks it. */
  function Characters(s: string): seq<Json> {
    seq(|s|, i requires 0 <= i < |s| => JStr([s[i]]))
  }

  /** A one-character string names the id it spells: a digit names itself, anything else
      names none. */
  lemma CharacterId(c: char)
    ensures SqlId(JStr([c])) == if Text.IsDigit(c) then Some(c as int - '0' as int) else None
  {
    var s := [c];
    assert s[..0] == [] && s[|s| - 1] == c;
    if Text.IsDigit(c) {
      assert Text.AllDigits(s);
      assert Text.DigitsValue(s) == c as int - '0' as int;
    } else {
      assert !Text.AllDigits(s);
      assert |s| > 0 && (s[0] == '-' || s[0] == '+') ==> s[1..] == [];
    }
  }

  /** Every id the characters of a string name is one of its digits. */
  lemma CharacterIdsSound(s: string)
    ensures forall id :: id in Messages.ListedIds(Characters(s)) ==>
      exists i :: 0 <= i < |s| && Text.IsDigit(s[i]) && id == s[i] as int - '0' as int
  {
    forall id | id in Messages.ListedIds(Characters(s))
      ensures exists i :: 0 <= i < |s| && Text.IsDigit(s[i]) && id == s[i] as int - '0' as int
    {
      CharacterIdSound(s, id);
    }
  }

  /** Every digit of a string is an id its characters name. */
  lemma CharacterIdsComplete(s: string)
    ensures forall i :: 0 <= i < |s| && Text.IsDigit(s[i]) ==> s[i] as int - '0' as int in Messages.ListedIds(Characters(s))
  {
    forall i | 0 <= i < |s| && Text.IsDigit(s[i]) ensures s[i] as int - '0' as int in Messages.ListedIds(Characters(s)) {
      CharacterIdComplete(s, i);
    }
  }

  lemma CharacterIdSound(s: string, id: int)
    requires id in Messages.ListedIds(Characters(s))
    ensures exists i :: 0 <= i < |s| && Text.IsDigit(s[i]) && id == s[i] as int - '0' as int
  {
    var items := Characters(s);
    var k :| 0 <= k < |items| && SqlId(items[k]) == Some(id);
    CharacterId(s[k]);
  }

  lemma CharacterIdComplete(s: string, i: nat)
    requires i < |s| && Text.IsDigit(s[i])
    ensures s[i] as int - '0' as int in Messages.ListedIds(Characters(s))
  {
    var items := Characters(s);
    CharacterId(s[i]);
    assert SqlId(items[i]) == Some(s[i] as int - '0' as int);
  }

  /** The ids a string names when unpacked into its characters: exactly its digits. */
  function CharacterIds(s: string): (ids: set<int>)
    ensures forall id :: id in ids ==> exists i :: 0 <= i < |s| && Text.IsDigit(s[i]) && id == s[i] as int - '0' as int
    ensures forall i :: 0 <= i < |s| && Text.IsDigit(s[i]) ==> s[i] as int - '0' as int in ids
  {
    CharacterIdsSound(s);
    CharacterIdsComplete(s);
    Messages.ListedIds(Characters(s))
  }

  /** The ids `mark_messages_seen` puts in its `IN (...)` list, which holds `message_ids`
      unpacked: a list gives its items, a string its characters and a dictionary its keys;
      any other value names no id. */
  function NamedIds(messageIds: Json): (ids: set<int>)
    ensures messageIds.JArr? ==> ids == Messages.ListedIds(messageIds.items)
    ensures messageIds.JStr? ==> forall id :: id in ids ==>
      exists i :: 0 <= i < |messageIds.s| && Text.IsDigit(messageIds.s[i]) && id == messageIds.s[i] as int - '0' as int
    ensures messageIds.JStr? ==> forall i :: 0 <= i < |messageIds.s| && Text.IsDigit(messageIds.s[i]) ==>
      messageIds.s[i] as int - '0' as int in ids
    ensures messageIds.JObj? ==> forall id :: id in ids <==>
      exists k :: k in messageIds.fields && SqlId(JStr(k)) == Some(id)
    ensures !(messageIds.JArr? || messageIds.JStr? || messageIds.JObj?) ==> ids == {}
  {
    match messageIds
    case JArr(items) => Messages.ListedIds(items)
    case JStr(s) => CharacterIds(s)
    case JObj(f) => set k | k in f && SqlId(JStr(k)).Some? :: SqlId(JStr(k)).value
    case _ => {}
  }

  /** The `TypeError` Python raises for `len(x)` on a value without a length. */
  function LenError(j: Json): string {
    match j
    case JNull => "object of type 'NoneType' has no len()"
    case JBool(_) => "object of type 'bool' has no len()"
    case _ => "object of type 'int' has no len()"
  }

  /** Python truthiness of an optional string. */
  predicate NonEmpty(o: Option<string>) {
    o.Some? && |o.value| > 0
  }

  /** `create_challenge` stores the client address and user agent only when one of them is
      non-empty, and then stores both as given. */
  function Provenance(clientIp: Option<string>, userAgent: Option<string>): (r: (Option<string>, Option<string>))
    ensures NonEmpty(clientIp) || NonEmpty(userAgent) ==> r == (clientIp, userAgent)
    ensures !NonEmpty(clientIp) && !NonEmpty(userAgent) ==> r == (None, None)
  {
    if NonEmpty(clientIp) || NonEmpty(userAgent) then (clientIp, userAgent) else (None, None)
  }

  /** The first column of the challenge insert that the stored address or user agent
      overflows; `None` when both fit. */
  function ChallengeOverflow(clientIp: Option<string>, userAgent: Option<string>): (column: Option<string>)
    ensures column.None? <==>
      FitsText(Provenance(clientIp, userAgent).0, ClientIpWidth) && FitsText(Provenance(clientIp, userAgent).1, UserAgentWidth)
  {
    var (ip, ua) := Provenance(clientIp, userAgent);
    if !FitsText(ip, ClientIpWidth) then Some("client_ip")
    else if !FitsText(ua, UserAgentWidth) then Some("user_agent")
    else None
  }

  class Database {
    const prims: Primitives
    var connected: bool
    var clock: int
    var clients: seq<Clients.Client>
    var nextClientId: int
    var messages: seq<Messages.Message>
    var nextMessageId: int
    var challenges: seq<Challenges.Challenge>
    var nextChallengeId: int
    var requests: seq<Requests.Request>
    var nextRequestId: int

    function Snapshot(): Tables
      reads this
    {
      Tables(connected, clock, clients, nextClientId, messages, nextMessageId,
        challenges, nextChallengeId, requests, nextRequestId)
    }

    /** The invariant of every table. */
    predicate Valid()
      reads this
    {
      && Clients.WellFormed(clients, nextClientId)
      && Messages.WellFormed(messages, nextMessageId)
      && Challenges.WellFormed(challenges, nextChallengeId, clock)
      && Requests.WellFormed(requests, nextRequestId, clock)
    }

    /** `Database()`: the connection either came up or did not; the tables start empty. */
    constructor (connected: bool, prims: Primitives)
      ensures Valid()
      ensures this.prims == prims
      ensures Snapshot() == Tables(connected, 0, [], 1, [], 1, [], 1, [], 1)
    {
      this.prims := prims;
      this.connected := connected;
      clock := 0;
      clients, nextClientId := [], 1;
      messages, nextMessageId := [], 1;
      challenges, nextChallengeId := [], 1;
      requests, nextRequestId := [], 1;
    }

    /** Time passes between requests. */
    method Tick(seconds: nat)
      requires Valid()
      modifies this
      ensures Valid()
      ensures Snapshot() == old(Snapshot()).(clock := old(clock) + seconds)
    {
      Challenges.ClockWellFormed(challenges, nextChallengeId, clock, clock + seconds);
      Requests.ClockWellFormed(requests, nextRequestId, clock, clock + seconds);
      clock := clock + seconds;
    }

    // -------------------------------------------------------------------------
    // clients

    /** `register_client`: inserts the client with the SHA-256 of its key; a display name
        longer than its column, or a link token already in use, makes the insert fail. */
    method RegisterClient(publicKey: string, linkToken: string, fetchTokenHash: string, displayName: Json, keyType: string)
      returns (r: Outcome<int>)
      requires Valid()
      modifies this
      ensures Valid()
      ensures !old(connected) ==> r == Failed(NotAvailable) && Snapshot() == old(Snapshot())
      ensures old(connected) && !FitsColumn(displayName, DisplayNameWidth) ==>
        r == Failed(DataTooLong("display_name")) && Snapshot() == old(Snapshot())
      ensures old(connected) && FitsColumn(displayName, DisplayNameWidth) && Clients.Registered(old(clients), linkToken) ==>
        r == Failed(DuplicateLinkToken) && Snapshot() == old(Snapshot())
      ensures old(connected) && FitsColumn(displayName, DisplayNameWidth) && !Clients.Registered(old(clients), linkToken) ==>
        && r == Ok(old(nextClientId))
        && Snapshot() == old(Snapshot()).(
             clients := old(clients) + [Clients.Client(old(nextClientId), linkToken, publicKey,
               prims.sha256Hex(Text.Utf8(publicKey)), keyType, displayName, fetchTokenHash, old(clock))],
             nextClientId := old(nextClientId) + 1)
    {
      if !connected {
        return Failed(NotAvailable);
      }
      if !FitsColumn(displayName, DisplayNameWidth) {
        return Failed(DataTooLong("display_name"));
      }
      if Clients.FindClient(clients, linkToken).Some? {
        return Failed(DuplicateLinkToken);
      }
      var c := Clients.Client(nextClientId, linkToken, publicKey, prims.sha256Hex(Text.Utf8(publicKey)),
        keyType, displayName, fetchTokenHash, clock);
      Clients.AppendWellFormed(clients, c, nextClientId);
      clients, nextClientId := clients + [c], nextClientId + 1;
      r := Ok(c.id);
    }

    /** `get_client_by_link_token`. */
    method GetClientByLinkToken(linkToken: string) returns (r: Option<Clients.Client>)
      ensures connected ==> r == Clients.FindClient(clients, linkToken)
      ensures r.Some? ==> connected && r.value in clients && r.value.linkToken == linkToken
      ensures r.None? <==> !connected || !Clients.Registered(clients, linkToken)
    {
      if !connected {
        return None;
      }
      r := Clients.FindClient(clients, linkToken);
    }

    /** `get_client_info_by_link`: the same lookup, projected on the public columns. */
    method GetClientInfoByLink(linkToken: string) returns (r: Option<ClientInfo>)
      ensures r.None? <==> !connected || !Clients.Registered(clients, linkToken)
      ensures r.Some? ==>
        exists c :: c in clients && c.linkToken == linkToken && r.value == ClientInfo(c.linkToken, c.displayName, c.createdAt)
    {
      if !connected {
        return None;
      }
      var c := Clients.FindClient(clients, linkToken);
      if c.None? {
        return None;
      }
      r := Some(ClientInfo(c.value.linkToken, c.value.displayName, c.value.createdAt));
    }

    /** `verify_fetch_token`: the stored hash equals the hash of the presented token. */
    method VerifyFetchToken(linkToken: string, fetchToken: string) returns (ok: bool)
      ensures ok <==> connected && TokenAccepted(prims, clients, linkToken, fetchToken)
    {
      if !connected {
        return false;
      }
      var c := Clients.FindClient(clients, linkToken);
      if c.None? {
        return false;
      }
      ok := c.value.fetchTokenHash == prims.sha256Hex(Text.Utf8(fetchToken));
    }

    // -------------------------------------------------------------------------
    // messages

    /** `store_message`: the new row is unseen; metadata is kept as JSON text when it is
        truthy and as `NULL` otherwise. */
    method StoreMessage(linkToken: string, encryptedMessage: string, metadata: Json) returns (r: Outcome<int>)
      requires Valid()
      modifies this
      ensures Valid()
      ensures !old(connected) ==> r == Failed(NotAvailable) && Snapshot() == old(Snapshot())
      ensures old(connected) ==>
        && r == Ok(old(nextMessageId))
        && Snapshot() == old(Snapshot()).(
             messages := old(messages) + [Messages.Message(old(nextMessageId), linkToken, encryptedMessage, old(clock),
               false, if Truthy(metadata) then Some(prims.jsonDumps(metadata)) else None)],
             nextMessageId := old(nextMessageId) + 1)
    {
      if !connected {
        return Failed(NotAvailable);
      }
      var stored := if Truthy(metadata) then Some(prims.jsonDumps(metadata)) else None;
      var m := Messages.Message(nextMessageId, linkToken, encryptedMessage, clock, false, stored);
      Messages.AppendWellFormed(messages, m, nextMessageId);
      messages, nextMessageId := messages + [m], nextMessageId + 1;
      r := Ok(m.id);
    }

    /** `get_messages`: the newest matching rows, newest first, at most `PageSize(limit)`. */
    method GetMessages(linkToken: string, includeSeen: Json, limit: Json, beforeId: Option<int>)
      returns (page: seq<Messages.Message>)
      ensures !connected ==> page == []
      ensures connected ==>
        page == Messages.Newest(messages, Messages.Query(linkToken, Truthy(includeSeen), beforeId, None), PageSize(limit))
    {
      if !connected {
        return [];
      }
      var q := Messages.Query(linkToken, Truthy(includeSeen), beforeId, None);
      page := Messages.Newest(messages, q, PageSize(limit));
    }

    /** The query the fetch route was written against: also a `since_id` cursor and a
        choice of order, oldest first when ascending. */
    method GetMessagesOrdered(linkToken: string, includeSeen: Json, limit: Json, beforeId: Option<int>,
                              sinceId: Option<int>, ascending: bool)
      returns (page: seq<Messages.Message>)
      ensures !connected ==> page == []
      ensures connected && ascending ==>
        page == Messages.Oldest(messages, Messages.Query(linkToken, Truthy(includeSeen), beforeId, sinceId), PageSize(limit))
      ensures connected && !ascending ==>
        page == Messages.Newest(messages, Messages.Query(linkToken, Truthy(includeSeen), beforeId, sinceId), PageSize(limit))
    {
      if !connected {
        return [];
      }
      var q := Messages.Query(linkToken, Truthy(includeSeen), beforeId, sinceId);
      if ascending {
        page := Messages.Oldest(messages, q, PageSize(limit));
      } else {
        page := Messages.Newest(messages, q, PageSize(limit));
      }
    }

    /** `mark_messages_seen`: nothing to do for a falsy list; a value without a length raises;
        otherwise the named rows of the recipient become seen. */
    method MarkMessagesSeen(linkToken: string, messageIds: Json) returns (err: Option<string>)
      requires Valid()
      modifies this
      ensures Valid()
      ensures !old(connected) ==> err == Some(NotAvailable) && Snapshot() == old(Snapshot())
      ensures old(connected) && !Truthy(messageIds) ==> err == None && Snapshot() == old(Snapshot())
      ensures old(connected) && Truthy(messageIds) && Len(messageIds).None? ==>
        err == Some(LenError(messageIds)) && Snapshot() == old(Snapshot())
      ensures old(connected) && Truthy(messageIds) && Len(messageIds).Some? ==>
        && err == None
        && Snapshot() == old(Snapshot()).(messages := Messages.MarkSeen(old(messages), linkToken, NamedIds(messageIds)))
    {
      if !connected {
        return Some(NotAvailable);
      }
      if !Truthy(messageIds) {
        return None;
      }
      if Len(messageIds).None? {
        return Some(LenError(messageIds));
      }
      Messages.MarkSeenWellFormed(messages, linkToken, NamedIds(messageIds), nextMessageId);
      messages := Messages.MarkSeen(messages, linkToken, NamedIds(messageIds));
      err := None;
    }

    // -------------------------------------------------------------------------
    // challenges

    /** `create_challenge`: a row expiring `expiresIn` seconds from now, unused; an address
        or user agent longer than its column makes the insert fail. */
    method CreateChallenge(linkToken: string, nonce: string, expiresIn: int, clientIp: Option<string>, userAgent: Option<string>)
      returns (r: Outcome<int>)
      requires Valid()
      modifies this
      ensures Valid()
      ensures !old(connected) ==> r == Failed(NotAvailable) && Snapshot() == old(Snapshot())
      ensures old(connected) && ChallengeOverflow(clientIp, userAgent).Some? ==>
        r == Failed(DataTooLong(ChallengeOverflow(clientIp, userAgent).value)) && Snapshot() == old(Snapshot())
      ensures old(connected) && ChallengeOverflow(clientIp, userAgent).None? ==>
        && r == Ok(old(nextChallengeId))
        && Snapshot() == old(Snapshot()).(
             challenges := old(challenges) + [Challenges.Challenge(old(nextChallengeId), linkToken, nonce,
               Provenance(clientIp, userAgent).0, Provenance(clientIp, userAgent).1,
               old(clock), old(clock) + expiresIn, false)],
             nextChallengeId := old(nextChallengeId) + 1)
    {
      if !connected {
        return Failed(NotAvailable);
      }
      var overflow := ChallengeOverflow(clientIp, userAgent);
      if overflow.Some? {
        return Failed(DataTooLong(overflow.value));
      }
      var (ip, ua) := Provenance(clientIp, userAgent);
      var c := Challenges.Challenge(nextChallengeId, linkToken, nonce, ip, ua, clock, clock + expiresIn, false);
      Challenges.AppendWellFormed(challenges, c, nextChallengeId, clock);
      challenges, nextChallengeId := challenges + [c], nextChallengeId + 1;
      r := Ok(c.id);
    }

    /** `get_challenge`: the newest live challenge with this identity and nonce. */
    method GetChallenge(linkToken: string, nonce: string) returns (r: Option<Challenges.Challenge>)
      requires Valid()
      ensures connected ==> r == Challenges.FindLive(challenges, linkToken, nonce, clock)
      ensures !connected ==> r.None?
      ensures r.Some? ==> r.value in challenges && Challenges.Live(r.value, linkToken, nonce, clock)
      ensures r.Some? ==> forall d :: d in challenges && Challenges.Live(d, linkToken, nonce, clock) ==>
        d.createdAt <= r.value.createdAt
      ensures connected && r.None? ==> forall d :: d in challenges ==> !Challenges.Live(d, linkToken, nonce, clock)
    {
      if !connected {
        return None;
      }
      r := Challenges.FindLive(challenges, linkToken, nonce, clock);
      forall d | d in challenges && Challenges.Live(d, linkToken, nonce, clock)
        ensures d.createdAt <= r.value.createdAt
      {
        Challenges.FindLiveLatest(challenges, linkToken, nonce, clock, d);
      }
    }

    /** `mark_challenge_used`. */
    method MarkChallengeUsed(id: int) returns (err: Option<string>)
      requires Valid()
      modifies this
      ensures Valid()
      ensures !old(connected) ==> err == Some(NotAvailable) && Snapshot() == old(Snapshot())
      ensures old(connected) ==>
        err == None && Snapshot() == old(Snapshot()).(challenges := Challenges.MarkUsed(old(challenges), id))
    {
      if !connected {
        return Some(NotAvailable);
      }
      Challenges.MarkUsedWellFormed(challenges, id, nextChallengeId, clock);
      challenges := Challenges.MarkUsed(challenges, id);
      err := None;
    }

    /** `cleanup_old_challenges`: deletes the expired rows; without a connection it does
        nothing. */
    method CleanupOldChallenges()
      requires Valid()
      modifies this
      ensures Valid()
      ensures !old(connected) ==> Snapshot() == old(Snapshot())
      ensures old(connected) ==> Snapshot() == old(Snapshot()).(challenges := Challenges.Purge(old(challenges), old(clock)))
    {
      if connected {
        Challenges.PurgeWellFormed(challenges, nextChallengeId, clock);
        challenges := Challenges.Purge(challenges, clock);
      }
    }

    /** The rate limiter's first query: unused, unexpired challenges of the identity. */
    method CountOutstanding(linkToken: string) returns (n: nat)
      requires connected
      ensures n == Challenges.CountOutstanding(challenges, linkToken, clock)
    {
      n := Challenges.CountOutstanding(challenges, linkToken, clock);
    }

    /** The rate limiter's second query: the `created_at` of the latest challenge of the
        identity, `None` when there is none. */
    method LatestChallengeTime(linkToken: string) returns (t: Option<int>)
      requires connected
      ensures t == Challenges.LatestCreated(challenges, linkToken)
    {
      t := Challenges.LatestCreated(challenges, linkToken);
    }

    // -------------------------------------------------------------------------
    // message requests

    /** `create_message_request`: a pending request; a `None` nickname breaks `NOT NULL`, and
        one longer than its column makes the insert fail. */
    method CreateMessageRequest(fromLinkToken: string, toLinkToken: string, fromNickname: Json)
      returns (r: Outcome<int>)
      requires Valid()
      modifies this
      ensures Valid()
      ensures !old(connected) ==> r == Failed(NotAvailable) && Snapshot() == old(Snapshot())
      ensures old(connected) && fromNickname == JNull ==> r == Failed(NicknameNull) && Snapshot() == old(Snapshot())
      ensures old(connected) && !FitsColumn(fromNickname, NicknameWidth) ==>
        r == Failed(DataTooLong("from_nickname")) && Snapshot() == old(Snapshot())
      ensures old(connected) && NicknameStorable(fromNickname) ==>
        && r == Ok(old(nextRequestId))
        && Snapshot() == old(Snapshot()).(
             requests := old(requests) + [Requests.Request(old(nextRequestId), fromLinkToken, toLinkToken,
               fromNickname, Requests.Pending, old(clock), old(clock))],
             nextRequestId := old(nextRequestId) + 1)
    {
      if !connected {
        return Failed(NotAvailable);
      }
      if fromNickname == JNull {
        return Failed(NicknameNull);
      }
      if !FitsColumn(fromNickname, NicknameWidth) {
        return Failed(DataTooLong("from_nickname"));
      }
      var q := Requests.Request(nextRequestId, fromLinkToken, toLinkToken, fromNickname, Requests.Pending, clock, clock);
      Requests.AppendWellFormed(requests, q, nextRequestId, clock);
      requests, nextRequestId := requests + [q], nextRequestId + 1;
      r := Ok(q.id);
    }

    /** `get_pending_requests`. */
    method GetPendingRequests(toLinkToken: string) returns (rs: seq<Requests.Request>)
      ensures !connected ==> rs == []
      ensures connected ==> rs == Requests.PendingFor(requests, toLinkToken)
    {
      if !connected {
        return [];
      }
      rs := Requests.PendingFor(requests, toLinkToken);
    }

    /** `update_request_status`. */
    method UpdateRequestStatus(id: int, status: Requests.Status) returns (err: Option<string>)
      requires Valid()
      modifies this
      ensures Valid()
      ensures !old(connected) ==> err == Some(NotAvailable) && Snapshot() == old(Snapshot())
      ensures old(connected) ==>
        err == None && Snapshot() == old(Snapshot()).(requests := Requests.SetStatus(old(requests), id, status, old(clock)))
    {
      if !connected {
        return Some(NotAvailable);
      }
      Requests.SetStatusWellFormed(requests, id, status, nextRequestId, clock);
      requests := Requests.SetStatus(requests, id, status, clock);
      err := None;
    }

    /** `check_message_permission`. */
    method CheckMessagePermission(fromLinkToken: string, toLinkToken: string) returns (ok: bool)
      ensures ok <==> connected && Requests.HasPermission(requests, fromLinkToken, toLinkToken)
    {
      ok := connected && Requests.HasPermission(requests, fromLinkToken, toLinkToken);
    }

    /** `get_request_by_id`: the id compares as MySQL converts it to an integer. */
    method GetRequestById(id: Json) returns (r: Option<Requests.Request>)
      ensures r.Some? ==> connected && r.value in requests && SqlId(id) == Some(r.value.id)
      ensures r.None? ==>
        || !connected
        || SqlId(id).None?
        || forall q :: q in requests ==> q.id != SqlId(id).value
    {
      if !connected || SqlId(id).None? {
        return None;
      }
      r := Requests.FindRequest(requests, SqlId(id).value);
    }
  }

  /** `verify_fetch_token` without the connection: the client exists and its stored hash is
      the hash of the token. */
  predicate TokenAccepted(prims: Primitives, clients: seq<Clients.Client>, linkToken: string, token: string) {
    var c := Clients.FindClient(clients, linkToken);
    c.Some? && c.value.fetchTokenHash == prims.sha256Hex(Text.Utf8(token))
  }

  /** A fetch token works right after registration with its hash, and registering someone
      else changes no other client's token check. */
  lemma RegisteredTokenAccepted(prims: Primitives, clients: seq<Clients.Client>, c: Clients.Client,
                                token: string, linkToken: string, other: string)
    requires Clients.UniqueTokens(clients) && !Clients.Registered(clients, c.linkToken)
    requires c.fetchTokenHash == prims.sha256Hex(Text.Utf8(token))
    ensures TokenAccepted(prims, clients + [c], c.linkToken, token)
    ensures linkToken != c.linkToken ==>
      (TokenAccepted(prims, clients + [c], linkToken, other) <==> TokenAccepted(prims, clients, linkToken, other))
  {
    Clients.AppendFresh(clients, c, linkToken);
  }
}
