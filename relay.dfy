/** The relay's HTTP routes, as a `Server` object over one `Database`. Each route takes the
    decoded JSON body (a dictionary) and the request headers it reads, and answers a status
    code with a JSON object. Random bytes the routes draw for tokens and nonces are
    parameters. */
module Relay {
  import opened Wrappers
  import opened Json
  import Text
  import opened Foreign
  import Utils
  import Messages
  import Challenges
  import Clients
  import Requests
  import Store
  import opened Decisions

  /** An HTTP answer: the status code and the JSON object `jsonify` renders. */
  datatype Response = Response(status: int, body: map<string, Json>)

  function Error(status: int, message: string): Response {
    Response(status, map["error" := JStr(message)])
  }

  /** What a protected route learns from the credentials in a request. */
  datatype AuthOutcome = Authenticated | ChallengeNotFound | BadSignature | BadToken | NoCredentialsGiven

  const AuthenticationFailed: string := "Authentication failed"

  /** The fetch route names each failure; the other protected routes say only
      `Authentication failed`. */
  function FetchAuthError(a: AuthOutcome): string {
    match a
    case ChallengeNotFound => "Invalid or expired challenge"
    case BadSignature => "Invalid signature"
    case BadToken => "Invalid fetch_token"
    case _ => "Authentication required (challenge_signature or Authorization header)"
  }

  /** The credentials a request carries. */
  function RequestCredentials(body: Body, authorization: Option<string>): Credentials {
    SelectCredentials(Get(body, "challenge_signature", JNull), Get(body, "challenge", JNull), authorization)
  }

  /** The challenge row a signed challenge refers to: the newest live one with its nonce.
      A nonce that is not a string names no row. */
  function ChallengeFor(creds: Credentials, linkToken: string, challenges: seq<Challenges.Challenge>, now: int)
    : (r: Option<Challenges.Challenge>)
    ensures r.Some? ==>
      && creds.SignedChallenge? && creds.nonce.JStr?
      && r.value in challenges && Challenges.Live(r.value, linkToken, creds.nonce.s, now)
    ensures creds.SignedChallenge? && creds.nonce.JStr? && (exists c :: c in challenges && Challenges.Live(c, linkToken, creds.nonce.s, now)) ==>
      r.Some?
  {
    if creds.SignedChallenge? && creds.nonce.JStr? then Challenges.FindLive(challenges, linkToken, creds.nonce.s, now)
    else None
  }

  /** The authentication decision shared by the protected routes, for the client owning
      `linkToken`: a live challenge whose nonce the client's key signed, or a bearer token
      whose hash is the stored one. */
  function Check(prims: Primitives, client: Clients.Client, linkToken: string, creds: Credentials,
                 clients: seq<Clients.Client>, challenges: seq<Challenges.Challenge>, now: int): (a: AuthOutcome)
    ensures a == Authenticated <==>
      || (&& ChallengeFor(creds, linkToken, challenges, now).Some?
          && Utils.VerifySignature(prims, client.publicKey, Text.Utf8(creds.nonce.s), creds.signature))
      || (creds.Bearer? && Store.TokenAccepted(prims, clients, linkToken, creds.token))
    ensures a == ChallengeNotFound <==> creds.SignedChallenge? && ChallengeFor(creds, linkToken, challenges, now).None?
    ensures a == NoCredentialsGiven <==> creds.NoCredentials?
  {
    match creds
    case SignedChallenge(signature, nonce) =>
      if ChallengeFor(creds, linkToken, challenges, now).None? then ChallengeNotFound
      else if Utils.VerifySignature(prims, client.publicKey, Text.Utf8(nonce.s), signature) then Authenticated
      else BadSignature
    case Bearer(token) =>
      if Store.TokenAccepted(prims, clients, linkToken, token) then Authenticated else BadToken
    case NoCredentials => NoCredentialsGiven
  }

  /** A nonce works once: after it authenticated and its row was marked used, presenting it
      again finds no challenge, provided no other live row carries the same nonce. */
  lemma ReplayRejected(prims: Primitives, client: Clients.Client, linkToken: string, creds: Credentials,
                       clients: seq<Clients.Client>, challenges: seq<Challenges.Challenge>, now: int)
    requires Check(prims, client, linkToken, creds, clients, challenges, now) == Authenticated
    requires creds.SignedChallenge?
    requires forall i :: 0 <= i < |challenges| && Challenges.Live(challenges[i], linkToken, creds.nonce.s, now) ==>
      challenges[i].id == ChallengeFor(creds, linkToken, challenges, now).value.id
    ensures Check(prims, client, linkToken, creds, clients,
      Challenges.MarkUsed(challenges, ChallengeFor(creds, linkToken, challenges, now).value.id), now) == ChallengeNotFound
  {
    var c := ChallengeFor(creds, linkToken, challenges, now).value;
    Challenges.MarkUsedIsFinal(challenges, c.id, linkToken, creds.nonce.s, now);
  }

  // ---------------------------------------------------------------------------
  // The rate limit as an invariant

  /** No identity ever holds more than five outstanding challenges. */
  ghost predicate RateLimited(challenges: seq<Challenges.Challenge>, now: int) {
    forall linkToken :: Challenges.CountOutstanding(challenges, linkToken, now) <= MaxOutstanding
  }

  /** Issuing a challenge to an identity below the limit, then purging, keeps every
      identity within the limit. */
  lemma IssueKeepsLimit(cs: seq<Challenges.Challenge>, c: Challenges.Challenge, now: int)
    requires RateLimited(cs, now)
    requires Challenges.CountOutstanding(cs, c.linkToken, now) < MaxOutstanding
    ensures RateLimited(cs + [c], now)
    ensures RateLimited(Challenges.Purge(cs + [c], now), now)
  {
    forall linkToken ensures Challenges.CountOutstanding(cs + [c], linkToken, now) <= MaxOutstanding {
      Challenges.CountAppend(cs, c, linkToken, now);
    }
    forall linkToken ensures Challenges.CountOutstanding(Challenges.Purge(cs + [c], now), linkToken, now) <= MaxOutstanding {
      Challenges.CountPurge(cs + [c], linkToken, now);
    }
  }

  /** Using a challenge or letting time pass only lowers the counts. */
  lemma UseAndTimeKeepLimit(cs: seq<Challenges.Challenge>, id: int, now: int, later: int)
    requires RateLimited(cs, now) && now <= later
    ensures RateLimited(Challenges.MarkUsed(cs, id), now)
    ensures RateLimited(cs, later)
  {
    forall linkToken ensures Challenges.CountOutstanding(Challenges.MarkUsed(cs, id), linkToken, now) <= MaxOutstanding {
      Challenges.CountMarkUsed(cs, id, linkToken, now);
    }
    forall linkToken ensures Challenges.CountOutstanding(cs, linkToken, later) <= MaxOutstanding {
      Challenges.CountAntitone(cs, linkToken, now, later);
    }
  }

  // ---------------------------------------------------------------------------
  // Views of rows in responses

  /** One entry of the fetch route's `data` list; stored metadata text is parsed back. */
  function MessageView(prims: Primitives, m: Messages.Message): Json {
    JObj(map[
      "id" := JInt(m.id),
      "encrypted_message" := JStr(m.encryptedMessage),
      "created_at" := JInt(m.createdAt),
      // the BOOLEAN column is a TINYINT(1), which the driver returns as 0 or 1
      "seen" := JInt(if m.seen then 1 else 0),
      "metadata" := if m.metadata.Some? && |m.metadata.value| > 0 then prims.jsonLoads(m.metadata.value) else JNull])
  }

  /** One entry of the pending-requests listing. */
  function RequestView(r: Requests.Request): Json {
    JObj(map[
      "id" := JInt(r.id),
      "from_link_token" := JStr(r.fromLinkToken),
      "from_nickname" := r.fromNickname,
      "created_at" := JInt(r.createdAt)])
  }

  /** The `data` list of a fetch: one view per message, in page order. */
  function MessageViewsOf(prims: Primitives, page: seq<Messages.Message>): seq<Json> {
    seq(|page|, i requires 0 <= i < |page| => MessageView(prims, page[i]))
  }

  /** The `data` list of the pending-requests listing. */
  function RequestViewsOf(rs: seq<Requests.Request>): seq<Json> {
    seq(|rs|, i requires 0 <= i < |rs| => RequestView(rs[i]))
  }

  /** The answer to a successful fetch over `page`: the views of its messages in order,
      their count, the `has_more` flag given, and the id of the last message as the cursor
      to continue from. */
  function Shaped(prims: Primitives, page: seq<Messages.Message>, hasMore: bool): (r: Response)
    ensures r.status == 200
    ensures "data" in r.body && r.body["data"] == JArr(MessageViewsOf(prims, page))
    ensures "count" in r.body && r.body["count"] == JInt(|page|)
    ensures "has_more" in r.body && r.body["has_more"] == JBool(hasMore)
    ensures ("next_cursor" in r.body <==> page != []) && (page != [] ==> r.body["next_cursor"] == JInt(page[|page| - 1].id))
  {
    var fields := map[
      "message" := JStr("Messages retrieved successfully"),
      "data" := JArr(MessageViewsOf(prims, page)),
      "count" := JInt(|page|),
      "has_more" := JBool(hasMore)];
    Response(200, if page == [] then fields else fields["next_cursor" := JInt(page[|page| - 1].id)])
  }

  /** The answer to a fetch with `has_more` measured against the page size applied. */
  function PageResponse(prims: Primitives, page: seq<Messages.Message>, limit: Json): Response {
    Shaped(prims, page, HasMore(|page|, limit))
  }

  /** The answer to a fetch as written: `has_more` compares the page length with the limit
      the client sent. */
  function PageResponseAsWritten(prims: Primitives, page: seq<Messages.Message>, limit: Json): Response {
    Shaped(prims, page, HasMoreAsWritten(|page|, limit))
  }

  /** The loop building the fetch route's `data` list. */
  method MessageViews(prims: Primitives, page: seq<Messages.Message>) returns (views: seq<Json>)
    ensures views == MessageViewsOf(prims, page)
  {
    views := [];
    var i := 0;
    while i < |page|
      invariant 0 <= i <= |page|
      invariant |views| == i
      invariant forall k :: 0 <= k < i ==> views[k] == MessageView(prims, page[k])
    {
      views := views + [MessageView(prims, page[i])];
      i := i + 1;
    }
  }

  /** The loop building the pending-requests listing. */
  method RequestViews(rs: seq<Requests.Request>) returns (views: seq<Json>)
    ensures views == RequestViewsOf(rs)
  {
    views := [];
    var i := 0;
    while i < |rs|
      invariant 0 <= i <= |rs|
      invariant |views| == i
      invariant forall k :: 0 <= k < i ==> views[k] == RequestView(rs[k])
    {
      views := views + [RequestView(rs[i])];
      i := i + 1;
    }
  }

  /** The client a JSON link token names; a token that is not a string names none, and so
      does every token while the database is unreachable. */
  function ClientOf(db: Store.Database, token: Json): (c: Option<Clients.Client>)
    reads db
    ensures c.Some? ==> db.connected && token.JStr? && c.value in db.clients && c.value.linkToken == token.s
    ensures c.None? <==> !db.connected || !token.JStr? || !Clients.Registered(db.clients, token.s)
  {
    if db.connected && token.JStr? then Clients.FindClient(db.clients, token.s) else None
  }

  /** The registration checks, in order, before anything is written. */
  function RegisterError(body: Body): (r: Option<Rejection>)
    ensures r.None? <==>
      && |body| > 0 && "public_key" in body
      && KeyTypeSupported(Get(body, "key_type", JStr(SupportedKeyType)))
      && Utils.ValidatePublicKey(body["public_key"])
    ensures r.Some? ==> r.value.status == 400
  {
    if |body| == 0 || "public_key" !in body then Some(Rejection(400, "Public key is required"))
    else if !KeyTypeSupported(Get(body, "key_type", JStr(SupportedKeyType))) then
      Some(Rejection(400, "Unsupported key_type. Only ed25519 is supported."))
    else if !Utils.ValidatePublicKey(body["public_key"]) then Some(Rejection(400, "Invalid public key format"))
    else None
  }

  /** What the credential step of a protected route decides for the identity a request
      names: `None` when no client owns the link token, otherwise `Check` for that client
      against the stored tables. */
  function Verdict(db: Store.Database, token: Json, body: Body, authorization: Option<string>): (v: Option<AuthOutcome>)
    reads db
    ensures v.None? <==> ClientOf(db, token).None?
    ensures v == Some(Authenticated) && RequestCredentials(body, authorization).SignedChallenge? ==>
      token.JStr? && ChallengeFor(RequestCredentials(body, authorization), token.s, db.challenges, db.clock).Some?
  {
    match ClientOf(db, token)
    case None => None
    case Some(c) => Some(Check(db.prims, c, token.s, RequestCredentials(body, authorization), db.clients, db.challenges, db.clock))
  }

  /** The tables after `store_message` appends the next message for `linkToken`: unseen,
      stamped now, with its metadata serialised unless it is falsy. */
  function Stored(t: Store.Tables, prims: Primitives, linkToken: string, encryptedMessage: string, metadata: Json)
    : Store.Tables
  {
    t.(messages := t.messages + [Messages.Message(t.nextMessageId, linkToken, encryptedMessage, t.clock, false,
         if Truthy(metadata) then Some(prims.jsonDumps(metadata)) else None)],
       nextMessageId := t.nextMessageId + 1)
  }

  /** The tables after `create_challenge` appends the next challenge for `linkToken`,
      unused and expiring five minutes from now, and `cleanup_old_challenges` then drops the
      rows already expired. */
  function Issued(t: Store.Tables, linkToken: string, nonce: string, clientIp: Option<string>, userAgent: Option<string>)
    : Store.Tables
  {
    var (ip, ua) := Store.Provenance(clientIp, userAgent);
    t.(challenges := Challenges.Purge(t.challenges + [Challenges.Challenge(t.nextChallengeId, linkToken, nonce, ip, ua,
         t.clock, t.clock + Store.ChallengeLifetime, false)], t.clock),
       nextChallengeId := t.nextChallengeId + 1)
  }

  /** The challenge just issued survives the purge and is live: its nonce works for five
      minutes. */
  lemma IssuedLive(t: Store.Tables, linkToken: string, nonce: string, clientIp: Option<string>, userAgent: Option<string>)
    ensures exists c :: (&& c in Issued(t, linkToken, nonce, clientIp, userAgent).challenges && c.id == t.nextChallengeId
      && forall now :: t.clock <= now < t.clock + Store.ChallengeLifetime ==> Challenges.Live(c, linkToken, nonce, now))
  {
    var (ip, ua) := Store.Provenance(clientIp, userAgent);
    var c := Challenges.Challenge(t.nextChallengeId, linkToken, nonce, ip, ua, t.clock, t.clock + Store.ChallengeLifetime, false);
    var cs := t.challenges + [c];
    assert cs[|t.challenges|] == c;
    assert c in Issued(t, linkToken, nonce, clientIp, userAgent).challenges;
  }

  /** The tables after `create_message_request` appends the next request, pending and
      stamped now. */
  function Requested(t: Store.Tables, fromLinkToken: string, toLinkToken: string, fromNickname: Json): Store.Tables {
    t.(requests := t.requests + [Requests.Request(t.nextRequestId, fromLinkToken, toLinkToken, fromNickname,
         Requests.Pending, t.clock, t.clock)],
       nextRequestId := t.nextRequestId + 1)
  }

  /** The 201 answer to a registration: the new id, the shareable link and both tokens. */
  function Welcome(id: int, baseUrl: string, linkToken: string, fetchToken: string): (r: Response)
    ensures r.status == 201
    ensures "client_id" in r.body && r.body["client_id"] == JInt(id)
    ensures "link_token" in r.body && r.body["link_token"] == JStr(linkToken)
    ensures "fetch_token" in r.body && r.body["fetch_token"] == JStr(fetchToken)
  {
    Response(201, map[
      "message" := JStr("Client registered successfully"),
      "client_id" := JInt(id),
      "link" := JStr(baseUrl + "/l/" + linkToken),
      "link_token" := JStr(linkToken),
      "fetch_token" := JStr(fetchToken),
      "key_type" := JStr(SupportedKeyType)])
  }

  /** The answer to a permission request that a grant already covers. */
  const AlreadyGranted: Response := Response(200, map["message" := JStr("Permission already granted"), "status" := JStr("accepted")])

  /** The answer to a send from a sender without permission, pointing it to the request
      route. */
  const PermissionRequired: Response := Response(403, map[
    "error" := JStr("Permission denied. Please request permission first."),
    "action_required" := JStr("request_permission")])

  datatype Admission = Admitted(client: Clients.Client) | Refused(response: Response)

  /** The selection a fetch request asks for. A cursor that converts to no integer is
      ignored. */
  function FetchQuery(body: Body): Messages.Query
    requires "link_token" in body && body["link_token"].JStr?
  {
    Messages.Query(body["link_token"].s, Truthy(Get(body, "include_seen", JBool(false))),
      Cursor(Get(body, "before_id", JNull)), Cursor(Get(body, "since_id", JNull)))
  }

  /** The page a fetch request receives: at most the page size applied, only messages the
      request selects, newest first unless `order` is `ASC`, then oldest first. */
  function FetchPage(messages: seq<Messages.Message>, body: Body): (page: seq<Messages.Message>)
    requires "link_token" in body && body["link_token"].JStr?
    ensures |page| <= EffectivePageSize(Get(body, "limit", JInt(Store.DefaultPageSize)))
    ensures forall i :: 0 <= i < |page| ==> page[i] in messages && Messages.Matches(page[i], FetchQuery(body))
    ensures Messages.IdsIncreasing(messages) && Get(body, "order", JStr("DESC")) == JStr("ASC") ==> Messages.IdsIncreasing(page)
    ensures Messages.IdsIncreasing(messages) && Get(body, "order", JStr("DESC")) != JStr("ASC") ==> Messages.IdsDecreasing(page)
  {
    var n := EffectivePageSize(Get(body, "limit", JInt(Store.DefaultPageSize)));
    if Get(body, "order", JStr("DESC")) == JStr("ASC") then
      if Messages.IdsIncreasing(messages) then Messages.OldestAscending(messages, FetchQuery(body), n); Messages.Oldest(messages, FetchQuery(body), n)
      else Messages.Oldest(messages, FetchQuery(body), n)
    else
      if Messages.IdsIncreasing(messages) then Messages.NewestDescending(messages, FetchQuery(body), n); Messages.Newest(messages, FetchQuery(body), n)
      else Messages.Newest(messages, FetchQuery(body), n)
  }

  /** When the corrected `has_more` is false, the page holds every message the request
      selects, whichever order it asked for. */
  lemma FetchPageComplete(messages: seq<Messages.Message>, body: Body, m: Messages.Message)
    requires Messages.IdsIncreasing(messages)
    requires "link_token" in body && body["link_token"].JStr?
    requires m in messages && Messages.Matches(m, FetchQuery(body))
    ensures !HasMore(|FetchPage(messages, body)|, Get(body, "limit", JInt(Store.DefaultPageSize))) ==>
      m in FetchPage(messages, body)
  {
    HasMoreSound(messages, FetchQuery(body), Get(body, "limit", JInt(Store.DefaultPageSize)), m);
  }

  /** A corrected answer that reports no further page holds every message the request
      selects. */
  lemma PageResponseComplete(prims: Primitives, messages: seq<Messages.Message>, body: Body, m: Messages.Message)
    requires Messages.IdsIncreasing(messages)
    requires "link_token" in body && body["link_token"].JStr?
    requires m in messages && Messages.Matches(m, FetchQuery(body))
    ensures var r := PageResponse(prims, FetchPage(messages, body), Get(body, "limit", JInt(Store.DefaultPageSize)));
      "has_more" in r.body && (r.body["has_more"] == JBool(false) ==> m in FetchPage(messages, body))
  {
    FetchPageComplete(messages, body, m);
  }

  /** The selection `get_messages` makes for a fetch request: it takes no `since_id`. */
  function WrittenQuery(body: Body): Messages.Query
    requires "link_token" in body && body["link_token"].JStr?
  {
    Messages.Query(body["link_token"].s, Truthy(Get(body, "include_seen", JBool(false))),
      Cursor(Get(body, "before_id", JNull)), None)
  }

  /** The answer the fetch route as written shapes from the rows `get_messages` returns for
      the request (the newest page, the limit coerced by `int()`), had the call succeeded. */
  function FetchResponseAsWritten(prims: Primitives, messages: seq<Messages.Message>, body: Body): Response
    requires "link_token" in body && body["link_token"].JStr?
  {
    var limit := Get(body, "limit", JInt(Store.DefaultPageSize));
    PageResponseAsWritten(prims, Messages.Newest(messages, WrittenQuery(body), Store.PageSize(JInt(CoercedLimit(limit)))), limit)
  }

  /** As written, a limit of 500 over more than 200 selected messages answers with 200 of
      them and reports that there is no further page. */
  lemma AsWrittenHidesRows(prims: Primitives, messages: seq<Messages.Message>, body: Body)
    requires "link_token" in body && body["link_token"].JStr?
    requires Get(body, "limit", JInt(Store.DefaultPageSize)) == JInt(500)
    requires |Messages.Filter(messages, WrittenQuery(body))| > Store.MaxPageSize
    ensures var r := FetchResponseAsWritten(prims, messages, body);
      && "count" in r.body && r.body["count"] == JInt(Store.MaxPageSize)
      && "has_more" in r.body && r.body["has_more"] == JBool(false)
  {
    HasMoreMissesRows(messages, WrittenQuery(body));
  }

  /** A message the send route stores reads back in a fetch as it was sent: its id,
      ciphertext and time, unseen, and its metadata when that was truthy (falsy metadata
      reads back as `null`), given that `json.loads` inverts `json.dumps`. */
  lemma StoredMessageView(t: Store.Tables, prims: Primitives, linkToken: string, encryptedMessage: string, metadata: Json)
    requires prims.jsonLoads(prims.jsonDumps(metadata)) == metadata && |prims.jsonDumps(metadata)| > 0
    ensures var v := MessageView(prims, Stored(t, prims, linkToken, encryptedMessage, metadata).messages[|t.messages|]);
      && v.JObj?
      && v.fields["id"] == JInt(t.nextMessageId)
      && v.fields["encrypted_message"] == JStr(encryptedMessage)
      && v.fields["created_at"] == JInt(t.clock)
      && v.fields["seen"] == JInt(0)
      && v.fields["metadata"] == if Truthy(metadata) then metadata else JNull
  {
  }

  /** A request the permission route files shows in its recipient's listing. */
  lemma RequestedListed(t: Store.Tables, fromLinkToken: string, toLinkToken: string, fromNickname: Json)
    ensures var rs := Requested(t, fromLinkToken, toLinkToken, fromNickname).requests;
      JObj(map["id" := JInt(t.nextRequestId), "from_link_token" := JStr(fromLinkToken),
        "from_nickname" := fromNickname, "created_at" := JInt(t.clock)])
      in RequestViewsOf(Requests.PendingFor(rs, toLinkToken))
  {
    var rs := Requested(t, fromLinkToken, toLinkToken, fromNickname).requests;
    var q := rs[|t.requests|];
    assert q in rs;
    var pending := Requests.PendingFor(rs, toLinkToken);
    assert q in pending;
    var i :| 0 <= i < |pending| && pending[i] == q;
    assert RequestViewsOf(pending)[i] == RequestView(q);
  }

  /** A request the recipient may still answer: it exists, is addressed to the recipient,
      and is pending. */
  predicate Answerable(rs: seq<Requests.Request>, id: int, recipient: string) {
    var r := Requests.FindRequest(rs, id);
    r.Some? && r.value.toLinkToken == recipient && r.value.status == Requests.Pending
  }

  /** What the respond route answers an authenticated recipient, by the request its
      `request_id` names: 404 for none, 403 when addressed to someone else, 400 when already
      answered, and otherwise 200 with the new status. */
  predicate Responded(rs: seq<Requests.Request>, body: Body, r: Response)
    requires "link_token" in body && "request_id" in body && "action" in body
    requires body["link_token"].JStr? && ActionStatus(body["action"]).Some?
  {
    var id := SqlId(body["request_id"]);
    var found := if id.Some? then Requests.FindRequest(rs, id.value) else None;
    var name := StatusName(ActionStatus(body["action"]).value);
    && (found.None? ==> r == Error(404, "Request not found"))
    && (found.Some? && found.value.toLinkToken != body["link_token"].s ==>
          r == Error(403, "Unauthorized - this request is not for you"))
    && (found.Some? && found.value.toLinkToken == body["link_token"].s && found.value.status != Requests.Pending ==>
          r == Error(400, "Request already processed"))
    && (found.Some? && found.value.toLinkToken == body["link_token"].s && found.value.status == Requests.Pending ==>
          r == Response(200, map["message" := JStr("Request " + name + " successfully"),
            "request_id" := body["request_id"], "status" := JStr(name)]))
  }

  class Server {
    const db: Store.Database

    /** The database invariant, and the rate limit holding for every identity. */
    ghost predicate Valid()
      reads this, db
    {
      db.Valid() && RateLimited(db.challenges, db.clock)
    }

    constructor (db: Store.Database)
      requires db.Valid() && RateLimited(db.challenges, db.clock)
      ensures Valid() && this.db == db
    {
      this.db := db;
    }

    /** `db.get_client_by_link_token(token)` for a token taken from a request body. */
    method Lookup(token: Json) returns (c: Option<Clients.Client>)
      ensures c == ClientOf(db, token)
    {
      c := None;
      if token.JStr? {
        c := db.GetClientByLinkToken(token.s);
      }
    }

    /** Time passes between requests. */
    method Wait(seconds: nat)
      requires Valid()
      modifies db
      ensures Valid()
      ensures db.Snapshot() == old(db.Snapshot()).(clock := old(db.clock) + seconds)
    {
      UseAndTimeKeepLimit(db.challenges, 0, db.clock, db.clock + seconds);
      db.Tick(seconds);
    }

    /** `POST /register`: validates the key, draws the two tokens, stores the client with
        the hash of its fetch token, and returns both tokens once. */
    method Register(body: Body, baseUrl: string, linkBytes: seq<byte>, fetchBytes: seq<byte>) returns (r: Response)
      requires Valid()
      modifies db
      ensures Valid()
      ensures RegisterError(body).Some? ==>
        r == Error(400, RegisterError(body).value.error) && db.Snapshot() == old(db.Snapshot())
      ensures (&& RegisterError(body).None? && old(db.connected)
               && !Store.FitsColumn(Utils.SanitizeInput(Get(body, "display_name", JNull)), Store.DisplayNameWidth)) ==>
        r == Error(500, Store.DataTooLong("display_name"))
      ensures r.status == 201 <==>
        && RegisterError(body).None? && old(db.connected)
        && Store.FitsColumn(Utils.SanitizeInput(Get(body, "display_name", JNull)), Store.DisplayNameWidth)
        && !Clients.Registered(old(db.clients), Utils.GenerateLinkToken(linkBytes))
      ensures r.status == 201 ==>
        && "link_token" in r.body && "fetch_token" in r.body
        && r.body["link_token"] == JStr(Utils.GenerateLinkToken(linkBytes))
        && r.body["fetch_token"] == JStr(Utils.GenerateFetchToken(fetchBytes))
        && Store.TokenAccepted(db.prims, db.clients, Utils.GenerateLinkToken(linkBytes), Utils.GenerateFetchToken(fetchBytes))
      ensures r.status == 201 ==>
        && "public_key" in body && body["public_key"].JStr?
        && "client_id" in r.body && r.body["client_id"] == JInt(old(db.nextClientId))
        && db.Snapshot() == old(db.Snapshot()).(
          clients := old(db.clients) + [Clients.Client(old(db.nextClientId), Utils.GenerateLinkToken(linkBytes),
            body["public_key"].s, db.prims.sha256Hex(Text.Utf8(body["public_key"].s)), SupportedKeyType,
            Utils.SanitizeInput(Get(body, "display_name", JNull)),
            Utils.HashToken(db.prims, Utils.GenerateFetchToken(fetchBytes)), old(db.clock))],
          nextClientId := old(db.nextClientId) + 1)
      ensures r.status != 201 ==> db.Snapshot() == old(db.Snapshot())
    {
      var rejection := RegisterError(body);
      if rejection.Some? {
        return Error(400, rejection.value.error);
      }
      var publicKey := body["public_key"].s;
      var displayName := Utils.SanitizeInput(Get(body, "display_name", JNull));
      var linkToken := Utils.GenerateLinkToken(linkBytes);
      var fetchToken := Utils.GenerateFetchToken(fetchBytes);
      var outcome := Enrol(publicKey, linkToken, fetchToken, displayName);
      match outcome
      case Failed(e) =>
        r := Error(500, e);
      case Ok(id) =>
        r := Welcome(id, baseUrl, linkToken, fetchToken);
    }

    /** Stores a new client under `linkToken` with the hash of `fetchToken`, which is then
        accepted for it. */
    method Enrol(publicKey: string, linkToken: string, fetchToken: string, displayName: Json)
      returns (outcome: Store.Outcome<int>)
      requires Valid()
      modifies db
      ensures Valid()
      ensures old(db.connected) && !Store.FitsColumn(displayName, Store.DisplayNameWidth) ==>
        outcome == Store.Failed(Store.DataTooLong("display_name"))
      ensures outcome.Ok? <==>
        old(db.connected) && Store.FitsColumn(displayName, Store.DisplayNameWidth) && !Clients.Registered(old(db.clients), linkToken)
      ensures outcome.Ok? ==>
        && outcome.value == old(db.nextClientId)
        && Store.TokenAccepted(db.prims, db.clients, linkToken, fetchToken)
        && db.Snapshot() == old(db.Snapshot()).(
          clients := old(db.clients) + [Clients.Client(old(db.nextClientId), linkToken, publicKey,
            db.prims.sha256Hex(Text.Utf8(publicKey)), SupportedKeyType, displayName,
            Utils.HashToken(db.prims, fetchToken), old(db.clock))],
          nextClientId := old(db.nextClientId) + 1)
      ensures outcome.Failed? ==> db.Snapshot() == old(db.Snapshot())
    {
      ghost var before := db.clients;
      outcome := db.RegisterClient(publicKey, linkToken, Utils.HashToken(db.prims, fetchToken), displayName, SupportedKeyType);
      if outcome.Ok? {
        Store.RegisteredTokenAccepted(db.prims, before, db.clients[|before|], fetchToken, linkToken, fetchToken);
      }
    }

    /** `POST /send`: checks the payload, the recipient and, for an identified sender, its
        permission; then stores the message for the recipient. */
    method SendMessage(body: Body) returns (r: Response)
      requires Valid()
      modifies db
      ensures Valid()
      ensures "link_token" !in body || "encrypted_message" !in body ==>
        r == Error(400, "link_token and encrypted_message are required")
      ensures "link_token" in body && "encrypted_message" in body ==>
        var to, from := body["link_token"], Get(body, "from_link_token", JNull);
        var rejection := CheckPayload(db.prims, body["encrypted_message"], Get(body, "metadata", JNull));
        && (rejection.Some? ==> r == Error(rejection.value.status, rejection.value.error))
        && (rejection.None? && old(ClientOf(db, to)).None? ==> r == Error(404, "Invalid link_token"))
        && (rejection.None? && old(ClientOf(db, to)).Some? && Truthy(from) && old(ClientOf(db, from)).None? ==>
              r == Error(404, "Invalid from_link_token"))
        && ((&& rejection.None? && old(ClientOf(db, to)).Some? && Truthy(from) && old(ClientOf(db, from)).Some?
             && !Requests.HasPermission(old(db.requests), from.s, to.s)) ==> r == PermissionRequired)
        && ((&& rejection.None? && old(ClientOf(db, to)).Some?
             && (Truthy(from) ==> old(ClientOf(db, from)).Some? && Requests.HasPermission(old(db.requests), from.s, to.s))) ==>
              && r.status == 201
              && db.Snapshot() == Stored(old(db.Snapshot()), db.prims, to.s, body["encrypted_message"].s, Get(body, "metadata", JNull)))
      ensures r.status != 201 ==> db.Snapshot() == old(db.Snapshot())
    {
      if |body| == 0 || "link_token" !in body || "encrypted_message" !in body {
        return Error(400, "link_token and encrypted_message are required");
      }
      var to := body["link_token"];
      var from := Get(body, "from_link_token", JNull);
      var encrypted := body["encrypted_message"];
      var metadata := Get(body, "metadata", JNull);
      var rejection := CheckPayload(db.prims, encrypted, metadata);
      if rejection.Some? {
        return Error(rejection.value.status, rejection.value.error);
      }
      var recipient := Lookup(to);
      if recipient.None? {
        return Error(404, "Invalid link_token");
      }
      var sender: Option<string> := None;
      if Truthy(from) {
        var found := Lookup(from);
        if found.None? {
          return Error(404, "Invalid from_link_token");
        }
        sender := Some(from.s);
      }
      r := Deliver(sender, to.s, encrypted.s, metadata);
    }

    /** The part of `send_message` after the identities are found: a named sender needs a
        grant from the recipient; the message then takes the next id. */
    method Deliver(sender: Option<string>, linkToken: string, encryptedMessage: string, metadata: Json)
      returns (r: Response)
      requires Valid() && db.connected
      modifies db
      ensures Valid()
      ensures sender.Some? && !Requests.HasPermission(old(db.requests), sender.value, linkToken) ==>
        r == PermissionRequired && db.Snapshot() == old(db.Snapshot())
      ensures sender.None? || Requests.HasPermission(old(db.requests), sender.value, linkToken) ==>
        && r.status == 201
        && "id" in r.body && r.body["id"] == JInt(old(db.nextMessageId))
        && db.Snapshot() == Stored(old(db.Snapshot()), db.prims, linkToken, encryptedMessage, metadata)
    {
      if sender.Some? {
        var allowed := db.CheckMessagePermission(sender.value, linkToken);
        if !allowed {
          return PermissionRequired;
        }
      }
      var outcome := db.StoreMessage(linkToken, encryptedMessage, metadata);
      assert outcome.Ok?;
      r := Response(201, map["message" := JStr("Message sent successfully"), "id" := JInt(outcome.value)]);
    }

    /** `POST /challenge_request`: after the rate limits, issues a fresh nonce valid for
        five minutes and purges expired challenges. */
    method ChallengeRequest(body: Body, forwardedFor: Option<string>, remoteAddr: Option<string>,
                            userAgent: Option<string>, nonceBytes: seq<byte>) returns (r: Response)
      requires Valid()
      modifies db
      ensures Valid()
      ensures "link_token" !in body ==> r == Error(400, "link_token is required")
      ensures "link_token" in body && old(ClientOf(db, body["link_token"])).None? ==> r == Error(404, "Invalid link_token")
      ensures "link_token" in body && old(ClientOf(db, body["link_token"])).Some? ==>
        var linkToken := body["link_token"].s;
        var refusal := Throttle(Challenges.CountOutstanding(old(db.challenges), linkToken, old(db.clock)),
          Challenges.LatestCreated(old(db.challenges), linkToken), old(db.clock));
        var clientIp := if forwardedFor.Some? then forwardedFor else remoteAddr;
        var agent := Some(if userAgent.Some? then userAgent.value else "");
        var overflow := Store.ChallengeOverflow(clientIp, agent);
        var nonce := Utils.GenerateChallengeNonce(nonceBytes);
        && (refusal.Some? ==> r == Error(429, refusal.value))
        && (refusal.None? && overflow.Some? ==> r == Error(500, Store.DataTooLong(overflow.value)))
        && (refusal.None? && overflow.None? ==>
              && r == Response(200, map["challenge" := JStr(nonce)])
              && db.Snapshot() == Issued(old(db.Snapshot()), linkToken, nonce, clientIp, agent))
      ensures r.status != 200 ==> db.Snapshot() == old(db.Snapshot())
    {
      if |body| == 0 || "link_token" !in body {
        return Error(400, "link_token is required");
      }
      var token := body["link_token"];
      var client := Lookup(token);
      if client.None? {
        return Error(404, "Invalid link_token");
      }
      var linkToken := token.s;
      var outstanding := db.CountOutstanding(linkToken);
      var latest := db.LatestChallengeTime(linkToken);
      var refusal := Throttle(outstanding, latest, db.clock);
      if refusal.Some? {
        return Error(429, refusal.value);
      }
      var nonce := Utils.GenerateChallengeNonce(nonceBytes);
      var clientIp := if forwardedFor.Some? then forwardedFor else remoteAddr;
      var agent := Some(if userAgent.Some? then userAgent.value else "");
      var outcome := Issue(linkToken, nonce, clientIp, agent);
      if outcome.Failed? {
        return Error(500, outcome.error);
      }
      r := Response(200, map["challenge" := JStr(nonce)]);
    }

    /** Storing a new challenge and purging the expired ones, below the outstanding limit,
        keeps the limit; an address or user agent too long for its column stores nothing. */
    method Issue(linkToken: string, nonce: string, clientIp: Option<string>, userAgent: Option<string>)
      returns (outcome: Store.Outcome<int>)
      requires Valid() && db.connected
      requires Challenges.CountOutstanding(db.challenges, linkToken, db.clock) < MaxOutstanding
      modifies db
      ensures Valid()
      ensures Store.ChallengeOverflow(clientIp, userAgent).Some? ==>
        && outcome == Store.Failed(Store.DataTooLong(Store.ChallengeOverflow(clientIp, userAgent).value))
        && db.Snapshot() == old(db.Snapshot())
      ensures Store.ChallengeOverflow(clientIp, userAgent).None? ==>
        && outcome == Store.Ok(old(db.nextChallengeId))
        && db.Snapshot() == Issued(old(db.Snapshot()), linkToken, nonce, clientIp, userAgent)
    {
      ghost var t := db.Snapshot();
      ghost var (ip, ua) := Store.Provenance(clientIp, userAgent);
      ghost var issued := Challenges.Challenge(t.nextChallengeId, linkToken, nonce, ip, ua,
        t.clock, t.clock + Store.ChallengeLifetime, false);
      outcome := db.CreateChallenge(linkToken, nonce, Store.ChallengeLifetime, clientIp, userAgent);
      if outcome.Failed? {
        return;
      }
      assert db.challenges == t.challenges + [issued];
      IssueKeepsLimit(t.challenges, issued, t.clock);
      db.CleanupOldChallenges();
      assert db.Snapshot() == Issued(t, linkToken, nonce, clientIp, userAgent);
    }

    /** The credential check shared by the protected routes. A challenge is marked used only
        when its signature verifies; a bad signature leaves it usable. */
    method Authenticate(client: Clients.Client, linkToken: string, body: Body, authorization: Option<string>)
      returns (a: AuthOutcome)
      requires Valid() && db.connected
      modifies db
      ensures Valid()
      ensures a == Check(db.prims, client, linkToken, RequestCredentials(body, authorization),
        old(db.clients), old(db.challenges), old(db.clock))
      ensures a == Authenticated && RequestCredentials(body, authorization).SignedChallenge? ==>
        db.Snapshot() == old(db.Snapshot()).(challenges := Challenges.MarkUsed(old(db.challenges),
          ChallengeFor(RequestCredentials(body, authorization), linkToken, old(db.challenges), old(db.clock)).value.id))
      ensures !(a == Authenticated && RequestCredentials(body, authorization).SignedChallenge?) ==>
        db.Snapshot() == old(db.Snapshot())
    {
      var creds := RequestCredentials(body, authorization);
      match creds
      case SignedChallenge(signature, nonce) =>
        if !nonce.JStr? {
          return ChallengeNotFound;
        }
        var challenge := db.GetChallenge(linkToken, nonce.s);
        if challenge.None? {
          return ChallengeNotFound;
        }
        if !Utils.VerifySignature(db.prims, client.publicKey, Text.Utf8(nonce.s), signature) {
          return BadSignature;
        }
        UseAndTimeKeepLimit(db.challenges, challenge.value.id, db.clock, db.clock);
        var _ := db.MarkChallengeUsed(challenge.value.id);
        a := Authenticated;
      case Bearer(token) =>
        var ok := db.VerifyFetchToken(linkToken, token);
        a := if ok then Authenticated else BadToken;
      case NoCredentials =>
        a := NoCredentialsGiven;
    }

    /** The start of every protected route once its fields are present: the identity must
        exist and its credentials must authenticate it. Only a spent challenge changes. */
    method Admit(token: Json, body: Body, authorization: Option<string>, detailed: bool) returns (v: Admission)
      requires Valid()
      modifies db
      ensures Valid()
      ensures db.Snapshot() == old(db.Snapshot()).(challenges := db.challenges)
      ensures v.Admitted? <==> old(Verdict(db, token, body, authorization)) == Some(Authenticated)
      ensures v.Admitted? ==> token.JStr? && db.connected && old(ClientOf(db, token)) == Some(v.client)
      ensures v.Admitted? && RequestCredentials(body, authorization).SignedChallenge? ==>
        db.challenges == Challenges.MarkUsed(old(db.challenges),
          ChallengeFor(RequestCredentials(body, authorization), token.s, old(db.challenges), old(db.clock)).value.id)
      ensures v.Refused? ==> db.challenges == old(db.challenges)
      ensures old(Verdict(db, token, body, authorization)).None? ==> v == Refused(Error(404, "Invalid link_token"))
      ensures old(Verdict(db, token, body, authorization)).Some? && old(Verdict(db, token, body, authorization)).value != Authenticated ==>
        v == Refused(Error(401, if detailed then FetchAuthError(old(Verdict(db, token, body, authorization)).value) else AuthenticationFailed))
    {
      var client := Lookup(token);
      if client.None? {
        return Refused(Error(404, "Invalid link_token"));
      }
      var a := Authenticate(client.value, token.s, body, authorization);
      if a != Authenticated {
        return Refused(Error(401, if detailed then FetchAuthError(a) else AuthenticationFailed));
      }
      v := Admitted(client.value);
    }

    /** `Admit` for routes whose contracts do not restate the credential check: the same
        outcome, with only what those routes rely on. */
    method Guard(token: Json, body: Body, authorization: Option<string>) returns (v: Admission)
      requires Valid()
      modifies db
      ensures Valid()
      ensures db.Snapshot() == old(db.Snapshot()).(challenges := db.challenges)
      ensures v.Admitted? <==> old(Verdict(db, token, body, authorization)) == Some(Authenticated)
      ensures v.Admitted? ==> token.JStr? && db.connected && old(ClientOf(db, token)) == Some(v.client)
      ensures v.Refused? ==> db.challenges == old(db.challenges)
      ensures old(Verdict(db, token, body, authorization)).None? ==> v == Refused(Error(404, "Invalid link_token"))
      ensures old(Verdict(db, token, body, authorization)).Some? && old(Verdict(db, token, body, authorization)).value != Authenticated ==>
        v == Refused(Error(401, AuthenticationFailed))
    {
      v := Admit(token, body, authorization, false);
    }

    /** `POST /fetch` as written: after authenticating, the call into the database passes
        keyword arguments `get_messages` does not declare, so every authenticated fetch
        answers 500, with the challenge already spent. */
    method FetchMessages(body: Body, authorization: Option<string>) returns (r: Response)
      requires Valid()
      modifies db
      ensures Valid()
      ensures r.status != 200
      ensures "link_token" !in body ==> r == Error(400, "link_token is required")
      ensures "link_token" in body ==>
        var verdict := old(Verdict(db, body["link_token"], body, authorization));
        && (verdict.None? ==> r == Error(404, "Invalid link_token"))
        && (verdict.Some? && verdict.value != Authenticated ==> r == Error(401, FetchAuthError(verdict.value)))
        && (verdict == Some(Authenticated) ==> r == Error(500, KeywordError("since_id")))
      ensures (&& "link_token" in body && old(Verdict(db, body["link_token"], body, authorization)) == Some(Authenticated)
               && RequestCredentials(body, authorization).SignedChallenge?) ==>
        db.challenges == Challenges.MarkUsed(old(db.challenges),
          ChallengeFor(RequestCredentials(body, authorization), body["link_token"].s, old(db.challenges), old(db.clock)).value.id)
      ensures db.Snapshot() == old(db.Snapshot()).(challenges := db.challenges)
    {
      if |body| == 0 || "link_token" !in body {
        return Error(400, "link_token is required");
      }
      var v := Admit(body["link_token"], body, authorization, true);
      if v.Refused? {
        return v.response;
      }
      var unexpected := UnexpectedKeyword(FetchKeywords, GetMessagesParameters);
      FetchCallRejected();
      r := Error(500, KeywordError(unexpected.value));
    }

    /** `POST /fetch` as its documentation describes it: a page of messages, newest first
        unless `order` is `ASC`, with `before_id` and `since_id` cursors, and `has_more`
        measured against the page size actually applied; when it is false, no matching
        message was left out. */
    method FetchMessagesIntended(body: Body, authorization: Option<string>) returns (r: Response)
      requires Valid()
      modifies db
      ensures Valid()
      ensures "link_token" !in body ==> r == Error(400, "link_token is required")
      ensures "link_token" in body ==>
        var verdict := old(Verdict(db, body["link_token"], body, authorization));
        && (verdict.None? ==> r == Error(404, "Invalid link_token"))
        && (verdict.Some? && verdict.value != Authenticated ==> r == Error(401, FetchAuthError(verdict.value)))
      ensures r.status == 200 <==> "link_token" in body && old(Verdict(db, body["link_token"], body, authorization)) == Some(Authenticated)
      ensures r.status == 200 ==>
        && "link_token" in body && body["link_token"].JStr?
        && r == PageResponse(db.prims, FetchPage(db.messages, body), Get(body, "limit", JInt(Store.DefaultPageSize)))
      ensures r.status == 200 && !HasMore(|FetchPage(db.messages, body)|, Get(body, "limit", JInt(Store.DefaultPageSize))) ==>
        forall m :: m in db.messages && Messages.Matches(m, FetchQuery(body)) ==> m in FetchPage(db.messages, body)
      ensures db.Snapshot() == old(db.Snapshot()).(challenges := db.challenges)
    {
      if |body| == 0 || "link_token" !in body {
        return Error(400, "link_token is required");
      }
      var v := Admit(body["link_token"], body, authorization, true);
      if v.Refused? {
        return v.response;
      }
      var token := body["link_token"].s;
      var includeSeen := Get(body, "include_seen", JBool(false));
      var limit := Get(body, "limit", JInt(Store.DefaultPageSize));
      var beforeId := Cursor(Get(body, "before_id", JNull));
      var sinceId := Cursor(Get(body, "since_id", JNull));
      var ascending := Get(body, "order", JStr("DESC")) == JStr("ASC");
      var page := db.GetMessagesOrdered(token, includeSeen, JInt(CoercedLimit(limit)), beforeId, sinceId, ascending);
      assert page == FetchPage(db.messages, body);
      var views := MessageViews(db.prims, page);
      var fields := map[
        "message" := JStr("Messages retrieved successfully"),
        "data" := JArr(views),
        "count" := JInt(|views|),
        "has_more" := JBool(HasMore(|views|, limit))];
      if page != [] {
        fields := fields["next_cursor" := JInt(page[|page| - 1].id)];
      }
      r := Response(200, fields);
      forall m | m in db.messages && Messages.Matches(m, FetchQuery(body)) && !HasMore(|page|, limit)
        ensures m in page
      {
        FetchPageComplete(db.messages, body, m);
      }
    }

    /** The rest of `POST /fetch` as written, had its call into the database passed only the
        keywords `get_messages` declares: the newest page, with `has_more` against the limit
        the client sent. */
    method RespondAsWritten(body: Body) returns (r: Response)
      requires "link_token" in body && body["link_token"].JStr? && db.connected
      ensures r == FetchResponseAsWritten(db.prims, db.messages, body)
    {
      var limit := Get(body, "limit", JInt(Store.DefaultPageSize));
      var page := db.GetMessages(body["link_token"].s, Get(body, "include_seen", JBool(false)), JInt(CoercedLimit(limit)),
        Cursor(Get(body, "before_id", JNull)));
      var views := MessageViews(db.prims, page);
      var fields := map[
        "message" := JStr("Messages retrieved successfully"),
        "data" := JArr(views),
        "count" := JInt(|views|),
        "has_more" := JBool(|views| == CoercedLimit(limit))];
      if views != [] {
        fields := fields["next_cursor" := JInt(page[|page| - 1].id)];
      }
      r := Response(200, fields);
    }

    /** `POST /ack`: marks the listed messages of the authenticated recipient as seen and
        reports how many ids it was given. */
    method AcknowledgeMessages(body: Body, authorization: Option<string>) returns (r: Response)
      requires Valid()
      modifies db
      ensures Valid()
      ensures r.status == 200 ==>
        && "link_token" in body && "message_ids" in body && body["link_token"].JStr?
        && Len(body["message_ids"]).Some?
        && "count" in r.body && r.body["count"] == JInt(Len(body["message_ids"]).value)
        && db.messages == Messages.MarkSeen(old(db.messages), body["link_token"].s, Store.NamedIds(body["message_ids"]))
      ensures r.status != 200 ==> db.messages == old(db.messages)
      ensures db.Snapshot() == old(db.Snapshot()).(challenges := db.challenges, messages := db.messages)
      ensures "link_token" !in body || "message_ids" !in body ==> r == Error(400, "link_token and message_ids are required")
      ensures "link_token" in body && "message_ids" in body ==>
        var verdict, ids := old(Verdict(db, body["link_token"], body, authorization)), body["message_ids"];
        && (verdict.None? ==> r == Error(404, "Invalid link_token"))
        && (verdict.Some? && verdict.value != Authenticated ==> r == Error(401, AuthenticationFailed))
        && (verdict == Some(Authenticated) && Len(ids).None? ==> r == Error(500, Store.LenError(ids)))
        && (verdict == Some(Authenticated) && Len(ids).Some? ==>
              r == Response(200, map["message" := JStr("Messages marked as seen"), "count" := JInt(Len(ids).value)]))
    {
      if |body| == 0 || "link_token" !in body || "message_ids" !in body {
        return Error(400, "link_token and message_ids are required");
      }
      var ids := body["message_ids"];
      var v := Guard(body["link_token"], body, authorization);
      if v.Refused? {
        return v.response;
      }
      r := Acknowledge(body["link_token"].s, ids);
    }

    /** The part of `acknowledge_messages` after authentication: the listed messages of the
        recipient become seen, and the answer reports how many ids were given. */
    method Acknowledge(linkToken: string, ids: Json) returns (r: Response)
      requires Valid() && db.connected
      modifies db
      ensures Valid()
      ensures Len(ids).None? ==> r == Error(500, Store.LenError(ids)) && db.Snapshot() == old(db.Snapshot())
      ensures Len(ids).Some? ==>
        && r == Response(200, map["message" := JStr("Messages marked as seen"), "count" := JInt(Len(ids).value)])
        && db.Snapshot() == old(db.Snapshot()).(messages := Messages.MarkSeen(old(db.messages), linkToken, Store.NamedIds(ids)))
    {
      var err := db.MarkMessagesSeen(linkToken, ids);
      if err.Some? {
        return Error(500, err.value);
      }
      if Len(ids).None? {
        return Error(500, Store.LenError(ids));
      }
      r := Response(200, map["message" := JStr("Messages marked as seen"), "count" := JInt(Len(ids).value)]);
    }

    /** `POST /check_contact`: whether a link token belongs to a client, with its public
        details when it does. */
    method CheckContact(body: Body) returns (r: Response)
      requires Valid()
      ensures r.status == 200 <==> |body| > 0 && "link_token" in body
      ensures r.status == 200 ==> ("exists" in r.body && (r.body["exists"] == JBool(true) <==> ClientOf(db, body["link_token"]).Some?))
      ensures r.status == 200 && ClientOf(db, body["link_token"]).Some? ==>
        "nickname" in r.body && r.body["nickname"] == ClientOf(db, body["link_token"]).value.displayName
    {
      if |body| == 0 || "link_token" !in body {
        return Error(400, "link_token is required");
      }
      var token := body["link_token"];
      var info: Option<Store.ClientInfo> := None;
      if token.JStr? {
        info := db.GetClientInfoByLink(token.s);
      }
      if info.Some? {
        ghost var c :| c in db.clients && c.linkToken == token.s
          && info.value == Store.ClientInfo(c.linkToken, c.displayName, c.createdAt);
        Clients.FindClientUnique(db.clients, c);
        r := Response(200, map[
          "exists" := JBool(true),
          "link_token" := JStr(info.value.linkToken),
          "nickname" := info.value.displayName,
          "created_at" := JInt(info.value.createdAt)]);
      } else {
        r := Response(200, map["exists" := JBool(false)]);
      }
    }

    /** `POST /request_message_permission`: both identities must exist; an existing grant
        is reported, otherwise a new pending request is filed with the sanitised nickname. */
    method RequestMessagePermission(body: Body) returns (r: Response)
      requires Valid()
      modifies db
      ensures Valid()
      ensures "from_link_token" !in body || "to_link_token" !in body ==>
        r == Error(400, "from_link_token and to_link_token are required")
      ensures "from_link_token" in body && "to_link_token" in body ==>
        var from, to := body["from_link_token"], body["to_link_token"];
        var nickname := Utils.SanitizeInput(Get(body, "from_nickname", JStr("Anonymous")));
        && (old(ClientOf(db, from)).None? ==> r == Error(404, "Invalid from_link_token"))
        && (old(ClientOf(db, from)).Some? && old(ClientOf(db, to)).None? ==> r == Error(404, "Invalid to_link_token"))
        && (old(ClientOf(db, from)).Some? && old(ClientOf(db, to)).Some? ==>
              && (Requests.HasPermission(old(db.requests), from.s, to.s) ==> r == AlreadyGranted)
              && (!Requests.HasPermission(old(db.requests), from.s, to.s) && nickname == JNull ==>
                    r == Error(500, Store.NicknameNull))
              && (!Requests.HasPermission(old(db.requests), from.s, to.s) && !Store.FitsColumn(nickname, Store.NicknameWidth) ==>
                    r == Error(500, Store.DataTooLong("from_nickname")))
              && (!Requests.HasPermission(old(db.requests), from.s, to.s) && Store.NicknameStorable(nickname) ==>
                    && r.status == 201
                    && "request_id" in r.body && r.body["request_id"] == JInt(old(db.nextRequestId))
                    && db.Snapshot() == Requested(old(db.Snapshot()), from.s, to.s, nickname)))
      ensures r.status != 201 ==> db.Snapshot() == old(db.Snapshot())
      ensures forall f, t :: Requests.HasPermission(db.requests, f, t) == Requests.HasPermission(old(db.requests), f, t)
    {
      if |body| == 0 || "from_link_token" !in body || "to_link_token" !in body {
        return Error(400, "from_link_token and to_link_token are required");
      }
      var from := body["from_link_token"];
      var to := body["to_link_token"];
      var nickname := Utils.SanitizeInput(Get(body, "from_nickname", JStr("Anonymous")));
      var sender := Lookup(from);
      var recipient := Lookup(to);
      if sender.None? {
        return Error(404, "Invalid from_link_token");
      }
      if recipient.None? {
        return Error(404, "Invalid to_link_token");
      }
      r := Petition(from.s, to.s, nickname);
    }

    /** The part of `request_message_permission` after both identities are found: an
        existing grant is reported, otherwise a pending request is filed, which grants
        nobody anything. */
    method Petition(fromLinkToken: string, toLinkToken: string, fromNickname: Json) returns (r: Response)
      requires Valid() && db.connected
      modifies db
      ensures Valid()
      ensures Requests.HasPermission(old(db.requests), fromLinkToken, toLinkToken) ==>
        r == AlreadyGranted && db.Snapshot() == old(db.Snapshot())
      ensures !Requests.HasPermission(old(db.requests), fromLinkToken, toLinkToken) && fromNickname == JNull ==>
        r == Error(500, Store.NicknameNull) && db.Snapshot() == old(db.Snapshot())
      ensures !Requests.HasPermission(old(db.requests), fromLinkToken, toLinkToken) && !Store.FitsColumn(fromNickname, Store.NicknameWidth) ==>
        r == Error(500, Store.DataTooLong("from_nickname")) && db.Snapshot() == old(db.Snapshot())
      ensures !Requests.HasPermission(old(db.requests), fromLinkToken, toLinkToken) && Store.NicknameStorable(fromNickname) ==>
        && r.status == 201
        && "request_id" in r.body && r.body["request_id"] == JInt(old(db.nextRequestId))
        && db.Snapshot() == Requested(old(db.Snapshot()), fromLinkToken, toLinkToken, fromNickname)
      ensures forall f, t :: Requests.HasPermission(db.requests, f, t) == Requests.HasPermission(old(db.requests), f, t)
    {
      var granted := db.CheckMessagePermission(fromLinkToken, toLinkToken);
      if granted {
        return AlreadyGranted;
      }
      ghost var before := db.requests;
      var outcome := db.CreateMessageRequest(fromLinkToken, toLinkToken, fromNickname);
      match outcome
      case Failed(e) =>
        r := Error(500, e);
      case Ok(id) =>
        assert db.requests == before + [db.requests[|before|]];
        forall f, t ensures Requests.HasPermission(db.requests, f, t) == Requests.HasPermission(before, f, t) {
          Requests.NewRequestGrantsNothing(before, db.requests[|before|], f, t);
        }
        r := Response(201, map[
          "message" := JStr("Message request sent successfully"),
          "request_id" := JInt(id),
          "status" := JStr("pending")]);
    }

    /** `POST /get_message_requests`: the authenticated recipient's pending requests,
        newest first. */
    method GetMessageRequests(body: Body, authorization: Option<string>) returns (r: Response)
      requires Valid()
      modifies db
      ensures Valid()
      ensures r.status == 200 ==>
        && "link_token" in body && body["link_token"].JStr? && "data" in r.body
        && r.body["data"] == JArr(RequestViewsOf(Requests.PendingFor(db.requests, body["link_token"].s)))
        && Requests.CreatedNonincreasing(Requests.PendingFor(db.requests, body["link_token"].s))
      ensures db.Snapshot() == old(db.Snapshot()).(challenges := db.challenges)
      ensures "link_token" !in body ==> r == Error(400, "link_token is required")
      ensures "link_token" in body ==>
        var verdict := old(Verdict(db, body["link_token"], body, authorization));
        && (verdict.None? ==> r == Error(404, "Invalid link_token"))
        && (verdict.Some? && verdict.value != Authenticated ==> r == Error(401, AuthenticationFailed))
        && (verdict == Some(Authenticated) ==> r == Response(200, map[
              "message" := JStr("Requests retrieved successfully"),
              "data" := JArr(RequestViewsOf(Requests.PendingFor(old(db.requests), body["link_token"].s)))]))
    {
      if |body| == 0 || "link_token" !in body {
        return Error(400, "link_token is required");
      }
      var v := Guard(body["link_token"], body, authorization);
      if v.Refused? {
        return v.response;
      }
      var token := body["link_token"].s;
      var pending := db.GetPendingRequests(token);
      Requests.PendingNewestFirst(db.requests, token);
      var views := RequestViews(pending);
      r := Response(200, map["message" := JStr("Requests retrieved successfully"), "data" := JArr(views)]);
    }

    /** `POST /respond_message_request`: the authenticated recipient of a pending request
        accepts or rejects it; a request is answered at most once. */
    method RespondMessageRequest(body: Body, authorization: Option<string>) returns (r: Response)
      requires Valid()
      modifies db
      ensures Valid()
      ensures r.status == 200 ==>
        && "link_token" in body && "request_id" in body && "action" in body
        && ActionStatus(body["action"]).Some? && body["link_token"].JStr?
        && SqlId(body["request_id"]).Some?
        && Answerable(old(db.requests), SqlId(body["request_id"]).value, body["link_token"].s)
        && db.requests == Requests.SetStatus(old(db.requests), SqlId(body["request_id"]).value,
             ActionStatus(body["action"]).value, old(db.clock))
        && "status" in r.body && r.body["status"] == JStr(StatusName(ActionStatus(body["action"]).value))
      ensures r.status != 200 ==> db.requests == old(db.requests)
      ensures db.Snapshot() == old(db.Snapshot()).(challenges := db.challenges, requests := db.requests)
      ensures "link_token" !in body || "request_id" !in body || "action" !in body ==>
        r == Error(400, "link_token, request_id, and action are required")
      ensures "link_token" in body && "request_id" in body && "action" in body && ActionStatus(body["action"]).None? ==>
        r == Error(400, "action must be \"accept\" or \"reject\"")
      ensures "link_token" in body && "request_id" in body && "action" in body && ActionStatus(body["action"]).Some? ==>
        var verdict := old(Verdict(db, body["link_token"], body, authorization));
        && (verdict.None? ==> r == Error(404, "Invalid link_token"))
        && (verdict.Some? && verdict.value != Authenticated ==> r == Error(401, AuthenticationFailed))
        && (verdict == Some(Authenticated) ==> Responded(old(db.requests), body, r))
    {
      if |body| == 0 || "link_token" !in body || "request_id" !in body || "action" !in body {
        return Error(400, "link_token, request_id, and action are required");
      }
      var requestId := body["request_id"];
      var status := ActionStatus(body["action"]);
      if status.None? {
        return Error(400, "action must be \"accept\" or \"reject\"");
      }
      var v := Guard(body["link_token"], body, authorization);
      if v.Refused? {
        return v.response;
      }
      var token := body["link_token"].s;
      var request := db.GetRequestById(requestId);
      if request.None? {
        return Error(404, "Request not found");
      }
      RequestIdsUnique(db.requests, request.value);
      if request.value.toLinkToken != token {
        return Error(403, "Unauthorized - this request is not for you");
      }
      if request.value.status != Requests.Pending {
        return Error(400, "Request already processed");
      }
      var err := db.UpdateRequestStatus(request.value.id, status.value);
      assert err.None?;
      var name := StatusName(status.value);
      r := Response(200, map[
        "message" := JStr("Request " + name + " successfully"),
        "request_id" := requestId,
        "status" := JStr(name)]);
    }
  }

  /** With increasing ids, looking a request up by its id finds that request. */
  lemma RequestIdsUnique(rs: seq<Requests.Request>, r: Requests.Request)
    requires Requests.IdsIncreasing(rs) && r in rs
    ensures Requests.FindRequest(rs, r.id) == Some(r)
  {
    var f := Requests.FindRequest(rs, r.id);
    var j :| 0 <= j < |rs| && rs[j] == r;
    var k :| 0 <= k < |rs| && rs[k] == f.value;
  }
}
