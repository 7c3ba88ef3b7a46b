/** The decisions the route handlers take on request data before and after they touch the
    database: which credentials to check, whether a payload is small enough, what an action
    means, when the challenge rate limiter refuses, and how a page of messages is described. */
module Decisions {
  import opened Wrappers
  import opened Json
  import Text
  import Base64
  import opened Foreign
  import Messages
  import Requests
  import Store

  // ---------------------------------------------------------------------------
  // Credentials

  /** The credentials a protected route checks: a signed challenge, a bearer fetch token,
      or neither. */
  datatype Credentials = SignedChallenge(signature: Json, nonce: Json) | Bearer(token: string) | NoCredentials

  const BearerPrefix: string := "Bearer "

  predicate StartsWith(s: string, prefix: string) {
    |prefix| <= |s| && s[..|prefix|] == prefix
  }

  /** `auth_header.split(' ')[1]` for a header that starts with `Bearer `. */
  function BearerToken(header: string): (token: string)
    requires StartsWith(header, BearerPrefix)
    ensures ' ' !in token
  {
    var rest := header[|BearerPrefix|..];
    assert header == "Bearer" + [' '] + rest;
    Text.SplitAppend("Bearer", rest, ' ');
    Text.SplitNoSeparator("Bearer", ' ');
    Text.Split(header, ' ')[1]
  }

  /** A signature and a nonce that are both truthy select the challenge; otherwise a header
      starting with `Bearer ` selects its second space-separated word. */
  function SelectCredentials(signature: Json, nonce: Json, authorization: Option<string>): (c: Credentials)
    ensures c.SignedChallenge? <==> Truthy(signature) && Truthy(nonce)
    ensures c.SignedChallenge? ==> c == SignedChallenge(signature, nonce)
    ensures c.Bearer? ==> authorization.Some? && StartsWith(authorization.value, BearerPrefix)
    ensures c.NoCredentials? <==>
      !(Truthy(signature) && Truthy(nonce)) && !(authorization.Some? && StartsWith(authorization.value, BearerPrefix))
  {
    if Truthy(signature) && Truthy(nonce) then SignedChallenge(signature, nonce)
    else if authorization.Some? && StartsWith(authorization.value, BearerPrefix) then Bearer(BearerToken(authorization.value))
    else NoCredentials
  }

  /** The token is the first word after the prefix. */
  lemma BearerFirstWord(rest: string)
    ensures StartsWith(BearerPrefix + rest, BearerPrefix)
    ensures BearerToken(BearerPrefix + rest) == Text.Split(rest, ' ')[0]
  {
    var word := "Bearer";
    assert BearerPrefix == word + [' '];
    var h := BearerPrefix + rest;
    assert h[..|BearerPrefix|] == BearerPrefix;
    assert ' ' !in word;
    Text.SplitAppend(word, rest, ' ');
    Text.SplitNoSeparator(word, ' ');
    assert Text.Split(h, ' ') == [word] + Text.Split(rest, ' ');
  }

  /** Without a challenge, a `Bearer ` header selects its token. */
  lemma SelectBearer(header: string)
    requires StartsWith(header, BearerPrefix)
    ensures SelectCredentials(JNull, JNull, Some(header)) == Bearer(BearerToken(header))
  {
  }

  /** Words after the token do not change it. */
  lemma BearerTokenBeforeMore(token: string, rest: string)
    requires ' ' !in token
    ensures StartsWith(BearerPrefix + (token + [' '] + rest), BearerPrefix)
    ensures BearerToken(BearerPrefix + (token + [' '] + rest)) == token
  {
    BearerFirstWord(token + [' '] + rest);
    Text.SplitAppend(token, rest, ' ');
    Text.SplitNoSeparator(token, ' ');
  }

  /** The token read from `Bearer <token>` is the token, also when more words follow. */
  lemma BearerTokenRead(token: string, rest: string)
    requires ' ' !in token
    ensures SelectCredentials(JNull, JNull, Some(BearerPrefix + token)) == Bearer(token)
    ensures SelectCredentials(JNull, JNull, Some(BearerPrefix + token + " " + rest)) == Bearer(token)
  {
    BearerFirstWord(token);
    Text.SplitNoSeparator(token, ' ');
    SelectBearer(BearerPrefix + token);
    BearerTokenBeforeMore(token, rest);
    var h := BearerPrefix + (token + [' '] + rest);
    assert BearerPrefix + token + " " + rest == h;
    SelectBearer(h);
  }

  // ---------------------------------------------------------------------------
  // Payload limits of the send route

  const MaxMessageBytes: nat := 16 * 1024
  const MaxMetadataChars: nat := 4 * 1024
  const InvalidBase64: string := "Invalid base64 for encrypted_message"
  const MessageTooLarge: string := "Encrypted message too large (max 16KB)"
  const MetadataTooLarge: string := "Metadata too large (max 4KB)"

  /** An error response: its status and the text of its `error` field. */
  datatype Rejection = Rejection(status: int, error: string)

  /** The payload of an encrypted message is base64 text of at most 16 KiB of bytes. */
  predicate MessageFits(encrypted: Json) {
    && encrypted.JStr?
    && Base64.Decode(encrypted.s, false).Some?
    && |Base64.Decode(encrypted.s, false).value| <= MaxMessageBytes
  }

  /** Metadata, when present, serialises to at most 4096 characters. */
  predicate MetadataFits(prims: Primitives, metadata: Json) {
    metadata == JNull || |prims.jsonDumps(metadata)| <= MaxMetadataChars
  }

  /** The size checks of the send route, in their order. */
  function CheckPayload(prims: Primitives, encrypted: Json, metadata: Json): (r: Option<Rejection>)
    ensures r.None? <==> MessageFits(encrypted) && MetadataFits(prims, metadata)
    ensures r.Some? && r.value.status == 400 <==> !(encrypted.JStr? && Base64.Decode(encrypted.s, false).Some?)
    ensures r.Some? ==> r.value in {Rejection(400, InvalidBase64), Rejection(413, MessageTooLarge), Rejection(413, MetadataTooLarge)}
  {
    if !encrypted.JStr? then Some(Rejection(400, InvalidBase64))
    else match Base64.Decode(encrypted.s, false)
      case None => Some(Rejection(400, InvalidBase64))
      case Some(bytes) =>
        if |bytes| > MaxMessageBytes then Some(Rejection(413, MessageTooLarge))
        else if metadata != JNull && |prims.jsonDumps(metadata)| > MaxMetadataChars then Some(Rejection(413, MetadataTooLarge))
        else None
  }

  /** The limit is inclusive: 16384 bytes pass and 16385 bytes are refused. */
  lemma MessageSizeBoundary(prims: Primitives, bytes: seq<byte>)
    ensures |bytes| == MaxMessageBytes ==>
      CheckPayload(prims, JStr(Base64.Encode(bytes, false)), JNull) == None
    ensures |bytes| == MaxMessageBytes + 1 ==>
      CheckPayload(prims, JStr(Base64.Encode(bytes, false)), JNull) == Some(Rejection(413, MessageTooLarge))
  {
    Base64.DecodeEncode(bytes, false);
  }

  // ---------------------------------------------------------------------------
  // Registration and responses to requests

  const SupportedKeyType: string := "ed25519"

  /** `key_type not in ['ed25519']`. */
  predicate KeyTypeSupported(keyType: Json) {
    keyType == JStr(SupportedKeyType)
  }

  /** The status an `action` sets: `accept` and `reject` only. */
  function ActionStatus(action: Json): (s: Option<Requests.Status>)
    ensures s.Some? <==> action == JStr("accept") || action == JStr("reject")
    ensures s == Some(Requests.Accepted) <==> action == JStr("accept")
    ensures s.Some? ==> s.value != Requests.Pending
  {
    if action == JStr("accept") then Some(Requests.Accepted)
    else if action == JStr("reject") then Some(Requests.Rejected)
    else None
  }

  function StatusName(s: Requests.Status): string {
    match s
    case Pending => "pending"
    case Accepted => "accepted"
    case Rejected => "rejected"
  }

  // ---------------------------------------------------------------------------
  // The challenge rate limiter

  const MaxOutstanding: nat := 5
  const CooldownSeconds: int := 3
  const TooManyChallenges: string := "Too many outstanding challenges"
  const TooFrequent: string := "Challenge requested too frequently"

  /** The two limits, in order: at most five outstanding challenges, and three seconds since
      the latest one. */
  function Throttle(outstanding: nat, latest: Option<int>, now: int): (r: Option<string>)
    ensures r.None? <==> outstanding < MaxOutstanding && (latest.None? || now - latest.value >= CooldownSeconds)
    ensures outstanding >= MaxOutstanding ==> r == Some(TooManyChallenges)
  {
    if outstanding >= MaxOutstanding then Some(TooManyChallenges)
    else if latest.Some? && now - latest.value < CooldownSeconds then Some(TooFrequent)
    else None
  }

  // ---------------------------------------------------------------------------
  // The fetch route's call into the database

  /** The keyword parameters `Database.get_messages` declares. */
  const GetMessagesParameters: set<string> := {"include_seen", "limit", "before_id"}
  /** The keyword arguments the fetch route passes, in the order it passes them. */
  const FetchKeywords: seq<string> := ["include_seen", "limit", "before_id", "since_id", "order"]
  /** The parameters of the query the route was written against. */
  const OrderedParameters: set<string> := GetMessagesParameters + {"since_id", "order"}

  /** The first keyword argument a function does not declare: Python raises `TypeError`
      naming it. */
  function UnexpectedKeyword(passed: seq<string>, declared: set<string>): (r: Option<string>)
    ensures r.None? <==> forall i :: 0 <= i < |passed| ==> passed[i] in declared
    ensures r.Some? ==>
      exists i :: 0 <= i < |passed| && passed[i] == r.value && r.value !in declared && forall j :: 0 <= j < i ==> passed[j] in declared
  {
    if passed == [] then None
    else if passed[0] !in declared then Some(passed[0])
    else
      var r := UnexpectedKeyword(passed[1..], declared);
      assert forall i :: 1 <= i < |passed| ==> passed[i] == passed[1..][i - 1];
      r
  }

  function KeywordError(name: string): string {
    "Database.get_messages() got an unexpected keyword argument '" + name + "'"
  }

  /** As written, the call always fails on `since_id`; against the query it was written for,
      every keyword is declared. */
  lemma FetchCallRejected()
    ensures UnexpectedKeyword(FetchKeywords, GetMessagesParameters) == Some("since_id")
    ensures UnexpectedKeyword(FetchKeywords, OrderedParameters) == None
  {
    assert FetchKeywords[3] == "since_id" && "since_id" !in GetMessagesParameters;
    assert FetchKeywords[0] in GetMessagesParameters;
  }

  // ---------------------------------------------------------------------------
  // has_more

  /** `int(limit)`, and 50 when that raises. */
  function CoercedLimit(limit: Json): (n: int)
    ensures IntOf(limit).Some? ==> n == IntOf(limit).value
    ensures IntOf(limit).None? ==> n == Store.DefaultPageSize
  {
    match IntOf(limit)
    case Some(v) => v
    case None => Store.DefaultPageSize
  }

  /** The page size the database applies to the coerced limit. */
  function EffectivePageSize(limit: Json): (n: nat)
    ensures 1 <= n <= Store.MaxPageSize
  {
    Store.PageSize(JInt(CoercedLimit(limit)))
  }

  /** `len(message_list) == limit`, against the limit before the database clamps it: for a
      limit the database leaves alone it is the comparison against the page size, and
      otherwise it compares against the limit the client sent. */
  predicate HasMoreAsWritten(count: nat, limit: Json)
    ensures 1 <= CoercedLimit(limit) <= Store.MaxPageSize ==>
      (HasMoreAsWritten(count, limit) <==> count == EffectivePageSize(limit))
    ensures IntOf(limit).None? ==> (HasMoreAsWritten(count, limit) <==> count == Store.DefaultPageSize)
  {
    count == CoercedLimit(limit)
  }

  /** The comparison against the page size actually applied: a full page, so only a count
      between 1 and 200 can report more. */
  predicate HasMore(count: nat, limit: Json)
    ensures HasMore(count, limit) ==> 1 <= count <= Store.MaxPageSize
  {
    count == EffectivePageSize(limit)
  }

  /** With more than 200 matching rows and a limit of 500, the page holds 200 rows, rows
      remain, and the written comparison still reports no more. */
  lemma HasMoreMissesRows(ms: seq<Messages.Message>, q: Messages.Query)
    requires |Messages.Filter(ms, q)| > Store.MaxPageSize
    ensures |Messages.Newest(ms, q, EffectivePageSize(JInt(500)))| == Store.MaxPageSize
    ensures |Messages.Newest(ms, q, EffectivePageSize(JInt(500)))| < |Messages.Filter(ms, q)|
    ensures !HasMoreAsWritten(|Messages.Newest(ms, q, EffectivePageSize(JInt(500)))|, JInt(500))
  {
    Messages.PageLengths(ms, q, EffectivePageSize(JInt(500)));
  }

  /** With a limit of 0 and nothing stored, the page is empty and the written comparison
      reports more. */
  lemma HasMoreInventsRows(q: Messages.Query)
    ensures Messages.Newest([], q, EffectivePageSize(JInt(0))) == []
    ensures HasMoreAsWritten(0, JInt(0))
  {
  }

  /** When the corrected comparison says there is no more, the page holds every matching row,
      in either order. */
  lemma HasMoreSound(ms: seq<Messages.Message>, q: Messages.Query, limit: Json, m: Messages.Message)
    requires Messages.IdsIncreasing(ms)
    requires m in ms && Messages.Matches(m, q)
    ensures !HasMore(|Messages.Newest(ms, q, EffectivePageSize(limit))|, limit) ==>
      m in Messages.Newest(ms, q, EffectivePageSize(limit))
    ensures !HasMore(|Messages.Oldest(ms, q, EffectivePageSize(limit))|, limit) ==>
      m in Messages.Oldest(ms, q, EffectivePageSize(limit))
  {
    var n := EffectivePageSize(limit);
    if m !in Messages.Newest(ms, q, n) {
      Messages.NewestMaximal(ms, q, n, m);
    }
    if m !in Messages.Oldest(ms, q, n) {
      Messages.OldestMaximal(ms, q, n, m);
    }
  }

  /** The cursors of the fetch route: the integer MySQL compares `id` with, or none. */
  function Cursor(j: Json): Option<int> {
    SqlId(j)
  }
}
