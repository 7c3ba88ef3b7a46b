/** The pure helpers of the relay (`utils.py`): input sanitising, link validation, the
    response envelope, public-key validation, signature checking and the token formats.
    Random bytes are parameters. */
module Utils {
  import opened Wrappers
  import opened Json
  import Text
  import Base64
  import opened Foreign

  // ---------------------------------------------------------------------------
  // sanitize_input

  /** The characters `sanitize_input` deletes: `< > " ' ; ( ) & +`. */
  predicate Forbidden(c: char) {
    c == '<' || c == '>' || c == '"' || c == '\'' || c == ';' || c == '(' || c == ')'
    || c == '&' || c == '+'
  }

  /** The regular-expression substitution that deletes every forbidden character: a single
      character is kept exactly when it is allowed, and with `RemoveForbiddenConcat` the
      kept characters stay in their order and number. */
  function RemoveForbidden(s: string): (r: string)
    ensures |r| <= |s|
    ensures forall c :: c in r <==> c in s && !Forbidden(c)
    ensures |s| == 1 ==> r == (if Forbidden(s[0]) then [] else s)
  {
    if s == [] then []
    else
      var rest := RemoveForbidden(s[1..]);
      assert s == [s[0]] + s[1..];
      if Forbidden(s[0]) then rest else [s[0]] + rest
  }

  /** The substitution works on each part of a string separately. */
  lemma {:induction false} RemoveForbiddenConcat(a: string, b: string)
    ensures RemoveForbidden(a + b) == RemoveForbidden(a) + RemoveForbidden(b)
  {
    if a == [] {
      assert a + b == b;
    } else {
      assert (a + b)[0] == a[0] && (a + b)[1..] == a[1..] + b;
      RemoveForbiddenConcat(a[1..], b);
    }
  }

  /** A string without forbidden characters passes the substitution unchanged. */
  lemma {:induction false} RemoveForbiddenClean(s: string)
    requires forall c :: c in s ==> !Forbidden(c)
    ensures RemoveForbidden(s) == s
  {
    if s != [] {
      assert s[0] in s;
      assert forall c :: c in s[1..] ==> c in s;
      RemoveForbiddenClean(s[1..]);
    }
  }

  /** `sanitize_input(data)`: a string loses its forbidden characters and then its
      surrounding whitespace, keeping everything in between; any other value is returned as
      it is. */
  function SanitizeInput(data: Json): (r: Json)
    ensures !data.JStr? ==> r == data
    ensures data.JStr? ==> r.JStr? && (forall c :: c in r.s ==> c in data.s && !Forbidden(c))
    ensures data.JStr? ==> r.JStr? && (r.s == [] || (!Text.IsSpace(r.s[0]) && !Text.IsSpace(r.s[|r.s| - 1])))
    ensures data.JStr? ==>
      var kept := RemoveForbidden(data.s);
      var k := Text.LeadingSpace(kept);
      && k + |r.s| <= |kept| && r.s == kept[k..k + |r.s|]
      && forall i :: k + |r.s| <= i < |kept| ==> Text.IsSpace(kept[i])
  {
    if data.JStr? then SanitizedChars(data.s); JStr(Text.Strip(RemoveForbidden(data.s))) else data
  }

  /** What survives sanitising was in the input and is allowed. */
  lemma SanitizedChars(s: string)
    ensures forall c :: c in Text.Strip(RemoveForbidden(s)) ==> c in s && !Forbidden(c)
  {
    var kept := RemoveForbidden(s);
    forall c | c in Text.Strip(kept) ensures c in s && !Forbidden(c) {
      assert c in kept;
    }
  }

  /** Sanitising twice is sanitising once. */
  lemma SanitizeIdempotent(data: Json)
    ensures SanitizeInput(SanitizeInput(data)) == SanitizeInput(data)
  {
    if data.JStr? {
      var t := SanitizeInput(data).s;
      RemoveForbiddenClean(t);
      Text.StripIdempotent(RemoveForbidden(data.s));
    }
  }

  // ---------------------------------------------------------------------------
  // validate_secure_link

  predicate LowerHex(c: char) {
    ('0' <= c <= '9') || ('a' <= c <= 'f')
  }

  /** `re.match(r'^[a-f0-9]{32}$', s)`: 32 lower-case hexadecimal characters, then the end
      of the string or a final newline (Python's `$` also matches before one). */
  predicate MatchesHex32(s: string) {
    && |s| >= 32
    && (forall i :: 0 <= i < 32 ==> LowerHex(s[i]))
    && (|s| == 32 || (|s| == 33 && s[32] == '\n'))
  }

  /** `validate_secure_link(link)`: a string, of length 32, matching the pattern; that is,
      exactly 32 lower-case hexadecimal characters. */
  function ValidateSecureLink(link: Json): (ok: bool)
    ensures ok <==> link.JStr? && |link.s| == 32 && forall i :: 0 <= i < |link.s| ==> LowerHex(link.s[i])
  {
    link.JStr? && |link.s| == 32 && MatchesHex32(link.s)
  }

  /** The pattern alone lets a trailing newline through; the length check is what stops it. */
  lemma SecureLinkNewline(s: string)
    requires |s| == 32 && forall i :: 0 <= i < 32 ==> LowerHex(s[i])
    ensures MatchesHex32(s + "\n") && !ValidateSecureLink(JStr(s + "\n"))
  {
    var t := s + "\n";
    assert forall i :: 0 <= i < 32 ==> t[i] == s[i];
  }

  // ---------------------------------------------------------------------------
  // create_response

  /** `create_response(success, message, data, error_code)`, with `None` as `JNull`. */
  function CreateResponse(success: Json, message: Json, data: Json, errorCode: Json): (r: Json)
    ensures r.JObj?
    ensures "success" in r.fields && r.fields["success"] == success
    ensures "message" in r.fields && r.fields["message"] == message
    ensures "timestamp" in r.fields && r.fields["timestamp"] == JNull
    ensures ("data" in r.fields <==> data != JNull) && ("data" in r.fields ==> r.fields["data"] == data)
    ensures ("error_code" in r.fields <==> errorCode != JNull)
      && ("error_code" in r.fields ==> r.fields["error_code"] == errorCode)
    ensures r.fields.Keys <= {"success", "message", "timestamp", "data", "error_code"}
  {
    var base := map["success" := success, "message" := message, "timestamp" := JNull];
    var withData := if data != JNull then base["data" := data] else base;
    JObj(if errorCode != JNull then withData["error_code" := errorCode] else withData)
  }

  // ---------------------------------------------------------------------------
  // Public keys and signatures

  /** `validate_public_key(public_key_b64)`: a string that decodes to exactly 32 bytes. The
      PyNaCl constructors it then calls are taken to accept every 32-byte key. Such a key
      is 44 characters of base64. */
  function ValidatePublicKey(publicKey: Json): (ok: bool)
    ensures ok <==>
      publicKey.JStr? && Base64.Decode(publicKey.s, false).Some? && |Base64.Decode(publicKey.s, false).value| == 32
    ensures ok ==> |publicKey.s| == 44
  {
    if !publicKey.JStr? then false
    else
      var key := Base64.Decode(publicKey.s, false);
      if key.None? || |key.value| != 32 then false
      else
        var n := |publicKey.s|;
        assert n % 4 == 0 && n / 4 * 3 - 2 <= 32 <= n / 4 * 3;
        true
  }

  /** The encoding of every 32 bytes is a valid key. */
  lemma PublicKeyShape(key: seq<byte>)
    requires |key| == 32
    ensures ValidatePublicKey(JStr(Base64.Encode(key, false)))
  {
    Base64.DecodeEncode(key, false);
  }

  /** `verify_signature(public_key_b64, message, signature_b64)`: when both texts decode and
      the key is 32 bytes long the answer is Ed25519's; otherwise the check fails rather
      than raising. */
  function VerifySignature(prims: Primitives, publicKey: string, message: seq<byte>, signature: Json): (ok: bool)
    ensures ok ==> signature.JStr? && Base64.Decode(signature.s, false).Some?
    ensures ok ==> var key := Base64.Decode(publicKey, false); key.Some? && |key.value| == 32
    ensures (&& signature.JStr? && Base64.Decode(signature.s, false).Some?
             && Base64.Decode(publicKey, false).Some? && |Base64.Decode(publicKey, false).value| == 32) ==>
      ok == prims.ed25519Verify(Base64.Decode(publicKey, false).value, message, Base64.Decode(signature.s, false).value)
  {
    if !signature.JStr? then false
    else
      var key := Base64.Decode(publicKey, false);
      var sig := Base64.Decode(signature.s, false);
      if key.None? || sig.None? || |key.value| != 32 then false
      else prims.ed25519Verify(key.value, message, sig.value)
  }

  /** `hash_token(token)`: the SHA-256 hex digest of the token's UTF-8 bytes, which for the
      ASCII tokens the relay issues are their character codes. */
  function HashToken(prims: Primitives, token: string): (h: string)
    ensures Text.IsAscii(token) ==> h == prims.sha256Hex(Text.Codes(token))
  {
    if Text.IsAscii(token) then Text.Utf8Ascii(token); prims.sha256Hex(Text.Utf8(token))
    else prims.sha256Hex(Text.Utf8(token))
  }

  // ---------------------------------------------------------------------------
  // Token formats

  /** `generate_link_token()` over the 24 random bytes it draws. */
  function GenerateLinkToken(randomBytes: seq<byte>): string {
    "link_" + Base64.RStrip(Base64.Encode(randomBytes, true), '=')
  }

  /** `generate_fetch_token()` over the 48 random bytes it draws. */
  function GenerateFetchToken(randomBytes: seq<byte>): string {
    Base64.RStrip(Base64.Encode(randomBytes, true), '=')
  }

  /** `generate_challenge_nonce()` over the 32 random bytes it draws. */
  function GenerateChallengeNonce(randomBytes: seq<byte>): string {
    Base64.Encode(randomBytes, false)
  }

  /** A link token is `link_` and 32 URL-safe characters without padding: 37 in all. */
  lemma LinkTokenShape(randomBytes: seq<byte>)
    requires |randomBytes| == 24
    ensures var t := GenerateLinkToken(randomBytes);
      && |t| == 37 && t[..5] == "link_"
      && (forall i :: 5 <= i < 37 ==> Base64.InAlphabet(t[i], true))
      && '=' !in t
  {
    var e := Base64.Encode(randomBytes, true);
    Base64.StrippedEncoding(randomBytes, true);
    Base64.EncodeShape(randomBytes, true);
    var r := Base64.RStrip(e, '=');
    assert |e| == 32 && Base64.Pad(24) == 0 && r == e;
    var t := GenerateLinkToken(randomBytes);
    forall i | 5 <= i < 37 ensures Base64.InAlphabet(t[i], true) {
      assert t[i] == e[i - 5];
    }
  }

  /** Different random bytes give different link tokens. */
  lemma LinkTokenInjective(a: seq<byte>, b: seq<byte>)
    requires GenerateLinkToken(a) == GenerateLinkToken(b)
    ensures a == b
  {
    var ta, tb := GenerateLinkToken(a), GenerateLinkToken(b);
    assert ta[5..] == tb[5..];
    assert ta[5..] == Base64.RStrip(Base64.Encode(a, true), '=');
    assert tb[5..] == Base64.RStrip(Base64.Encode(b, true), '=');
    Base64.StrippedInjective(a, b, true);
  }

  /** A fetch token is 64 URL-safe characters: 48 bytes need no padding, so the `rstrip`
      removes nothing. */
  lemma FetchTokenShape(randomBytes: seq<byte>)
    requires |randomBytes| == 48
    ensures var t := GenerateFetchToken(randomBytes);
      && t == Base64.Encode(randomBytes, true)
      && |t| == 64
      && forall i :: 0 <= i < 64 ==> Base64.InAlphabet(t[i], true)
  {
    Base64.StrippedEncoding(randomBytes, true);
    Base64.EncodeShape(randomBytes, true);
    assert Base64.Pad(48) == 0;
  }

  /** A nonce is 44 characters of the standard alphabet, the last of them the one padding
      `=`; all of it is ASCII, so its UTF-8 bytes are its character codes. */
  lemma NonceShape(randomBytes: seq<byte>)
    requires |randomBytes| == 32
    ensures var n := GenerateChallengeNonce(randomBytes);
      && |n| == 44 && n[43] == '='
      && (forall i :: 0 <= i < 43 ==> Base64.InAlphabet(n[i], false))
      && Text.IsAscii(n)
  {
    var n := GenerateChallengeNonce(randomBytes);
    Base64.EncodeShape(randomBytes, false);
    assert Base64.Pad(32) == 1;
    forall i | 0 <= i < 43 ensures n[i] as int < 0x80 {
      var v := Base64.Value(n[i], false).value;
      Base64.ValueOfChar(v, false);
    }
  }
}
