/** Base 64 encoding as RFC 4648 defines it: the standard alphabet of section 4 and the
    URL- and filename-safe alphabet of section 5, with `=` padding to a multiple of four
    characters. The decoder is the strict one of section 4: it accepts exactly the
    alphabet, in groups of four, with padding only at the end. */
module Base64 {
  import opened Wrappers

  /** The character that encodes the 6-bit value `v`. */
  function Char(v: int, urlSafe: bool): char
    requires 0 <= v < 64
  {
    if v < 26 then ('A' as int + v) as char
    else if v < 52 then ('a' as int + (v - 26)) as char
    else if v < 62 then ('0' as int + (v - 52)) as char
    else if v == 62 then (if urlSafe then '-' else '+')
    else (if urlSafe then '_' else '/')
  }

  /** The 6-bit value a character encodes, `None` outside the alphabet; it inverts `Char`. */
  function Value(c: char, urlSafe: bool): (r: Option<int>)
    ensures r.Some? ==> 0 <= r.value < 64 && Char(r.value, urlSafe) == c
    ensures c == '=' ==> r.None?
  {
    if 'A' <= c <= 'Z' then Some(c as int - 'A' as int)
    else if 'a' <= c <= 'z' then Some(c as int - 'a' as int + 26)
    else if '0' <= c <= '9' then Some(c as int - '0' as int + 52)
    else if c == (if urlSafe then '-' else '+') then Some(62)
    else if c == (if urlSafe then '_' else '/') then Some(63)
    else None
  }

  predicate InAlphabet(c: char, urlSafe: bool) {
    Value(c, urlSafe).Some?
  }

  lemma ValueOfChar(v: int, urlSafe: bool)
    requires 0 <= v < 64
    ensures Value(Char(v, urlSafe), urlSafe) == Some(v)
    ensures Char(v, urlSafe) as int < 0x80
  {
  }

  /** The number of `=` characters that pad the encoding of `n` bytes. */
  function Pad(n: nat): nat {
    (3 - n % 3) % 3
  }

  /** The four characters for a group of one to three bytes; a short final group is
      completed with `=`. */
  function Quad(g: seq<byte>, urlSafe: bool): (r: string)
    requires 1 <= |g| <= 3
    ensures |r| == 4
  {
    var c0 := Char(g[0] / 4, urlSafe);
    if |g| == 1 then [c0, Char((g[0] % 4) * 16, urlSafe), '=', '=']
    else if |g| == 2 then
      [c0, Char((g[0] % 4) * 16 + g[1] / 16, urlSafe), Char((g[1] % 16) * 4, urlSafe), '=']
    else
      [c0, Char((g[0] % 4) * 16 + g[1] / 16, urlSafe), Char((g[1] % 16) * 4 + g[2] / 64, urlSafe),
       Char(g[2] % 64, urlSafe)]
  }

  /** The encoding of `b`: each group of three bytes becomes four characters, and a final
      group of one or two bytes is padded with `==` or `=`. */
  function Encode(b: seq<byte>, urlSafe: bool): (r: string)
    ensures |r| == 4 * ((|b| + 2) / 3)
    decreases |b|
  {
    if |b| == 0 then ""
    else if |b| <= 3 then Quad(b, urlSafe)
    else
      EncodedLengthStep(|b|);
      Quad(b[..3], urlSafe) + Encode(b[3..], urlSafe)
  }

  lemma EncodedLengthStep(n: nat)
    requires n > 3
    ensures 4 * ((n + 2) / 3) == 4 + 4 * ((n - 3 + 2) / 3)
  {
  }

  /** Alphabet characters followed by exactly `pad` padding characters. */
  predicate Shaped(r: string, pad: nat, urlSafe: bool) {
    && pad <= |r|
    && (forall i :: 0 <= i < |r| - pad ==> InAlphabet(r[i], urlSafe))
    && (forall i :: |r| - pad <= i < |r| ==> r[i] == '=')
  }

  lemma QuadShape(g: seq<byte>, urlSafe: bool)
    requires 1 <= |g| <= 3
    ensures Shaped(Quad(g, urlSafe), Pad(|g|), urlSafe)
  {
    ValueOfChar(g[0] / 4, urlSafe);
    if |g| == 1 {
      ValueOfChar((g[0] % 4) * 16, urlSafe);
    } else if |g| == 2 {
      ValueOfChar((g[0] % 4) * 16 + g[1] / 16, urlSafe);
      ValueOfChar((g[1] % 16) * 4, urlSafe);
    } else {
      ValueOfChar((g[0] % 4) * 16 + g[1] / 16, urlSafe);
      ValueOfChar((g[1] % 16) * 4 + g[2] / 64, urlSafe);
      ValueOfChar(g[2] % 64, urlSafe);
    }
  }

  lemma ShapedConcat(g: string, r: string, pad: nat, urlSafe: bool)
    requires Shaped(g, 0, urlSafe) && Shaped(r, pad, urlSafe)
    ensures Shaped(g + r, pad, urlSafe)
  {
  }

  /** An encoding is alphabet characters followed by exactly `Pad(|b|)` padding characters. */
  lemma {:induction false} EncodeShape(b: seq<byte>, urlSafe: bool)
    ensures Shaped(Encode(b, urlSafe), Pad(|b|), urlSafe)
    decreases |b|
  {
    if 1 <= |b| <= 3 {
      EncodeShapeShort(b, urlSafe);
    } else if |b| > 3 {
      EncodeShape(b[3..], urlSafe);
      EncodeShapeStep(b, urlSafe);
    }
  }

  lemma EncodeShapeShort(b: seq<byte>, urlSafe: bool)
    requires 1 <= |b| <= 3
    ensures Shaped(Encode(b, urlSafe), Pad(|b|), urlSafe)
  {
    assert Encode(b, urlSafe) == Quad(b, urlSafe);
    QuadShape(b, urlSafe);
  }

  lemma EncodeShapeStep(b: seq<byte>, urlSafe: bool)
    requires |b| > 3 && Shaped(Encode(b[3..], urlSafe), Pad(|b| - 3), urlSafe)
    ensures Shaped(Encode(b, urlSafe), Pad(|b|), urlSafe)
  {
    var q, rest := Quad(b[..3], urlSafe), Encode(b[3..], urlSafe);
    assert Encode(b, urlSafe) == q + rest;
    QuadShape(b[..3], urlSafe);
    ShapedStep(q, rest, |b|, urlSafe);
  }

  /** A full group ahead of the encoding of the remaining `n - 3` bytes. */
  lemma ShapedStep(q: string, rest: string, n: nat, urlSafe: bool)
    requires n > 3 && Shaped(q, Pad(3), urlSafe) && Shaped(rest, Pad(n - 3), urlSafe)
    ensures Shaped(q + rest, Pad(n), urlSafe)
  {
    assert Pad(3) == 0;
    assert n % 3 == (n - 3) % 3;
    ShapedConcat(q, rest, Pad(n - 3), urlSafe);
  }

  /** Three bytes from four 6-bit values. */
  function Bytes3(v0: int, v1: int, v2: int, v3: int): seq<byte>
    requires 0 <= v0 < 64 && 0 <= v1 < 64 && 0 <= v2 < 64 && 0 <= v3 < 64
  {
    [v0 * 4 + v1 / 16, (v1 % 16) * 16 + v2 / 4, (v2 % 4) * 64 + v3]
  }

  /** The strict decoder; `None` for anything that is not a padded encoding. */
  function Decode(s: string, urlSafe: bool): (r: Option<seq<byte>>)
    ensures r.Some? ==> |s| % 4 == 0 && |s| / 4 * 3 - 2 <= |r.value| <= |s| / 4 * 3
    decreases |s|
  {
    if |s| == 0 then Some([])
    else if |s| < 4 then None
    else
      var v0, v1 := Value(s[0], urlSafe), Value(s[1], urlSafe);
      if v0.None? || v1.None? then None
      else if |s| == 4 && s[2] == '=' && s[3] == '=' then
        Some([v0.value * 4 + v1.value / 16])
      else
        var v2 := Value(s[2], urlSafe);
        if v2.None? then None
        else if |s| == 4 && s[3] == '=' then
          Some([v0.value * 4 + v1.value / 16, (v1.value % 16) * 16 + v2.value / 4])
        else
          var v3 := Value(s[3], urlSafe);
          if v3.None? then None
          else
            var rest := Decode(s[4..], urlSafe);
            if rest.None? then None
            else Some(Bytes3(v0.value, v1.value, v2.value, v3.value) + rest.value)
  }

  /** The arithmetic of one group: splitting three bytes into four 6-bit values and
      joining them again is the identity. */
  lemma GroupRoundTrip(b0: byte, b1: byte, b2: byte)
    ensures Bytes3(b0 / 4, (b0 % 4) * 16 + b1 / 16, (b1 % 16) * 4 + b2 / 64, b2 % 64) == [b0, b1, b2]
  {
    var c1 := (b0 % 4) * 16 + b1 / 16;
    var c2 := (b1 % 16) * 4 + b2 / 64;
    assert c1 / 16 == b0 % 4 && c1 % 16 == b1 / 16;
    assert c2 / 4 == b1 % 16 && c2 % 4 == b2 / 64;
  }

  /** The arithmetic of a final group of two bytes. */
  lemma PairRoundTrip(b0: byte, b1: byte)
    ensures var v1, v2 := (b0 % 4) * 16 + b1 / 16, (b1 % 16) * 4;
      (b0 / 4) * 4 + v1 / 16 == b0 && (v1 % 16) * 16 + v2 / 4 == b1
  {
    var v1, v2 := (b0 % 4) * 16 + b1 / 16, (b1 % 16) * 4;
    assert v1 / 16 == b0 % 4 && v1 % 16 == b1 / 16;
    assert v2 / 4 == b1 % 16;
  }

  lemma DecodeOne(g: seq<byte>, urlSafe: bool)
    requires |g| == 1
    ensures Decode(Quad(g, urlSafe), urlSafe) == Some(g)
  {
    var v0, v1 := g[0] / 4, (g[0] % 4) * 16;
    ValueOfChar(v0, urlSafe);
    ValueOfChar(v1, urlSafe);
    assert v1 / 16 == g[0] % 4;
    var q := Quad(g, urlSafe);
    assert q == [Char(v0, urlSafe), Char(v1, urlSafe), '=', '='];
    assert Decode(q, urlSafe) == Some([v0 * 4 + v1 / 16]);
    assert [g[0]] == g;
  }

  lemma DecodeTwo(g: seq<byte>, urlSafe: bool)
    requires |g| == 2
    ensures Decode(Quad(g, urlSafe), urlSafe) == Some(g)
  {
    var v0, v1, v2 := g[0] / 4, (g[0] % 4) * 16 + g[1] / 16, (g[1] % 16) * 4;
    ValueOfChar(v0, urlSafe);
    ValueOfChar(v1, urlSafe);
    ValueOfChar(v2, urlSafe);
    PairRoundTrip(g[0], g[1]);
    var q := Quad(g, urlSafe);
    assert q == [Char(v0, urlSafe), Char(v1, urlSafe), Char(v2, urlSafe), '='];
    assert Decode(q, urlSafe) == Some([v0 * 4 + v1 / 16, (v1 % 16) * 16 + v2 / 4]);
    assert [g[0], g[1]] == g;
  }

  /** The values of the four characters of a full group. */
  lemma QuadValues(g: seq<byte>, urlSafe: bool)
    requires |g| == 3
    ensures var q := Quad(g, urlSafe);
      && Value(q[0], urlSafe) == Some(g[0] / 4)
      && Value(q[1], urlSafe) == Some((g[0] % 4) * 16 + g[1] / 16)
      && Value(q[2], urlSafe) == Some((g[1] % 16) * 4 + g[2] / 64)
      && Value(q[3], urlSafe) == Some(g[2] % 64)
  {
    ValueOfChar(g[0] / 4, urlSafe);
    ValueOfChar((g[0] % 4) * 16 + g[1] / 16, urlSafe);
    ValueOfChar((g[1] % 16) * 4 + g[2] / 64, urlSafe);
    ValueOfChar(g[2] % 64, urlSafe);
  }

  /** A full group of four alphabet characters decodes to three bytes ahead of the rest. */
  lemma DecodeGroup(s: string, urlSafe: bool)
    requires |s| >= 4
    requires InAlphabet(s[0], urlSafe) && InAlphabet(s[1], urlSafe)
    requires InAlphabet(s[2], urlSafe) && InAlphabet(s[3], urlSafe)
    ensures Decode(s, urlSafe) ==
      var rest := Decode(s[4..], urlSafe);
      if rest.None? then None
      else Some(Bytes3(Value(s[0], urlSafe).value, Value(s[1], urlSafe).value,
                       Value(s[2], urlSafe).value, Value(s[3], urlSafe).value) + rest.value)
  {
  }

  /** A full group followed by a decodable rest decodes to the group's bytes and the rest's. */
  lemma DecodeFull(g: seq<byte>, rest: string, tail: seq<byte>, urlSafe: bool)
    requires |g| == 3 && Decode(rest, urlSafe) == Some(tail)
    ensures Decode(Quad(g, urlSafe) + rest, urlSafe) == Some(g + tail)
  {
    var s := Quad(g, urlSafe) + rest;
    QuadValues(g, urlSafe);
    assert s[4..] == rest;
    DecodeGroup(s, urlSafe);
    GroupRoundTrip(g[0], g[1], g[2]);
    assert [g[0], g[1], g[2]] == g;
  }

  /** Decoding an encoding gives back the bytes. */
  lemma {:induction false} DecodeEncode(b: seq<byte>, urlSafe: bool)
    ensures Decode(Encode(b, urlSafe), urlSafe) == Some(b)
    decreases |b|
  {
    if |b| == 1 {
      DecodeOne(b, urlSafe);
    } else if |b| == 2 {
      DecodeTwo(b, urlSafe);
    } else if |b| == 3 {
      DecodeFull(b, "", [], urlSafe);
      assert Quad(b, urlSafe) + "" == Quad(b, urlSafe) == Encode(b, urlSafe);
      assert b + [] == b;
    } else if |b| > 3 {
      DecodeEncode(b[3..], urlSafe);
      DecodeFull(b[..3], Encode(b[3..], urlSafe), b[3..], urlSafe);
      assert b[..3] + b[3..] == b;
    }
  }

  /** `s.rstrip(c)`. */
  function RStrip(s: string, c: char): (r: string)
    ensures |r| <= |s| && r == s[..|r|]
    ensures r == [] || r[|r| - 1] != c
    ensures forall i :: |r| <= i < |s| ==> s[i] == c
  {
    if s != [] && s[|s| - 1] == c then RStrip(s[..|s| - 1], c) else s
  }

  /** The length of an encoding once its padding is stripped. */
  lemma UnpaddedLength(n: nat)
    ensures 4 * ((n + 2) / 3) - Pad(n) == (4 * n + 2) / 3
    ensures Pad(n) <= 4 * ((n + 2) / 3)
  {
    var q := n / 3;
    assert n == 3 * q + n % 3;
  }

  /** Stripping `c` from a string that ends in a run of `c` after a character that is not
      `c` leaves exactly what precedes the run. */
  lemma {:induction false} RStripRun(t: string, p: string, c: char)
    requires t == [] || t[|t| - 1] != c
    requires forall i :: 0 <= i < |p| ==> p[i] == c
    ensures RStrip(t + p, c) == t
    decreases |p|
  {
    if p != [] {
      var p' := p[..|p| - 1];
      assert (t + p)[..|t + p| - 1] == t + p';
      RStripRun(t, p', c);
    } else {
      assert t + p == t;
    }
  }

  /** Stripping a string shaped like an encoding of `n` bytes drops exactly its padding. */
  lemma StripShaped(s: string, n: nat, urlSafe: bool)
    requires |s| == 4 * ((n + 2) / 3) && Shaped(s, Pad(n), urlSafe)
    ensures RStrip(s, '=') == s[..|s| - Pad(n)]
    ensures |RStrip(s, '=')| == (4 * n + 2) / 3
  {
    UnpaddedLength(n);
    var k := |s| - Pad(n);
    assert s == s[..k] + s[k..];
    assert k > 0 ==> InAlphabet(s[k - 1], urlSafe);
    RStripRun(s[..k], s[k..], '=');
  }

  /** `Encode(b).rstrip('=')` drops exactly the padding. */
  lemma StrippedEncoding(b: seq<byte>, urlSafe: bool)
    ensures var s := Encode(b, urlSafe);
      && |s| >= Pad(|b|)
      && RStrip(s, '=') == s[..|s| - Pad(|b|)]
      && |RStrip(s, '=')| == (4 * |b| + 2) / 3
  {
    UnpaddedLength(|b|);
    EncodeShape(b, urlSafe);
    StripShaped(Encode(b, urlSafe), |b|, urlSafe);
  }

  /** The length of a stripped encoding: four characters for every three bytes, rounded up. */
  lemma StrippedLength(b: seq<byte>, urlSafe: bool)
    ensures |RStrip(Encode(b, urlSafe), '=')| == (4 * |b| + 2) / 3
  {
    StrippedEncoding(b, urlSafe);
  }

  /** `n` copies of `c`. */
  function Repeat(c: char, n: nat): (r: string)
    ensures |r| == n && forall i :: 0 <= i < n ==> r[i] == c
  {
    if n == 0 then "" else Repeat(c, n - 1) + [c]
  }

  /** The padding that completes an unpadded encoding of `m` characters to a multiple of four. */
  function PadFor(m: nat): nat {
    (4 - m % 4) % 4
  }

  lemma PadForUnpadded(n: nat)
    ensures PadFor((4 * n + 2) / 3) == Pad(n)
  {
    var q, r := n / 3, n % 3;
    assert n == 3 * q + r;
    var m := (4 * n + 2) / 3;
    if r == 0 {
      assert 4 * n + 2 == 3 * (4 * q) + 2;
      assert m == 4 * q;
    } else if r == 1 {
      assert 4 * n + 2 == 3 * (4 * q + 2);
      assert m == 4 * q + 2;
    } else {
      assert 4 * n + 2 == 3 * (4 * q + 3) + 1;
      assert m == 4 * q + 3;
    }
  }

  /** An encoding is its stripped form followed by the padding its length calls for, so the
      stripped form determines the encoding. */
  lemma EncodeSplit(b: seq<byte>, urlSafe: bool)
    ensures var s := Encode(b, urlSafe);
      s == RStrip(s, '=') + Repeat('=', PadFor(|RStrip(s, '=')|))
  {
    EncodeShape(b, urlSafe);
    PaddedSplit(Encode(b, urlSafe), |b|, urlSafe);
  }

  lemma PaddedSplit(s: string, n: nat, urlSafe: bool)
    requires |s| == 4 * ((n + 2) / 3)
    requires Shaped(s, Pad(n), urlSafe)
    ensures s == RStrip(s, '=') + Repeat('=', PadFor(|RStrip(s, '=')|))
  {
    StripShaped(s, n, urlSafe);
    var k := |s| - Pad(n);
    UnpaddedLength(n);
    PadForUnpadded(n);
    assert PadFor(k) == Pad(n);
    PaddingRun(s, k);
  }

  /** A string whose characters from `k` on are all `=` is its first `k` characters
      followed by that many `=`. */
  lemma PaddingRun(s: string, k: nat)
    requires k <= |s| && forall i :: k <= i < |s| ==> s[i] == '='
    ensures s == s[..k] + Repeat('=', |s| - k)
  {
    assert s[k..] == Repeat('=', |s| - k);
    assert s == s[..k] + s[k..];
  }

  /** Equal stripped encodings come from equal encodings. */
  lemma SameEncoding(a: seq<byte>, b: seq<byte>, urlSafe: bool)
    requires RStrip(Encode(a, urlSafe), '=') == RStrip(Encode(b, urlSafe), '=')
    ensures Encode(a, urlSafe) == Encode(b, urlSafe)
  {
    EncodeSplit(a, urlSafe);
    EncodeSplit(b, urlSafe);
  }

  /** Stripped encodings of different byte strings differ: nothing is lost by the `rstrip`. */
  lemma StrippedInjective(a: seq<byte>, b: seq<byte>, urlSafe: bool)
    requires RStrip(Encode(a, urlSafe), '=') == RStrip(Encode(b, urlSafe), '=')
    ensures a == b
  {
    SameEncoding(a, b, urlSafe);
    DecodeEncode(a, urlSafe);
    DecodeEncode(b, urlSafe);
  }
}
