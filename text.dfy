/** Text operations with the meaning Python gives them: `str.isspace`, `str.strip()`,
    `str.split(' ')`, `str.encode('utf-8')` and `int(str)` in base 10. */
module Text {
  import opened Wrappers

  /** `str.isspace` on one character: the code points Python counts as whitespace. */
  predicate IsSpace(c: char) {
    var n := c as int;
    (9 <= n <= 13) || (28 <= n <= 32) || n == 0x85 || n == 0xA0 || n == 0x1680
    || (0x2000 <= n <= 0x200A) || n == 0x2028 || n == 0x2029 || n == 0x202F
    || n == 0x205F || n == 0x3000
  }

  /** The length of the whitespace run `s` starts with: what `str.lstrip()` drops. */
  function LeadingSpace(s: string): (k: nat)
    ensures k <= |s|
    ensures forall i :: 0 <= i < k ==> IsSpace(s[i])
    ensures k == |s| || !IsSpace(s[k])
  {
    if s == [] || !IsSpace(s[0]) then 0 else 1 + LeadingSpace(s[1..])
  }

  /** The length of the whitespace run `s` ends with: what `str.rstrip()` drops. */
  function TrailingSpace(s: string): (k: nat)
    ensures k <= |s|
    ensures forall i :: |s| - k <= i < |s| ==> IsSpace(s[i])
    ensures k == |s| || !IsSpace(s[|s| - 1 - k])
  {
    if s == [] || !IsSpace(s[|s| - 1]) then 0 else 1 + TrailingSpace(s[..|s| - 1])
  }

  /** `str.strip()`: the infix of `s` that starts after its leading whitespace and is
      followed only by whitespace, with no whitespace at either of its own ends. */
  function Strip(s: string): (r: string)
    ensures LeadingSpace(s) + |r| <= |s|
    ensures r == s[LeadingSpace(s)..LeadingSpace(s) + |r|]
    ensures forall i :: LeadingSpace(s) + |r| <= i < |s| ==> IsSpace(s[i])
    ensures r == [] || (!IsSpace(r[0]) && !IsSpace(r[|r| - 1]))
    ensures forall c :: c in r ==> c in s
  {
    var k, t := LeadingSpace(s), TrailingSpace(s);
    if k == |s| then []
    else
      // s[k] is not whitespace, so the trailing run ends after it
      assert k < |s| - t;
      InfixChars(s, k, s[k..|s| - t]);
      s[k..|s| - t]
  }

  /** Every character of an infix occurs in the whole string. */
  lemma InfixChars(s: string, k: nat, r: string)
    requires k + |r| <= |s| && r == s[k..k + |r|]
    ensures forall c :: c in r ==> c in s
  {
    forall c | c in r ensures c in s {
      var i :| 0 <= i < |r| && r[i] == c;
      assert s[k + i] == c;
    }
  }

  /** Stripping a string that has no whitespace at either end changes nothing,
      so `Strip` is idempotent. */
  lemma StripClean(t: string)
    requires t == [] || (!IsSpace(t[0]) && !IsSpace(t[|t| - 1]))
    ensures Strip(t) == t
  {
  }

  lemma StripIdempotent(s: string)
    ensures Strip(Strip(s)) == Strip(s)
  {
    StripClean(Strip(s));
  }

  // ---------------------------------------------------------------------------
  // str.split(sep) with an explicit one-character separator, and its inverse

  /** `s.split(sep)`: the maximal separator-free pieces, empty pieces included. */
  function Split(s: string, sep: char): (parts: seq<string>)
    ensures |parts| >= 1
    ensures forall i :: 0 <= i < |parts| ==> sep !in parts[i]
  {
    if s == [] then [""]
    else
      var init := Split(s[..|s| - 1], sep);
      if s[|s| - 1] == sep then init + [""]
      else init[..|init| - 1] + [init[|init| - 1] + [s[|s| - 1]]]
  }

  /** `sep.join(parts)`. */
  function Join(parts: seq<string>, sep: char): string
    requires |parts| >= 1
  {
    if |parts| == 1 then parts[0]
    else Join(parts[..|parts| - 1], sep) + [sep] + parts[|parts| - 1]
  }

  /** Extending the last piece extends the joined string. */
  lemma JoinExtendLast(parts: seq<string>, sep: char, c: char)
    requires |parts| >= 1
    ensures Join(parts[..|parts| - 1] + [parts[|parts| - 1] + [c]], sep) == Join(parts, sep) + [c]
  {
    var n := |parts|;
    var q := parts[..n - 1] + [parts[n - 1] + [c]];
    assert q[..n - 1] == parts[..n - 1];
  }

  /** Joining the pieces of a split gives back the original string. */
  lemma {:induction false} JoinSplit(s: string, sep: char)
    ensures Join(Split(s, sep), sep) == s
  {
    if s != [] {
      var s' := s[..|s| - 1];
      var c := s[|s| - 1];
      var init := Split(s', sep);
      JoinSplit(s', sep);
      assert s == s' + [c];
      if c == sep {
        assert (init + [""])[..|init|] == init;
      } else {
        JoinExtendLast(init, sep, c);
      }
    }
  }

  /** A string with no separator splits into itself alone. */
  lemma {:induction false} SplitNoSeparator(s: string, sep: char)
    requires sep !in s
    ensures Split(s, sep) == [s]
  {
    if s != [] {
      SplitNoSeparator(s[..|s| - 1], sep);
      assert s[..|s| - 1] + [s[|s| - 1]] == s;
    }
  }

  lemma ExtendLastOfConcat(pa: seq<string>, pb: seq<string>, c: char)
    requires |pb| >= 1
    ensures var q := pa + pb;
      q[..|q| - 1] + [q[|q| - 1] + [c]] == pa + (pb[..|pb| - 1] + [pb[|pb| - 1] + [c]])
  {
    var q := pa + pb;
    assert q[..|q| - 1] == pa + pb[..|pb| - 1];
  }

  /** Splitting at a separator splits the two sides independently. */
  lemma {:induction false} SplitAppend(a: string, b: string, sep: char)
    ensures Split(a + [sep] + b, sep) == Split(a, sep) + Split(b, sep)
  {
    var s := a + [sep] + b;
    if b == [] {
      assert s[..|s| - 1] == a;
      assert Split(b, sep) == [""];
    } else {
      var b' := b[..|b| - 1];
      var c := b[|b| - 1];
      assert s[..|s| - 1] == a + [sep] + b';
      assert s[|s| - 1] == c;
      SplitAppend(a, b', sep);
      var pa, pb := Split(a, sep), Split(b', sep);
      assert Split(s[..|s| - 1], sep) == pa + pb;
      if c == sep {
        assert Split(b, sep) == pb + [""];
        assert Split(s, sep) == (pa + pb) + [""];
      } else {
        ExtendLastOfConcat(pa, pb, c);
        assert Split(b, sep) == pb[..|pb| - 1] + [pb[|pb| - 1] + [c]];
      }
    }
  }

  // ---------------------------------------------------------------------------
  // str.encode('utf-8')

  /** The UTF-8 encoding of one Unicode scalar value. */
  function Utf8Char(c: char): (bs: seq<byte>)
    ensures 1 <= |bs| <= 4
    ensures (c as int < 0x80) <==> |bs| == 1
    ensures c as int < 0x80 ==> bs[0] == c as int
  {
    var n := c as int;
    if n < 0x80 then [n]
    else if n < 0x800 then [0xC0 + n / 0x40, 0x80 + n % 0x40]
    else if n < 0x10000 then [0xE0 + n / 0x1000, 0x80 + (n / 0x40) % 0x40, 0x80 + n % 0x40]
    else [0xF0 + n / 0x40000, 0x80 + (n / 0x1000) % 0x40, 0x80 + (n / 0x40) % 0x40, 0x80 + n % 0x40]
  }

  /** `s.encode('utf-8')`. */
  function Utf8(s: string): (bs: seq<byte>)
    ensures |bs| >= |s|
  {
    if s == [] then [] else Utf8Char(s[0]) + Utf8(s[1..])
  }

  predicate IsAscii(s: string) {
    forall i :: 0 <= i < |s| ==> s[i] as int < 0x80
  }

  /** The character codes of an ASCII string, as bytes. */
  function Codes(s: string): (bs: seq<byte>)
    requires IsAscii(s)
    ensures |bs| == |s| && forall i :: 0 <= i < |s| ==> bs[i] == s[i] as int
  {
    seq(|s|, i requires 0 <= i < |s| && IsAscii(s) => s[i] as int as byte)
  }

  /** The UTF-8 bytes of an ASCII string are its character codes, one byte each. */
  lemma {:induction false} Utf8Ascii(s: string)
    requires IsAscii(s)
    ensures |Utf8(s)| == |s|
    ensures forall i :: 0 <= i < |s| ==> Utf8(s)[i] == s[i] as int
    ensures Utf8(s) == Codes(s)
  {
    if s != [] {
      Utf8Ascii(s[1..]);
      assert Utf8(s) == [s[0] as int] + Utf8(s[1..]);
    }
  }

  // ---------------------------------------------------------------------------
  // int(str), base 10

  predicate IsDigit(c: char) {
    '0' <= c <= '9'
  }

  /** The digits of a base-10 integer as `int()` reads them: ASCII digits, with single
      underscores allowed between two digits. */
  predicate DecimalDigits(s: string) {
    && |s| > 0
    && IsDigit(s[0]) && IsDigit(s[|s| - 1])
    && (forall i :: 0 <= i < |s| ==> IsDigit(s[i]) || s[i] == '_')
    && (forall i :: 0 <= i < |s| - 1 ==> DigitNear(s, i))
  }

  /** Of the two characters at `i` and `i + 1`, at least one is a digit. */
  predicate DigitNear(s: string, i: nat)
    requires i + 1 < |s|
  {
    IsDigit(s[i]) || IsDigit(s[i + 1])
  }

  /** The value of a run of digits, underscores skipped. */
  function DigitsValue(s: string): nat
  {
    if s == [] then 0
    else if IsDigit(s[|s| - 1]) then 10 * DigitsValue(s[..|s| - 1]) + (s[|s| - 1] as int - '0' as int)
    else DigitsValue(s[..|s| - 1])
  }

  /** `t` is an integer literal of value `n` as `int()` accepts one: an optional `+` or `-`,
      then decimal digits. */
  predicate IntLiteral(t: string, n: int) {
    || (DecimalDigits(t) && n == DigitsValue(t))
    || (|t| > 1 && t[0] == '+' && DecimalDigits(t[1..]) && n == DigitsValue(t[1..]))
    || (|t| > 1 && t[0] == '-' && DecimalDigits(t[1..]) && n == -(DigitsValue(t[1..]) as int))
  }

  /** `int(s)`: surrounding whitespace dropped, an optional sign, then decimal digits;
      `None` where Python raises `ValueError`. The result is the value of the literal the
      stripped text is, and there is none when that text is no literal (`"12abc"`, `"5.0"`,
      `"1__0"`). A string that spells `n` once stripped reads as `n`, and a string without
      any digit is refused. */
  function ParseInt(s: string): (r: Option<int>)
    ensures r.Some? ==> IntLiteral(Strip(s), r.value)
    ensures r.None? ==> forall n :: !IntLiteral(Strip(s), n)
    ensures forall n :: ReadsAs(Strip(s), n) ==> r == Some(n)
    ensures (forall i :: 0 <= i < |s| ==> !IsDigit(s[i])) ==> r.None?
  {
    StrippedReads(Strip(s));
    if forall i :: 0 <= i < |s| ==> !IsDigit(s[i]) then
      StrippedWithoutDigits(s);
      ParseStripped(Strip(s))
    else ParseStripped(Strip(s))
  }

  /** A stripped string that spells `n` is read as `n`. */
  lemma StrippedReads(t: string)
    ensures forall n :: ReadsAs(t, n) ==> ParseStripped(t) == Some(n)
  {
    forall n | ReadsAs(t, n) ensures ParseStripped(t) == Some(n) {
      if n >= 0 {
        assert IsDigit(t[0]);
      }
    }
  }

  /** Stripping adds no digit, so a string without digits is refused. */
  lemma StrippedWithoutDigits(s: string)
    requires forall i :: 0 <= i < |s| ==> !IsDigit(s[i])
    ensures ParseStripped(Strip(s)).None?
  {
    var t := Strip(s);
    assert forall i :: 0 <= i < |t| ==> t[i] in s;
    if |t| > 1 {
      assert !IsDigit(t[1..][0]);
    }
  }

  /** `int()` after the surrounding whitespace is gone. */
  function ParseStripped(t: string): Option<int>
  {
    if |t| > 0 && (t[0] == '+' || t[0] == '-') then
      if DecimalDigits(t[1..]) then
        Some(if t[0] == '-' then -(DigitsValue(t[1..]) as int) else DigitsValue(t[1..]))
      else None
    else if DecimalDigits(t) then Some(DigitsValue(t))
    else None
  }

  /** Nothing but ASCII digits, at least one. */
  predicate AllDigits(s: string) {
    |s| > 0 && forall i :: 0 <= i < |s| ==> IsDigit(s[i])
  }

  /** A run of ASCII digits with an optional sign, and the integer it spells. */
  function SignedDigits(s: string): Option<int> {
    if |s| > 0 && (s[0] == '-' || s[0] == '+') then
      if AllDigits(s[1..]) then Some(if s[0] == '-' then -(DigitsValue(s[1..]) as int) else DigitsValue(s[1..]))
      else None
    else if AllDigits(s) then Some(DigitsValue(s))
    else None
  }

  /** `int()` reads every signed run of digits as the integer it spells. */
  lemma SignedDigitsParse(s: string)
    requires SignedDigits(s).Some?
    ensures ParseInt(s) == SignedDigits(s)
  {
    if |s| > 0 && (s[0] == '-' || s[0] == '+') {
      assert DecimalDigits(s[1..]);
      assert s[|s| - 1] == s[1..][|s| - 2];
    } else {
      assert DecimalDigits(s);
    }
    StripClean(s);
  }

  /** `str(n)` for a natural number. */
  function Decimal(n: nat): (s: string)
    ensures |s| > 0 && forall i :: 0 <= i < |s| ==> IsDigit(s[i])
  {
    var d := [('0' as int + n % 10) as char];
    if n < 10 then d else Decimal(n / 10) + d
  }

  /** `str(n)` for any integer. */
  function Render(n: int): string {
    if n < 0 then "-" + Decimal(-n) else Decimal(n)
  }

  lemma {:induction false} DecimalValue(n: nat)
    ensures DigitsValue(Decimal(n)) == n
  {
    if n >= 10 {
      DecimalValue(n / 10);
      var s := Decimal(n);
      assert s[..|s| - 1] == Decimal(n / 10);
    }
  }

  /** `s` spells the integer `n`: an optional minus sign, then digits whose value is `|n|`. */
  predicate ReadsAs(s: string, n: int) {
    if n < 0 then |s| > 1 && s[0] == '-' && DecimalDigits(s[1..]) && DigitsValue(s[1..]) == -n
    else DecimalDigits(s) && DigitsValue(s) == n
  }

  lemma RenderReads(n: int)
    ensures ReadsAs(Render(n), n)
  {
    var s := Render(n);
    if n < 0 {
      DecimalValue(-n);
      assert s[1..] == Decimal(-n);
    } else {
      DecimalValue(n);
    }
  }

  /** What Python prints for an integer is a signed run of digits spelling it. */
  lemma SignedDigitsRender(n: int)
    ensures SignedDigits(Render(n)) == Some(n)
  {
    var d := Decimal(if n < 0 then -n else n);
    DecimalValue(if n < 0 then -n else n);
    SignedDigitsOf(d, n < 0);
  }

  lemma SignedDigitsOf(d: string, negative: bool)
    requires AllDigits(d)
    ensures SignedDigits(if negative then "-" + d else d)
      == Some(if negative then -(DigitsValue(d) as int) else DigitsValue(d))
  {
    if negative {
      assert ("-" + d)[1..] == d;
    }
  }

  /** `int(str(n)) == n`: the parser reads back what Python prints. */
  lemma ParseRender(n: int)
    ensures ParseInt(Render(n)) == Some(n)
  {
    RenderReads(n);
    ParseReads(Render(n), n);
  }

  /** A string that spells `n` with no surrounding whitespace parses to `n`. */
  lemma ParseReads(s: string, n: int)
    requires ReadsAs(s, n)
    ensures ParseInt(s) == Some(n)
  {
    assert s[|s| - 1] == if n < 0 then s[1..][|s| - 2] else s[|s| - 1];
    StripClean(s);
    assert Strip(s) == s;
  }
}
