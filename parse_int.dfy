/** JavaScript's `parseInt(text, 10)`, which the `integer` parser is built on
    (src/parsers.ts:10). It follows the algorithm of the ECMAScript
    specification's `parseInt (string, radix)` for radix 10: skip leading
    white space, read one optional sign, then read the longest run of decimal
    digits; with no digit at all the result is NaN. Everything after the
    digits is ignored. */
module JsParseInt {
  import opened Errors

  /** ECMAScript's StrWhiteSpaceChar: the WhiteSpace code points (TAB, VT,
      FF, ZWNBSP and every space separator) and the LineTerminators (LF, CR,
      LS, PS). */
  predicate IsStrWhiteSpace(c: char) {
    var n := c as int;
    || n == 0x09 || n == 0x0A || n == 0x0B || n == 0x0C || n == 0x0D
    || n == 0x20 || n == 0xA0 || n == 0x1680 || (0x2000 <= n <= 0x200A)
    || n == 0x2028 || n == 0x2029 || n == 0x202F || n == 0x205F
    || n == 0x3000 || n == 0xFEFF
  }

  predicate IsDigit(c: char) {
    '0' <= c <= '9'
  }

  predicate AllStrWhiteSpace(s: string) {
    forall i | 0 <= i < |s| :: IsStrWhiteSpace(s[i])
  }

  predicate AllDigits(s: string) {
    forall i | 0 <= i < |s| :: IsDigit(s[i])
  }

  function DigitValue(c: char): (d: nat)
    requires IsDigit(c)
    ensures d < 10
  {
    c as int - '0' as int
  }

  function DigitChar(d: nat): (c: char)
    requires d < 10
    ensures IsDigit(c) && DigitValue(c) == d
  {
    ('0' as int + d) as char
  }

  /** The value of a run of decimal digits, most significant first. */
  function DigitsValue(ds: string): nat
    requires AllDigits(ds)
  {
    if ds == [] then 0 else DigitsValue(ds[..|ds| - 1]) * 10 + DigitValue(ds[|ds| - 1])
  }

  /** The number of white-space characters `s` starts with. */
  function LeadingWhiteSpace(s: string): (k: nat)
    ensures k <= |s| && AllStrWhiteSpace(s[..k])
    ensures k == |s| || !IsStrWhiteSpace(s[k])
  {
    if s != [] && IsStrWhiteSpace(s[0]) then
      var k := 1 + LeadingWhiteSpace(s[1..]);
      WhiteSpacePrefixExtends(s, k);
      k
    else 0
  }

  lemma WhiteSpacePrefixExtends(s: string, k: nat)
    requires 1 <= k <= |s| && IsStrWhiteSpace(s[0])
    requires AllStrWhiteSpace(s[1..][..k - 1])
    ensures AllStrWhiteSpace(s[..k])
  {
    forall i | 0 <= i < k
      ensures IsStrWhiteSpace(s[..k][i])
    {
      if i > 0 {
        assert s[..k][i] == s[1..][..k - 1][i - 1];
      }
    }
  }

  /** The text that is left once the leading white space is skipped: a
      suffix of `s` that does not start with white space, and only white
      space was dropped. */
  function TrimStart(s: string): (r: string)
    ensures |r| <= |s| && r == s[|s| - |r|..]
    ensures AllStrWhiteSpace(s[..|s| - |r|])
    ensures r == [] || !IsStrWhiteSpace(r[0])
  {
    s[LeadingWhiteSpace(s)..]
  }

  /** The longest prefix of `s` made of decimal digits. */
  function LeadingDigits(s: string): (r: string)
    ensures |r| <= |s| && r == s[..|r|]
    ensures AllDigits(r)
    ensures |r| == |s| || !IsDigit(s[|r|])
  {
    if s != [] && IsDigit(s[0]) then [s[0]] + LeadingDigits(s[1..]) else []
  }

  /** The four parts that parseInt sees in a text: leading white space, at
      most one sign, the longest run of digits after them, and the rest,
      which does not start with a digit. The split is canonical: the white
      space is all there is, and a sign is taken whenever one is there. */
  datatype Reading = Reading(ws: string, sign: string, digits: string, rest: string)

  function Split(s: string): (a: Reading)
    ensures s == a.ws + a.sign + a.digits + a.rest
    ensures AllStrWhiteSpace(a.ws)
    ensures var t := a.sign + a.digits + a.rest; t == [] || !IsStrWhiteSpace(t[0])
    ensures a.sign == "" || a.sign == "+" || a.sign == "-"
    ensures a.sign == "" ==> var u := a.digits + a.rest; u == [] || (u[0] != '+' && u[0] != '-')
    ensures AllDigits(a.digits)
    ensures a.rest == [] || !IsDigit(a.rest[0])
  {
    var k := LeadingWhiteSpace(s);
    var t := s[k..];
    var j := if t != [] && (t[0] == '+' || t[0] == '-') then 1 else 0;
    var u := t[j..];
    var m := |LeadingDigits(u)|;
    Concat4(s, k, j, m);
    Reading(s[..k], t[..j], u[..m], u[m..])
  }

  lemma Concat4(s: string, k: nat, j: nat, m: nat)
    requires k <= |s| && j <= |s| - k && m <= |s| - k - j
    ensures s == s[..k] + s[k..][..j] + s[k..][j..][..m] + s[k..][j..][m..]
    ensures s[k..] == s[k..][..j] + s[k..][j..][..m] + s[k..][j..][m..]
    ensures s[k..][j..] == s[k..][j..][..m] + s[k..][j..][m..]
  {
  }

  /** `parseInt(s, 10)`, with `None` for NaN: NaN exactly when no digit
      follows the white space and the sign; otherwise the value of the
      digits, negated after a minus sign, whatever follows them. */
  function ParseInt10(s: string): Option<int> {
    ParseTrimmed(TrimStart(s))
  }

  /** parseInt on every text, in terms of its canonical split: NaN exactly
      when no digit follows the white space and the sign; otherwise the value
      of the digits, negated after a minus sign, whatever follows them. */
  lemma ParseIntBySplit(s: string)
    ensures var a := Split(s);
      ParseInt10(s) == if a.digits == [] then None else Some(Signed(a.sign == "-", DigitsValue(a.digits)))
  {
    var k := LeadingWhiteSpace(s);
    var t := s[k..];
    assert TrimStart(s) == t;
    var j := if t != [] && (t[0] == '+' || t[0] == '-') then 1 else 0;
    var u := t[j..];
    var ds := LeadingDigits(u);
    assert Split(s).digits == ds;
    assert Split(s).sign == "-" <==> t != [] && t[0] == '-';
  }

  /** The sign-and-digits part of parseInt, on text that has no leading
      white space. */
  function ParseTrimmed(t: string): Option<int> {
    var negative := t != [] && t[0] == '-';
    var unsigned := if t != [] && (t[0] == '-' || t[0] == '+') then t[1..] else t;
    var z := LeadingDigits(unsigned);
    if z == [] then None else Some(Signed(negative, DigitsValue(z)))
  }

  function Signed(negative: bool, n: nat): int {
    if negative then -(n as int) else n
  }

  /** The canonical decimal text of a natural number: at least one digit and
      no leading zero. */
  function Decimal(n: nat): (s: string)
    ensures s != [] && AllDigits(s) && DigitsValue(s) == n
    ensures s[0] == '0' <==> n == 0
  {
    if n < 10 then [DigitChar(n)]
    else
      var s := Decimal(n / 10) + [DigitChar(n % 10)];
      assert s[..|s| - 1] == Decimal(n / 10);
      s
  }

  /** The canonical decimal text of an integer, with a minus sign when it is
      negative. */
  function IntToString(n: int): string {
    if n < 0 then "-" + Decimal(-n) else Decimal(n)
  }

  lemma TrimStartSkips(ws: string, t: string)
    requires AllStrWhiteSpace(ws)
    requires t == [] || !IsStrWhiteSpace(t[0])
    ensures TrimStart(ws + t) == t
  {
    LeadingWhiteSpaceCounts(ws, t);
    assert (ws + t)[|ws|..] == t;
  }

  lemma {:induction false} LeadingWhiteSpaceCounts(ws: string, t: string)
    requires AllStrWhiteSpace(ws)
    requires t == [] || !IsStrWhiteSpace(t[0])
    ensures LeadingWhiteSpace(ws + t) == |ws|
  {
    if ws == [] {
      assert ws + t == t;
    } else {
      assert (ws + t)[1..] == ws[1..] + t;
      LeadingWhiteSpaceCounts(ws[1..], t);
    }
  }

  lemma {:induction false} LeadingDigitsStops(ds: string, rest: string)
    requires AllDigits(ds)
    requires rest == [] || !IsDigit(rest[0])
    ensures LeadingDigits(ds + rest) == ds
  {
    if ds == [] {
      assert ds + rest == rest;
    } else {
      assert (ds + rest)[1..] == ds[1..] + rest;
      LeadingDigitsStops(ds[1..], rest);
    }
  }

  /** Every text that parseInt reads as a number has this shape: white
      space, at most one sign, a non-empty run of digits, and then anything
      that does not start with a digit. The value is that of the digits, with
      the sign applied, whatever follows them. */
  lemma ParseIntReadsPrefix(ws: string, sign: string, ds: string, rest: string)
    requires AllStrWhiteSpace(ws)
    requires sign == "" || sign == "+" || sign == "-"
    requires ds != [] && AllDigits(ds)
    requires rest == [] || !IsDigit(rest[0])
    ensures ParseInt10(ws + sign + ds + rest) == Some(Signed(sign == "-", DigitsValue(ds)))
  {
    var t := sign + ds + rest;
    assert ws + sign + ds + rest == ws + t;
    ParseTrimmedReads(sign, ds, rest);
    ParseIntSkipsWhiteSpace(ws, t);
  }

  lemma ParseTrimmedReads(sign: string, ds: string, rest: string)
    requires sign == "" || sign == "+" || sign == "-"
    requires ds != [] && AllDigits(ds)
    requires rest == [] || !IsDigit(rest[0])
    ensures var t := sign + ds + rest; t != [] && !IsStrWhiteSpace(t[0])
    ensures ParseTrimmed(sign + ds + rest) == Some(Signed(sign == "-", DigitsValue(ds)))
  {
    LeadingDigitsStops(ds, rest);
    if sign == "" {
      assert sign + ds + rest == ds + rest;
      ParseTrimmedUnsigned(ds, rest);
    } else {
      assert sign + ds + rest == [sign[0]] + (ds + rest);
      ParseTrimmedSigned(sign[0], ds + rest, ds);
    }
  }

  lemma ParseTrimmedUnsigned(ds: string, rest: string)
    requires ds != [] && AllDigits(ds)
    requires LeadingDigits(ds + rest) == ds
    ensures var t := ds + rest; t != [] && !IsStrWhiteSpace(t[0])
    ensures ParseTrimmed(ds + rest) == Some(DigitsValue(ds))
  {
    var t := ds + rest;
    assert t[0] == ds[0];
    assert IsDigit(t[0]);
  }

  lemma ParseTrimmedSigned(c: char, u: string, ds: string)
    requires c == '+' || c == '-'
    requires ds != [] && AllDigits(ds)
    requires LeadingDigits(u) == ds
    ensures var t := [c] + u; t != [] && !IsStrWhiteSpace(t[0])
    ensures ParseTrimmed([c] + u) == Some(Signed(c == '-', DigitsValue(ds)))
  {
    var t := [c] + u;
    assert t[0] == c;
    assert t[1..] == u;
  }

  /** Leading white space never changes what parseInt reads. */
  lemma ParseIntSkipsWhiteSpace(ws: string, t: string)
    requires AllStrWhiteSpace(ws)
    requires t == [] || !IsStrWhiteSpace(t[0])
    ensures TrimStart(t) == t
    ensures ParseInt10(ws + t) == ParseInt10(t)
  {
    TrimStartSkips(ws, t);
    TrimStartSkips("", t);
    assert "" + t == t;
  }

  /** The other shape: once the white space and at most one sign are
      skipped, no digit follows. parseInt then returns NaN. */
  lemma ParseIntNaN(ws: string, sign: string, rest: string)
    requires AllStrWhiteSpace(ws)
    requires sign == "" || sign == "+" || sign == "-"
    requires rest == [] || !IsDigit(rest[0])
    requires sign == "" ==> rest == [] || (!IsStrWhiteSpace(rest[0]) && rest[0] != '+' && rest[0] != '-')
    ensures ParseInt10(ws + sign + rest) == None
  {
    var t := sign + rest;
    assert ws + sign + rest == ws + t;
    if sign == "" {
      assert t == rest;
      ParseTrimmedUnsignedNaN(rest);
    } else {
      assert t == [sign[0]] + rest;
      ParseTrimmedSignedNaN(sign[0], rest);
    }
    ParseIntSkipsWhiteSpace(ws, t);
  }

  lemma ParseTrimmedUnsignedNaN(rest: string)
    requires rest == [] || (!IsDigit(rest[0]) && rest[0] != '+' && rest[0] != '-')
    ensures ParseTrimmed(rest) == None
  {
  }

  lemma ParseTrimmedSignedNaN(c: char, rest: string)
    requires c == '+' || c == '-'
    requires rest == [] || !IsDigit(rest[0])
    ensures var t := [c] + rest; !IsStrWhiteSpace(t[0])
    ensures ParseTrimmed([c] + rest) == None
  {
    var t := [c] + rest;
    assert t[0] == c;
    assert t[1..] == rest;
  }

  /** parseInt reads back the canonical text of every integer. */
  lemma ParseIntRoundTrip(n: int)
    ensures ParseInt10(IntToString(n)) == Some(n)
  {
    ParseIntReadsCanonical(n, []);
    assert IntToString(n) + [] == IntToString(n);
  }

  /** parseInt reads the canonical text of an integer followed by anything
      that does not start with a digit as that integer. */
  lemma ParseIntReadsCanonical(n: int, rest: string)
    requires rest == [] || !IsDigit(rest[0])
    ensures ParseInt10(IntToString(n) + rest) == Some(n)
  {
    if n < 0 {
      ParseIntReadsNegative(n, rest);
    } else {
      ParseIntReadsNatural(n, rest);
    }
  }

  lemma ParseIntReadsNatural(n: int, rest: string)
    requires 0 <= n
    requires rest == [] || !IsDigit(rest[0])
    ensures ParseInt10(IntToString(n) + rest) == Some(n)
  {
    var ds := Decimal(n);
    var t := ds + rest;
    assert IntToString(n) + rest == t;
    LeadingDigitsStops(ds, rest);
    ParseTrimmedUnsigned(ds, rest);
    TrimStartSkips([], t);
    assert [] + t == t;
  }

  lemma ParseIntReadsNegative(n: int, rest: string)
    requires n < 0
    requires rest == [] || !IsDigit(rest[0])
    ensures ParseInt10(IntToString(n) + rest) == Some(n)
  {
    var ds := Decimal(-n);
    var t := ['-'] + (ds + rest);
    assert IntToString(n) + rest == t;
    LeadingDigitsStops(ds, rest);
    ParseTrimmedSigned('-', ds + rest, ds);
    TrimStartSkips([], t);
    assert [] + t == t;
  }
}
