/**
 * `parseInt(string, 10)` as section 19.2.5 of ECMA-262 defines it: strip
 * leading white space, read an optional sign, take the longest prefix of
 * decimal digits, and give NaN (here `None`) when that prefix is empty.
 *
 * The result is an unbounded integer. The engine rounds it to a Number
 * (beyond 2^53, or to Infinity for very long digit strings); where this
 * model uses the result, as an `Array.prototype.splice` start, the rounded
 * and the exact value select the same element.
 */
module IntegerParsing {
  import opened Wrappers

  /**
   * WhiteSpace and LineTerminator code points (sections 12.2 and 12.3 of
   * ECMA-262): TAB, LF, VT, FF, CR, the space separators of category Zs,
   * LINE SEPARATOR, PARAGRAPH SEPARATOR and the byte order mark.
   */
  predicate IsWhiteSpace(c: char) {
    var n := c as int;
    || 0x09 <= n <= 0x0D
    || n == 0x20 || n == 0xA0 || n == 0x1680
    || 0x2000 <= n <= 0x200A
    || n == 0x2028 || n == 0x2029 || n == 0x202F || n == 0x205F
    || n == 0x3000 || n == 0xFEFF
  }

  predicate IsDigit(c: char) {
    '0' <= c <= '9'
  }

  predicate AllDigits(s: string) {
    forall i :: 0 <= i < |s| ==> IsDigit(s[i])
  }

  function DigitValue(c: char): (d: nat)
    requires IsDigit(c)
    ensures d < 10
  {
    c as int - '0' as int
  }

  function DigitChar(d: nat): (c: char)
    requires d < 10
    ensures IsDigit(c) && DigitValue(c) == d
  {
    ('0' as int + d) as char
  }

  /** TrimString(s, start): drops the leading white space and nothing else. */
  function TrimStart(s: string): (r: string)
    ensures |r| <= |s| && r == s[|s| - |r|..]
    ensures forall i :: 0 <= i < |s| - |r| ==> IsWhiteSpace(s[i])
    ensures r == [] || !IsWhiteSpace(r[0])
  {
    if |s| > 0 && IsWhiteSpace(s[0]) then TrimStart(s[1..]) else s
  }

  /** -1 when the text starts with '-', otherwise 1. */
  function Sign(t: string): (r: int)
    ensures r == -1 || r == 1
    ensures r == -1 <==> |t| > 0 && t[0] == '-'
  {
    if |t| > 0 && t[0] == '-' then -1 else 1
  }

  /** The text after one leading '+' or '-'. */
  function Unsigned(t: string): (r: string)
    ensures |t| > 0 && (t[0] == '-' || t[0] == '+') ==> r == t[1..]
    ensures (|t| == 0 || (t[0] != '-' && t[0] != '+')) ==> r == t
  {
    if |t| > 0 && (t[0] == '-' || t[0] == '+') then t[1..] else t
  }

  /** The longest prefix of decimal digits. */
  function DigitPrefix(s: string): (r: string)
    ensures |r| <= |s| && r == s[..|r|]
    ensures AllDigits(r)
    ensures |r| == |s| || !IsDigit(s[|r|])
  {
    if |s| > 0 && IsDigit(s[0]) then [s[0]] + DigitPrefix(s[1..]) else []
  }

  /** The mathematical value of a string of decimal digits, most significant first. */
  function DigitsValue(ds: string): nat
    requires AllDigits(ds)
  {
    if ds == [] then 0 else DigitsValue(ds[..|ds| - 1]) * 10 + DigitValue(ds[|ds| - 1])
  }

  /** `parseInt(s, 10)`; `None` stands for NaN. */
  function ParseInt(s: string): (r: Option<int>)
    ensures var u := Unsigned(TrimStart(s));
      r.None? <==> u == [] || !IsDigit(u[0])
    ensures r.Some? && r.value < 0 ==> TrimStart(s)[0] == '-'
  {
    var t := TrimStart(s);
    var z := DigitPrefix(Unsigned(t));
    if z == [] then None else Some(Sign(t) * DigitsValue(z))
  }

  /** Skips the leading white space: `s[i..]` is what TrimString leaves. */
  method SkipWhiteSpace(s: string) returns (i: nat)
    ensures i <= |s|
    ensures s[i..] == TrimStart(s)
  {
    i := 0;
    while i < |s| && IsWhiteSpace(s[i])
      invariant i <= |s|
      invariant TrimStart(s[i..]) == TrimStart(s)
    {
      TrimStartStep(s, i);
      i := i + 1;
    }
  }

  /** Reads the digits from `j` on, most significant first: `s[j..i]` is the digit prefix, `acc` its value. */
  method ScanDigits(s: string, j: nat) returns (i: nat, acc: nat)
    requires j <= |s|
    ensures j <= i <= |s|
    ensures s[j..i] == DigitPrefix(s[j..])
    ensures acc == DigitsValue(DigitPrefix(s[j..]))
  {
    i, acc := j, 0;
    while i < |s| && IsDigit(s[i])
      invariant j <= i <= |s|
      invariant AllDigits(s[j..i])
      invariant acc == DigitsValue(s[j..i])
      invariant DigitPrefix(s[j..]) == s[j..i] + DigitPrefix(s[i..])
    {
      DigitStep(s, j, i);
      acc := acc * 10 + DigitValue(s[i]);
      i := i + 1;
    }
    assert DigitPrefix(s[i..]) == [];
  }

  /**
   * The scan an engine performs: skip white space, read the sign, then
   * accumulate digits left to right. It computes `ParseInt`.
   */
  method ParseIntScan(s: string) returns (r: Option<int>)
    ensures r == ParseInt(s)
  {
    var i := SkipWhiteSpace(s);
    ghost var t := s[i..];
    var sign: int := 1;
    if i < |s| && s[i] == '-' {
      sign := -1;
      i := i + 1;
    } else if i < |s| && s[i] == '+' {
      i := i + 1;
    }
    assert sign == Sign(t);
    assert s[i..] == Unsigned(t);
    var end, acc := ScanDigits(s, i);
    if end == i {
      r := None;
    } else {
      r := Some(sign * acc);
    }
  }

  lemma TrimStartStep(s: string, i: nat)
    requires i < |s| && IsWhiteSpace(s[i])
    ensures TrimStart(s[i..]) == TrimStart(s[i + 1..])
  {
    assert s[i..][1..] == s[i + 1..];
  }

  /** One more digit: the value is shifted by one place and the digit added. */
  lemma DigitStep(s: string, j: nat, i: nat)
    requires j <= i < |s| && IsDigit(s[i])
    requires AllDigits(s[j..i])
    ensures AllDigits(s[j..i + 1])
    ensures DigitsValue(s[j..i + 1]) == DigitsValue(s[j..i]) * 10 + DigitValue(s[i])
    ensures s[j..i] + DigitPrefix(s[i..]) == s[j..i + 1] + DigitPrefix(s[i + 1..])
  {
    assert s[i..][1..] == s[i + 1..];
    assert s[j..i + 1][..i - j] == s[j..i];
    assert DigitPrefix(s[i..]) == [s[i]] + DigitPrefix(s[i + 1..]);
    assert s[j..i + 1] == s[j..i] + [s[i]];
  }

  /** The decimal digits of `n`, without leading zeros. */
  function DecimalDigits(n: nat): (r: string)
    ensures |r| > 0
    ensures AllDigits(r)
  {
    if n < 10 then [DigitChar(n)] else DecimalDigits(n / 10) + [DigitChar(n % 10)]
  }

  /**
   * `String(n)` for an integer `n` with |n| < 10^21; from 10^21 on
   * JavaScript writes exponent notation ("1e+21"). Todo ids are array
   * lengths and never come near that bound.
   */
  function Decimal(n: int): (r: string)
    ensures |r| > 0
    ensures n < 0 <==> r[0] == '-'
  {
    if n < 0 then "-" + DecimalDigits(-n) else DecimalDigits(n)
  }

  lemma {:induction false} DigitsValueOfDecimal(n: nat)
    ensures DigitsValue(DecimalDigits(n)) == n
  {
    var ds := DecimalDigits(n);
    if n >= 10 {
      assert ds[..|ds| - 1] == DecimalDigits(n / 10);
      DigitsValueOfDecimal(n / 10);
    }
  }

  /** The digit prefix of digits followed by a non-digit is exactly those digits. */
  lemma {:induction false} DigitPrefixOfDigits(ds: string, rest: string)
    requires AllDigits(ds)
    requires rest == [] || !IsDigit(rest[0])
    ensures DigitPrefix(ds + rest) == ds
  {
    if ds != [] {
      assert (ds + rest)[1..] == ds[1..] + rest;
      DigitPrefixOfDigits(ds[1..], rest);
    }
  }

  /** `parseInt` reads back what `String(n)` writes, ignoring whatever follows the digits. */
  lemma ParseIntOfDecimal(n: int, rest: string)
    requires rest == [] || !IsDigit(rest[0])
    ensures ParseInt(Decimal(n) + rest) == Some(n)
  {
    var m: nat := if n < 0 then -n else n;
    var s := Decimal(n) + rest;
    DecimalSplits(n, rest);
    DigitPrefixOfDigits(DecimalDigits(m), rest);
    DigitsValueOfDecimal(m);
  }

  /** `String(n) + rest` has no leading white space; its sign is that of `n` and its digits those of `|n|`. */
  lemma DecimalSplits(n: int, rest: string)
    ensures TrimStart(Decimal(n) + rest) == Decimal(n) + rest
    ensures Sign(Decimal(n) + rest) == if n < 0 then -1 else 1
    ensures Unsigned(Decimal(n) + rest) == DecimalDigits(if n < 0 then -n else n) + rest
  {
    var s := Decimal(n) + rest;
    var ds := DecimalDigits(if n < 0 then -n else n);
    assert s[0] == Decimal(n)[0];
    assert !IsWhiteSpace(s[0]) by {
      NoDigitIsWhiteSpace(s[0]);
    }
    if n < 0 {
      assert s == "-" + (ds + rest);
      assert s[1..] == ds + rest;
    } else {
      assert s == ds + rest;
      assert IsDigit(ds[0]);
    }
  }

  lemma NoDigitIsWhiteSpace(c: char)
    requires IsDigit(c) || c == '-'
    ensures !IsWhiteSpace(c)
  {
  }

  /** Leading white space does not change the result. */
  lemma {:induction false} ParseIntSkipsWhiteSpace(ws: string, s: string)
    requires forall i :: 0 <= i < |ws| ==> IsWhiteSpace(ws[i])
    ensures ParseInt(ws + s) == ParseInt(s)
  {
    TrimStartSkipsWhiteSpace(ws, s);
  }

  lemma {:induction false} TrimStartSkipsWhiteSpace(ws: string, s: string)
    requires forall i :: 0 <= i < |ws| ==> IsWhiteSpace(ws[i])
    ensures TrimStart(ws + s) == TrimStart(s)
  {
    if ws != [] {
      assert (ws + s)[0] == ws[0];
      assert (ws + s)[1..] == ws[1..] + s;
      assert TrimStart(ws + s) == TrimStart(ws[1..] + s);
      assert forall i :: 0 <= i < |ws[1..]| ==> ws[1..][i] == ws[i + 1];
      TrimStartSkipsWhiteSpace(ws[1..], s);
    } else {
      assert ws + s == s;
    }
  }

  /** Concrete readings: a sign and junk after the digits are fine; no digits is NaN. */
  lemma ParseIntSignedExample()
    ensures ParseInt("-3abc") == Some(-3)
  {
    assert Decimal(-3) + "abc" == "-3abc";
    ParseIntOfDecimal(-3, "abc");
  }

  lemma ParseIntNaNExamples()
    ensures ParseInt("abc") == None
    ensures ParseInt("-") == None
    ensures ParseInt("") == None
  {
  }
}
