/** Character and string helpers: ASCII case mapping, decimal digits and decimal literals. */
module Text {
  import opened Wrappers

  predicate IsDigit(c: char) { '0' <= c <= '9' }

  predicate AllDigits(s: string) { forall i :: 0 <= i < |s| ==> IsDigit(s[i]) }

  function DigitValue(c: char): nat requires IsDigit(c) { (c as int - '0' as int) as nat }

  function DigitChar(d: nat): char requires d < 10 { ('0' as int + d) as char }

  /** The value of a string of decimal digits, most significant first. */
  function DigitsValue(s: string): nat
    requires AllDigits(s)
    decreases |s|
  {
    if s == [] then 0 else DigitsValue(s[..|s| - 1]) * 10 + DigitValue(s[|s| - 1])
  }

  /** Decimal rendering of a natural number (Python's `str` / an f-string of an int). */
  function NatToString(n: nat): (r: string)
    ensures |r| >= 1 && AllDigits(r)
    ensures DigitsValue(r) == n
    decreases n
  {
    if n < 10 then [DigitChar(n)]
    else
      var r := NatToString(n / 10) + [DigitChar(n % 10)];
      assert r[..|r| - 1] == NatToString(n / 10);
      r
  }

  /** ASCII lower-casing of one character. */
  function LowerChar(c: char): char {
    if 'A' <= c <= 'Z' then (c as int - 'A' as int + 'a' as int) as char else c
  }

  /** `str.lower()` / `toLowerCase()` restricted to the ASCII letters. */
  function Lower(s: string): (r: string)
    ensures |r| == |s|
    ensures forall i {:trigger r[i]} :: 0 <= i < |s| ==> r[i] == LowerChar(s[i])
  {
    seq(|s|, i requires 0 <= i < |s| => LowerChar(s[i]))
  }

  /** `s.replace(c, '')`: every occurrence of `c` removed, the rest kept in order. */
  function RemoveAll(s: string, c: char): (r: string)
    ensures c !in r
    ensures |r| <= |s|
    ensures c !in s ==> r == s
    ensures multiset(r) == multiset(s)[c := 0]
    decreases |s|
  {
    if s == [] then []
    else
      assert s == [s[0]] + s[1..];
      if s[0] == c then RemoveAll(s[1..], c)
      else [s[0]] + RemoveAll(s[1..], c)
  }

  /** Removal works piece by piece: what is left of `a + b` is what is left of `a`, then of `b`. */
  lemma {:induction false} RemoveAllAppend(a: string, b: string, c: char)
    ensures RemoveAll(a + b, c) == RemoveAll(a, c) + RemoveAll(b, c)
    decreases |a|
  {
    if a == [] {
      assert a + b == b;
    } else {
      assert (a + b)[0] == a[0] && (a + b)[1..] == a[1..] + b;
      RemoveAllAppend(a[1..], b, c);
    }
  }

  /** A single character is dropped when it is `c` and kept otherwise. */
  lemma RemoveAllOne(x: char, c: char)
    ensures RemoveAll([x], c) == if x == c then [] else [x]
  {
    assert [x][1..] == [];
  }

  /** Position of the first `c` in `s`, or `|s|` when there is none. */
  function IndexOf(s: string, c: char): (k: nat)
    ensures k <= |s|
    ensures k < |s| ==> s[k] == c
    ensures forall i :: 0 <= i < k ==> s[i] != c
    decreases |s|
  {
    if s == [] then 0 else if s[0] == c then 0 else 1 + IndexOf(s[1..], c)
  }

  /** Searching past a stretch without `c`: the first `c` of `a + b` is the first of `b`, shifted by `|a|`. */
  lemma {:induction false} IndexOfAfter(a: string, b: string, c: char)
    requires c !in a
    ensures IndexOf(a + b, c) == |a| + IndexOf(b, c)
    decreases |a|
  {
    if a == [] {
      assert a + b == b;
    } else {
      assert (a + b)[0] == a[0] && (a + b)[1..] == a[1..] + b;
      IndexOfAfter(a[1..], b, c);
    }
  }

  /** The value of the digits after a decimal point: `0.d1d2...` read as `(d1 + (d2 + ...) / 10) / 10`. */
  function FractionValue(s: string): (r: real)
    requires AllDigits(s)
    ensures 0.0 <= r <= 1.0
    decreases |s|
  {
    if s == [] then 0.0 else (DigitValue(s[0]) as real + FractionValue(s[1..])) / 10.0
  }

  /** An unsigned decimal literal: digits, optionally a point and more digits, at least one digit in all. */
  function ParseUnsignedDecimal(s: string): Option<real> {
    var k := IndexOf(s, '.');
    var whole := s[..k];
    var frac := if k < |s| then s[k + 1..] else "";
    if AllDigits(whole) && AllDigits(frac) && |whole| + |frac| > 0 then
      Some(DigitsValue(whole) as real + FractionValue(frac))
    else None
  }

  /**
   * The value of a decimal literal as Python's `Decimal(str)` reads it, for the literal forms
   * an optional sign followed by an unsigned decimal; every other text is rejected.
   */
  function ParseDecimal(s: string): Option<real> {
    if |s| > 0 && (s[0] == '+' || s[0] == '-') then
      match ParseUnsignedDecimal(s[1..])
      case None => None
      case Some(v) => Some(if s[0] == '-' then -v else v)
    else ParseUnsignedDecimal(s)
  }

  /** A digit string reads back as the number it was rendered from. */
  lemma ParseDecimalOfNat(n: nat)
    ensures ParseDecimal(NatToString(n)) == Some(n as real)
  {
    var s := NatToString(n);
    assert s[0] != '+' && s[0] != '-' by { assert IsDigit(s[0]); }
    assert forall i :: 0 <= i < |s| ==> s[i] != '.' by {
      forall i | 0 <= i < |s| ensures s[i] != '.' { assert IsDigit(s[i]); }
    }
    assert s[..|s|] == s;
  }

  /** The sign a decimal literal may start with. */
  datatype Sign = NoSign | Plus | Minus

  /** The parts of an unsigned decimal literal: whole digits and an optional point with fraction digits, one digit at least. */
  predicate DecimalParts(whole: string, point: bool, frac: string) {
    AllDigits(whole) && AllDigits(frac) && (point || frac == "") && |whole| + |frac| > 0
  }

  /** The unsigned text those parts spell. */
  function UnsignedText(whole: string, point: bool, frac: string): string {
    whole + (if point then "." + frac else "")
  }

  /** A sign written in front of a text. */
  function SignedText(sign: Sign, t: string): string {
    match sign
    case NoSign => t
    case Plus => ['+'] + t
    case Minus => ['-'] + t
  }

  /** The text a sign and the unsigned parts spell. */
  function DecimalText(sign: Sign, whole: string, point: bool, frac: string): string {
    SignedText(sign, UnsignedText(whole, point, frac))
  }

  /** The signed value those parts denote. */
  function DecimalValue(sign: Sign, whole: string, frac: string): real
    requires AllDigits(whole) && AllDigits(frac)
  {
    var v := DigitsValue(whole) as real + FractionValue(frac);
    if sign == Minus then -v else v
  }

  /** Digits contain no point. */
  lemma NoPointInDigits(whole: string)
    requires AllDigits(whole)
    ensures '.' !in whole
  {
  }

  /** An unsigned text whose first point is at `k` reads as the digits before it and the fraction after it. */
  lemma UnsignedReads(t: string, k: nat, whole: string, frac: string)
    requires k == IndexOf(t, '.') && whole == t[..k] && frac == (if k < |t| then t[k + 1..] else "")
    requires AllDigits(whole) && AllDigits(frac) && |whole| + |frac| > 0
    ensures ParseUnsignedDecimal(t) == Some(DigitsValue(whole) as real + FractionValue(frac))
  {
    assert AllDigits(t[..k]);
  }

  /** The unsigned parts alone read as their value. */
  lemma UnsignedDecimalAccepts(whole: string, point: bool, frac: string)
    requires DecimalParts(whole, point, frac)
    ensures ParseUnsignedDecimal(UnsignedText(whole, point, frac))
         == Some(DigitsValue(whole) as real + FractionValue(frac))
  {
    var rest := if point then "." + frac else "";
    var t := whole + rest;
    NoPointInDigits(whole);
    IndexOfAfter(whole, rest, '.');
    var k := |whole|;
    if point {
      assert rest[0] == '.';
      assert t[k + 1..] == frac;
    } else {
      assert t == whole;
    }
    assert t[..k] == whole;
    UnsignedReads(t, k, whole, frac);
  }

  /** A leading sign is read off and applied to the value of the accepted unsigned text after it. */
  lemma SignApplied(sign: Sign, t: string, v: real)
    requires ParseUnsignedDecimal(t) == Some(v)
    ensures ParseDecimal(SignedText(sign, t)) == Some(if sign == Minus then -v else v)
  {
    match sign
    case NoSign =>
      var k := IndexOf(t, '.');
      if |t| > 0 && k > 0 {
        assert t[..k][0] == t[0] && IsDigit(t[..k][0]);
      }
    case Plus =>
      assert (['+'] + t)[1..] == t;
    case Minus =>
      assert (['-'] + t)[1..] == t;
  }

  /** A well-formed literal reads as the value of its parts. */
  lemma ParseDecimalAccepts(sign: Sign, whole: string, point: bool, frac: string)
    requires DecimalParts(whole, point, frac)
    ensures ParseDecimal(DecimalText(sign, whole, point, frac)) == Some(DecimalValue(sign, whole, frac))
  {
    var v := DigitsValue(whole) as real + FractionValue(frac);
    UnsignedDecimalAccepts(whole, point, frac);
    SignApplied(sign, UnsignedText(whole, point, frac), v);
  }

  /** Cutting a text at a point (or at its end) gives back the text those pieces spell. */
  lemma CutAt(t: string, k: nat) returns (whole: string, point: bool, frac: string)
    requires k <= |t| && (k < |t| ==> t[k] == '.')
    ensures whole == t[..k] && point == (k < |t|) && frac == (if point then t[k + 1..] else "")
    ensures t == UnsignedText(whole, point, frac)
  {
    whole := t[..k];
    point := k < |t|;
    frac := if point then t[k + 1..] else "";
    if point {
      assert t[k..] == [t[k]] + frac;
      assert t == whole + t[k..];
    } else {
      assert t == whole + "";
    }
  }

  /** What `ParseUnsignedDecimal` checks of the pieces either side of the first point. */
  lemma UnsignedParts(t: string, k: nat)
    requires ParseUnsignedDecimal(t).Some? && k == IndexOf(t, '.')
    ensures var frac := if k < |t| then t[k + 1..] else "";
      AllDigits(t[..k]) && AllDigits(frac) && |t[..k]| + |frac| > 0
  {
  }

  /** An accepted unsigned text splits into whole digits, an optional point and fraction digits. */
  lemma UnsignedSplit(t: string) returns (whole: string, point: bool, frac: string)
    requires ParseUnsignedDecimal(t).Some?
    ensures DecimalParts(whole, point, frac) && t == UnsignedText(whole, point, frac)
  {
    var k := IndexOf(t, '.');
    UnsignedParts(t, k);
    whole, point, frac := CutAt(t, k);
  }

  /** Every accepted text is spelled by well-formed parts. */
  lemma ParseDecimalSplit(s: string) returns (sign: Sign, whole: string, point: bool, frac: string)
    requires ParseDecimal(s).Some?
    ensures DecimalParts(whole, point, frac) && s == DecimalText(sign, whole, point, frac)
  {
    if |s| > 0 && (s[0] == '+' || s[0] == '-') {
      sign := if s[0] == '+' then Plus else Minus;
      whole, point, frac := UnsignedSplit(s[1..]);
      assert s == [s[0]] + s[1..];
    } else {
      sign := NoSign;
      whole, point, frac := UnsignedSplit(s);
    }
  }

  /** Only well-formed literals are accepted: `ParseDecimal` succeeds exactly on the texts the parts spell. */
  lemma ParseDecimalForms(s: string)
    ensures ParseDecimal(s).Some? <==>
      exists sign, whole, point, frac {:trigger DecimalText(sign, whole, point, frac)} ::
        DecimalParts(whole, point, frac) && s == DecimalText(sign, whole, point, frac)
  {
    if ParseDecimal(s).Some? {
      var sign, whole, point, frac := ParseDecimalSplit(s);
    } else {
      forall sign, whole, point, frac | DecimalParts(whole, point, frac)
        ensures s != DecimalText(sign, whole, point, frac)
      {
        ParseDecimalAccepts(sign, whole, point, frac);
      }
    }
  }
}
