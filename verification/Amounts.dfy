/** Printing and parsing token amounts with a decimal point (eth/helpers.go). */
module Amounts {
  import opened Base

  // ---------------------------------------------------------------- digits

  predicate IsDigit(c: char) { '0' <= c <= '9' }

  predicate AllDigits(s: string) { forall i :: 0 <= i < |s| ==> IsDigit(s[i]) }

  function Digit(n: nat): (c: char)
    requires n < 10
    ensures IsDigit(c) && DigitValue(c) == n
  {
    ('0' as int + n) as char
  }

  function DigitValue(c: char): (n: nat)
    requires IsDigit(c)
    ensures n < 10
  {
    c as int - '0' as int
  }

  /** The number a string of digits stands for; the empty string stands for 0. */
  function Value(s: string): nat
    requires AllDigits(s)
  {
    if s == [] then 0 else 10 * Value(s[..|s| - 1]) + DigitValue(s[|s| - 1])
  }

  /** The digits of a number, without leading zeros. */
  function Decimal(n: nat): (s: string)
    ensures s != [] && AllDigits(s)
    ensures n > 0 ==> s[0] != '0'
  {
    if n < 10 then [Digit(n)] else Decimal(n / 10) + [Digit(n % 10)]
  }

  lemma {:induction false} DecimalValue(n: nat)
    ensures Value(Decimal(n)) == n
  {
    if n < 10 {
    } else {
      DecimalValue(n / 10);
    }
  }

  function Zeros(n: nat): (s: string)
    ensures |s| == n && AllDigits(s) && forall i :: 0 <= i < n ==> s[i] == '0'
  {
    seq(n, _ => '0')
  }

  lemma {:induction false} LeadingZeros(n: nat, s: string)
    requires AllDigits(s)
    ensures AllDigits(Zeros(n) + s) && Value(Zeros(n) + s) == Value(s)
    decreases |s|, n
  {
    var t := Zeros(n) + s;
    if s == [] {
      if n > 0 {
        LeadingZeros(n - 1, []);
        assert t[..n - 1] == Zeros(n - 1) + [];
      }
    } else {
      LeadingZeros(n, s[..|s| - 1]);
      assert t[..|t| - 1] == Zeros(n) + s[..|s| - 1];
    }
  }

  // ---------------------------------------------------------------- printing

  function ToString(v: int): string {
    if v < 0 then "-" + Decimal(-v) else Decimal(v)
  }

  function PaddedLeft(s: string, len: nat): (r: string)
    ensures |r| >= len && |r| >= |s|
  {
    if |s| < len then Zeros(len - |s|) + s else s
  }

  function TrimRight(s: string): (r: string)
    ensures |r| <= |s| && s == r + Zeros(|s| - |r|)
    ensures r == [] || r[|r| - 1] != '0'
  {
    if s == [] || s[|s| - 1] != '0' then s
    else
      var r := TrimRight(s[..|s| - 1]);
      assert s == s[..|s| - 1] + "0";
      r
  }

  /** Glues the two parts together; a fraction of zeros is left out. */
  function Glued(intPart: string, decPart: string): string {
    var i := if intPart == [] then "0" else intPart;
    var d := TrimRight(decPart);
    if d == [] then i else i + "." + d
  }

  /** Splits off the last `d` characters as the fraction. */
  function Pointed(s: string, d: nat): string
    requires d <= |s|
  {
    Glued(s[..|s| - d], s[|s| - d..])
  }

  function Printed(v: int, maxDecimals: nat): string {
    Pointed(PaddedLeft(ToString(v), maxDecimals), maxDecimals)
  }

  method PadLeft(t: string, len: nat) returns (s: string)
    ensures s == PaddedLeft(t, len)
  {
    s := t;
    while |s| < len
      invariant |t| <= |s| && (|s| <= len || s == t)
      invariant s == Zeros(|s| - |t|) + t
    {
      s := "0" + s;
    }
  }

  method FromBaseAmount(v: int, maxDecimals: nat) returns (r: string)
    ensures r == Printed(v, maxDecimals)
  {
    var s := PadLeft(ToString(v), maxDecimals);
    var intPart := s[..|s| - maxDecimals];
    var decPart := s[|s| - maxDecimals..];
    if |intPart| == 0 {
      intPart := "0";
    }
    decPart := TrimRight(decPart);
    if |decPart| == 0 {
      return intPart;
    }
    r := intPart + "." + decPart;
  }

  // ---------------------------------------------------------------- parsing

  predicate Digits1(s: string) { s != [] && AllDigits(s) }

  /** The pattern `[0-9]*.?[0-9]+`, in which the dot stands for any character but a newline. */
  predicate MatchesBody(s: string) {
    exists i :: 0 <= i <= |s| && AllDigits(s[..i]) &&
      (Digits1(s[i..]) || (i < |s| && s[i] != '\n' && Digits1(s[i + 1..])))
  }

  predicate IsSign(c: char) { c == '-' || c == '+' }

  predicate MatchesFloat(s: string) {
    MatchesBody(s) || (s != [] && IsSign(s[0]) && MatchesBody(s[1..]))
  }

  function FirstDot(s: string): (k: nat)
    ensures k <= |s| && (k < |s| ==> s[k] == '.')
    ensures forall i :: 0 <= i < k ==> s[i] != '.'
  {
    if s == [] || s[0] == '.' then 0 else 1 + FirstDot(s[1..])
  }

  /** The first two pieces between dots; the second is empty if there is no dot. */
  function Pieces(s: string): (string, string) {
    var k := FirstDot(s);
    if k == |s| then (s, "") else (s[..k], s[k + 1..][..FirstDot(s[k + 1..])])
  }

  /** Base-10 integers: an optional sign and at least one digit. */
  function ParseInt(s: string): Option<int> {
    if Digits1(s) then Some(Value(s))
    else if s != [] && IsSign(s[0]) && Digits1(s[1..]) then
      var n: int := Value(s[1..]);
      Some(if s[0] == '-' then -n else n)
    else None
  }

  datatype Amount = Amount(value: int) | NotAFloat | TooManyDecimals | NotAnInteger

  function Verdict(n: Option<int>): Amount {
    match n case Some(v) => Amount(v) case None => NotAnInteger
  }

  function Parsed(s: string, maxDecimals: nat): Amount {
    if !MatchesFloat(s) then NotAFloat
    else
      var (intPart, decPart) := Pieces(s);
      if |decPart| > maxDecimals then TooManyDecimals
      else
        Verdict(ParseInt(intPart + (decPart + Zeros(maxDecimals - |decPart|))))
  }

  method ToBaseAmount(s: string, maxDecimals: nat) returns (r: Amount)
    ensures r == Parsed(s, maxDecimals)
  {
    if !MatchesFloat(s) {
      return NotAFloat;
    }
    var (intPart, decPart) := Pieces(s);
    if |decPart| > maxDecimals {
      return TooManyDecimals;
    }
    ghost var given := decPart;
    while |decPart| < maxDecimals
      invariant |given| <= |decPart| <= maxDecimals
      invariant decPart == given + Zeros(|decPart| - |given|)
    {
      decPart := decPart + "0";
    }
    var n := ParseInt(intPart + decPart);
    r := Verdict(n);
  }

  // ---------------------------------------------------------------- round trip

  lemma DigitsMatch(s: string)
    requires Digits1(s)
    ensures MatchesBody(s)
  {
    assert AllDigits(s[..0]) && Digits1(s[0..]);
  }

  lemma FractionMatches(i: string, d: string)
    requires AllDigits(i) && Digits1(d)
    ensures MatchesBody(i + "." + d)
  {
    var s := i + "." + d;
    var k := |i|;
    assert AllDigits(s[..k]) && Digits1(s[k + 1..]);
  }

  lemma GluedPieces(i: string, d: string)
    requires forall k :: 0 <= k < |i| ==> i[k] != '.'
    requires forall k :: 0 <= k < |d| ==> d[k] != '.'
    ensures Pieces(i) == (i, "")
    ensures Pieces(i + "." + d) == (i, d)
  {
    var s := i + "." + d;
    assert FirstDot(s) == |i| by {
      assert s[|i|] == '.';
    }
    assert s[|i| + 1..] == d && s[..|i|] == i && d[..|d|] == d;
  }

  /** A sign and digits, or digits alone. */
  predicate SignedDigits(s: string) {
    AllDigits(s) || (s != [] && IsSign(s[0]) && AllDigits(s[1..]))
  }

  lemma TrimmedDigits(d: string)
    requires AllDigits(d)
    ensures AllDigits(TrimRight(d)) && TrimRight(d) + Zeros(|d| - |TrimRight(d)|) == d
  {}

  /** The integer part needs a digit unless there is a fraction. */
  predicate Presentable(i: string, d: string) {
    && i != [] && SignedDigits(i) && AllDigits(d)
    && (AllDigits(i) || |i| > 1 || TrimRight(d) != [])
  }

  lemma GluedMatches(i: string, d: string)
    requires Presentable(i, d)
    ensures MatchesFloat(Glued(i, d))
  {
    TrimmedDigits(d);
    var t := TrimRight(d);
    if AllDigits(i) {
      if t == [] { DigitsMatch(i); } else { FractionMatches(i, t); }
    } else if t == [] {
    } else {
      FractionMatches(i[1..], t);
      assert Glued(i, d)[1..] == i[1..] + "." + t;
    }
  }

  lemma GluedSplits(i: string, d: string)
    requires i != [] && SignedDigits(i) && AllDigits(d)
    ensures Pieces(Glued(i, d)) == (i, TrimRight(d))
  {
    TrimmedDigits(d);
    GluedPieces(i, TrimRight(d));
  }

  /** Splitting off the last digits, trimming and gluing is undone by splitting at the dot,
      padding and joining. */
  lemma GluedParses(i: string, d: string)
    requires Presentable(i, d)
    ensures Parsed(Glued(i, d), |d|) == Verdict(ParseInt(i + d))
  {
    GluedMatches(i, d);
    GluedSplits(i, d);
  }

  lemma PaddedValue(v: nat, d: nat)
    ensures var s := PaddedLeft(Decimal(v), d); AllDigits(s) && Value(s) == v && s != []
  {
    DecimalValue(v);
    if |Decimal(v)| < d {
      LeadingZeros(d - |Decimal(v)|, Decimal(v));
    }
  }

  lemma ZeroInFront(s: string)
    requires AllDigits(s)
    ensures AllDigits("0" + s) && Value("0" + s) == Value(s)
  {
    LeadingZeros(1, s);
    assert Zeros(1) == "0";
  }

  lemma TwoParts(s: string, n: nat)
    requires AllDigits(s) && 0 < n <= |s|
    ensures s[..n] + s[n..] == s
    ensures Presentable(s[..n], s[n..]) && Glued(s[..n], s[n..]) == Pointed(s, |s| - n)
  {}

  lemma OnePart(s: string)
    requires AllDigits(s)
    ensures Presentable("0", s) && Glued("0", s) == Pointed(s, |s|)
  {
    assert s[..0] == [] && s[0..] == s;
  }

  /** Any string of digits, split `d` places from its end: the two parts that are glued. */
  lemma SplitParts(s: string, d: nat) returns (i: string, f: string)
    requires Digits1(s) && d <= |s|
    ensures Presentable(i, f) && |f| == d
    ensures Glued(i, f) == Pointed(s, d)
    ensures AllDigits(i + f) && Value(i + f) == Value(s)
    ensures ParseInt(i + f) == Some(Value(s))
  {
    if d == |s| {
      i, f := "0", s;
      OnePart(s);
      ZeroInFront(s);
    } else {
      i, f := s[..|s| - d], s[|s| - d..];
      TwoParts(s, |s| - d);
    }
  }

  lemma NonZeroStaysTrimmed(f: string)
    requires f != [] && f[0] != '0'
    ensures TrimRight(f) != []
  {}

  lemma {:induction false} TrimKeeps(s: string, k: nat)
    requires k < |s| && s[k] != '0'
    ensures |TrimRight(s)| > k && TrimRight(s)[..k + 1] == s[..k + 1]
  {
    if s[|s| - 1] == '0' {
      TrimKeeps(s[..|s| - 1], k);
    }
  }

  lemma MinusIs(digits: string)
    requires Digits1(digits)
    ensures ParseInt("-" + digits) == Some(0 - Value(digits))
  {
    var s := "-" + digits;
    assert s[0] == '-' && s[1..] == digits;
    assert !IsDigit(s[0]);
  }

  lemma PlusIs(digits: string)
    requires Digits1(digits)
    ensures ParseInt("+" + digits) == Some(Value(digits))
  {
    var s := "+" + digits;
    assert s[0] == '+' && s[1..] == digits;
    assert !IsDigit(s[0]);
  }

  lemma StrayCharacter(s: string, i: nat)
    requires i < |s| && !IsDigit(s[i]) && (i > 0 || !IsSign(s[0]))
    ensures ParseInt(s) == None
  {
    if i > 0 {
      assert s[1..][i - 1] == s[i];
    }
  }

  /** Integers: digits, possibly behind a sign, and nothing else. */
  lemma IntegersAre(digits: string, s: string, i: nat)
    requires Digits1(digits)
    requires i < |s| && !IsDigit(s[i]) && (i > 0 || !IsSign(s[0]))
    ensures ParseInt(digits) == Some(Value(digits)) && ParseInt("+" + digits) == Some(Value(digits))
    ensures ParseInt("-" + digits) == Some(0 - Value(digits))
    ensures ParseInt("") == None && ParseInt("-") == None && ParseInt(s) == None
  {
    MinusIs(digits);
    PlusIs(digits);
    StrayCharacter(s, i);
    assert ("-")[1..] == [] && !IsDigit(("-")[0]);
  }

  lemma NegativeParts(digits: string, d: nat) returns (i: string, f: string)
    requires Digits1(digits) && digits[0] != '0' && d <= |digits|
    ensures Presentable(i, f) && |f| == d
    ensures Glued(i, f) == Pointed("-" + digits, d)
    ensures ParseInt(i + f) == Some(0 - Value(digits))
  {
    var s := "-" + digits;
    var n := |digits| - d;
    var whole := digits[..n];
    i, f := "-" + whole, digits[n..];
    assert digits == whole + f;
    assert s[..|s| - d] == i && s[|s| - d..] == f;
    assert i + f == "-" + digits && i[1..] == whole;
    MinusIs(digits);
    if |i| == 1 {
      NonZeroStaysTrimmed(f);
    }
  }

  lemma NonNegativeParts(v: nat, d: nat) returns (i: string, f: string)
    ensures Presentable(i, f) && |f| == d
    ensures Glued(i, f) == Printed(v, d)
    ensures ParseInt(i + f) == Some(v as int)
  {
    PaddedValue(v, d);
    i, f := SplitParts(PaddedLeft(Decimal(v), d), d);
  }

  lemma NegativeAmountParts(v: int, d: nat) returns (i: string, f: string)
    requires v < 0 && |Decimal(-v)| >= d
    ensures Presentable(i, f) && |f| == d
    ensures Glued(i, f) == Printed(v, d)
    ensures ParseInt(i + f) == Some(v)
  {
    DecimalValue(-v);
    i, f := NegativeParts(Decimal(-v), d);
  }

  lemma ReadsBack(p: string, i: string, f: string, d: nat, v: int)
    requires Presentable(i, f) && |f| == d && p == Glued(i, f) && ParseInt(i + f) == Some(v)
    ensures Parsed(p, d) == Amount(v)
  {
    GluedParses(i, f);
  }

  lemma {:induction false} TrimsTo(t: string, n: nat)
    requires t == [] || t[|t| - 1] != '0'
    ensures TrimRight(t + Zeros(n)) == t
    decreases n
  {
    if n == 0 {
      assert t + Zeros(0) == t;
    } else {
      var s := t + Zeros(n);
      assert s[..|s| - 1] == t + Zeros(n - 1);
      TrimsTo(t, n - 1);
    }
  }

  /** Parts are glued with a point, without the trailing zeros of the fraction, and without the
      point if the fraction is nothing but zeros. */
  lemma GluedIs(i: string, t: string, n: nat)
    requires i != [] && (t == [] || t[|t| - 1] != '0')
    ensures Glued(i, t + Zeros(n)) == if t == [] then i else i + "." + t
    ensures Glued([], t + Zeros(n)) == Glued("0", t + Zeros(n))
  {
    TrimsTo(t, n);
  }

  /** What is printed for an amount that is not negative: its digits in two parts, as many in the
      fraction as there are decimals. */
  lemma PrintedDenotes(v: nat, d: nat) returns (i: string, f: string)
    ensures Printed(v, d) == Glued(i, f)
    ensures i != [] && |f| == d
    ensures AllDigits(i + f) && Value(i + f) == v
  {
    PaddedValue(v, d);
    i, f := SplitParts(PaddedLeft(Decimal(v), d), d);
  }

  /** What a text with a point denotes: the integer before it, continued by the digits behind it
      and filled up with zeros, if there are not too many. */
  lemma ParsedDenotes(i: string, f: string, d: nat)
    requires SignedDigits(i) && Digits1(f)
    ensures Parsed(i + "." + f, d) ==
              if |f| > d then TooManyDecimals else Verdict(ParseInt(i + (f + Zeros(d - |f|))))
  {
    GluedPieces(i, f);
    if AllDigits(i) {
      FractionMatches(i, f);
    } else {
      FractionMatches(i[1..], f);
      assert (i + "." + f)[1..] == i[1..] + "." + f;
    }
  }

  /** With fewer digits than decimals the sign of a negative amount ends up in the fraction. */
  lemma NegativeFails(v: int, d: nat)
    requires v < 0 && |Decimal(-v)| < d
    ensures Parsed(Printed(v, d), d) == NotAFloat
  {
    var digits := Decimal(-v);
    var k := d - |digits| - 1;
    var s := PaddedLeft("-" + digits, d);
    assert s[..|s| - d] == [] && s[|s| - d..] == s;
    TrimKeeps(s, k + 1);
    var t := TrimRight(s);
    assert t[..k + 2][k] == s[..k + 2][k];
    SecondMark("0" + "." + t, k + 2);
  }

  /** A dot in second place and a sign further on do not make a number. */
  lemma SecondMark(r: string, m: nat)
    requires 1 < m < |r| && IsDigit(r[0]) && r[1] == '.' && r[m] == '-'
    ensures !MatchesFloat(r)
  {}

  lemma RoundTripHolds(v: int, d: nat)
    requires v >= 0 || |Decimal(-v)| >= d
    ensures Parsed(Printed(v, d), d) == Amount(v)
  {
    var i, f;
    if v >= 0 {
      i, f := NonNegativeParts(v, d);
    } else {
      i, f := NegativeAmountParts(v, d);
    }
    ReadsBack(Printed(v, d), i, f, d, v);
  }

  /** Parsing undoes printing exactly for the amounts that are not negative and for negative
      ones with at least as many digits as decimals. */
  lemma RoundTrip(v: int, d: nat)
    ensures Parsed(Printed(v, d), d) == Amount(v) <==> v >= 0 || |Decimal(-v)| >= d
  {
    if v >= 0 || |Decimal(-v)| >= d {
      RoundTripHolds(v, d);
    } else {
      NegativeFails(v, d);
    }
  }
}
