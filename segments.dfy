/**
 * Parametric segments: the two built-in parsers of one raw path segment
 * (StringSegment and NumberSegment) and the typed values they produce
 * (the IntegerResult and StringResult of the match result).
 */
module Segments {
  import opened Wrappers

  /** A named parameter position, with the parser that decides what it accepts. */
  datatype ParametricSegment =
    | StringSegment(paramName: string)
    | NumberSegment(paramName: string)

  /** A successfully parsed segment value; where it is stored depends on its type. */
  datatype Value = IntegerResult(intValue: int) | StringResult(stringValue: string)

  const MinInt: int := -0x8000_0000
  const MaxInt: int := 0x7FFF_FFFF

  predicate IsInt32(n: int) {
    MinInt <= n <= MaxInt
  }

  // ---------------------------------------------------------------------------
  // Decimal integer literals, as accepted by a radix-10 parseInt over ASCII.

  predicate IsDigit(c: char) {
    '0' <= c <= '9'
  }

  predicate AllDigits(s: string) {
    forall i :: 0 <= i < |s| ==> IsDigit(s[i])
  }

  predicate IsSign(c: char) {
    c == '+' || c == '-'
  }

  /** The value of a digit string, read from left to right. */
  function DigitsValue(s: string): nat
    requires AllDigits(s)
  {
    if |s| == 0 then 0
    else DigitsValue(s[..|s| - 1]) * 10 + (s[|s| - 1] as int - '0' as int)
  }

  /** An optional `+` or `-` followed by at least one digit. */
  predicate IsDecimalLiteral(s: string) {
    if |s| > 0 && IsSign(s[0]) then |s| > 1 && AllDigits(s[1..])
    else |s| > 0 && AllDigits(s)
  }

  /** The mathematical value of a decimal literal (not yet range-checked). */
  function LiteralValue(s: string): int
    requires IsDecimalLiteral(s)
  {
    if s[0] == '-' then -(DigitsValue(s[1..]) as int)
    else if s[0] == '+' then DigitsValue(s[1..])
    else DigitsValue(s)
  }

  /**
   * Radix-10 parse into a 32-bit signed integer; `None` where the original
   * throws NumberFormatException (bad syntax or a value out of range).
   */
  function ParseInt(s: string): (r: Option<int>)
    ensures r.Some? ==> IsInt32(r.value)
  {
    if IsDecimalLiteral(s) && IsInt32(LiteralValue(s)) then Some(LiteralValue(s)) else None
  }

  /** `getValue` of both built-in segment kinds; `None` is the original's `null`. */
  function GetValue(segment: ParametricSegment, rawValue: string): Option<Value>
  {
    match segment
    case StringSegment(_) => Some(StringResult(rawValue))
    case NumberSegment(_) =>
      match ParseInt(rawValue)
      case Some(n) => Some(IntegerResult(n))
      case None => None
  }

  // ---------------------------------------------------------------------------
  // Decimal rendering of an integer, the inverse of ParseInt on its range.

  function DigitChar(d: nat): (c: char)
    requires d < 10
    ensures IsDigit(c) && c as int - '0' as int == d
  {
    ('0' as int + d) as char
  }

  function NatString(n: nat): string
    decreases n
  {
    if n < 10 then [DigitChar(n)] else NatString(n / 10) + [DigitChar(n % 10)]
  }

  /** The canonical decimal rendering: a `-` for negatives, no leading zeros. */
  function DecimalString(n: int): string {
    if n < 0 then "-" + NatString(-n) else NatString(n)
  }

  lemma {:induction false} NatStringValue(n: nat)
    ensures |NatString(n)| > 0 && AllDigits(NatString(n))
    ensures DigitsValue(NatString(n)) == n
    decreases n
  {
    if n >= 10 {
      NatStringValue(n / 10);
      var s := NatString(n / 10);
      var t := s + [DigitChar(n % 10)];
      assert t[..|t| - 1] == s;
    }
  }

  // ---------------------------------------------------------------------------
  // Properties of the two segment kinds.

  /** A string segment never rejects a value, and carries it unchanged. */
  lemma StringSegmentAccepts(name: string, rawValue: string)
    ensures GetValue(StringSegment(name), rawValue) == Some(StringResult(rawValue))
    ensures StringSegment(name).paramName == name
  {
  }

  /** A number segment accepts exactly the decimal literals that fit 32 bits. */
  lemma NumberSegmentAccepts(name: string, rawValue: string)
    ensures GetValue(NumberSegment(name), rawValue).Some?
        <==> IsDecimalLiteral(rawValue) && IsInt32(LiteralValue(rawValue))
    ensures GetValue(NumberSegment(name), rawValue).Some? ==>
      GetValue(NumberSegment(name), rawValue) == Some(IntegerResult(LiteralValue(rawValue)))
  {
  }

  /** The canonical rendering of any integer is a decimal literal of that value. */
  lemma DecimalStringValue(n: int)
    ensures IsDecimalLiteral(DecimalString(n)) && LiteralValue(DecimalString(n)) == n
  {
    var m: nat := if n < 0 then -n else n;
    NatStringValue(m);
    var digits := NatString(m);
    var s := DecimalString(n);
    if n < 0 {
      assert s[0] == '-' && s[1..] == digits;
    } else {
      assert s == digits && !IsSign(s[0]);
    }
  }

  /** Every 32-bit integer survives rendering and parsing back. */
  lemma NumberSegmentRoundTrip(name: string, n: int)
    requires IsInt32(n)
    ensures ParseInt(DecimalString(n)) == Some(n)
    ensures GetValue(NumberSegment(name), DecimalString(n)) == Some(IntegerResult(n))
  {
    DecimalStringValue(n);
  }

  /** Every integer outside 32 bits, well-formed as it is, is rejected. */
  lemma NumberSegmentRejectsOutOfRange(name: string, n: int)
    requires !IsInt32(n)
    ensures ParseInt(DecimalString(n)) == None
    ensures GetValue(NumberSegment(name), DecimalString(n)) == None
  {
    DecimalStringValue(n);
  }

  /** Plain and signed literals, leading zeros included. */
  lemma NumberSegmentSignedExamples()
    ensures ParseInt("123") == Some(123)
    ensures ParseInt("+7") == Some(7) && ParseInt("-007") == Some(-7)
  {
    NumberSegmentRoundTrip("", 123);
    assert DecimalString(123) == "123";
    assert "+7"[1..] == "7" && DigitsValue("7") == 7;
    assert "-007"[1..] == "007" && "007"[..2] == "00" && "00"[..1] == "0";
  }

  /** A stray character, no digits at all, or a lone sign is not a number. */
  lemma NumberSegmentMalformedExamples()
    ensures ParseInt("12a") == None && ParseInt("") == None
    ensures ParseInt("+") == None && ParseInt("-") == None
  {
    assert !AllDigits("12a") by { assert !IsDigit("12a"[2]); }
  }

  /**
   * The decimal renderings of the integers just around the 32-bit bounds,
   * one digit at a time: left to itself the solver does not reliably
   * unfold the rendering ten times within the resource limit.
   */
  lemma NatStringMaxInt()
    ensures NatString(2147483647) == "2147483647"
  {
    assert NatString(2) == "2";
    assert NatString(21) == "21";
    assert NatString(214) == "214";
    assert NatString(2147) == "2147";
    assert NatString(21474) == "21474";
    assert NatString(214748) == "214748";
    assert NatString(2147483) == "2147483";
    assert NatString(21474836) == "21474836";
    assert NatString(214748364) == "214748364";
    assert NatString(2147483647) == "2147483647";
  }

  lemma NatStringMaxIntPlusOne()
    ensures NatString(2147483648) == "2147483648"
  {
    assert NatString(2) == "2";
    assert NatString(21) == "21";
    assert NatString(214) == "214";
    assert NatString(2147) == "2147";
    assert NatString(21474) == "21474";
    assert NatString(214748) == "214748";
    assert NatString(2147483) == "2147483";
    assert NatString(21474836) == "21474836";
    assert NatString(214748364) == "214748364";
    assert NatString(2147483648) == "2147483648";
  }

  lemma NatStringMinIntMinusOne()
    ensures NatString(2147483649) == "2147483649"
  {
    assert NatString(2) == "2";
    assert NatString(21) == "21";
    assert NatString(214) == "214";
    assert NatString(2147) == "2147";
    assert NatString(21474) == "21474";
    assert NatString(214748) == "214748";
    assert NatString(2147483) == "2147483";
    assert NatString(21474836) == "21474836";
    assert NatString(214748364) == "214748364";
    assert NatString(2147483649) == "2147483649";
  }

  lemma DecimalStringMinInt()
    ensures DecimalString(MinInt) == "-2147483648"
  {
    NatStringMaxIntPlusOne();
  }

  lemma DecimalStringMinIntMinusOne()
    ensures DecimalString(MinInt - 1) == "-2147483649"
  {
    NatStringMinIntMinusOne();
  }

  /** The largest 32-bit integer parses; one more does not. */
  lemma NumberSegmentMaxExamples()
    ensures ParseInt("2147483647") == Some(MaxInt) && ParseInt("2147483648") == None
  {
    NumberSegmentRoundTrip("", MaxInt);
    NumberSegmentRejectsOutOfRange("", MaxInt + 1);
    NatStringMaxInt();
    NatStringMaxIntPlusOne();
  }

  /** The smallest 32-bit integer parses; one less does not. */
  lemma NumberSegmentMinExamples()
    ensures ParseInt("-2147483648") == Some(MinInt) && ParseInt("-2147483649") == None
  {
    NumberSegmentRoundTrip("", MinInt);
    NumberSegmentRejectsOutOfRange("", MinInt - 1);
    DecimalStringMinInt();
    DecimalStringMinIntMinusOne();
  }
}
