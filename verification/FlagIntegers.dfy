/**
 How the flag library reads an integer: strconv.ParseInt with base 0, which honours base prefixes,
 a leading zero for octal, and underscores between digits; and exactly when that agrees with the
 decimal reading of the environment.
 */
module FlagIntegers {
  import opened Wrappers
  import opened Text

  /** The value of a digit in bases up to 36; other characters are no digit in any base. */
  function DigitOf(c: char): nat {
    if '0' <= c <= '9' then c as int - '0' as int
    else if 'a' <= c <= 'z' then c as int - 'a' as int + 10
    else if 'A' <= c <= 'Z' then c as int - 'A' as int + 10
    else 36
  }

  /** The digits of the text in the given base, underscores skipped. */
  function ValueIn(s: string, base: nat): Option<int> {
    if s == [] then Some(0)
    else
      var front, c := ValueIn(s[..|s| - 1], base), s[|s| - 1];
      if front.None? then None
      else if c == '_' then front
      else if DigitOf(c) >= base then None
      else Some(front.value * base + DigitOf(c))
  }

  datatype Seen = Nothing | Digit | Underscore | Other

  /** Each underscore stands between two digits; a base prefix counts as a digit. */
  predicate UnderscoresFit(s: string, hex: bool, seen: Seen) {
    if s == [] then seen != Underscore
    else if IsDigit(s[0]) || (hex && 10 <= DigitOf(s[0]) < 16) then UnderscoresFit(s[1..], hex, Digit)
    else if s[0] == '_' then seen == Digit && UnderscoresFit(s[1..], hex, Underscore)
    else seen != Underscore && UnderscoresFit(s[1..], hex, Other)
  }

  predicate HasPrefix(s: string, lower: char, upper: char) {
    |s| >= 2 && s[0] == '0' && (s[1] == lower || s[1] == upper)
  }

  /** underscoreOK, for text without a sign. */
  predicate UnderscoreOK(s: string) {
    if HasPrefix(s, 'b', 'B') || HasPrefix(s, 'o', 'O') || HasPrefix(s, 'x', 'X')
    then UnderscoresFit(s[2..], HasPrefix(s, 'x', 'X'), Digit)
    else UnderscoresFit(s, false, Nothing)
  }

  /** The base and the digits that text without a sign stands for. */
  function BaseAndDigits(s: string): (nat, string) {
    if s == [] || s[0] != '0' then (10, s)
    else if |s| >= 3 && HasPrefix(s, 'b', 'B') then (2, s[2..])
    else if |s| >= 3 && HasPrefix(s, 'o', 'O') then (8, s[2..])
    else if |s| >= 3 && HasPrefix(s, 'x', 'X') then (16, s[2..])
    else (8, s[1..])
  }

  /** strconv.ParseUint with base 0, before its range check. */
  function ParseMagnitude(s: string): Option<int> {
    if s == [] then None
    else
      var (base, digits) := BaseAndDigits(s);
      if '_' in digits && !UnderscoreOK(s) then None else ValueIn(digits, base)
  }

  predicate Signed(s: string) { s != [] && (s[0] == '-' || s[0] == '+') }

  function Unsigned(s: string): string { if Signed(s) then s[1..] else s }

  /** strconv.ParseInt with base 0 and 64 bits. */
  function ParseFlagInteger(s: string): Option<int> {
    var magnitude := ParseMagnitude(Unsigned(s));
    if magnitude.None? then None
    else
      var value := if Signed(s) && s[0] == '-' then -magnitude.value else magnitude.value;
      if MIN_INT64 <= value <= MAX_INT64 then Some(value) else None
  }

  lemma FlagIntegerInRange(s: string)
    ensures ParseFlagInteger(s).Some? ==> MIN_INT64 <= ParseFlagInteger(s).value <= MAX_INT64
  {
  }

  // ---------------------------------------------------------------- digits in base 8 and 10

  lemma {:induction false} DecimalValue(s: string)
    requires AllDigits(s)
    ensures ValueIn(s, 10) == Some(DigitsValue(s)) && DigitsValue(s) >= 0
  {
    if s != [] {
      assert IsDigit(s[|s| - 1]);
      DecimalValue(s[..|s| - 1]);
    }
  }

  lemma EmptyDigits(s: string)
    requires s == []
    ensures DigitsValue(s) == 0
  {
  }

  /** Decimal digits read in octal: the same number below 8, a smaller one or none from 8 on. */
  lemma {:induction false} OctalValue(s: string)
    requires AllDigits(s)
    ensures DigitsValue(s) >= 0
    ensures DigitsValue(s) < 8 ==> ValueIn(s, 8) == Some(DigitsValue(s))
    ensures DigitsValue(s) >= 8 && ValueIn(s, 8).Some? ==> ValueIn(s, 8).value < DigitsValue(s)
  {
    if s != [] {
      assert IsDigit(s[|s| - 1]);
      OctalValue(s[..|s| - 1]);
    }
  }

  lemma {:induction false} LeadingZeroAddsNothing(s: string)
    requires s != [] && s[0] == '0' && AllDigits(s)
    ensures DigitsValue(s) == DigitsValue(s[1..])
  {
    if |s| > 1 {
      var front := s[..|s| - 1];
      LeadingZeroAddsNothing(front);
      assert s[1..][..|s| - 2] == front[1..];
    } else {
      assert s[..0] == [];
    }
  }

  predicate LeadingZero(s: string) { |Unsigned(s)| >= 2 && Unsigned(s)[0] == '0' }

  lemma BaseOfDigits(s: string)
    requires s != [] && AllDigits(s)
    ensures BaseAndDigits(s) == if s[0] == '0' then (8, s[1..]) else (10, s)
    ensures '_' !in s
  {
  }

  lemma MagnitudeOfDigits(s: string)
    requires s != [] && AllDigits(s)
    ensures DigitsValue(s) >= 0
    ensures ParseMagnitude(s) == Some(DigitsValue(s)) <==> (|s| >= 2 && s[0] == '0' ==> DigitsValue(s) < 8)
  {
    hide DigitsValue, ValueIn, UnderscoreOK, BaseAndDigits;
    BaseOfDigits(s);
    DecimalValue(s);
    if s[0] == '0' {
      LeadingZeroAddsNothing(s);
      OctalValue(s[1..]);
      if |s| == 1 { EmptyDigits(s[1..]); }
    }
  }

  /**
   A decimal integer means the same to the flag library exactly when it has no leading zero or is
   smaller than 8 in magnitude.
   */
  lemma DecimalAgrees(s: string, n: int)
    requires ParseInt(s, MIN_INT64, MAX_INT64) == Some(n)
    ensures ParseFlagInteger(s) == Some(n) <==> (LeadingZero(s) ==> -8 < n < 8)
  {
    hide ParseMagnitude, DigitsValue;
    MagnitudeOfDigits(Unsigned(s));
  }

  predicate DigitOrUnderscore(c: char) { DigitOf(c) < 36 || c == '_' }

  lemma {:induction false} ValueMeansDigits(s: string, base: nat)
    requires base <= 16 && ValueIn(s, base).Some?
    ensures forall i :: 0 <= i < |s| ==> DigitOrUnderscore(s[i])
  {
    if s != [] { ValueMeansDigits(s[..|s| - 1], base); }
  }

  lemma MagnitudeMeansDigits(s: string)
    requires ParseMagnitude(s).Some?
    ensures s != [] && DigitOrUnderscore(s[0]) && DigitOrUnderscore(s[|s| - 1])
  {
    var (base, digits) := BaseAndDigits(s);
    ValueMeansDigits(digits, base);
    if digits != [] { assert s[|s| - 1] == digits[|digits| - 1]; }
    if digits == s { assert s[0] == digits[0]; }
  }

  /** The flag library accepts no outer white space. */
  lemma FlagIntegerTrimmed(s: string)
    requires ParseFlagInteger(s).Some?
    ensures s != [] && Trimmed(s) && TrimSpace(s) == s
  {
    MagnitudeMeansDigits(Unsigned(s));
    assert forall c :: DigitOrUnderscore(c) ==> !IsSpace(c);
    TrimSpaceFixesTrimmed(s);
  }

  /** Decimal text has no outer white space either. */
  lemma DecimalTrimmed(s: string, n: int)
    requires ParseInt(s, MIN_INT64, MAX_INT64) == Some(n)
    ensures s != [] && TrimSpace(s) == s
  {
  }

  lemma OctalTen()
    ensures ParseFlagInteger("010") == Some(8)
  {
    var digits := "10";
    assert "010"[1..] == digits;
    assert digits[..1] == "1" && "1"[..0] == "";
    assert ValueIn("", 8) == Some(0);
    assert ValueIn("1", 8) == Some(1);
    assert ValueIn(digits, 8) == Some(8);
    assert BaseAndDigits("010") == (8, digits);
    assert '_' !in digits;
  }

  /** Base prefixes. */
  lemma Prefixes()
    ensures ParseFlagInteger("0x10") == Some(16) && ParseFlagInteger("0b10") == Some(2) && ParseFlagInteger("0o10") == Some(8)
  {
    assert "0x10"[2..] == "10" && "0b10"[2..] == "10" && "0o10"[2..] == "10";
    TensInBases();
    assert '_' !in "10";
    hide ValueIn;
  }

  /** Underscores stand between digits only. */
  lemma Underscores()
    ensures ParseFlagInteger("1_0") == Some(10)
    ensures ParseFlagInteger("_1") == None && ParseFlagInteger("1_") == None && ParseFlagInteger("1__0") == None
  {
    TensInBases();
    UnderscoresChecked();
    assert "1_0"[1] == '_' && "_1"[0] == '_' && "1_"[1] == '_' && "1__0"[1] == '_';
    hide ValueIn, UnderscoreOK;
  }

  lemma UnderscoresChecked()
    ensures UnderscoreOK("1_0") && !UnderscoreOK("_1") && !UnderscoreOK("1_") && !UnderscoreOK("1__0")
  {
    assert "1_0"[1..] == "_0" && "_0"[1..] == "0" && "0"[1..] == "";
    assert "1_"[1..] == "_" && "_"[1..] == "";
    assert "1__0"[1..] == "__0";
  }

  lemma TensInBases()
    ensures ValueIn("10", 16) == Some(16) && ValueIn("10", 2) == Some(2) && ValueIn("10", 8) == Some(8)
    ensures ValueIn("1_0", 10) == Some(10)
  {
    assert "10"[..1] == "1" && "1"[..0] == "" && "1_0"[..2] == "1_" && "1_"[..1] == "1";
    assert ValueIn("1", 16) == Some(1) && ValueIn("1", 2) == Some(1) && ValueIn("1", 8) == Some(1) && ValueIn("1", 10) == Some(1);
    assert ValueIn("1_", 10) == Some(1);
  }
}
