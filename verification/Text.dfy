/**
 The text primitives the request layer is built from: white-space trimming, and the decimal
 printer and parser that carry cursors between responses and requests.
 */
module Text {
  import opened Wrappers

  /** A query-parameter value: a sequence of characters, or bytes that are not valid UTF-8. */
  datatype Raw = Chars(text: string) | Malformed

  // ---------------------------------------------------------------- white space

  /** unicode.IsSpace. */
  predicate IsSpace(c: char) {
    || '\t' <= c <= '\r' || c == ' '
    || c == '\U{0085}' || c == '\U{00A0}' || c == '\U{1680}'
    || '\U{2000}' <= c <= '\U{200A}'
    || c == '\U{2028}' || c == '\U{2029}' || c == '\U{202F}' || c == '\U{205F}' || c == '\U{3000}'
  }

  /** The 25 characters that Unicode counts as white space. */
  lemma SpaceCharacters(c: char)
    ensures IsSpace(c) <==> c as int in {
      0x9, 0xA, 0xB, 0xC, 0xD, 0x20, 0x85, 0xA0, 0x1680, 0x2000, 0x2001, 0x2002, 0x2003, 0x2004, 0x2005, 0x2006, 0x2007,
      0x2008, 0x2009, 0x200A, 0x2028, 0x2029, 0x202F, 0x205F, 0x3000}
  {
  }

  function TrimLeft(s: string): string {
    if s != [] && IsSpace(s[0]) then TrimLeft(s[1..]) else s
  }

  function TrimRight(s: string): string {
    if s != [] && IsSpace(s[|s| - 1]) then TrimRight(s[..|s| - 1]) else s
  }

  /** strings.TrimSpace. */
  function TrimSpace(s: string): string {
    TrimRight(TrimLeft(s))
  }

  ghost predicate Trimmed(s: string) {
    s != [] ==> !IsSpace(s[0]) && !IsSpace(s[|s| - 1])
  }

  ghost predicate Blank(s: string) {
    forall i :: 0 <= i < |s| ==> IsSpace(s[i])
  }

  lemma BlankCons(c: char, s: string)
    requires IsSpace(c) && Blank(s)
    ensures Blank([c] + s)
  {
    hide IsSpace;
  }

  lemma EmptyIsBlank(s: string)
    requires s == []
    ensures Blank(s)
  {
  }

  lemma {:induction false} TrimLeftDrops(s: string) returns (n: nat)
    ensures n <= |s| && TrimLeft(s) == s[n..] && Blank(s[..n])
    ensures TrimLeft(s) != [] ==> !IsSpace(TrimLeft(s)[0])
  {
    hide IsSpace, Blank;
    if s != [] && IsSpace(s[0]) {
      var m := TrimLeftDrops(s[1..]);
      n := m + 1;
      assert s[..n] == [s[0]] + s[1..][..m];
      BlankCons(s[0], s[1..][..m]);
    } else {
      n := 0;
      EmptyIsBlank(s[..0]);
    }
  }

  lemma {:induction false} TrimRightDrops(s: string) returns (n: nat)
    ensures n <= |s| && TrimRight(s) == s[..n] && Blank(s[n..])
    ensures TrimRight(s) != [] ==> !IsSpace(TrimRight(s)[n - 1])
  {
    if s != [] && IsSpace(s[|s| - 1]) {
      var t := s[..|s| - 1];
      n := TrimRightDrops(t);
      assert s[n..] == t[n..] + [s[|s| - 1]];
    } else {
      n := |s|;
    }
  }

  /**
   Trimming removes white space at both ends and nothing else: the text is a blank prefix, the
   trimmed core and a blank suffix.
   */
  lemma TrimSpaceDrops(s: string) returns (before: string, after: string)
    ensures s == before + TrimSpace(s) + after && Blank(before) && Blank(after)
    ensures Trimmed(TrimSpace(s))
  {
    var n := TrimLeftDrops(s);
    var core := TrimLeft(s);
    var m := TrimRightDrops(core);
    before, after := s[..n], core[m..];
    assert core == TrimSpace(s) + after;
    assert s == before + core;
  }

  /** Text without outer white space is left alone, so trimming twice is trimming once. */
  lemma TrimSpaceFixesTrimmed(s: string)
    requires Trimmed(s)
    ensures TrimSpace(s) == s
  {
  }

  /** Trimming empties exactly the blank texts. */
  lemma TrimSpaceBlank(s: string)
    ensures TrimSpace(s) == [] <==> Blank(s)
  {
    var a, b := TrimSpaceDrops(s);
    if TrimSpace(s) != [] {
      assert s[|a|] == TrimSpace(s)[0];
    } else {
      forall i | 0 <= i < |s| ensures IsSpace(s[i]) {
        if i < |a| { assert s[i] == a[i]; } else { assert s[i] == b[i - |a|]; }
      }
    }
  }

  // ---------------------------------------------------------------- decimal integers

  const MIN_INT32: int := -0x8000_0000
  const MAX_INT32: int := 0x7FFF_FFFF
  const MIN_INT64: int := -0x8000_0000_0000_0000
  const MAX_INT64: int := 0x7FFF_FFFF_FFFF_FFFF

  predicate IsDigit(c: char) { '0' <= c <= '9' }

  function DigitChar(d: int): char
    requires 0 <= d < 10
  {
    '0' + d as char
  }

  function DigitValue(c: char): int { c as int - '0' as int }

  function FormatNat(n: nat): string {
    if n < 10 then [DigitChar(n)] else FormatNat(n / 10) + [DigitChar(n % 10)]
  }

  /** strconv.FormatInt with base 10. */
  function FormatInt(n: int): string {
    if n < 0 then "-" + FormatNat(-n) else FormatNat(n)
  }

  predicate AllDigits(s: string) {
    forall i :: 0 <= i < |s| ==> IsDigit(s[i])
  }

  function DigitsValue(s: string): int {
    if s == [] then 0 else 10 * DigitsValue(s[..|s| - 1]) + DigitValue(s[|s| - 1])
  }

  /** strconv.ParseInt with base 10; `low` and `high` are the bounds of the requested width. */
  function ParseInt(s: string, low: int, high: int): Option<int> {
    var signed := s != [] && (s[0] == '-' || s[0] == '+');
    var digits := if signed then s[1..] else s;
    if digits == [] || !AllDigits(digits) then None
    else
      var value := if signed && s[0] == '-' then -DigitsValue(digits) else DigitsValue(digits);
      if low <= value <= high then Some(value) else None
  }

  lemma {:induction false} FormatNatDigits(n: nat)
    ensures FormatNat(n) != [] && AllDigits(FormatNat(n)) && DigitsValue(FormatNat(n)) == n
  {
    if n < 10 {
      assert FormatNat(n)[..0] == [];
      assert DigitsValue([]) == 0;
    } else {
      FormatNatDigits(n / 10);
      assert FormatNat(n)[..|FormatNat(n)| - 1] == FormatNat(n / 10);
    }
  }

  lemma FormatIntShape(n: int)
    ensures FormatInt(n) != []
    ensures forall i :: 0 <= i < |FormatInt(n)| ==> IsDigit(FormatInt(n)[i]) || FormatInt(n)[i] == '-'
  {
    FormatNatDigits(if n < 0 then -n else n);
  }

  lemma ParseDigits(s: string, low: int, high: int)
    requires s != [] && AllDigits(s)
    ensures low <= DigitsValue(s) <= high ==> ParseInt(s, low, high) == Some(DigitsValue(s))
    ensures low <= -DigitsValue(s) <= high ==> ParseInt("-" + s, low, high) == Some(-DigitsValue(s))
  {
  }

  /** Printing an integer in decimal and parsing it back loses nothing within the parser's width. */
  lemma ParseFormatInt(n: int, low: int, high: int)
    requires low <= n <= high
    ensures ParseInt(FormatInt(n), low, high) == Some(n)
  {
    hide FormatNat, ParseInt;
    var magnitude := if n < 0 then -n else n;
    FormatNatDigits(magnitude);
    ParseDigits(FormatNat(magnitude), low, high);
  }

  /** Decimal text never begins or ends with white space, so trimming leaves it alone. */
  lemma FormatIntTrimmed(n: int)
    ensures Trimmed(FormatInt(n)) && TrimSpace(FormatInt(n)) == FormatInt(n)
  {
    FormatIntShape(n);
    TrimSpaceFixesTrimmed(FormatInt(n));
  }

  // ---------------------------------------------------------------- what the parser accepts

  /** A decimal numeral: an optional sign, leading zeros, and a number as it is printed. */
  ghost predicate IsNumeral(s: string, sign: string, zeros: nat, magnitude: nat) {
    (sign == "" || sign == "+" || sign == "-") && s == sign + Zeros(zeros) + FormatNat(magnitude)
  }

  function Zeros(n: nat): string { if n == 0 then "" else Zeros(n - 1) + "0" }

  function WithSign(sign: string, magnitude: int): int { if sign == "-" then -magnitude else magnitude }

  ghost predicate Denotes(s: string, n: int) {
    exists sign, zeros: nat, magnitude: nat :: IsNumeral(s, sign, zeros, magnitude) && n == WithSign(sign, magnitude)
  }

  lemma {:induction false} ZerosAreZero(zeros: nat, magnitude: nat)
    ensures var s := Zeros(zeros) + FormatNat(magnitude); s != [] && AllDigits(s) && DigitsValue(s) == magnitude
  {
    var s := Zeros(zeros) + FormatNat(magnitude);
    FormatNatDigits(magnitude);
    AllZeros(zeros);
    if magnitude < 10 {
      assert s[..|s| - 1] == Zeros(zeros);
    } else {
      ZerosAreZero(zeros, magnitude / 10);
      assert s[..|s| - 1] == Zeros(zeros) + FormatNat(magnitude / 10);
    }
  }

  lemma {:induction false} AllZeros(n: nat)
    ensures AllDigits(Zeros(n)) && DigitsValue(Zeros(n)) == 0
  {
    if n > 0 {
      AllZeros(n - 1);
      assert Zeros(n)[..n - 1] == Zeros(n - 1) by { ZerosLength(n - 1); }
      ZerosLength(n);
    }
  }

  lemma {:induction false} ZerosLength(n: nat)
    ensures |Zeros(n)| == n
  {
    if n > 0 { ZerosLength(n - 1); }
  }

  lemma {:induction false} DigitsAreNumeral(s: string) returns (zeros: nat)
    requires s != [] && AllDigits(s)
    ensures DigitsValue(s) >= 0 && s == Zeros(zeros) + FormatNat(DigitsValue(s))
  {
    var front, d := s[..|s| - 1], DigitValue(s[|s| - 1]);
    assert IsDigit(s[|s| - 1]) && s == front + [DigitChar(d)];
    if front == [] {
      zeros := 0;
      assert DigitsValue(front) == 0;
    } else {
      zeros := DigitsAreNumeral(front);
      if DigitsValue(front) == 0 {
        zeros := zeros + 1;
      }
    }
  }

  lemma ParseSigned(sign: string, digits: string, low: int, high: int)
    requires (sign == "" || sign == "+" || sign == "-") && digits != [] && AllDigits(digits)
    ensures var n := WithSign(sign, DigitsValue(digits));
      ParseInt(sign + digits, low, high) == if low <= n <= high then Some(n) else None
  {
    hide DigitsValue;
    assert IsDigit(digits[0]);
    if sign == "" { assert sign + digits == digits; } else { assert (sign + digits)[1..] == digits; }
  }

  lemma AcceptedSplits(s: string, low: int, high: int) returns (sign: string, digits: string)
    requires ParseInt(s, low, high).Some?
    ensures (sign == "" || sign == "+" || sign == "-") && digits != [] && AllDigits(digits) && s == sign + digits
  {
    hide DigitsValue;
    var signed := s != [] && (s[0] == '-' || s[0] == '+');
    sign, digits := if signed then [s[0]] else "", if signed then s[1..] else s;
    assert s == sign + digits;
  }

  /** The parser accepts exactly the decimal numerals within its bounds, and gives the number they denote. */
  lemma ParseIntMeaning(s: string, low: int, high: int, n: int)
    ensures ParseInt(s, low, high) == Some(n) <==> low <= n <= high && Denotes(s, n)
  {
    hide FormatNat, Zeros, DigitsValue, ParseInt, AllDigits;
    if ParseInt(s, low, high) == Some(n) {
      var sign, digits := AcceptedSplits(s, low, high);
      ParseSigned(sign, digits, low, high);
      var zeros := DigitsAreNumeral(digits);
      assert s == sign + Zeros(zeros) + FormatNat(DigitsValue(digits));
      assert IsNumeral(s, sign, zeros, DigitsValue(digits));
    }
    if low <= n <= high && Denotes(s, n) {
      var sign, zeros: nat, magnitude: nat :| IsNumeral(s, sign, zeros, magnitude) && n == WithSign(sign, magnitude);
      var digits := Zeros(zeros) + FormatNat(magnitude);
      ZerosAreZero(zeros, magnitude);
      assert s == sign + digits;
      ParseSigned(sign, digits, low, high);
    }
  }
}
