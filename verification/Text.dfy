/** Text as the C library reads and writes it. */
module Text {

  /** The C string at the start of a buffer: what comes before its first NUL. */
  function CString(buf: string): (s: string)
    ensures |s| <= |buf| && s == buf[..|s|] && '\0' !in s
    ensures |s| < |buf| ==> buf[|s|] == '\0'
  {
    if buf == [] || buf[0] == '\0' then [] else [buf[0]] + CString(buf[1..])
  }

  lemma {:induction false} CStringWhole(s: string)
    requires '\0' !in s
    ensures CString(s) == s
  {
    if s != [] {
      CStringWhole(s[1..]);
    }
  }

  lemma {:induction false} CStringUpTo(buf: string, i: nat)
    requires i < |buf| && buf[i] == '\0' && forall j :: 0 <= j < i ==> buf[j] != '\0'
    ensures CString(buf) == buf[..i]
  {
    if i > 0 {
      CStringUpTo(buf[1..], i - 1);
    }
  }

  lemma {:induction false} CStringAppend(s: string, rest: string)
    requires '\0' !in s
    ensures CString(s + rest) == s + CString(rest)
  {
    if s == [] {
      assert s + rest == rest;
    } else {
      assert (s + rest)[1..] == s[1..] + rest;
      CStringAppend(s[1..], rest);
    }
  }

  predicate StartsWith(s: string, prefix: string) {
    |s| >= |prefix| && s[..|prefix|] == prefix
  }

  lemma StartsWithIff(s: string, prefix: string)
    ensures StartsWith(s, prefix) <==> exists tail :: s == prefix + tail
  {
    if StartsWith(s, prefix) {
      assert s == prefix + s[|prefix|..];
    }
  }

  // ----- decimal numbers

  predicate IsDigit(c: char) { '0' <= c <= '9' }

  function DigitValue(c: char): nat
    requires IsDigit(c)
  {
    c as int - '0' as int
  }

  function DigitChar(n: nat): (c: char)
    requires n < 10
    ensures IsDigit(c) && DigitValue(c) == n
  {
    ('0' as int + n) as char
  }

  /** `isspace` in the C locale. */
  predicate IsSpace(c: char) { c == ' ' || 9 <= c as int <= 13 }

  function SkipSpaces(s: string): string {
    if s != [] && IsSpace(s[0]) then SkipSpaces(s[1..]) else s
  }

  /** The value of the digits at the start of `s`, after those already read. */
  function Digits(s: string, read: nat): nat
    decreases |s|
  {
    if s != [] && IsDigit(s[0]) then Digits(s[1..], read * 10 + DigitValue(s[0])) else read
  }

  /** `atoi`, section 7.22.1.2 of ISO/IEC 9899:2011: white space, a sign, decimal digits; 0 where
      there are no digits. A value outside `int` has no defined result there. */
  function Atoi(s: string): int {
    var t := SkipSpaces(s);
    if t != [] && t[0] == '-' then 0 - Digits(t[1..], 0)
    else if t != [] && t[0] == '+' then Digits(t[1..], 0)
    else Digits(t, 0)
  }

  function DecimalNat(n: nat): (s: string)
    ensures |s| >= 1 && forall c :: c in s ==> IsDigit(c)
  {
    if n < 10 then [DigitChar(n)] else DecimalNat(n / 10) + [DigitChar(n % 10)]
  }

  /** `%d`. */
  function Decimal(n: int): (s: string)
    ensures |s| >= 1 && ' ' !in s
  {
    if n < 0 then "-" + DecimalNat(-n) else DecimalNat(n)
  }

  lemma {:induction false} DigitsSnoc(s: string, c: char, read: nat)
    requires (forall d :: d in s ==> IsDigit(d)) && IsDigit(c)
    ensures Digits(s + [c], read) == Digits(s, read) * 10 + DigitValue(c)
    decreases |s|
  {
    if s == [] {
      assert s + [c] == [c] && [c][1..] == [];
    } else {
      assert (s + [c])[1..] == s[1..] + [c];
      DigitsSnoc(s[1..], c, read * 10 + DigitValue(s[0]));
    }
  }

  lemma {:induction false} DigitsOfDecimal(n: nat)
    ensures Digits(DecimalNat(n), 0) == n
  {
    if n < 10 {
      assert DecimalNat(n)[1..] == [];
    } else {
      DigitsOfDecimal(n / 10);
      DigitsSnoc(DecimalNat(n / 10), DigitChar(n % 10), 0);
    }
  }

  /** Reading back a printed number gives the number. */
  lemma AtoiOfDecimal(n: int)
    ensures Atoi(Decimal(n)) == n
  {
    var s := Decimal(n);
    if n < 0 {
      DigitsOfDecimal(-n);
      assert s[1..] == DecimalNat(-n);
    } else {
      DigitsOfDecimal(n);
      assert IsDigit(s[0]);
      assert SkipSpaces(s) == s;
    }
  }

  // ----- what `atoi` reads, part by part

  predicate AllWhite(s: string) {
    forall i :: 0 <= i < |s| ==> s[i] as int in {9, 10, 11, 12, 13, 32}
  }

  predicate AllDigits(s: string) {
    forall i :: 0 <= i < |s| ==> 48 <= s[i] as int <= 57
  }

  predicate BeginsWithDigit(s: string) {
    s != "" && 48 <= s[0] as int <= 57
  }

  predicate BeginsWithWhite(s: string) {
    s != "" && s[0] as int in {9, 10, 11, 12, 13, 32}
  }

  /** A string as `atoi` takes it apart. */
  datatype Numeral = Numeral(spaces: string, sign: string, digits: string, rest: string)
  {
    function Whole(): string { spaces + (sign + (digits + rest)) }

    /** White space, a sign or none, all the digits that follow, and the rest. */
    predicate Reads() {
      && AllWhite(spaces) && sign in {"", "+", "-"} && AllDigits(digits) && !BeginsWithDigit(rest)
      && (sign == "" && digits == "" && rest != "" ==> !BeginsWithWhite(rest) && rest[0] !in {'+', '-'})
    }

    function Value(): int {
      if sign == "-" then -Positional(digits) else Positional(digits)
    }
  }

  /** The number that digits stand for, the last one for the ones. */
  function Positional(digits: string): int {
    if digits == "" then 0
    else Positional(digits[..|digits| - 1]) * 10 + (digits[|digits| - 1] as int - 48)
  }

  lemma {:induction false} SpacesSkipped(spaces: string, s: string)
    requires AllWhite(spaces) && !BeginsWithWhite(s)
    ensures SkipSpaces(spaces + s) == s
  {
    if spaces == "" {
      assert spaces + s == s;
    } else {
      assert IsSpace(spaces[0]) && (spaces + s)[1..] == spaces[1..] + s;
      SpacesSkipped(spaces[1..], s);
    }
  }

  lemma {:induction false} DigitsStop(digits: string, rest: string, read: nat)
    requires AllDigits(digits) && !BeginsWithDigit(rest)
    ensures Digits(digits + rest, read) == Digits(digits, read)
    decreases |digits|
  {
    if digits == "" {
      assert digits + rest == rest;
    } else {
      assert IsDigit(digits[0]) && (digits + rest)[1..] == digits[1..] + rest;
      DigitsStop(digits[1..], rest, read * 10 + DigitValue(digits[0]));
    }
  }

  lemma {:induction false} DigitsPositional(digits: string)
    requires AllDigits(digits)
    ensures Digits(digits, 0) == Positional(digits)
  {
    if digits != "" {
      var last := |digits| - 1;
      DigitsPositional(digits[..last]);
      assert IsDigit(digits[last]) && forall i :: 0 <= i < last ==> IsDigit(digits[i]);
      DigitsSnoc(digits[..last], digits[last], 0);
      assert digits[..last] + [digits[last]] == digits;
    }
  }

  /** What `atoi` answers: the value of the digits behind the white space and the sign, whatever
      follows them, and so 0 if there are none. */
  lemma AtoiReads(n: Numeral)
    requires n.Reads()
    ensures Atoi(n.Whole()) == n.Value()
  {
    var number := n.digits + n.rest;
    var s := n.sign + number;
    DigitsStop(n.digits, n.rest, 0);
    DigitsPositional(n.digits);
    if n.sign == "" {
      assert s == number;
      assert number != "" ==> number[0] == if n.digits != "" then n.digits[0] else n.rest[0];
      SpacesSkipped(n.spaces, s);
    } else {
      assert s[0] == n.sign[0] && s[1..] == number;
      SpacesSkipped(n.spaces, s);
    }
  }

  lemma {:induction false} SplitDigits(s: string) returns (digits: string, rest: string)
    ensures s == digits + rest && AllDigits(digits) && !BeginsWithDigit(rest)
  {
    if BeginsWithDigit(s) {
      digits, rest := SplitDigits(s[1..]);
      digits := [s[0]] + digits;
    } else {
      digits, rest := "", s;
    }
  }

  lemma {:induction false} SplitSpaces(s: string) returns (spaces: string, rest: string)
    ensures s == spaces + rest && AllWhite(spaces) && !BeginsWithWhite(rest)
  {
    if BeginsWithWhite(s) {
      spaces, rest := SplitSpaces(s[1..]);
      spaces := [s[0]] + spaces;
    } else {
      spaces, rest := "", s;
    }
  }

  /** Every string can be taken apart like that. */
  lemma SplitNumeral(s: string) returns (n: Numeral)
    ensures n.Reads() && n.Whole() == s
  {
    var spaces, t := SplitSpaces(s);
    var sign := if t != "" && t[0] in {'+', '-'} then [t[0]] else "";
    assert sign in {"", "+", "-"} && t == sign + t[|sign|..];
    var digits, rest := SplitDigits(t[|sign|..]);
    assert sign == "" && digits == "" ==> rest == t;
    n := Numeral(spaces, sign, digits, rest);
  }

  /** What `%d` prints: a minus sign for a negative number, and decimal digits, of which the first is
      not 0 unless it is the only one. With `AtoiOfDecimal`, that fixes it. */
  lemma {:induction false} DecimalShape(n: nat)
    ensures AllDigits(DecimalNat(n))
    ensures DecimalNat(n)[0] == '0' ==> n == 0 && DecimalNat(n) == "0"
    ensures Decimal(n) == DecimalNat(n) && (n > 0 ==> Decimal(-(n as int)) == "-" + DecimalNat(n))
  {
    assert forall i :: 0 <= i < |DecimalNat(n)| ==> DecimalNat(n)[i] in DecimalNat(n);
    if n >= 10 {
      DecimalShape(n / 10);
    }
  }
}
