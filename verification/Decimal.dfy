/** Decimal numerals: Go's strconv.Itoa on naturals and strconv.Atoi, and the fact
    that printing and reading a numeral are inverse to each other. */
module Decimal {

  predicate IsDigit(c: char) {
    '0' <= c <= '9'
  }

  predicate AllDigits(s: string) {
    forall i | 0 <= i < |s| :: IsDigit(s[i])
  }

  // A numeral as strconv.Itoa writes it: no sign, no leading zero.
  predicate Canonical(s: string) {
    s != "" && AllDigits(s) && (s[0] == '0' ==> |s| == 1)
  }

  function Digit(n: nat): (c: char)
    requires n < 10
    ensures IsDigit(c) && DigitValue(c) == n
  {
    ('0' as int + n) as char
  }

  function DigitValue(c: char): (n: nat)
    requires IsDigit(c)
    ensures n < 10
  {
    c as int - '0' as int
  }

  function Itoa(n: nat): string {
    if n < 10 then [Digit(n)] else Itoa(n / 10) + [Digit(n % 10)]
  }

  function Value(s: string): nat
    requires AllDigits(s)
  {
    if s == "" then 0 else Value(s[..|s| - 1]) * 10 + DigitValue(s[|s| - 1])
  }

  lemma {:induction false} ItoaReads(n: nat)
    ensures Canonical(Itoa(n)) && Value(Itoa(n)) == n
    ensures Itoa(n)[0] == '0' ==> n == 0
  {
    if n < 10 {
      assert Itoa(n)[..0] == "";
      assert Value(Itoa(n)) == Value("") * 10 + n;
    } else {
      ItoaReads(n / 10);
      var s := Itoa(n);
      assert s[..|s| - 1] == Itoa(n / 10);
    }
  }

  lemma ItoaInjective(m: nat, n: nat)
    requires Itoa(m) == Itoa(n)
    ensures m == n
  {
    ItoaReads(m);
    ItoaReads(n);
  }

  lemma {:induction false} ValuePositive(s: string)
    requires s != "" && AllDigits(s) && s[0] != '0'
    ensures Value(s) >= 1
  {
    if |s| > 1 {
      ValuePositive(s[..|s| - 1]);
    } else {
      assert s[..0] == "";
      assert Value(s[..0]) == 0;
    }
  }

  lemma {:induction false} ValuePrints(s: string)
    requires Canonical(s)
    ensures Itoa(Value(s)) == s
  {
    var init, last := s[..|s| - 1], s[|s| - 1];
    assert s == init + [last];
    assert Digit(DigitValue(last)) == last;
    if init == "" {
      assert Value(s) == DigitValue(last);
    } else {
      ValuePositive(init);
      ValuePrints(init);
      assert Value(s) / 10 == Value(init) && Value(s) % 10 == DigitValue(last);
    }
  }

  // strconv.Atoi on a 64-bit platform: the value returned beside an error is 0 for a
  // syntax error and the nearest representable number for an out-of-range one.
  datatype Parsed = Parsed(value: int, ok: bool)

  const MAX_INT := 0x7FFF_FFFF_FFFF_FFFF
  const MIN_INT := -0x8000_0000_0000_0000

  function Atoi(s: string): Parsed {
    var signed := s != "" && (s[0] == '+' || s[0] == '-');
    var digits := if signed then s[1..] else s;
    if digits == "" || !AllDigits(digits) then Parsed(0, false)
    else
      var n: int := if s[0] == '-' then -(Value(digits) as int) else Value(digits);
      if n > MAX_INT then Parsed(MAX_INT, false)
      else if n < MIN_INT then Parsed(MIN_INT, false)
      else Parsed(n, true)
  }

  lemma AtoiReads(n: nat)
    requires n <= MAX_INT
    ensures Atoi(Itoa(n)) == Parsed(n, true)
  {
    hide Itoa, Value;
    ItoaReads(n);
    assert IsDigit(Itoa(n)[0]);
  }

  // Leading zeros change nothing, so every row of digits has the value of a numeral.
  lemma {:induction false} LeadingZero(digits: string)
    requires AllDigits(digits)
    ensures Value("0" + digits) == Value(digits)
  {
    var s := "0" + digits;
    if digits == "" {
      assert s == "0" && s[..0] == "";
    } else {
      var init, last := digits[..|digits| - 1], digits[|digits| - 1];
      assert s[..|s| - 1] == "0" + init && s[|s| - 1] == last;
      LeadingZero(init);
    }
  }

  // The number of a signed row of digits.
  predicate IsNumberOf(s: string, sign: string, digits: string, n: int) {
    && s == sign + digits && digits != "" && AllDigits(digits)
    && (sign == "" || sign == "+" || sign == "-")
    && n == if sign == "-" then -(Value(digits) as int) else Value(digits)
  }

  // Which texts read as which numbers.
  lemma AtoiExactly(s: string, n: int)
    ensures Atoi(s) == Parsed(n, true) <==>
            MIN_INT <= n <= MAX_INT && exists sign, digits :: IsNumberOf(s, sign, digits, n)
  {
    hide Value;
    var signed := s != "" && (s[0] == '+' || s[0] == '-');
    var sign, digits := if signed then s[..1] else "", if signed then s[1..] else s;
    assert s == sign + digits;
    if Atoi(s) == Parsed(n, true) {
      assert IsNumberOf(s, sign, digits, n);
    }
    if sign', digits' :| IsNumberOf(s, sign', digits', n) {
      assert sign' == "" ==> IsDigit(s[0]);
      assert sign' != "" ==> s[0] == sign'[0] && s[1..] == digits';
      assert digits == digits' && (sign == "-" <==> sign' == "-");
    }
  }

  lemma {:induction false} ItoaIsShort(n: nat)
    ensures |Itoa(n)| <= n + 1
  {
    if n >= 10 {
      ItoaIsShort(n / 10);
    }
  }
}
