/** strconv.Itoa and strconv.Atoi for 64-bit integers. */
module Decimal {
  import opened Wrappers
  import opened Integers

  predicate IsDigit(c: char) {
    '0' <= c <= '9'
  }

  predicate AllDigits(s: string) {
    forall i :: 0 <= i < |s| ==> IsDigit(s[i])
  }

  function Digit(d: int): char
    requires 0 <= d < 10
  {
    (d + 48) as char
  }

  function DigitValue(c: char): nat
    requires IsDigit(c)
  {
    c as int - 48
  }

  function Digits(n: nat): string {
    if n < 10 then [Digit(n)] else Digits(n / 10) + [Digit(n % 10)]
  }

  function Itoa(v: int): string {
    if v < 0 then "-" + Digits(0 - v) else Digits(v)
  }

  /** The number a string of digits stands for, however long. */
  function Magnitude(s: string): nat
    requires AllDigits(s)
  {
    if s == "" then 0
    else
      Magnitude(s[..|s| - 1]) * 10 + DigitValue(s[|s| - 1])
  }

  predicate Signed(s: string) {
    s != "" && (s[0] == '-' || s[0] == '+')
  }

  /** The text after an optional sign. */
  function Unsigned(s: string): string {
    if Signed(s) then s[1..] else s
  }

  predicate IsNumber(s: string) {
    Unsigned(s) != "" && AllDigits(Unsigned(s))
  }

  function Number(s: string): int
    requires IsNumber(s)
  {
    if s[0] == '-' then 0 - Magnitude(Unsigned(s)) else Magnitude(Unsigned(s))
  }

  /** An optional sign and at least one digit, standing for a number of 64 bits; anything else is an error. */
  function Atoi(s: string): Option<int64> {
    if !IsNumber(s) then None
    else if Fits(Number(s)) then Some(Number(s))
    else None
  }

  lemma {:induction false} DigitsRoundTrip(n: nat)
    ensures Digits(n) != "" && AllDigits(Digits(n)) && Magnitude(Digits(n)) == n
  {
    var s := Digits(n);
    if n >= 10 {
      DigitsRoundTrip(n / 10);
      assert s[..|s| - 1] == Digits(n / 10);
    } else {
      assert s[..0] == "";
    }
  }

  predicate Fits(v: int) {
    -0x8000_0000_0000_0000 <= v < 0x8000_0000_0000_0000
  }

  lemma {:induction false} NegativeText(digits: string, n: nat)
    requires digits != "" && AllDigits(digits) && Magnitude(digits) == n
    ensures Atoi("-" + digits) == if Fits(0 - n) then Some(0 - n) else None
  {
    assert ("-" + digits)[1..] == digits;
  }

  lemma {:induction false} PositiveText(digits: string, n: nat)
    requires digits != "" && AllDigits(digits) && Magnitude(digits) == n
    ensures Atoi(digits) == if Fits(n) then Some(n) else None
  {
    assert IsDigit(digits[0]);
  }

  /** The decimal text of an integer parses to it, exactly when it fits in 64 bits. */
  lemma {:induction false} AtoiAfterItoa(v: int)
    ensures Atoi(Itoa(v)) == if Fits(v) then Some(v) else None
  {
    if v < 0 {
      DigitsRoundTrip(0 - v);
      NegativeText(Digits(0 - v), 0 - v);
    } else {
      DigitsRoundTrip(v);
      PositiveText(Digits(v), v);
    }
  }

  /** The digits and their places: one more decimal place is one more digit of the usual ten. */
  lemma {:induction false} DecimalPlaces(n: nat, d: nat)
    requires d < 10
    ensures Digits(d) == ["0123456789"[d]]
    ensures n > 0 ==> Digits(10 * n + d) == Digits(n) + ["0123456789"[d]]
  {}

  function Zeros(k: nat): string {
    seq(k, _ => '0')
  }

  lemma {:induction false} DigitsAfterZeros(s: string) returns (k: nat)
    requires s != "" && AllDigits(s)
    ensures s == Zeros(k) + Digits(Magnitude(s))
  {
    var init, c := s[..|s| - 1], s[|s| - 1];
    var m := Magnitude(init);
    assert s == init + [c];
    if init == "" {
      k := 0;
      assert Digits(DigitValue(c)) == [c];
    } else {
      k := DigitsAfterZeros(init);
      k := OneDigitMore(m, c, k);
    }
  }

  lemma {:induction false} OneDigitMore(m: nat, c: char, k: nat) returns (l: nat)
    requires IsDigit(c)
    ensures Zeros(k) + Digits(m) + [c] == Zeros(l) + Digits(10 * m + DigitValue(c))
  {
    var n := 10 * m + DigitValue(c);
    if m == 0 {
      l := k + 1;
      assert Digits(m) == Zeros(1) && Digits(n) == [c];
      assert Zeros(k) + Zeros(1) == Zeros(l);
    } else {
      l := k;
      assert n / 10 == m && n % 10 == DigitValue(c);
      assert Digits(n) == Digits(m) + [c];
    }
  }

  lemma {:induction false} ZerosDoNotCount(k: nat, s: string)
    requires AllDigits(s)
    ensures AllDigits(Zeros(k) + s) && Magnitude(Zeros(k) + s) == Magnitude(s)
    decreases |s|, k
  {
    var t := Zeros(k) + s;
    if s != "" {
      var init := s[..|s| - 1];
      assert t[..|t| - 1] == Zeros(k) + init;
      ZerosDoNotCount(k, init);
    } else if k > 0 {
      assert t == Zeros(k) && t[..k - 1] == Zeros(k - 1) + "";
      ZerosDoNotCount(k - 1, "");
    }
  }

  /** The ways to write the number v: an optional sign, any zeros, its digits. */
  predicate Writes(s: string, v: int, k: nat) {
    || (v >= 0 && s == Zeros(k) + Digits(v))
    || (v >= 0 && s == "+" + (Zeros(k) + Digits(v)))
    || (v <= 0 && s == "-" + (Zeros(k) + Digits(0 - v)))
  }

  lemma {:induction false} WrittenParses(s: string, v: int, k: nat)
    requires Writes(s, v, k)
    ensures IsNumber(s) && Number(s) == v
  {
    var n := if v < 0 then 0 - v else v;
    var digits := Zeros(k) + Digits(n);
    assert digits != "" && AllDigits(digits) && Magnitude(digits) == n by {
      DigitsRoundTrip(n);
      ZerosDoNotCount(k, Digits(n));
    }
    SignedParses(digits);
    assert if v > 0 then s == digits || s == "+" + digits
           else if v < 0 then s == "-" + digits
           else s == digits || s == "+" + digits || s == "-" + digits;
  }

  lemma {:induction false} SignedParses(digits: string)
    requires digits != "" && AllDigits(digits)
    ensures IsNumber(digits) && Number(digits) == Magnitude(digits)
    ensures IsNumber("+" + digits) && Number("+" + digits) == Magnitude(digits)
    ensures IsNumber("-" + digits) && Number("-" + digits) == 0 - Magnitude(digits)
  {
    assert IsDigit(digits[0]);
    assert ("+" + digits)[1..] == digits && ("-" + digits)[1..] == digits;
  }

  /** Exactly these texts parse, for the numbers of 64 bits. */
  lemma {:induction false} AtoiExactly(s: string, v: int)
    ensures Atoi(s) == Some(v) <==>
            -0x8000_0000_0000_0000 <= v < 0x8000_0000_0000_0000 && exists k: nat :: Writes(s, v, k)
  {
    if k: nat :| Writes(s, v, k) {
      WrittenParses(s, v, k);
    }
    if Atoi(s) == Some(v) {
      var k := DigitsAfterZeros(Unsigned(s));
      assert s == if Signed(s) then [s[0]] + Unsigned(s) else Unsigned(s);
      assert Writes(s, v, k);
    }
  }

  lemma {:induction false} ItoaHasNoOther(v: int, c: char)
    requires !IsDigit(c) && c != '-'
    ensures c !in Itoa(v)
  {
    DigitsRoundTrip(if v < 0 then 0 - v else v);
  }

  /** What parses holds only digits, after a sign. */
  lemma {:induction false} AtoiHasNoOther(s: string, c: char)
    requires Atoi(s).Some? && !IsDigit(c) && c != '-' && c != '+'
    ensures c !in s
  {
    forall i | 0 <= i < |s|
      ensures s[i] != c
    {
      assert i > 0 || !Signed(s) ==> IsDigit(Unsigned(s)[if Signed(s) then i - 1 else i]);
    }
  }
}
