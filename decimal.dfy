/** Decimal text of integers: Python's `str()` of an int, `int()` of a
    string of digits, and the zero-padded `%0Nd` conversion. */
module Decimal {
  import opened Wrappers
  import opened Arith

  function Pow10(k: nat): (p: nat)
    ensures p >= 1
  {
    if k == 0 then 1 else 10 * Pow10(k - 1)
  }

  predicate IsDigit(c: char) {
    '0' <= c <= '9'
  }

  predicate AllDigits(s: string) {
    forall i :: 0 <= i < |s| ==> IsDigit(s[i])
  }

  function DigitValue(c: char): int {
    c as int - '0' as int
  }

  function DigitChar(d: nat): (c: char)
    requires d < 10
    ensures IsDigit(c) && DigitValue(c) == d
  {
    ('0' as int + d) as char
  }

  /** The last `w` decimal digits of `n`, most significant first, padded
      with zeros on the left. */
  function Digits(n: nat, w: nat): (s: string)
    ensures |s| == w && AllDigits(s)
  {
    if w == 0 then [] else Digits(n / 10, w - 1) + [DigitChar(n % 10)]
  }

  /** `str(n)` for a non-negative int. */
  function NatToString(n: nat): (s: string)
    ensures |s| >= 1 && AllDigits(s)
  {
    if n < 10 then [DigitChar(n)] else NatToString(n / 10) + [DigitChar(n % 10)]
  }

  /** Appending a digit to a positive number appends its character. */
  lemma NatToStringSnoc(a: nat, d: nat)
    requires a >= 1 && d < 10
    ensures NatToString(10 * a + d) == NatToString(a) + [DigitChar(d)]
  {
    DivModUnique(10 * a + d, 10, a, d);
  }

  /** `str(i)` for any int. */
  function IntToString(i: int): (s: string)
    ensures |s| >= 1
  {
    if i < 0 then "-" + NatToString(-i) else NatToString(i)
  }

  /** The number a string of digits denotes. */
  function DigitsValue(s: string): (v: nat)
    requires AllDigits(s)
    ensures v < Pow10(|s|)
  {
    if |s| == 0 then 0
    else
      assert AllDigits(s[..|s| - 1]);
      DigitsValue(s[..|s| - 1]) * 10 + DigitValue(s[|s| - 1])
  }

  /** `int(s)` on an optional sign followed by digits; anything else (the
      empty string, a lone sign, a non-digit) raises ValueError. */
  function ParseInt(s: string): (r: Result<int>)
    ensures r.Ok? <==> (AllDigits(s) && |s| >= 1) || (|s| >= 2 && (s[0] == '-' || s[0] == '+') && AllDigits(s[1..]))
  {
    if |s| >= 1 && AllDigits(s) then Ok(DigitsValue(s))
    else if |s| >= 2 && s[0] == '-' && AllDigits(s[1..]) then Ok(0 - DigitsValue(s[1..]) as int)
    else if |s| >= 2 && s[0] == '+' && AllDigits(s[1..]) then Ok(DigitsValue(s[1..]))
    else Err(ValueError)
  }

  /** `"%0*d" % (width, v)`: at least `width` characters, zeros inserted
      after the sign; a longer number is never cut. */
  function FormatPadded(v: int, width: nat): (s: string)
    ensures v >= 0 ==> |s| == if |NatToString(v)| < width then width else |NatToString(v)|
  {
    if v >= 0 then ZeroFill(NatToString(v), width)
    else "-" + ZeroFill(NatToString(-v), if width >= 1 then width - 1 else 0)
  }

  function ZeroFill(s: string, width: nat): (t: string)
    ensures |t| == if |s| < width then width else |s|
  {
    if |s| < width then seq(width - |s|, _ => '0') + s else s
  }

  /** `n` with its last `k` decimal digits dropped. */
  function Drop(n: nat, k: nat): nat {
    DivNonNegative(n, Pow10(k));
    n / Pow10(k)
  }

  lemma DivNonNegative(a: nat, b: nat)
    requires b >= 1
    ensures a / b >= 0
  {
  }

  lemma {:induction false} DivPow10(n: nat, k: nat)
    ensures Drop(n / 10, k) == Drop(n, k + 1)
    ensures (n / 10) % Pow10(k) * 10 + n % 10 == n % Pow10(k + 1)
  {
    var p := Pow10(k);
    var q := n / 10;
    var d := n % 10;
    assert n == 10 * q + d;
    var a := q / p;
    var b := q % p;
    assert q == a * p + b;
    assert n == a * (10 * p) + (b * 10 + d);
    assert 0 <= b * 10 + d < 10 * p;
    DivModUnique(n, 10 * p, a, b * 10 + d);
  }

  /** The digits of `Digits(n, w)` read back give `n` modulo `10^w`. */
  lemma {:induction false} DigitsValueOfDigits(n: nat, w: nat)
    ensures DigitsValue(Digits(n, w)) == n % Pow10(w)
  {
    if w > 0 {
      var s := Digits(n, w);
      assert s[..w - 1] == Digits(n / 10, w - 1);
      DigitsValueOfDigits(n / 10, w - 1);
      DivPow10(n, w - 1);
    }
  }

  /** The other round trip: a string of digits is the padded digits of
      its value. */
  lemma {:induction false} DigitsOfValue(t: string)
    requires AllDigits(t)
    ensures Digits(DigitsValue(t), |t|) == t
  {
    if |t| > 0 {
      var w := |t|;
      var init := t[..w - 1];
      assert AllDigits(init);
      var d := DigitValue(t[w - 1]);
      DivModUnique(DigitsValue(t), 10, DigitsValue(init), d);
      DigitsOfValue(init);
      assert t == init + [t[w - 1]];
    }
  }

  /** `Digits` of a split width is the concatenation of the two halves. */
  lemma {:induction false} DigitsSplit(n: nat, a: nat, b: nat)
    ensures Digits(n, a + b) == Digits(Drop(n, b), a) + Digits(n, b)
    decreases b
  {
    if b > 0 {
      var last := [DigitChar(n % 10)];
      assert Digits(n, a + b) == Digits(n / 10, a + (b - 1)) + last;
      DigitsSplit(n / 10, a, b - 1);
      DivPow10(n, b - 1);
      var high := Digits(Drop(n, b), a);
      assert Digits(n / 10, a + (b - 1)) == high + Digits(n / 10, b - 1);
      assert Digits(n, b) == Digits(n / 10, b - 1) + last;
      assert Digits(n, a + b) == high + Digits(n, b);
    }
  }

  lemma {:induction false} DigitsOfZero(w: nat)
    ensures Digits(0, w) == seq(w, _ => '0')
  {
    if w > 0 {
      DigitsOfZero(w - 1);
    }
  }

  /** `str(n)` has more than `k >= 1` digits exactly when `n >= 10^k`. */
  lemma {:induction false} NatToStringLength(n: nat, k: nat)
    ensures |NatToString(n)| > k <==> k == 0 || n >= Pow10(k)
    decreases n
  {
    if n >= 10 && k > 0 {
      NatToStringLength(n / 10, k - 1);
      DivPow10(n, k - 1);
      assert n / 10 >= Pow10(k - 1) <==> n >= Pow10(k);
    } else if n < 10 && k > 0 {
      assert Pow10(1) == 10;
      PowMonotone(1, k);
    }
  }

  lemma {:induction false} PowMonotone(a: nat, b: nat)
    requires a <= b
    ensures Pow10(a) <= Pow10(b)
    decreases b
  {
    if a < b {
      PowMonotone(a, b - 1);
    }
  }

  /** `str(n)` is the last `len(str(n))` digits of `n`. */
  lemma {:induction false} NatToStringIsDigits(n: nat)
    ensures NatToString(n) == Digits(n, |NatToString(n)|)
    decreases n
  {
    if n >= 10 {
      NatToStringIsDigits(n / 10);
    }
  }

  /** Round trip: `int(str(n)) == n`. */
  lemma StringValue(n: nat)
    ensures DigitsValue(NatToString(n)) == n
  {
    var L := |NatToString(n)|;
    NatToStringIsDigits(n);
    DigitsValueOfDigits(n, L);
    NatToStringLength(n, L);
  }

  /** Round trip for every int, sign included. */
  lemma ParseIntOfString(i: int)
    ensures ParseInt(IntToString(i)) == Ok(i)
  {
    if i < 0 {
      StringValue(-i);
      assert IntToString(i)[1..] == NatToString(-i);
    } else {
      StringValue(i);
    }
  }

  /** `str` is injective, so distinct numbers get distinct names. */
  lemma NatToStringInjective(a: nat, b: nat)
    ensures NatToString(a) == NatToString(b) ==> a == b
  {
    StringValue(a);
    StringValue(b);
  }

  /** Cutting the last `k` digits off `str(n)` leaves `str(n / 10^k)`, and
      those `k` digits are `Digits(n, k)`. */
  lemma {:induction false} NatToStringSplit(n: nat, k: nat)
    requires n >= Pow10(k)
    ensures NatToString(n) == NatToString(Drop(n, k)) + Digits(n, k)
    decreases k
  {
    if k > 0 {
      assert n >= 10 by { PowMonotone(1, k); }
      DivPow10(n, k - 1);
      NatToStringSplit(n / 10, k - 1);
    }
  }

  /** For a value that fits, `%0Nd` gives exactly its last N digits. */
  lemma FormatPaddedFits(v: nat, width: nat)
    requires width >= 1 && v < Pow10(width)
    ensures FormatPadded(v, width) == Digits(v, width)
  {
    var L := |NatToString(v)|;
    NatToStringLength(v, width);
    NatToStringLength(v, L);
    NatToStringIsDigits(v);
    DigitsSplit(v, width - L, L);
    DivModUnique(v, Pow10(L), 0, v);
    assert Drop(v, L) == 0;
    DigitsOfZero(width - L);
  }
}
