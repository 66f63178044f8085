/// Decimal digit strings and the integers they denote; the reference against
/// which the Rust comparator's treatment of integer fields is judged.
module DigitStrings {
  import opened Orders

  predicate IsDigit(c: char) { '0' <= c <= '9' }

  predicate AllDigits(s: string) { forall k | 0 <= k < |s| :: IsDigit(s[k]) }

  /// The number a digit character stands for.
  function Digit(c: char): int { (c as int) - ('0' as int) }

  function Pow10(n: nat): (p: nat)
    ensures p >= 1
  {
    if n == 0 then 1 else 10 * Pow10(n - 1)
  }

  /// The value of a decimal numeral, most significant digit first.
  function Value(s: string): (v: nat)
    requires AllDigits(s)
  {
    if s == [] then 0 else Digit(s[0]) * Pow10(|s| - 1) + Value(s[1..])
  }

  /// A numeral of `n` digits denotes less than `10^n`.
  lemma {:induction false} ValueBound(s: string)
    requires AllDigits(s)
    ensures Value(s) < Pow10(|s|)
  {
    if s != [] {
      ValueBound(s[1..]);
      Scale(Digit(s[0]), 10, Pow10(|s| - 1));
    }
  }

  /// Comparison of two digit strings of the same length, first difference first.
  function DigitLex(a: string, b: string): (r: Ordering)
    requires |a| == |b|
  {
    if a == [] then Equal
    else if a[0] != b[0] then CmpChar(a[0], b[0])
    else DigitLex(a[1..], b[1..])
  }

  lemma {:induction false} Pow10Monotone(m: nat, n: nat)
    requires m <= n
    ensures Pow10(m) <= Pow10(n)
    decreases n
  {
    if m < n { Pow10Monotone(m, n - 1); }
  }

  /// A numeral without a leading zero has exactly its length in digits.
  lemma ValueLowerBound(s: string)
    requires AllDigits(s) && s != [] && s[0] != '0'
    ensures Value(s) >= Pow10(|s| - 1)
  {
    AtLeastOnce(Digit(s[0]), Pow10(|s| - 1));
  }

  /// Of two numerals without leading zeros, the longer denotes the larger number.
  lemma LongerIsLarger(a: string, b: string)
    requires AllDigits(a) && AllDigits(b)
    requires a != [] && a[0] != '0' && |a| > |b|
    ensures Value(a) > Value(b)
  {
    ValueLowerBound(a);
    ValueBound(b);
    Pow10Monotone(|b|, |a| - 1);
  }

  /// Of two numerals of the same length, the first differing digit decides.
  lemma {:induction false} SameLengthLex(a: string, b: string)
    requires AllDigits(a) && AllDigits(b) && |a| == |b|
    ensures CmpInt(Value(a), Value(b)) == DigitLex(a, b)
  {
    if a != [] {
      if a[0] < b[0] {
        FirstDigitDecides(a, b);
      } else if b[0] < a[0] {
        FirstDigitDecides(b, a);
      } else {
        SameLengthLex(a[1..], b[1..]);
      }
    }
  }

  lemma FirstDigitDecides(a: string, b: string)
    requires AllDigits(a) && AllDigits(b) && |a| == |b| && a != []
    requires a[0] < b[0]
    ensures Value(a) < Value(b)
  {
    var p := Pow10(|a| - 1);
    var da, db := Digit(a[0]), Digit(b[0]);
    var ta, tb := da * p, db * p;
    assert Value(a) == ta + Value(a[1..]);
    assert Value(b) == tb + Value(b[1..]);
    ValueBound(a[1..]);
    Scale(da, db, p);
    assert ta + p <= tb;
  }

  /// `x < y` scaled by a positive `p` leaves room for anything below `p`.
  lemma Scale(x: int, y: int, p: nat)
    requires x < y
    ensures x * p + p <= y * p
  {
    var k: nat := y - x;
    AtLeastOnce(k, p);
    assert y * p == x * p + k * p;
  }

  lemma {:induction false} AtLeastOnce(k: nat, p: nat)
    requires k >= 1
    ensures k * p >= p
  {
    if k > 1 {
      AtLeastOnce(k - 1, p);
      assert k * p == (k - 1) * p + p;
    }
  }

  /// Leading zeros do not change the value.
  lemma {:induction false} LeadingZerosValue(s: string, i: nat)
    requires AllDigits(s) && i <= |s|
    requires forall m | 0 <= m < i :: s[m] == '0'
    ensures Value(s) == Value(s[i..])
  {
    if i > 0 {
      assert s[1..][i - 1..] == s[i..];
      LeadingZerosValue(s[1..], i - 1);
    }
  }

  /// The decimal numeral of `n`, without leading zeros (`str(n)`).
  function ShowNat(n: nat): (s: string)
    ensures s != [] && AllDigits(s)
    ensures |s| > 1 ==> s[0] != '0'
  {
    if n < 10 then [('0' as int + n) as char]
    else ShowNat(n / 10) + [('0' as int + n % 10) as char]
  }

  /// Appending a digit multiplies by ten and adds it.
  lemma {:induction false} ValueSnoc(s: string, c: char)
    requires AllDigits(s) && IsDigit(c)
    ensures AllDigits(s + [c]) && Value(s + [c]) == 10 * Value(s) + Digit(c)
  {
    var t := s + [c];
    assert AllDigits(t) by {
      forall k | 0 <= k < |t| ensures IsDigit(t[k]) {
        if k < |s| { assert t[k] == s[k]; }
      }
    }
    if s != [] {
      assert t[1..] == s[1..] + [c];
      ValueSnoc(s[1..], c);
      var d, p := Digit(s[0]), Pow10(|s| - 1);
      assert Value(t) == d * Pow10(|t| - 1) + Value(s[1..] + [c]);
      assert Pow10(|t| - 1) == 10 * p;
      MulTen(d, p);
    } else {
      assert t == [c];
    }
  }

  lemma MulTen(d: int, p: int)
    ensures d * (10 * p) == 10 * (d * p)
  {
  }

  /// Reading back a printed numeral gives the number: `int(str(n)) == n`.
  lemma {:induction false} ValueShowNat(n: nat)
    ensures Value(ShowNat(n)) == n
  {
    if n >= 10 {
      ValueShowNat(n / 10);
      ValueSnoc(ShowNat(n / 10), ('0' as int + n % 10) as char);
    } else {
      assert ShowNat(n)[1..] == [];
    }
  }
}
