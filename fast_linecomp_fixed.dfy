/// The Rust comparator with its two end-of-line branches corrected (lines 92-100
/// of `src/lib.rs`): the end of a line is treated like any other non-digit, as
/// lines 109-139 treat one.  A digit still pending on the longer line makes its
/// digit run longer and so its number larger (rule 7 of the documentation), and
/// a decided comparison is read through `l1_larger` as everywhere else.
module FastLineCompFixed {
  import opened Orders
  import opened DigitStrings
  import FastLineComp

  function Field(l1: string, l2: string, i: nat, j: nat, larger: Ordering): Ordering
    requires i <= |l1| && j <= |l2|
    decreases |l1| - i + |l2| - j, 1
  {
    if i < |l1| && j == |l2| then Greater
    else if i == |l1| && j < |l2| then Less
    else if i == |l1| && j == |l2| then Equal
    else if l1[i] == '-' && l2[j] == '-' then
      Integer(l1, l2, FastLineComp.SkipZeros(l1, i + 1), FastLineComp.SkipZeros(l2, j + 1), Less, Equal)
    else if l1[i] == '-' then Less
    else if l2[j] == '-' then Greater
    else Integer(l1, l2, FastLineComp.SkipZeros(l1, i), FastLineComp.SkipZeros(l2, j), larger, Equal)
  }

  function Integer(l1: string, l2: string, i: nat, j: nat, larger: Ordering, comparison: Ordering): Ordering
    requires i <= |l1| && j <= |l2|
    decreases |l1| - i + |l2| - j, 0
  {
    if i < |l1| && j == |l2| then
      (if comparison == Equal || IsDigit(l1[i]) then larger else Orient(comparison, larger))
    else if i == |l1| && j < |l2| then
      (if comparison == Equal || IsDigit(l2[j]) then Reverse(larger) else Orient(comparison, larger))
    else if i == |l1| && j == |l2| then Orient(comparison, larger)
    else
      var c1, c2 := l1[i], l2[j];
      if !IsDigit(c1) then
        if IsDigit(c2) then Reverse(larger)
        else if comparison == Less then Reverse(larger)
        else if comparison == Greater then larger
        else if c1 == '.' && c2 == '.' then Fraction(l1, l2, i + 1, j + 1, larger)
        else if c1 == '.' then larger
        else if c2 == '.' then Reverse(larger)
        else Integer(l1, l2, i + 1, j + 1, larger, CmpChar(c1, c2))
      else if !IsDigit(c2) then larger
      else Integer(l1, l2, i + 1, j + 1, larger, if comparison == Equal then CmpChar(c1, c2) else comparison)
  }

  function Fraction(l1: string, l2: string, i: nat, j: nat, larger: Ordering): Ordering
    requires i <= |l1| && j <= |l2|
    decreases |l1| - i + |l2| - j, 0
  {
    if i < |l1| && j == |l2| then larger
    else if i == |l1| && j < |l2| then Reverse(larger)
    else if i == |l1| && j == |l2| then Equal
    else if l1[i] == '\t' then
      (if l2[j] == '\t' then Field(l1, l2, i + 1, j + 1, larger) else Reverse(larger))
    else if l2[j] == '\t' then larger
    else if l1[i] < l2[j] then Reverse(larger)
    else if l1[i] > l2[j] then larger
    else Fraction(l1, l2, i + 1, j + 1, larger)
  }

  /// The corrected comparator.
  function Compare(l1: string, l2: string): Ordering
  {
    Field(l1, l2, 0, 0, Greater)
  }

  /// The corrected comparator is antisymmetric on all lines, negative fields included.
  lemma Antisymmetric(l1: string, l2: string)
    ensures Compare(l2, l1) == Reverse(Compare(l1, l2))
  {
    FieldSwap(l1, l2, 0, 0, Greater);
  }

  lemma {:induction false} FieldSwap(l1: string, l2: string, i: nat, j: nat, larger: Ordering)
    requires i <= |l1| && j <= |l2|
    ensures Field(l2, l1, j, i, larger) == Reverse(Field(l1, l2, i, j, larger))
    decreases |l1| - i + |l2| - j, 1
  {
    if i < |l1| && j < |l2| {
      if l1[i] == '-' && l2[j] == '-' {
        IntegerSwap(l1, l2, FastLineComp.SkipZeros(l1, i + 1), FastLineComp.SkipZeros(l2, j + 1), Less, Equal);
      } else if l1[i] != '-' && l2[j] != '-' {
        IntegerSwap(l1, l2, FastLineComp.SkipZeros(l1, i), FastLineComp.SkipZeros(l2, j), larger, Equal);
      }
    }
  }

  lemma {:induction false} IntegerSwap(l1: string, l2: string, i: nat, j: nat, larger: Ordering, c: Ordering)
    requires i <= |l1| && j <= |l2|
    ensures Integer(l2, l1, j, i, larger, Reverse(c)) == Reverse(Integer(l1, l2, i, j, larger, c))
    decreases |l1| - i + |l2| - j, 0
  {
    if i < |l1| && j < |l2| {
      var c1, c2 := l1[i], l2[j];
      if !IsDigit(c1) && !IsDigit(c2) && c == Equal {
        if c1 == '.' && c2 == '.' {
          FractionSwap(l1, l2, i + 1, j + 1, larger);
        } else if c1 != '.' && c2 != '.' {
          IntegerSwap(l1, l2, i + 1, j + 1, larger, CmpChar(c1, c2));
        }
      } else if IsDigit(c1) && IsDigit(c2) {
        IntegerSwap(l1, l2, i + 1, j + 1, larger, if c == Equal then CmpChar(c1, c2) else c);
      }
    }
  }

  lemma {:induction false} FractionSwap(l1: string, l2: string, i: nat, j: nat, larger: Ordering)
    requires i <= |l1| && j <= |l2|
    ensures Fraction(l2, l1, j, i, larger) == Reverse(Fraction(l1, l2, i, j, larger))
    decreases |l1| - i + |l2| - j, 0
  {
    if i < |l1| && j < |l2| {
      if l1[i] == '\t' && l2[j] == '\t' {
        FieldSwap(l1, l2, i + 1, j + 1, larger);
      } else if l1[i] == l2[j] {
        FractionSwap(l1, l2, i + 1, j + 1, larger);
      }
    }
  }

  /// On digits only, the integer loop answers "more digits left, larger number",
  /// and between equally long runs the first differing digit.
  lemma {:induction false} DigitRun(l1: string, l2: string, i: nat, j: nat, larger: Ordering, c: Ordering)
    requires i <= |l1| && j <= |l2|
    requires AllDigits(l1[i..]) && AllDigits(l2[j..])
    ensures |l1| - i > |l2| - j ==> Integer(l1, l2, i, j, larger, c) == larger
    ensures |l1| - i < |l2| - j ==> Integer(l1, l2, i, j, larger, c) == Reverse(larger)
    ensures |l1| - i == |l2| - j ==>
      Integer(l1, l2, i, j, larger, c) == Orient(Then(c, DigitLex(l1[i..], l2[j..])), larger)
    decreases |l1| - i
  {
    if i < |l1| {
      assert l1[i..][0] == l1[i] && IsDigit(l1[i..][0]);
      if j < |l2| {
        assert l2[j..][0] == l2[j] && IsDigit(l2[j..][0]);
        assert l1[i..][1..] == l1[i + 1..] && l2[j..][1..] == l2[j + 1..];
        DigitRun(l1, l2, i + 1, j + 1, larger, if c == Equal then CmpChar(l1[i], l2[j]) else c);
      }
    } else if j < |l2| {
      assert l2[j..][0] == l2[j] && IsDigit(l2[j..][0]);
    }
  }

  /// From the first significant digit on, the corrected loop compares the values.
  lemma Significant(l1: string, l2: string, i: nat, j: nat, larger: Ordering)
    requires i <= |l1| && j <= |l2|
    requires AllDigits(l1[i..]) && AllDigits(l2[j..])
    requires (i < |l1| ==> l1[i] != '0') && (j < |l2| ==> l2[j] != '0')
    ensures Integer(l1, l2, i, j, larger, Equal) == Orient(CmpInt(Value(l1[i..]), Value(l2[j..])), larger)
  {
    var a, b := l1[i..], l2[j..];
    DigitRun(l1, l2, i, j, larger, Equal);
    if |a| > |b| {
      assert a[0] == l1[i];
      LongerIsLarger(a, b);
    } else if |a| < |b| {
      assert b[0] == l2[j];
      LongerIsLarger(b, a);
    } else {
      SameLengthLex(a, b);
    }
  }

  lemma DigitsFrom(s: string, k: nat)
    requires AllDigits(s) && k <= |s|
    ensures AllDigits(s[k..])
  {
    assert forall m | 0 <= m < |s| - k :: s[k..][m] == s[k + m];
  }

  /// The corrected comparator orders non-empty integers by their values, and
  /// negative integers by their negated values (leading zeros allowed).
  lemma NumericOrder(s1: string, s2: string)
    requires AllDigits(s1) && AllDigits(s2) && s1 != [] && s2 != []
    ensures Compare(s1, s2) == CmpInt(Value(s1), Value(s2))
    ensures Compare(['-'] + s1, ['-'] + s2) == CmpInt(0 - Value(s1), 0 - Value(s2))
  {
    PositiveOrder(s1, s2);
    NegativeOrder(s1, s2);
  }

  lemma PositiveOrder(s1: string, s2: string)
    requires AllDigits(s1) && AllDigits(s2) && s1 != [] && s2 != []
    ensures Compare(s1, s2) == CmpInt(Value(s1), Value(s2))
  {
    var k1, k2 := FastLineComp.SkipZeros(s1, 0), FastLineComp.SkipZeros(s2, 0);
    SignificantValue(s1, k1);
    SignificantValue(s2, k2);
    assert IsDigit(s1[0]) && IsDigit(s2[0]);
    assert Compare(s1, s2) == Integer(s1, s2, k1, k2, Greater, Equal);
    Significant(s1, s2, k1, k2, Greater);
  }

  lemma NegativeOrder(s1: string, s2: string)
    requires AllDigits(s1) && AllDigits(s2) && s1 != [] && s2 != []
    ensures Compare(['-'] + s1, ['-'] + s2) == CmpInt(0 - Value(s1), 0 - Value(s2))
  {
    var n1, n2 := ['-'] + s1, ['-'] + s2;
    assert n1[1..] == s1 && n2[1..] == s2;
    NegativeFields(n1, n2);
  }

  lemma NegativeFields(l1: string, l2: string)
    requires |l1| > 1 && |l2| > 1 && l1[0] == '-' && l2[0] == '-'
    requires AllDigits(l1[1..]) && AllDigits(l2[1..])
    ensures Compare(l1, l2) == CmpInt(0 - Value(l1[1..]), 0 - Value(l2[1..]))
  {
    var k1, k2 := FastLineComp.SkipZeros(l1, 1), FastLineComp.SkipZeros(l2, 1);
    AfterMinus(l1, k1);
    AfterMinus(l2, k2);
    BothNegative(l1, l2);
    Significant(l1, l2, k1, k2, Less);
    Negated(Value(l1[1..]), Value(l2[1..]));
  }

  /// Two fields that both start with a minus sign are compared from behind it, inverted.
  lemma BothNegative(l1: string, l2: string)
    requires l1 != [] && l2 != [] && l1[0] == '-' && l2[0] == '-'
    ensures Compare(l1, l2)
      == Integer(l1, l2, FastLineComp.SkipZeros(l1, 1), FastLineComp.SkipZeros(l2, 1), Less, Equal)
  {
  }

  /// Behind a minus sign, the digits after the leading zeros carry the whole value.
  lemma AfterMinus(l: string, k: nat)
    requires |l| > 1 && AllDigits(l[1..]) && k == FastLineComp.SkipZeros(l, 1)
    ensures AllDigits(l[k..]) && Value(l[k..]) == Value(l[1..])
    ensures k < |l| ==> l[k] != '0'
  {
    var s := l[1..];
    assert l[1..] == s[0..];
    SkipZerosOffset(l, s, 1, 0);
    SignificantValue(s, k - 1);
    assert l[k..] == s[k - 1..];
  }

  lemma Negated(x: int, y: int)
    ensures Orient(CmpInt(x, y), Less) == CmpInt(0 - x, 0 - y)
  {
  }

  /// The digits after the leading zeros carry the whole value.
  lemma SignificantValue(s: string, k: nat)
    requires AllDigits(s) && k == FastLineComp.SkipZeros(s, 0)
    ensures AllDigits(s[k..]) && Value(s[k..]) == Value(s)
  {
    DigitsFrom(s, k);
    LeadingZerosValue(s, k);
  }

  lemma {:induction false} SkipZerosOffset(l: string, s: string, i: nat, k: nat)
    requires i <= |l| && k <= |s| && l[i..] == s[k..]
    ensures FastLineComp.SkipZeros(l, i) - i == FastLineComp.SkipZeros(s, k) - k
    ensures l[FastLineComp.SkipZeros(l, i)..] == s[FastLineComp.SkipZeros(s, k)..]
    decreases |l| - i
  {
    if i < |l| {
      assert l[i] == l[i..][0] && s[k] == s[k..][0];
      assert l[i + 1..] == l[i..][1..] && s[k + 1..] == s[k..][1..];
      if l[i] == '0' {
        SkipZerosOffset(l, s, i + 1, k + 1);
      }
    }
  }

  /// The corrected comparator still meets every case of the `rstest` table
  /// that shows its end-of-line branches, and decides the two findings' inputs.
  lemma CorrectedCases()
    ensures Compare("19", "2") == Greater && Compare("2", "19") == Less
    ensures Compare("-19", "-2") == Less && Compare("-2", "-19") == Greater
    ensures Compare("-1.5", "-2") == Greater && Compare("-2", "-1.5") == Less
    ensures Compare("123", "1234") == Less && Compare("1234", "123") == Greater
    ensures Compare("123", "122.9") == Greater && Compare("122.9", "123") == Less
    ensures Compare("123", "123.0") == Less && Compare("123.0", "123") == Greater
    ensures Compare("123", "123.1") == Less && Compare("123.1", "123") == Greater
    ensures Compare("-123", "-124") == Greater && Compare("-124", "-123") == Less
  {
  }
}
