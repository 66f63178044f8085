/// What the Rust comparator `linecomp` guarantees for all inputs, proved on the
/// functions `Field`, `Integer` and `Fraction` that specify its loops.
module FastLineCompProperties {
  import opened Orders
  import opened FastLineComp
  import opened DigitStrings

  /// Equal remainders of the two lines advance in lockstep.
  lemma SuffixStep(l1: string, l2: string, i: nat, j: nat)
    requires i < |l1| && j < |l2| && l1[i..] == l2[j..]
    ensures l1[i] == l2[j] && l1[i + 1..] == l2[j + 1..]
  {
    assert l1[i] == l1[i..][0] && l2[j] == l2[j..][0];
    assert l1[i + 1..] == l1[i..][1..] && l2[j + 1..] == l2[j..][1..];
  }

  /// Skipping leading zeros skips as many on equal remainders.
  lemma {:induction false} SkipZerosShift(l1: string, l2: string, i: nat, j: nat)
    requires i <= |l1| && j <= |l2| && l1[i..] == l2[j..]
    ensures SkipZeros(l1, i) - i == SkipZeros(l2, j) - j
    ensures l1[SkipZeros(l1, i)..] == l2[SkipZeros(l2, j)..]
    decreases |l1| - i
  {
    if i < |l1| {
      SuffixStep(l1, l2, i, j);
      if l1[i] == '0' {
        SkipZerosShift(l1, l2, i + 1, j + 1);
      }
    }
  }

  /// Two lines whose remainders are equal compare `Equal`, from any of the three loops.
  lemma {:induction false} FieldSameSuffix(l1: string, l2: string, i: nat, j: nat, larger: Ordering)
    requires i <= |l1| && j <= |l2| && l1[i..] == l2[j..]
    ensures Field(l1, l2, i, j, larger) == Equal
    decreases |l1| - i + |l2| - j, 1
  {
    assert |l1| - i == |l2[j..]| == |l2| - j;
    if i < |l1| {
      SuffixStep(l1, l2, i, j);
      if l1[i] == '-' {
        SkipZerosShift(l1, l2, i + 1, j + 1);
        IntegerSameSuffix(l1, l2, SkipZeros(l1, i + 1), SkipZeros(l2, j + 1), Less);
      } else {
        SkipZerosShift(l1, l2, i, j);
        IntegerSameSuffix(l1, l2, SkipZeros(l1, i), SkipZeros(l2, j), larger);
      }
    }
  }

  lemma {:induction false} IntegerSameSuffix(l1: string, l2: string, i: nat, j: nat, larger: Ordering)
    requires i <= |l1| && j <= |l2| && l1[i..] == l2[j..]
    ensures Integer(l1, l2, i, j, larger, Equal) == Equal
    decreases |l1| - i + |l2| - j, 0
  {
    assert |l1| - i == |l2[j..]| == |l2| - j;
    if i < |l1| {
      SuffixStep(l1, l2, i, j);
      if l1[i] == '.' {
        FractionSameSuffix(l1, l2, i + 1, j + 1, larger);
      } else {
        IntegerSameSuffix(l1, l2, i + 1, j + 1, larger);
      }
    }
  }

  lemma {:induction false} FractionSameSuffix(l1: string, l2: string, i: nat, j: nat, larger: Ordering)
    requires i <= |l1| && j <= |l2| && l1[i..] == l2[j..]
    ensures Fraction(l1, l2, i, j, larger) == Equal
    decreases |l1| - i + |l2| - j, 0
  {
    assert |l1| - i == |l2[j..]| == |l2| - j;
    if i < |l1| {
      SuffixStep(l1, l2, i, j);
      if l1[i] == '\t' {
        FieldSameSuffix(l1, l2, i + 1, j + 1, larger);
      } else {
        FractionSameSuffix(l1, l2, i + 1, j + 1, larger);
      }
    }
  }

  /// `linecomp` is reflexive: every line compares `Equal` to itself.
  lemma Reflexive(l: string)
    ensures Compare(l, l) == Equal
  {
    FieldSameSuffix(l, l, 0, 0, Greater);
  }

  /// Line ends come first: the empty line is below every other line, and two
  /// empty lines are `Equal`.
  lemma LineEnds(l: string)
    ensures Compare("", l) == (if l == "" then Equal else Less)
    ensures Compare(l, "") == (if l == "" then Equal else Greater)
  {
  }

  /// A line starting with a minus sign is below one that does not, whatever
  /// follows the sign (rule 3 of the documentation).
  lemma OneNegative(l1: string, l2: string)
    requires l1 != [] && l2 != [] && l1[0] == '-' && l2[0] != '-'
    ensures Compare(l1, l2) == Less && Compare(l2, l1) == Greater
  {
  }

  /// A run of zeros in front of a line does not change its place (rule 6 of the
  /// documentation): `0042` and `42` compare `Equal`, and so do `-0042` and `-42`.
  lemma LeadingZerosSkipped(z: string, s: string)
    requires forall k | 0 <= k < |z| :: z[k] == '0'
    requires s != [] && s[0] != '0' && s[0] != '-'
    ensures Compare(z + s, s) == Equal
    ensures Compare(['-'] + z + s, ['-'] + s) == Equal
  {
    PositiveZeros(z, s);
    NegativeZeros(z, s);
  }

  lemma PositiveZeros(z: string, s: string)
    requires forall k | 0 <= k < |z| :: z[k] == '0'
    requires s != [] && s[0] != '0' && s[0] != '-'
    ensures Compare(z + s, s) == Equal
  {
    var l1, l2 := z + s, s;
    ZerosPrefix(z, s, 0);
    assert l1[|z|..] == l2[0..];
    IntegerSameSuffix(l1, l2, |z|, 0, Greater);
    assert l1[0] != '-' by { if z != [] { assert l1[0] == z[0]; } }
  }

  lemma NegativeZeros(z: string, s: string)
    requires forall k | 0 <= k < |z| :: z[k] == '0'
    requires s != [] && s[0] != '0'
    ensures Compare(['-'] + z + s, ['-'] + s) == Equal
  {
    var n1, n2 := ['-'] + z + s, ['-'] + s;
    assert n1 == ['-'] + (z + s);
    ZerosPrefix(['-'] + z, s, 1);
    assert n1[|z| + 1..] == n2[1..];
    IntegerSameSuffix(n1, n2, |z| + 1, 1, Less);
  }

  lemma {:induction false} ZerosPrefix(z: string, s: string, i: nat)
    requires i <= |z| && forall k | i <= k < |z| :: z[k] == '0'
    requires s != [] && s[0] != '0'
    ensures SkipZeros(z + s, i) == |z|
    decreases |z| - i
  {
    if i < |z| {
      ZerosPrefix(z, s, i + 1);
    } else {
      assert (z + s)[|z|] == s[0];
    }
  }

  predicate NoMinus(l: string) { forall k | 0 <= k < |l| :: l[k] != '-' }

  /// Swapping the lines reverses the result, as long as the first line holds
  /// no minus sign (so `l1_larger` keeps its initial `Greater`).
  lemma Antisymmetric(l1: string, l2: string)
    requires NoMinus(l1)
    ensures Compare(l2, l1) == Reverse(Compare(l1, l2))
  {
    FieldSwap(l1, l2, 0, 0);
  }

  lemma {:induction false} FieldSwap(l1: string, l2: string, i: nat, j: nat)
    requires i <= |l1| && j <= |l2| && NoMinus(l1)
    ensures Field(l2, l1, j, i, Greater) == Reverse(Field(l1, l2, i, j, Greater))
    decreases |l1| - i + |l2| - j, 1
  {
    if i < |l1| && j < |l2| && l2[j] != '-' {
      IntegerSwap(l1, l2, SkipZeros(l1, i), SkipZeros(l2, j), Equal);
    }
  }

  lemma {:induction false} IntegerSwap(l1: string, l2: string, i: nat, j: nat, c: Ordering)
    requires i <= |l1| && j <= |l2| && NoMinus(l1)
    ensures Integer(l2, l1, j, i, Greater, Reverse(c)) == Reverse(Integer(l1, l2, i, j, Greater, c))
    decreases |l1| - i + |l2| - j, 0
  {
    if i < |l1| && j < |l2| {
      var c1, c2 := l1[i], l2[j];
      if !IsDigit(c1) && !IsDigit(c2) && c == Equal {
        if c1 == '.' && c2 == '.' {
          FractionSwap(l1, l2, i + 1, j + 1);
        } else if c1 != '.' && c2 != '.' {
          IntegerSwap(l1, l2, i + 1, j + 1, CmpChar(c1, c2));
        }
      } else if IsDigit(c1) && IsDigit(c2) {
        IntegerSwap(l1, l2, i + 1, j + 1, if c == Equal then CmpChar(c1, c2) else c);
      }
    }
  }

  lemma {:induction false} FractionSwap(l1: string, l2: string, i: nat, j: nat)
    requires i <= |l1| && j <= |l2| && NoMinus(l1)
    ensures Fraction(l2, l1, j, i, Greater) == Reverse(Fraction(l1, l2, i, j, Greater))
    decreases |l1| - i + |l2| - j, 0
  {
    if i < |l1| && j < |l2| {
      if l1[i] == '\t' && l2[j] == '\t' {
        FieldSwap(l1, l2, i + 1, j + 1);
      } else if l1[i] == l2[j] {
        FractionSwap(l1, l2, i + 1, j + 1);
      }
    }
  }

  // ---- A line and its extensions ("extra characters make a field larger") ----

  predicate NonZeroIn(t: string) { exists k | 0 <= k < |t| :: t[k] != '0' }

  predicate DotFrom(p: string, i: nat) { exists k | i <= k < |p| :: p[k] == '.' }

  predicate TabFreeFrom(p: string, i: nat) { forall k | i <= k < |p| :: p[k] != '\t' }

  /// `l1_larger` is never inverted again below `i` (no minus sign), or it is
  /// already inverted and no field of the shorter line starts at its very end.
  predicate Keeps(p: string, i: nat, larger: Ordering) {
    (larger == Greater && forall k | i <= k < |p| :: p[k] != '-')
    || (larger == Less && p != [] && p[|p| - 1] != '\t')
  }

  /// An extension that is not all zeros, or one that lands in the fractional
  /// part of the last field, is never absorbed by leading-zero skipping.
  predicate Visible(p: string, t: string, i: nat) {
    NonZeroIn(t) || (DotFrom(p, i) && TabFreeFrom(p, i))
  }

  lemma SkipZerosExtend(p: string, t: string, k: nat)
    requires k <= |p|
    ensures SkipZeros(p, k) < |p| ==> SkipZeros(p + t, k) == SkipZeros(p, k)
    ensures SkipZeros(p, k) == |p| ==> |p| <= SkipZeros(p + t, k)
    ensures SkipZeros(p, k) == |p| && NonZeroIn(t) ==> SkipZeros(p + t, k) < |p + t|
    decreases |p| - k
  {
    if k < |p| && p[k] == '0' {
      assert (p + t)[k] == '0';
      SkipZerosExtend(p, t, k + 1);
    } else if k == |p| && NonZeroIn(t) {
      var w :| 0 <= w < |t| && t[w] != '0';
      assert (p + t)[|p| + w] == t[w];
    }
  }

  lemma {:induction false} FieldExtension(p: string, t: string, i: nat, larger: Ordering)
    requires i <= |p| && t != [] && Keeps(p, i, larger) && Visible(p, t, i)
    requires i < |p| || larger == Greater
    ensures Field(p, p + t, i, i, larger) == Reverse(larger)
    decreases |p| - i, 1
  {
    var l2 := p + t;
    if i < |p| {
      assert l2[i] == p[i];
      var start, next := if p[i] == '-' then i + 1 else i, if p[i] == '-' then Less else larger;
      assert Keeps(p, start, next);
      var k1, k2 := SkipZeros(p, start), SkipZeros(l2, start);
      SkipZerosExtend(p, t, start);
      if k1 < |p| {
        assert Visible(p, t, k1) by {
          if !NonZeroIn(t) {
            var w :| i <= w < |p| && p[w] == '.';
            assert k1 <= w;
          }
        }
        IntegerExtension(p, t, k1, next);
      } else {
        forall w | i <= w < |p|
          ensures p[w] != '.'
        {
          if w < start { assert w == i; }
        }
      }
    }
  }

  lemma {:induction false} IntegerExtension(p: string, t: string, i: nat, larger: Ordering)
    requires i <= |p| && t != [] && Keeps(p, i, larger) && Visible(p, t, i)
    ensures Integer(p, p + t, i, i, larger, Equal) == Reverse(larger)
    decreases |p| - i, 0
  {
    var l2 := p + t;
    if i < |p| {
      assert l2[i] == p[i];
      if p[i] == '.' {
        FractionExtension(p, t, i + 1, larger);
      } else {
        assert Visible(p, t, i + 1) by {
          if !NonZeroIn(t) {
            var w :| i <= w < |p| && p[w] == '.';
            assert w != i;
          }
        }
        IntegerExtension(p, t, i + 1, larger);
      }
    }
  }

  lemma {:induction false} FractionExtension(p: string, t: string, i: nat, larger: Ordering)
    requires i <= |p| && t != [] && Keeps(p, i, larger)
    requires NonZeroIn(t) || TabFreeFrom(p, i)
    ensures Fraction(p, p + t, i, i, larger) == Reverse(larger)
    decreases |p| - i, 0
  {
    var l2 := p + t;
    if i < |p| {
      assert l2[i] == p[i];
      if p[i] == '\t' {
        FieldExtension(p, t, i + 1, larger);
      } else {
        FractionExtension(p, t, i + 1, larger);
      }
    }
  }

  /// A line is smaller than its extensions: `123 < 1234`, `123 < 123.0`,
  /// `123.0 < 123.01` and, by convention, `123.0 < 123.00` (rule 10).
  lemma ExtensionIsLarger(p: string, t: string)
    requires NoMinus(p) && t != [] && Visible(p, t, 0)
    ensures Compare(p, p + t) == Less
    ensures Compare(p + t, p) == Greater
  {
    FieldExtension(p, t, 0, Greater);
    Antisymmetric(p, p + t);
  }

  /// For a negative first field the convention is inverted: `-123.00 < -123.0`.
  lemma NegativeExtensionIsSmaller(p: string, t: string)
    requires p != [] && p[0] == '-' && p[|p| - 1] != '\t'
    requires t != [] && Visible(p, t, 0)
    ensures Compare(p, p + t) == Greater
  {
    assert (p + t)[0] == '-';
    assert Field(p, p + t, 0, 0, Greater) == Field(p, p + t, 0, 0, Less);
    FieldExtension(p, t, 0, Less);
  }

  // ---- Integer fields of the same number of digits ----

  lemma {:induction false} DigitRun(l1: string, l2: string, i: nat, j: nat, larger: Ordering, c: Ordering)
    requires i <= |l1| && j <= |l2| && |l1| - i == |l2| - j
    requires AllDigits(l1[i..]) && AllDigits(l2[j..])
    ensures Integer(l1, l2, i, j, larger, c) == Orient(Then(c, DigitLex(l1[i..], l2[j..])), larger)
    decreases |l1| - i
  {
    if i < |l1| {
      SameTail(l1, i);
      SameTail(l2, j);
      assert IsDigit(l1[i..][0]) && IsDigit(l2[j..][0]);
      DigitRun(l1, l2, i + 1, j + 1, larger, if c == Equal then CmpChar(l1[i], l2[j]) else c);
    }
  }

  lemma SameTail(l: string, i: nat)
    requires i < |l|
    ensures l[i..][0] == l[i] && l[i..][1..] == l[i + 1..]
  {
  }

  /// Integers with the same number of digits and no leading zero compare as
  /// numbers (rule 8: the earliest larger digit wins), negatives inverted.
  lemma NumericSameLength(s1: string, s2: string)
    requires AllDigits(s1) && AllDigits(s2) && |s1| == |s2|
    requires s1 != [] && s1[0] != '0' && s2[0] != '0'
    ensures Compare(s1, s2) == CmpInt(Value(s1), Value(s2))
    ensures Compare(['-'] + s1, ['-'] + s2) == CmpInt(0 - Value(s1), 0 - Value(s2))
  {
    assert IsDigit(s1[0]) && IsDigit(s2[0]);
    DigitRun(s1, s2, 0, 0, Greater, Equal);
    assert s1[0..] == s1 && s2[0..] == s2;
    SameLengthLex(s1, s2);
    NegativeSameLength(s1, s2);
  }

  lemma NegativeSameLength(s1: string, s2: string)
    requires AllDigits(s1) && AllDigits(s2) && |s1| == |s2|
    requires s1 != [] && s1[0] != '0' && s2[0] != '0'
    ensures Compare(['-'] + s1, ['-'] + s2) == CmpInt(0 - Value(s1), 0 - Value(s2))
  {
    var l1, l2 := ['-'] + s1, ['-'] + s2;
    assert l1[1..] == s1 && l2[1..] == s2;
    assert l1[0] == '-' && l2[0] == '-' && l1[1] == s1[0] && l2[1] == s2[0];
    assert SkipZeros(l1, 1) == 1 && SkipZeros(l2, 1) == 1;
    assert Compare(l1, l2) == Integer(l1, l2, 1, 1, Less, Equal);
    DigitRun(l1, l2, 1, 1, Less, Equal);
    SameLengthLex(s1, s2);
  }
}
