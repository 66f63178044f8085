/// The allocation-free line comparator of `src/lib.rs` (`linecomp`).
///
/// The Rust code walks two peekable character iterators through three nested
/// loops: a per-field loop that handles line ends and minus signs, an
/// integer-part loop and a fractional-part loop.  Here the iterators are
/// indices `i`, `j` into the two lines, and each loop is specified by one
/// function giving the final result from the loop's current state:
/// `Field` (top of the `'next_field` loop), `Integer` (the digit loop, with the
/// running `comparison`) and `Fraction` (the loop after two decimal points).
/// `larger` is the Rust variable `l1_larger`.
module FastLineComp {
  import opened Orders
  import opened Wrappers
  import opened DigitStrings

  /// Index of the first character at or after `i` that is not `'0'`.
  function SkipZeros(s: string, i: nat): (k: nat)
    requires i <= |s|
    ensures i <= k <= |s|
    ensures forall m | i <= m < k :: s[m] == '0'
    ensures k < |s| ==> s[k] != '0'
    decreases |s| - i
  {
    if i < |s| && s[i] == '0' then SkipZeros(s, i + 1) else i
  }

  /// Result of `linecomp` from the top of the `'next_field` loop.
  function Field(l1: string, l2: string, i: nat, j: nat, larger: Ordering): Ordering
    requires i <= |l1| && j <= |l2|
    decreases |l1| - i + |l2| - j, 1
  {
    if i < |l1| && j == |l2| then Greater
    else if i == |l1| && j < |l2| then Less
    else if i == |l1| && j == |l2| then Equal
    else if l1[i] == '-' && l2[j] == '-' then
      Integer(l1, l2, SkipZeros(l1, i + 1), SkipZeros(l2, j + 1), Less, Equal)
    else if l1[i] == '-' then Less
    else if l2[j] == '-' then Greater
    else Integer(l1, l2, SkipZeros(l1, i), SkipZeros(l2, j), larger, Equal)
  }

  /// Result of `linecomp` from the top of the integer-part loop.
  function Integer(l1: string, l2: string, i: nat, j: nat, larger: Ordering, comparison: Ordering): Ordering
    requires i <= |l1| && j <= |l2|
    decreases |l1| - i + |l2| - j, 0
  {
    if i < |l1| && j == |l2| then Then(comparison, larger)
    else if i == |l1| && j < |l2| then (if comparison == Greater then larger else Reverse(larger))
    else if i == |l1| && j == |l2| then Orient(comparison, larger)
    else
      var c1, c2 := l1[i], l2[j];
      if !IsDigit(c1) then
        if IsDigit(c2) then Reverse(larger)
        else if comparison == Less then Reverse(larger)
        else if comparison == Greater then larger
        else if c1 == '.' && c2 == '.' then Fraction(l1, l2, i + 1, j + 1, larger)
        else if c1 == '.' then larger
        else if c2 == '.' then Reverse(larger)
        else Integer(l1, l2, i + 1, j + 1, larger, CmpChar(c1, c2))
      else if !IsDigit(c2) then larger
      else Integer(l1, l2, i + 1, j + 1, larger, if comparison == Equal then CmpChar(c1, c2) else comparison)
  }

  /// Result of `linecomp` from the top of the fractional-part loop.
  function Fraction(l1: string, l2: string, i: nat, j: nat, larger: Ordering): Ordering
    requires i <= |l1| && j <= |l2|
    decreases |l1| - i + |l2| - j, 0
  {
    if i < |l1| && j == |l2| then larger
    else if i == |l1| && j < |l2| then Reverse(larger)
    else if i == |l1| && j == |l2| then Equal
    else if l1[i] == '\t' then
      (if l2[j] == '\t' then Field(l1, l2, i + 1, j + 1, larger) else Reverse(larger))
    else if l2[j] == '\t' then larger
    else if l1[i] < l2[j] then Reverse(larger)
    else if l1[i] > l2[j] then larger
    else Fraction(l1, l2, i + 1, j + 1, larger)
  }

  /// The ordering `linecomp(l1, l2)` returns.
  function Compare(l1: string, l2: string): Ordering
  {
    Field(l1, l2, 0, 0, Greater)
  }

  /// The `while let Some(c) = it.peek()` loop that drops leading `'0'`s.
  method SkipLeadingZeros(s: string, i: nat) returns (k: nat)
    requires i <= |s|
    ensures k == SkipZeros(s, i)
  {
    k := i;
    while k < |s| && s[k] == '0'
      invariant i <= k <= |s|
      invariant SkipZeros(s, k) == SkipZeros(s, i)
    {
      k := k + 1;
    }
  }

  /// The integer-part loop (`loop { match (i1.next(), i2.next()) ... }`) entered
  /// at `i0`, `j0` with `comparison == Equal`.  It either decides the result, or
  /// it consumes a decimal point in both lines and `break`s to the fractional part.
  method IntegerPart(l1: string, l2: string, i0: nat, j0: nat, larger: Ordering)
    returns (decided: Option<Ordering>, i: nat, j: nat)
    requires i0 <= |l1| && j0 <= |l2|
    ensures decided.Some? ==> decided.value == Integer(l1, l2, i0, j0, larger, Equal)
    ensures decided.None? ==> i0 < i <= |l1| && j0 < j <= |l2|
    ensures decided.None? ==> Fraction(l1, l2, i, j, larger) == Integer(l1, l2, i0, j0, larger, Equal)
  {
    i, j := i0, j0;
    var comparison := Equal;
    while true
      invariant i0 <= i <= |l1| && j0 <= j <= |l2|
      invariant Integer(l1, l2, i, j, larger, comparison) == Integer(l1, l2, i0, j0, larger, Equal)
      decreases |l1| - i + |l2| - j
    {
      if i < |l1| && j == |l2| { return Some(Then(comparison, larger)), i, j; }
      if i == |l1| && j < |l2| { return Some(if comparison == Greater then larger else Reverse(larger)), i, j; }
      if i == |l1| && j == |l2| { return Some(Orient(comparison, larger)), i, j; }
      var c1, c2 := l1[i], l2[j];
      if !IsDigit(c1) {
        if IsDigit(c2) { return Some(Reverse(larger)), i, j; }
        match comparison {
          case Less => return Some(Reverse(larger)), i, j;
          case Greater => return Some(larger), i, j;
          case Equal =>
            if c1 == '.' {
              if c2 == '.' {
                return None, i + 1, j + 1;
              }
              return Some(larger), i, j;
            }
            if c2 == '.' { return Some(Reverse(larger)), i, j; }
        }
      } else if !IsDigit(c2) {
        return Some(larger), i, j;
      }
      if comparison == Equal {
        comparison := CmpChar(c1, c2);
      }
      i, j := i + 1, j + 1;
    }
  }

  /// The fractional-part loop entered at `i0`, `j0`.  It either decides the
  /// result, or it consumes a tab in both lines (`continue 'next_field`).
  method FractionPart(l1: string, l2: string, i0: nat, j0: nat, larger: Ordering)
    returns (decided: Option<Ordering>, i: nat, j: nat)
    requires i0 <= |l1| && j0 <= |l2|
    ensures decided.Some? ==> decided.value == Fraction(l1, l2, i0, j0, larger)
    ensures decided.None? ==> i0 < i <= |l1| && j0 < j <= |l2|
    ensures decided.None? ==> Field(l1, l2, i, j, larger) == Fraction(l1, l2, i0, j0, larger)
  {
    i, j := i0, j0;
    while true
      invariant i0 <= i <= |l1| && j0 <= j <= |l2|
      invariant Fraction(l1, l2, i, j, larger) == Fraction(l1, l2, i0, j0, larger)
      decreases |l1| - i + |l2| - j
    {
      if i < |l1| && j == |l2| { return Some(larger), i, j; }
      if i == |l1| && j < |l2| { return Some(Reverse(larger)), i, j; }
      if i == |l1| && j == |l2| { return Some(Equal), i, j; }
      var c1, c2 := l1[i], l2[j];
      if c1 == '\t' {
        if c2 == '\t' {
          return None, i + 1, j + 1;
        }
        return Some(Reverse(larger)), i, j;
      }
      if c2 == '\t' { return Some(larger), i, j; }
      if c1 < c2 { return Some(Reverse(larger)), i, j; }
      if c1 > c2 { return Some(larger), i, j; }
      i, j := i + 1, j + 1;
    }
  }

  /// `linecomp` as the Rust code runs it: the `'next_field` loop over two cursors.
  /// Each `next()` of the Rust iterators is a cursor step `i, j := i + 1, j + 1`;
  /// a `continue 'next_field` is a `FractionPart` that returns no decision.
  method LineComp(l1: string, l2: string) returns (r: Ordering)
    ensures r == Compare(l1, l2)
  {
    var i: nat, j: nat := 0, 0;
    var larger := Greater;
    while true
      invariant i <= |l1| && j <= |l2|
      invariant Field(l1, l2, i, j, larger) == Compare(l1, l2)
      decreases |l1| - i + |l2| - j
    {
      // line ends and minus signs
      if i < |l1| && j == |l2| { return Greater; }
      if i == |l1| && j < |l2| { return Less; }
      if i == |l1| && j == |l2| { return Equal; }
      if l1[i] == '-' && l2[j] == '-' {
        larger := Less;
        i, j := i + 1, j + 1;
      } else if l1[i] == '-' {
        return Less;
      } else if l2[j] == '-' {
        return Greater;
      }
      // leading zeros
      i := SkipLeadingZeros(l1, i);
      j := SkipLeadingZeros(l2, j);
      // integer part, then fractional part
      var decided;
      decided, i, j := IntegerPart(l1, l2, i, j, larger);
      if decided.Some? { return decided.value; }
      decided, i, j := FractionPart(l1, l2, i, j, larger);
      if decided.Some? { return decided.value; }
    }
  }
}
