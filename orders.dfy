/// Rust's `std::cmp::Ordering` and the two combinators `linecomp` uses on it.
module Orders {

  datatype Ordering = Less | Equal | Greater

  /// `Ordering::reverse`: swaps `Less` and `Greater`.
  function Reverse(o: Ordering): (r: Ordering)
    ensures o == Less ==> r == Greater
    ensures o == Greater ==> r == Less
    ensures (r == Equal) <==> (o == Equal)
  {
    match o
    case Less => Greater
    case Equal => Equal
    case Greater => Less
  }

  /// `Ordering::then`: keeps a decided ordering, otherwise falls back to `other`.
  function Then(o: Ordering, other: Ordering): (r: Ordering)
    ensures o != Equal ==> r == o
    ensures o == Equal ==> r == other
  {
    if o == Equal then other else o
  }

  /// Reads a comparison of absolute values as a comparison of the lines:
  /// `larger` is the ordering that "the first absolute value is larger" stands for
  /// (`Greater` for positive fields, `Less` once both fields were negative).
  function Orient(c: Ordering, larger: Ordering): (r: Ordering)
    ensures larger == Greater ==> r == c
    ensures larger == Less ==> r == Reverse(c)
    ensures larger != Equal ==> ((r == Equal) <==> (c == Equal))
  {
    match c
    case Less => Reverse(larger)
    case Equal => Equal
    case Greater => larger
  }

  /// Comparison of two integers, the order the comparator is meant to agree with.
  function CmpInt(x: int, y: int): (r: Ordering)
    ensures (r == Less) <==> x < y
    ensures (r == Equal) <==> x == y
    ensures (r == Greater) <==> x > y
  {
    if x < y then Less else if x == y then Equal else Greater
  }

  /// Character comparison by code point (`char::cmp`).
  function CmpChar(a: char, b: char): (r: Ordering)
    ensures (r == Less) <==> a < b
    ensures (r == Equal) <==> a == b
    ensures (r == Greater) <==> a > b
  {
    CmpInt(a as int, b as int)
  }
}
