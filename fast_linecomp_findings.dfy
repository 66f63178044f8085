/// Inputs on which the Rust comparator, as written, departs from what its
/// documentation and the surrounding branches promise.  `FastLineCompFixed`
/// holds the corrected comparator and the properties proved for it.
module FastLineCompFindings {
  import opened Orders
  import opened DigitStrings
  import opened FastLineComp

  /// Lines 92-94 return a comparison decided by an earlier digit without
  /// reading it through `l1_larger`: for two negative fields whose shorter one
  /// ends first, each line is `Less` than the other.
  lemma NegativeEndOfLine()
    ensures Compare("-1.5", "-2") == Less && Compare("-2", "-1.5") == Less
    ensures Compare("-19", "-2") == Less && Compare("-2", "-19") == Less
  {
  }

  /// Lines 92-100 let an earlier differing digit win over a longer digit run
  /// when the shorter line ends there, so 19 sorts below 2, while a tab after
  /// the 2 restores "more digits, larger" (lines 110-112): the order is cyclic.
  lemma ShorterRunWins()
    ensures AllDigits("19") && AllDigits("2") && Value("19") > Value("2")
    ensures Compare("19", "2") == Less
    ensures Compare("2", "2\tx") == Less && Compare("2\tx", "19") == Less
  {
  }
}
