/// The whole `rstest` table of `src/lib.rs`, each row as a fact about the
/// corrected comparator `FastLineCompFixed.Compare`: correcting the two
/// end-of-line branches changes none of the table's expected results.
module FastLineCompFixedCases {
  import opened Orders
  import opened FastLineCompFixed

  /// `rstest` cases of `src/lib.rs`, lines 191-194: integers, equal length.
  lemma IntegersEqualLength()
    ensures Compare("123", "123") == Equal
    ensures Compare("123", "124") == Less
    ensures Compare("124", "123") == Greater
  {
  }

  /// `rstest` cases of `src/lib.rs`, lines 195-197: integers, different length.
  lemma IntegersDifferentLength()
    ensures Compare("123", "1234") == Less
    ensures Compare("1234", "123") == Greater
  {
  }

  /// `rstest` cases of `src/lib.rs`, lines 198-203: negative integers.
  lemma NegativeIntegers()
    ensures Compare("-123", "123") == Less
    ensures Compare("123", "-123") == Greater
    ensures Compare("-123", "-123") == Equal
    ensures Compare("-123", "-124") == Greater
    ensures Compare("-124", "-123") == Less
  {
  }

  /// `rstest` cases of `src/lib.rs`, lines 204-210: integers vs. floats.
  lemma IntegersVersusFloats()
    ensures Compare("123", "122.9") == Greater
    ensures Compare("123", "123.0") == Less
    ensures Compare("123", "123.1") == Less
    ensures Compare("123.1", "123") == Greater
    ensures Compare("123.0", "123") == Greater
    ensures Compare("122.9", "123") == Less
  {
  }

  /// `rstest` cases of `src/lib.rs`, lines 211-214: floats vs. floats, equal length, same integer part.
  lemma FloatsSameIntegerPart()
    ensures Compare("123.1", "123.1") == Equal
    ensures Compare("123.0", "123.1") == Less
    ensures Compare("123.1", "123.0") == Greater
  {
  }

  /// `rstest` cases of `src/lib.rs`, lines 215-219: floats vs. floats, different length, same integer part.
  lemma FloatsLongerFraction()
    ensures Compare("123.0", "123.01") == Less
    ensures Compare("123.01", "123.0") == Greater
    ensures Compare("123.0", "123.00") == Less
    ensures Compare("123.00", "123.0") == Greater
  {
  }

  /// `rstest` cases of `src/lib.rs`, lines 220-224: floats vs. floats, same length, different integer part.
  lemma FloatsDifferentIntegerPart()
    ensures Compare("123.0", "124.0") == Less
    ensures Compare("124.0", "123.0") == Greater
    ensures Compare("123.0", "124.1") == Less
    ensures Compare("124.1", "123.0") == Greater
  {
  }

  /// `rstest` cases of `src/lib.rs`, lines 225-229: floats vs. floats, different length, different integer part.
  lemma FloatsDifferentLengthAndIntegerPart()
    ensures Compare("123.0", "124.00") == Less
    ensures Compare("124.00", "123.0") == Greater
    ensures Compare("123.0", "124.01") == Less
    ensures Compare("124.01", "123.0") == Greater
  {
  }

  /// `rstest` cases of `src/lib.rs`, lines 230-240: negative floats.
  lemma NegativeFloats()
    ensures Compare("-123.0", "123.0") == Less
    ensures Compare("123.0", "-123.0") == Greater
    ensures Compare("-123.0", "-123.0") == Equal
    ensures Compare("-123.0", "-123.1") == Greater
    ensures Compare("-123.1", "-123.0") == Less
    ensures Compare("-123.0", "-123.00") == Greater
    ensures Compare("-123.00", "-123.0") == Less
    ensures Compare("-123.02", "-123.01") == Less
    ensures Compare("-123.01", "-123.02") == Greater
    ensures Compare("-123.00", "-123.01") == Greater
  {
  }

  /// `rstest` cases of `src/lib.rs`, lines 241-251: negative floats, continued.
  lemma NegativeFloatsContinued()
    ensures Compare("-123.01", "-123.00") == Less
    ensures Compare("-123.0", "-123.01") == Greater
    ensures Compare("-123.01", "-123.0") == Less
    ensures Compare("-123.0", "-124.0") == Greater
    ensures Compare("-124.0", "-123.0") == Less
    ensures Compare("-123.0", "-124.1") == Greater
    ensures Compare("-124.1", "-123.0") == Less
    ensures Compare("-123.0", "-124.00") == Greater
    ensures Compare("-124.00", "-123.0") == Less
    ensures Compare("-123.0", "-124.01") == Greater
    ensures Compare("-124.01", "-123.0") == Less
  {
  }

  /// `rstest` cases of `src/lib.rs`, lines 252-262: negative integers vs. floats.
  lemma NegativeIntegersVersusFloats()
    ensures Compare("-123", "123.0") == Less
    ensures Compare("123", "-123.0") == Greater
    ensures Compare("-123.0", "123") == Less
    ensures Compare("123.0", "-123") == Greater
    ensures Compare("-123", "123.1") == Less
    ensures Compare("123.1", "-123") == Greater
    ensures Compare("-123.1", "123") == Less
    ensures Compare("123", "-123.1") == Greater
    ensures Compare("-123", "123.0") == Less
    ensures Compare("123", "-123.0") == Greater
  {
  }

  /// `rstest` cases of `src/lib.rs`, lines 263-272: negative integers vs. floats, continued.
  lemma NegativeIntegersVersusFloatsContinued()
    ensures Compare("-123.0", "123") == Less
    ensures Compare("123.0", "-123") == Greater
    ensures Compare("-123", "123.00") == Less
    ensures Compare("123.00", "-123") == Greater
    ensures Compare("-123.00", "123") == Less
    ensures Compare("123", "-123.00") == Greater
    ensures Compare("-123", "123.01") == Less
    ensures Compare("123.01", "-123") == Greater
    ensures Compare("-123.01", "123") == Less
    ensures Compare("123", "-123.01") == Greater
  {
  }
}
