# pgtricks: sorting `pg_dump` data rows, modelled in Dafny

pgtricks splits a plain-text `pg_dump` file into one file per table and
sorts the data rows of every `COPY ... FROM stdin;` block, so that two dumps
of the same database can be compared line by line. This project models the
three parts that decide what the split files hold:

- the Rust comparator `linecomp` (`src/lib.rs`). It compares two
  tab-delimited lines character by character, reading digit runs as
  numbers. Its three loops are written out as mutually recursive functions
  (`FastLineComp.Field`, `Integer`, `Fraction`). The method
  `FastLineComp.LineComp` runs the loops with cursors and is proved to
  return what those functions give. The lemmas prove the documented rules
  where the code follows them, and the whole `rstest` table. Rule 7, and
  rule 2 where a line ends, are broken as written (see Findings); the
  corrected comparator `FastLineCompFixed` keeps the whole table;
- the class `MergeSort` (`pgtricks/mergesort.py`), an external merge sort
  with a memory ceiling:
  - `append` buffers lines and counts their sizes;
  - `_flush` spills the sorted buffer as a partition;
  - `__next__` merges the partitions, or sorts the buffer when nothing was
    spilled.

  It is a Dafny class with the same fields. Each temporary file becomes a
  `seq<string>`. The key is a total preorder `le` on lines. The proof shows
  that what comes out is `sorted(lines, key)`: it is sorted, it is a
  permutation of the input, and it is stable. This holds for any ceiling
  and any size function as long as every line ends in `"\n"` and holds no
  other `"\n"`, which is what iterating a text file yields. A spilled
  partition is written with no separator and read back cut at every
  `"\n"` (`PartitionFiles`): other lines come back joined or split once a
  partition spills;
- `pgtricks/pg_dump_splitsort.py`:
  - the Python comparator `linecomp`, which splits at the first tab and
    compares the heads through `try_float` or as strings, with an exact
    decimal model of `float()`;
  - `memory_size`;
  - the routing loop of `split_sql_file`.

  The loop is a method that feeds a `MergeSort` object. It is proved
  equal to a pure step function folded over the dump's lines. The
  properties of that fold are proved too:
  - the files are the prologue, the tables' files and at most one
    epilogue, each opened once, in increasing number order;
  - reading them in that order gives the dump back, line for line, except
    that the rows of each `COPY` block come sorted.

Where the code and its documentation or tests disagree, the model follows
the code:

- the null marker `\N` is an ordinary string to the Python `linecomp`. It
  sorts after digits, `-`, `.` and the empty line, and before lower-case
  words (`pgtricks/pg_dump_splitsort.py:21-35`). It is not "below every
  other value";
- `memory_size` accepts any text after the unit letter, so `"1.5 kibibytes"`
  is 1536 bytes. Unrecognised unit words are not rejected;
- the doc comment of the Rust `linecomp` says "more remaining digits ⇒
  larger" (rule 7). The code lets an earlier differing digit win when a
  line ends (see Findings).

## Model

The specification functions have no contract of their own; the lemmas in
the table below state what they compute. They model:

- `FastLineComp.Compare` (with `Field`, `Integer`, `Fraction`): `linecomp`
  at src/lib.rs:45-178;
- `Sorting.SortBy`: `sorted(..., key=...)` at pgtricks/mergesort.py:54 and
  :77;
- `Sorting.MergeAll`: `heapq.merge` at pgtricks/mergesort.py:68-71;
- `PyFloat.Parse`: `float(...)` at pgtricks/pg_dump_splitsort.py:24 and
  :140. It strips only what CPython's `float` skips: non-ASCII
  whitespace and ASCII 9-13 and 32, not the separators 28-31 that
  `str.strip` also removes (`PyStr.IsBlank`);
- `DumpSplitSort.TryFloat`: `try_float` at
  pgtricks/pg_dump_splitsort.py:19-24;
- `DumpSplitSort.MemorySize`: `memory_size` at
  pgtricks/pg_dump_splitsort.py:128-140;
- `DumpSplitting.Split`: `split_sql_file` at
  pgtricks/pg_dump_splitsort.py:61-125.

| member | source | states |
|---|---|---|
| `FastLineComp.SkipLeadingZeros` | src/lib.rs:71-87 | the peek loop stops at the first character after a run of `'0'`s that is not `'0'` (or at the end) and skips only zeros |
| `FastLineComp.IntegerPart` | src/lib.rs:89-148 | the integer loop either returns the result the recursive definition gives from the loop's entry, or consumes a `.` in both lines, after which the fraction loop decides the same result |
| `FastLineComp.FractionPart` | src/lib.rs:150-176 | the fraction loop either returns the result, or meets a tab in both lines, after which the next field decides the same result |
| `FastLineComp.LineComp` | src/lib.rs:45-178 | the comparator with its cursors and labelled loops returns exactly the ordering the recursive field/integer/fraction definition gives |
| `FastLineCompProperties.Reflexive` | src/lib.rs:50-177 | every line compares `Equal` to itself (rule 1) |
| `FastLineCompProperties.LineEnds` | src/lib.rs:52-55 | the empty line is `Less` than every other line and `Equal` to itself, in both argument orders |
| `FastLineCompProperties.OneNegative` | src/lib.rs:62-67 | when both lines are non-empty and only the first starts with `-`, it is `Less` and the swap is `Greater`, whatever follows (rule 3) |
| `FastLineCompProperties.LeadingZerosSkipped` | src/lib.rs:71-87 | a run of zeros in front of a number that does not start with `0` or `-` changes nothing: `0042` and `42` compare `Equal`, and so do `-0042` and `-42` (rule 6) |
| `FastLineCompProperties.Antisymmetric` | src/lib.rs:89-176 | swapping two lines reverses the ordering whenever the first holds no minus sign |
| `FastLineCompProperties.ExtensionIsLarger` | src/lib.rs:95-155 | a line is `Less` than any extension of it that leading-zero skipping does not absorb (`123 < 1234`, `123 < 123.0`, `123.0 < 123.00`), and the swap is `Greater` (rule 10) |
| `FastLineCompProperties.NegativeExtensionIsSmaller` | src/lib.rs:56-61 | after a leading `-` the same extension makes the line smaller: `-123.00 < -123.0` |
| `FastLineCompProperties.NumericSameLength` | src/lib.rs:102-107 | integers with the same number of digits and no leading zero compare like their values, and like their negated values after a `-` on both (rule 8) |
| `FastLineCompProperties.FieldExtension` | src/lib.rs:89-176 | from any field start, the prefix of a line is below the line itself, read through the current `l1_larger` |
| `FastLineCompCases.IntegersEqualLength` | src/lib.rs:191-194 | the three cases of the `rstest` table on equal-length integers |
| `FastLineCompCases.IntegersDifferentLength` | src/lib.rs:195-197 | the cases on integers of different lengths |
| `FastLineCompCases.NegativeIntegers` | src/lib.rs:198-203 | the cases on negative integers |
| `FastLineCompCases.IntegersVersusFloats` | src/lib.rs:204-210 | the cases on integers against floats |
| `FastLineCompCases.FloatsSameIntegerPart` | src/lib.rs:211-214 | the cases on equal-length floats with the same integer part |
| `FastLineCompCases.FloatsLongerFraction` | src/lib.rs:215-219 | the cases on floats whose fractions differ in length |
| `FastLineCompCases.FloatsDifferentIntegerPart` | src/lib.rs:220-224 | the cases on same-length floats with different integer parts |
| `FastLineCompCases.FloatsDifferentLengthAndIntegerPart` | src/lib.rs:225-229 | the cases on floats that differ in length and integer part |
| `FastLineCompCases.NegativeFloats` | src/lib.rs:230-240 | the first half of the negative-float cases |
| `FastLineCompCases.NegativeFloatsContinued` | src/lib.rs:241-251 | the second half of the negative-float cases |
| `FastLineCompCases.NegativeIntegersVersusFloats` | src/lib.rs:252-262 | the first half of the negative-integer-against-float cases |
| `FastLineCompCases.NegativeIntegersVersusFloatsContinued` | src/lib.rs:263-272 | the second half of those cases |
| `FastLineCompCases.DocumentedExamples` | src/lib.rs:40-43 | the four examples of the doc comment, `123\tour < 123\town` included |
| `FastLineCompCases.InversionPersists` | src/lib.rs:57 | `l1_larger` is never reset: once both lines started with `-`, a later field is compared inverted too |
| `FastLineCompFindings.NegativeEndOfLine` | src/lib.rs:92-94 | as written, `-19` and `-2` are each `Less` than the other, and so are `-1.5` and `-2` |
| `FastLineCompFindings.ShorterRunWins` | src/lib.rs:92-100 | as written, `19 < 2`, though 19 has more digits and the larger value, and `19 < 2 < 2\tx < 19` is a cycle |
| `FastLineCompFixed.Antisymmetric` | src/lib.rs:92-108 | with the end-of-line branches corrected, swapping any two lines reverses the ordering, negative fields included |
| `FastLineCompFixed.NumericOrder` | src/lib.rs:89-148 | the corrected comparator orders non-empty digit strings by value, and `-`-prefixed ones by negated value, leading zeros allowed |
| `FastLineCompFixed.CorrectedCases` | src/lib.rs:191-272 | the corrected comparator still gives the `rstest` results that reach its end-of-line branches (rows 196-197, 202-203 and 205-210), and orders the findings' inputs by value |
| `FastLineCompFixedCases.IntegersEqualLength` | src/lib.rs:191-194 | the corrected comparator gives every expected result of the `rstest` rows on integers, equal length |
| `FastLineCompFixedCases.IntegersDifferentLength` | src/lib.rs:195-197 | the corrected comparator gives every expected result of the `rstest` rows on integers, different length |
| `FastLineCompFixedCases.NegativeIntegers` | src/lib.rs:198-203 | the corrected comparator gives every expected result of the `rstest` rows on negative integers |
| `FastLineCompFixedCases.IntegersVersusFloats` | src/lib.rs:204-210 | the corrected comparator gives every expected result of the `rstest` rows on integers versus floats |
| `FastLineCompFixedCases.FloatsSameIntegerPart` | src/lib.rs:211-214 | the corrected comparator gives every expected result of the `rstest` rows on floats, equal length, same integer part |
| `FastLineCompFixedCases.FloatsLongerFraction` | src/lib.rs:215-219 | the corrected comparator gives every expected result of the `rstest` rows on floats, different length, same integer part |
| `FastLineCompFixedCases.FloatsDifferentIntegerPart` | src/lib.rs:220-224 | the corrected comparator gives every expected result of the `rstest` rows on floats, same length, different integer part |
| `FastLineCompFixedCases.FloatsDifferentLengthAndIntegerPart` | src/lib.rs:225-229 | the corrected comparator gives every expected result of the `rstest` rows on floats, different length, different integer part |
| `FastLineCompFixedCases.NegativeFloats` | src/lib.rs:230-240 | the corrected comparator gives every expected result of the `rstest` rows on negative floats |
| `FastLineCompFixedCases.NegativeFloatsContinued` | src/lib.rs:241-251 | the corrected comparator gives every expected result of the `rstest` rows on negative floats, continued |
| `FastLineCompFixedCases.NegativeIntegersVersusFloats` | src/lib.rs:252-262 | the corrected comparator gives every expected result of the `rstest` rows on negative integers versus floats |
| `FastLineCompFixedCases.NegativeIntegersVersusFloatsContinued` | src/lib.rs:263-272 | the corrected comparator gives every expected result of the `rstest` rows on negative integers versus floats, continued |
| `Sorting.SortByPermutation` | pgtricks/mergesort.py:54 | `sorted` returns a permutation of its input |
| `Sorting.SortBySorted` | pgtricks/mergesort.py:54 | `sorted` returns a sequence in key order |
| `Sorting.SortByStable` | pgtricks/mergesort.py:54 | `sorted` is stable: the lines of every key keep their input order |
| `Sorting.SortedUnique` | pgtricks/mergesort.py:54 | two key-ordered sequences that hold the lines of every key in the same order are equal, so a stable sort has a single result |
| `Sorting.SortedPermutation` | pgtricks/mergesort.py:77 | under an antisymmetric order, any sorted permutation of the input is what `sorted` returns |
| `Sorting.SelectFrom` | pgtricks/mergesort.py:68-74 | the run the merge takes from next is a non-empty one, or -1 when every run is empty |
| `Sorting.SelectMin` | pgtricks/mergesort.py:68-74 | the selected run's head has the least key among all heads, and ties go to the lowest-numbered run |
| `Sorting.MergeAllPermutation` | pgtricks/mergesort.py:68-74 | `heapq.merge` loses and invents no line of its runs |
| `Sorting.MergeAllSorted` | pgtricks/mergesort.py:68-74 | merging runs that are each sorted gives a sorted sequence |
| `Sorting.MergeAllStable` | pgtricks/mergesort.py:68-74 | the merge keeps the lines of every key in the order of the runs' concatenation |
| `Sorting.MergeSortedChunks` | pgtricks/mergesort.py:62-74 | merging the sorted chunks gives what sorting all of them at once gives |
| `MergeSorting.Spill` | pgtricks/mergesort.py:50-56 | spilling a non-empty buffer adds one partition, the sorted buffer, and every appended line is still in exactly one place |
| `MergeSorting.Buffered` | pgtricks/mergesort.py:42-45 | appending to the buffer keeps every line in one place and adds the line's size to the counted sizes |
| `MergeSorting.MergedPartitions` | pgtricks/mergesort.py:62-74 | once the buffer is spilled, merging the partitions gives `sorted` of every appended line |
| `MergeSorting.SelectRun` | pgtricks/mergesort.py:68-74 | the loop over the runs picks the run the merge's choice function names |
| `MergeSorting.MergeSort.constructor` | pgtricks/mergesort.py:20-35 | a new object has no partition, an empty buffer, iteration not started, and the counter equal to the size of the empty list |
| `MergeSorting.MergeSort.Append` | pgtricks/mergesort.py:37-47 | after iteration has started, `append` fails with `ValueError` and changes nothing. Otherwise the counter grows by the list's growth and the line's size, and reaching the ceiling spills the buffer with the line as one sorted partition |
| `MergeSorting.MergeSort.Flush` | pgtricks/mergesort.py:49-57 | a non-empty buffer becomes one new partition, sorted, and earlier partitions are unchanged. An empty buffer adds none. The buffer is emptied and the counter reset |
| `MergeSorting.MergeSort.Start` | pgtricks/mergesort.py:61-77 | with no partition, the buffer is sorted in memory and no partition is created; otherwise the buffer is spilled too and the partitions are merged. The lines still to come are unchanged |
| `MergeSorting.MergeSort.Next` | pgtricks/mergesort.py:59-78 | each `__next__` yields the first of the lines still to come (which start as `sorted` of all appended lines) and removes it, or signals the end |
| `MergeSorting.MergeSort.Take` | pgtricks/mergesort.py:78 | `next` on the running iterator yields and removes the first remaining line |
| `MergeSorting.MergeSort.Drain` | pgtricks/mergesort.py:59-82 | iterating to the end yields every remaining line; from a fresh object that is `sorted` of every appended line. On the spill path this is the source's output when every line ends in its only `"\n"` (`PartitionFiles.ReadBackWritten`) |
| `MergeSorting.Collect` | pgtricks/mergesort.py:37-47 | appending each line leaves a valid object, not yet iterating, that holds exactly those lines |
| `MergeSorting.SortLines` | pgtricks/mergesort.py:37-82 | appending lines and iterating returns `sorted(lines, key)`: key-ordered and a permutation of the input, whatever the ceiling and the sizes. On the spill path this holds for lines that each end in their only `"\n"` |
| `PartitionFiles.ReadBackWritten` | pgtricks/mergesort.py:53-70 | a partition of lines that each end in `"\n"` and hold no other reads back from its file as exactly the lines written |
| `PartitionFiles.UnterminatedJoin` | pgtricks/mergesort.py:53-70 | lines without a final `"\n"` run together: the partition `a`, `b` reads back as the single line `ab` |
| `PartitionFiles.InnerNewlineSplits` | pgtricks/mergesort.py:53-70 | a line with an inner `"\n"` reads back as two lines |
| `MergeSortScenario.StrLeTotal` | pgtricks/mergesort.py:22 | the default key `str` orders lines by a total preorder |
| `MergeSortScenario.AppendThree` | pgtricks/tests/test_mergesort.py:17-48 | with a 174-byte ceiling and 64-bit CPython sizes, lines `1`, `2`, `3` leave one partition `1,2` and the buffer `3`; a flush then adds the partition `3` |
| `PyStr.StrCmpProperties` | pgtricks/pg_dump_splitsort.py:35 | string comparison gives 0 exactly on equal strings and is negated by swapping |
| `PyFloat.ParseRender` | pgtricks/pg_dump_splitsort.py:24 | `float` reads back every printed finite decimal, sign and exponent included |
| `PyFloat.FloatCmpProperties` | pgtricks/pg_dump_splitsort.py:33 | `(v1 > v2) - (v1 < v2)` is 0 on equal operands (NaN included) and negated by swapping |
| `PyFloat.UnsignedInteger` | pgtricks/pg_dump_splitsort.py:24 | `float` of a run of digits is the integer they denote |
| `PyFloat.SignedDecimal` | pgtricks/pg_dump_splitsort.py:24 | `float` of a minus sign and a literal is the literal's value negated |
| `DumpSplitSort.TryFloatFilter` | pgtricks/pg_dump_splitsort.py:19-24 | `try_float` raises when a field is empty or starts outside `0123456789.-`. Otherwise it raises exactly when `float` rejects a field, and it returns both parsed values |
| `DumpSplitSort.LineComp` | pgtricks/pg_dump_splitsort.py:27-38 | `linecomp` returns only -1, 0 or 1; what the float branch returns is stated by `DumpSplitSortNumbers.NumericFields` and the rows after it |
| `DumpSplitSort.JoinFields` | pgtricks/pg_dump_splitsort.py:28-29 | splitting a line at every tab and joining the fields with tabs gives the line back |
| `DumpSplitSort.FieldsJoin` | pgtricks/pg_dump_splitsort.py:28-29 | joining tab-free fields and splitting again gives the fields back |
| `DumpSplitSort.LineCompByFields` | pgtricks/pg_dump_splitsort.py:27-38 | `linecomp` is the lexicographic order of the lines' field lists, in which a line that runs out of fields ties |
| `DumpSplitSort.HeadCmpProperties` | pgtricks/pg_dump_splitsort.py:31-35 | a head compares 0 to itself, and swapping two heads negates their comparison, whether read as floats or as strings |
| `DumpSplitSort.Reflexive` | pgtricks/pg_dump_splitsort.py:27-38 | identical lines compare 0 |
| `DumpSplitSort.Antisymmetric` | pgtricks/pg_dump_splitsort.py:27-38 | swapping two lines negates the result |
| `DumpSplitSort.SeparatorNotAFloat` | pgtricks/pg_dump_splitsort.py:24 | `float` strips less than `str.strip`: the separator U+001C is stripped by `strip` but makes `float("5\x1c")` raise |
| `DumpSplitSort.SeparatorCase` | pgtricks/pg_dump_splitsort.py:27-38 | so `linecomp("5\x1c", "10")` falls back to string order and gives 1 |
| `DumpSplitSort.ExtraFieldsTie` | pgtricks/pg_dump_splitsort.py:36-38 | tails are compared only when both lines have one, so a line ties with itself followed by more fields |
| `DumpSplitSort.TwoFields` | pgtricks/pg_dump_splitsort.py:36-38 | for two lines with tabs, the heads decide unless they compare 0, and then the tails do |
| `DumpSplitSort.NullSortsAfter` | pgtricks/pg_dump_splitsort.py:21-35 | `\N`, alone or before a tab, is compared as a string and sorts after the empty line and every line starting below a backslash |
| `DumpSplitSort.StringFields` | pgtricks/pg_dump_splitsort.py:21-35 | single fields that do not both start like a number compare as strings |
| `DumpSplitSort.StringCase` | pgtricks/pg_dump_splitsort.py:35 | two such fields in string order give -1, and 1 when swapped |
| `DumpSplitSort.WordCases` | pgtricks/tests/test_pg_dump_splitsort.py:72-73 | `a < b` and `b > a` |
| `DumpSplitSort.NumberWordCases` | pgtricks/tests/test_pg_dump_splitsort.py:89-90 | `0 < foo` and `foo > 0`: the word is compared as a string |
| `DumpSplitSort.EmptyCases` | pgtricks/tests/test_pg_dump_splitsort.py:91-92 | the empty line is below `42` |
| `DumpSplitSortNumbers.NumericFields` | pgtricks/pg_dump_splitsort.py:19-33 | two single fields that both start like a number and both read as floats compare as `(v1 > v2) - (v1 < v2)` on their values |
| `DumpSplitSortNumbers.FiniteCmp` | pgtricks/pg_dump_splitsort.py:33 | two finite values compare by the sign of their exact difference, counted in units of any power of ten dividing both |
| `DumpSplitSortNumbers.RenderedOrder` | pgtricks/pg_dump_splitsort.py:19-33 | two printed finite decimals compare by the sign of the exact difference of their values |
| `DumpSplitSortNumbers.UnsignedField` | pgtricks/pg_dump_splitsort.py:21-24 | a run of ASCII digits is a single field that passes the filter and reads as the integer it denotes |
| `DumpSplitSortNumbers.NumericValues` | pgtricks/pg_dump_splitsort.py:19-33 | two single fields that start like a number and read as the floats `v1` and `v2` compare as `v1` and `v2` do |
| `DumpSplitSortNumbers.IntegerFields` | pgtricks/pg_dump_splitsort.py:19-33 | fields of ASCII digits compare by the sign of the difference of the integers they denote, so `19 > 2` and `2 < 10` although the texts order the other way |
| `DumpSplitSortNumbers.PointField` | pgtricks/pg_dump_splitsort.py:21-24 | ASCII digits around one point form a single field that passes the filter and reads as the digits scaled down by the number of digits after the point |
| `DumpSplitSortNumbers.MinusOneCase` | pgtricks/tests/test_pg_dump_splitsort.py:76 | `0 > -1` |
| `DumpSplitSortNumbers.MinusOneSwapped` | pgtricks/tests/test_pg_dump_splitsort.py:77 | `-1 < 0` |
| `DumpSplitSortNumbers.ZeroOneCase` | pgtricks/tests/test_pg_dump_splitsort.py:74 | `0 < 1` |
| `DumpSplitSortNumbers.OneZeroCase` | pgtricks/tests/test_pg_dump_splitsort.py:75 | `1 > 0` |
| `DumpSplitSortNumbers.HundredthsCase` | pgtricks/tests/test_pg_dump_splitsort.py:80 | `0.42 > 0.042` |
| `DumpSplitSortNumbers.TenthsCase` | pgtricks/tests/test_pg_dump_splitsort.py:81 | `4.2 < 42.0`, although the text is larger at its second character |
| `DumpSplitSortNumbers.NegativePointCase` | pgtricks/tests/test_pg_dump_splitsort.py:82 | `-.42 < .42` |
| `DumpSplitSortNumbers.PositivePointCase` | pgtricks/tests/test_pg_dump_splitsort.py:83 | `.42 > -.42` |
| `DumpSplitSortNumbers.SecondFieldCase` | pgtricks/tests/test_pg_dump_splitsort.py:87 | `foo\t0.42 < foo\t4.2`: equal heads, then the second fields by value |
| `DumpSplitSortNumbers.EqualValueCase` | pgtricks/tests/test_pg_dump_splitsort.py:93 | `42 == 42.0`: equal values tie although the texts differ |
| `DumpSplitSort.NoFloatBefore` | pgtricks/pg_dump_splitsort.py:31-35 | single fields of which one is no float compare in string order |
| `DumpSplitSort.NotTransitive` | pgtricks/pg_dump_splitsort.py:109 | the order `cmp_to_key(linecomp)` hands to the sort is not transitive: `10 < 1a`, `1a < 2` and `2 < 10` |
| `DumpSplitSort.UnitAt` | pgtricks/pg_dump_splitsort.py:15-16 | the unit factor is one of 1, 2^10, 2^20 and 2^30 |
| `DumpSplitSort.MemorySizeRejects` | pgtricks/pg_dump_splitsort.py:136-139 | `memory_size` raises unless the lower-cased, stripped text starts with a digit, `.` or `_` |
| `DumpSplitSort.SizeWithUnit` | pgtricks/pg_dump_splitsort.py:136-140 | digits followed by `k`, `m` or `g` give the number times that unit's factor |
| `DumpSplitSort.SizeWithoutUnit` | pgtricks/pg_dump_splitsort.py:136-140 | digits followed by no numeral, space or unit character give the number of bytes |
| `DumpSplitSort.MemorySizeShowNat` | pgtricks/pg_dump_splitsort.py:128-140 | reading back a printed byte count gives the count |
| `DumpSplitSort.MemorySizeUnit` | pgtricks/pg_dump_splitsort.py:128-140 | a printed count followed by a unit letter in either case and then any text gives that many units |
| `DumpSplitting.Pad4` | pgtricks/pg_dump_splitsort.py:103 | the counter is printed in decimal with at least four digits and reads back as the counter |
| `DumpSplitting.Step` | pgtricks/pg_dump_splitsort.py:93-124 | after every line the current output is one of the files created |
| `DumpSplitting.Outside` | pgtricks/pg_dump_splitsort.py:94-117 | one pass on a line outside a block updates the files, output, held lines and counter as the step function does, and reports a `COPY` header |
| `DumpSplitting.TerminatorStep` | pgtricks/pg_dump_splitsort.py:118-122 | the terminator writes the held lines, the sorted rows and itself to the current file and ends the block |
| `DumpSplitting.Feed` | pgtricks/pg_dump_splitsort.py:93-124 | one pass of the loop with a live `MergeSort` keeps the variables equal to one step of the specification, and keeps the sorter holding the block's rows exactly when inside a block |
| `DumpSplitting.SplitSqlFile` | pgtricks/pg_dump_splitsort.py:61-125 | the files written are the step function folded over the dump's lines, with the held lines flushed at the end |
| `DumpSplittingProperties.NumberOf` | pgtricks/pg_dump_splitsort.py:103 | a numbered file name starts with its number |
| `DumpSplittingProperties.PrologueNumber` | pgtricks/pg_dump_splitsort.py:90 | the prologue's name carries the number 0 |
| `DumpSplittingProperties.WriteStep` | pgtricks/pg_dump_splitsort.py:78-81 | `writelines` appends the held lines and the given lines to the text read back from the files |
| `DumpSplittingProperties.OpenStep` | pgtricks/pg_dump_splitsort.py:83-86 | opening a file with a larger number adds an empty file and keeps the state consistent |
| `DumpSplittingProperties.NewName` | pgtricks/pg_dump_splitsort.py:101-116 | a name numbered above the counter is not among the files opened |
| `DumpSplittingProperties.TableStep` | pgtricks/pg_dump_splitsort.py:100-106 | a data comment switches to a new file, and the state stays consistent with the dump read so far |
| `DumpSplittingProperties.EpilogueStep` | pgtricks/pg_dump_splitsort.py:114-116 | the first unrecognised line after a table switches to a new file, the epilogue, keeping the state consistent |
| `DumpSplittingProperties.StayStep` | pgtricks/pg_dump_splitsort.py:107-117 | a line that opens nothing is written to the current file, keeping the state consistent |
| `DumpSplittingProperties.BlockStep` | pgtricks/pg_dump_splitsort.py:118-124 | the terminator puts the block's sorted rows back, keeping the state consistent |
| `DumpSplittingProperties.StepConsistent` | pgtricks/pg_dump_splitsort.py:93-124 | any line keeps the state consistent with the files opened and the dump read so far |
| `DumpSplittingProperties.InitialConsistent` | pgtricks/pg_dump_splitsort.py:88-90 | before the first line only the prologue is open and empty |
| `DumpSplittingProperties.RunConsistent` | pgtricks/pg_dump_splitsort.py:93-124 | after any prefix of the dump, the last file opened is the output, the files are exactly those opened, their numbers increase, and their contents followed by the held lines are the dump so far |
| `DumpSplittingProperties.SplitKeepsDump` | pgtricks/pg_dump_splitsort.py:61-125 | the files are exactly the opened ones, the prologue first, numbered in increasing order. Read in that order they give every line of the dump once and in place, except that the rows of each complete `COPY` block come sorted |
| `DumpSplittingProperties.OpenedFirst` | pgtricks/pg_dump_splitsort.py:90 | the first file opened is `0000_prologue.sql` |
| `DumpSplittingProperties.OpenedOnce` | pgtricks/pg_dump_splitsort.py:100-116 | no file is opened twice, so the epilogue is opened at most once and no file is truncated |
| `DumpSplittingProperties.PrologueRun` | pgtricks/pg_dump_splitsort.py:90-117 | without a data comment the counter stays 0 and the prologue stays the only file and the output |
| `DumpSplittingProperties.PrologueOnly` | pgtricks/pg_dump_splitsort.py:90-125 | without a data comment the prologue alone holds the whole dump, blocks sorted |
| `DumpSplittingProperties.DataCommentOpens` | pgtricks/pg_dump_splitsort.py:100-106 | a data comment creates `{counter+1:04}_{schema}.{table}.sql`, which did not exist, and writes the held lines and the comment to it; no other file changes |
| `DumpSplittingProperties.EpilogueOpens` | pgtricks/pg_dump_splitsort.py:114-117 | the first unrecognised line after a table creates `9999_epilogue.sql`, which did not exist, and writes the held lines and the line to it. The counter becomes 9999 |
| `DumpSplittingProperties.CopyBlock` | pgtricks/pg_dump_splitsort.py:107-124 | a `COPY` block writes, after the held lines, the header, the rows sorted and the terminator to the current file, and nothing else changes |
| `DumpSplittingProperties.HeaderStep` | pgtricks/pg_dump_splitsort.py:107-117 | a `COPY` header is written after the held lines and starts collecting rows |
| `DumpSplittingProperties.Collected` | pgtricks/pg_dump_splitsort.py:123-124 | inside a block, the rows are only collected: no file changes |
| `DumpSplittingProperties.RunSnoc` | pgtricks/pg_dump_splitsort.py:93 | the state after one more line is one more step of the loop |

## Left out

- File I/O is not modelled. Each output file is a sequence of lines in a
  map from names to contents. `open`, `close`, `os.path.join`, the
  directory argument and the input file's iteration are not modelled:
  `split_sql_file` receives the dump as a sequence of lines.
- `TemporaryFile`, `seek`/`tell`, UTF-8 encoding and decoding, and the
  `directory` argument of `MergeSort` are not modelled: a partition is the
  sequence of its lines. What a partition file reads back as is modelled
  apart, on characters (`PartitionFiles`); UTF-8 encodes no character but
  `"\n"` itself with the byte of `"\n"`.
- `sys.getsizeof` (and PyPy's `len`) are parameters `lineSize`/`listSize`.
  The 174-byte scenario instantiates them with 64-bit CPython's sizes for
  ASCII strings and appended lists.
- The regular expressions `COPY_RE`, `DATA_COMMENT_RE`, `SEQUENCE_SET_RE`
  and the `Matcher` class are not modelled: they are the three fields of
  `Patterns`, whose results the model takes as given.
- `heapq.merge` is written as a simple k-way merge that takes from the
  first run with the least head (`Sorting.MergeAll`). The heap itself is
  not modelled.
- DumpSplitting.SplitSqlFile: it takes the key order `le` as a parameter
  and requires it to be a total preorder. The tool passes
  `cmp_to_key(linecomp)`, which is not one (`DumpSplitSort.NotTransitive`),
  so Python's `sorted` and `heapq.merge` promise no particular order on
  such rows. The model proves the split for every total preorder.
- MergeSorting.SortLines: a spilled partition is the sequence of its
  lines, so the output is `sorted(lines, key)` whatever the lines hold. The source writes a partition with no separator and
  reads it back cut after every `"\n"`. Once a partition spills, its output
  equals `sorted(lines, key)` only when every line ends in `"\n"` and holds
  no other (`PartitionFiles.ReadBackWritten`); otherwise lines run together
  or split (`PartitionFiles.UnterminatedJoin`,
  `PartitionFiles.InnerNewlineSplits`). The rows `split_sql_file` feeds
  are lines of a text file that another line follows, so they qualify.
- MergeSorting.MergeSort.Drain: the same holds for iterating to the end
  from a fresh object, which is what `SortLines` does.
- PyFloat.Parse: only ASCII digits and ASCII case mapping are modelled.
  CPython's `float` accepts every Unicode decimal digit (`linecomp("1٣", "2")` is 1 there
  and -1 here), `re`'s `\d` matches them too (`memory_size("١k")` is 1024
  there and an error here), and `str.lower` maps non-ASCII letters such
  as the Kelvin sign to `k`. The tool compares `pg_dump` rows, whose
  numeric columns are printed in ASCII.
- DumpSplitSort.LineComp: it reads fields through `PyFloat.Parse`, so a
  field with non-ASCII digits falls back to string order here.
- DumpSplitSort.MemorySize: its `[\d._]` run and its lower-casing are
  ASCII only, as above.
- Python `float` is modelled as an exact decimal (`PyFloat.Float`), with
  infinities and NaN. Rounding to doubles is not modelled, so two numerals
  that round to the same double compare unequal here.
- DumpSplitSort.MemorySizeUnit: like the other `memory_size` lemmas, it
  is stated for integer counts. Fractional counts (`1.5M`) go through the
  same exact-decimal `float` and truncation, but no lemma states their
  values.
- `writelines(line)` on the terminator writes a string character by
  character. The model writes it as one line, which gives the same file
  text.
- `__iter__` returning `self` is not a separate member: iterating to the
  end is `MergeSort.Drain`.
- The rows of a `COPY` block that the dump never terminates stay in the
  sorter and are not written, as in the code.
- File names are compared by their leading numbers (`0000`, `0001`, …,
  `9999`), which is the order the files are opened in. The model does not
  state that this is also their order as strings.
- The argparse `main` is not modelled.
- `pgtricks/pg_dump_splitsort_py2.py`, the root `pg_dump_splitsort.py`,
  `pgtricks/pg_incremental_backup.py`, `pgtricks/pg_split_schema_dump.py`
  and `setup.py` are not part of this model.
- The test at `pgtricks/tests/test_mergesort.py:100-106` expects descending
  output from the default key `str`, which sorts ascending. The test at
  `pgtricks/tests/test_mergesort.py:74-96` expects `10` last under the same
  key, which puts `10\n` right after `1\n`. Neither is encoded; the model
  proves the code's ascending string order.

## Findings

| source | as written | input that shows it | evidently intended | confidence | as-written member | corrected member |
|---|---|---|---|---|---|---|
| src/lib.rs:92-100 | when one line ends inside a digit run, a difference decided by an earlier digit wins over the other line's extra digits | `linecomp("19", "2")` is `Less`, and `19 < 2 < 2\tx < 19` | more remaining digits means larger (rule 7), so `19 > 2` | not executed | `FastLineCompFindings.ShorterRunWins` | `FastLineCompFixed.NumericOrder` |
| src/lib.rs:92-94 | the decided comparison is returned without being read through `l1_larger` | `linecomp("-19", "-2")` and `linecomp("-2", "-19")` are both `Less` | after two minus signs the comparison is inverted (rule 2), so `-19 < -2` and `-2 > -19` | not executed | `FastLineCompFindings.NegativeEndOfLine` | `FastLineCompFixed.Antisymmetric` |
