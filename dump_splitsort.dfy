/// The comparator `pg_dump_splitsort` sorts `COPY` rows with, and its parser
/// of human-readable memory sizes.
module DumpSplitSort {
  import opened Wrappers
  import opened DigitStrings
  import opened PyStr
  import opened PyFloat

  /// The first-character filter of `try_float`: only a field that starts with
  /// a digit, a point or a minus sign is handed to `float`.
  predicate NumericStart(s: string)
  {
    s != [] && s[0] in "0123456789.-"
  }

  /// `try_float(s1, s2)`: both fields as floats, or `None` where it raises
  /// `ValueError` (the filter rejects a field, or `float` does).
  function TryFloat(s1: string, s2: string): (r: Option<(Float, Float)>)
  {
    if !NumericStart(s1) || !NumericStart(s2) then None
    else match (Parse(s1), Parse(s2))
      case (Some(v1), Some(v2)) => Some((v1, v2))
      case _ => None
  }

  /// `try_float` raises whenever a field is empty or starts with a character
  /// outside `0123456789.-`, and otherwise exactly when `float` rejects one.
  lemma TryFloatFilter(s1: string, s2: string)
    ensures (s1 == [] || s2 == [] || s1[0] !in "0123456789.-" || s2[0] !in "0123456789.-")
      ==> TryFloat(s1, s2).None?
    ensures TryFloat(s1, s2).Some?
      <==> NumericStart(s1) && NumericStart(s2) && Parse(s1).Some? && Parse(s2).Some?
    ensures TryFloat(s1, s2).Some? ==> TryFloat(s1, s2).value == (Parse(s1).value, Parse(s2).value)
  {
  }

  /// The comparison of two leading fields: numeric when both convert,
  /// `(p1 > p2) - (p1 < p2)` on the strings otherwise.
  function HeadCmp(h1: string, h2: string): (r: int)
  {
    match TryFloat(h1, h2)
    case Some((v1, v2)) => FloatCmp(v1, v2)
    case None => StrCmp(h1, h2)
  }

  /// `linecomp(l1, l2)`: the leading fields decide unless they compare equal
  /// and both lines go on after a tab, in which case the rests are compared.
  function LineComp(l1: string, l2: string): (r: int)
    ensures -1 <= r <= 1
    decreases |l1|
  {
    var (h1, t1) := SplitTab(l1);
    var (h2, t2) := SplitTab(l2);
    var result := HeadCmp(h1, h2);
    if result == 0 && t1.Some? && t2.Some? then LineComp(t1.value, t2.value) else result
  }

  /// `l.split('\t')`: the fields of a line.
  function Fields(l: string): (fs: seq<string>)
    ensures |fs| >= 1 && forall k | 0 <= k < |fs| :: '\t' !in fs[k]
    decreases |l|
  {
    var (h, t) := SplitTab(l);
    if t.None? then [h] else [h] + Fields(t.value)
  }

  /// `'\t'.join(fs)`.
  function Join(fs: seq<string>): (l: string)
    requires |fs| >= 1
  {
    if |fs| == 1 then fs[0] else fs[0] + ['\t'] + Join(fs[1..])
  }

  /// Splitting at every tab and joining with tabs gives the line back.
  lemma {:induction false} JoinFields(l: string)
    ensures Join(Fields(l)) == l
    decreases |l|
  {
    var (h, t) := SplitTab(l);
    if t.Some? {
      JoinFields(t.value);
      assert Fields(l)[1..] == Fields(t.value);
    }
  }

  /// Joining tab-free fields and splitting again gives the fields back.
  lemma {:induction false} FieldsJoin(fs: seq<string>)
    requires |fs| >= 1 && forall k | 0 <= k < |fs| :: '\t' !in fs[k]
    ensures Fields(Join(fs)) == fs
  {
    if |fs| > 1 {
      FieldsJoin(fs[1..]);
      HeadBeforeTab(fs[0], Join(fs[1..]));
      assert fs == [fs[0]] + fs[1..];
    } else {
      NoTabSplit(fs[0]);
    }
  }

  lemma {:induction false} NoTabSplit(s: string)
    requires '\t' !in s
    ensures SplitTab(s) == (s, None)
  {
    if s != [] {
      NoTabSplit(s[1..]);
      assert s == [s[0]] + s[1..];
    }
  }

  lemma {:induction false} HeadBeforeTab(h: string, t: string)
    requires '\t' !in h
    ensures SplitTab(h + ['\t'] + t) == (h, Some(t))
  {
    var s := h + ['\t'] + t;
    if h == [] {
      assert s[1..] == t;
    } else {
      HeadBeforeTab(h[1..], t);
      assert s[1..] == h[1..] + ['\t'] + t;
      assert h == [h[0]] + h[1..];
    }
  }

  /// The reference order: field lists compared lexicographically by
  /// `HeadCmp`, where running out of fields on either side is a tie.
  function FieldsCmp(f1: seq<string>, f2: seq<string>): (r: int)
    requires |f1| >= 1 && |f2| >= 1
    decreases |f1|
  {
    var result := HeadCmp(f1[0], f2[0]);
    if result == 0 && |f1| > 1 && |f2| > 1 then FieldsCmp(f1[1..], f2[1..]) else result
  }

  /// `linecomp` is the field-list order on the lines' fields.
  lemma {:induction false} LineCompByFields(l1: string, l2: string)
    ensures LineComp(l1, l2) == FieldsCmp(Fields(l1), Fields(l2))
    decreases |l1|
  {
    var (h1, t1) := SplitTab(l1);
    var (h2, t2) := SplitTab(l2);
    if HeadCmp(h1, h2) == 0 && t1.Some? && t2.Some? {
      LineCompByFields(t1.value, t2.value);
      assert Fields(l1)[1..] == Fields(t1.value);
      assert Fields(l2)[1..] == Fields(t2.value);
    }
  }

  lemma TryFloatSwap(s1: string, s2: string)
    ensures TryFloat(s2, s1) == (if TryFloat(s1, s2).Some?
      then Some((TryFloat(s1, s2).value.1, TryFloat(s1, s2).value.0)) else None)
  {
  }

  /// Each field compares equal to itself and swapping two fields negates
  /// their comparison, whether they are read as floats or as strings.
  lemma HeadCmpProperties(h1: string, h2: string)
    ensures HeadCmp(h1, h1) == 0
    ensures HeadCmp(h2, h1) == -HeadCmp(h1, h2)
  {
    TryFloatSwap(h1, h2);
    StrCmpProperties(h1, h2);
    match TryFloat(h1, h1)
    case Some((v1, v2)) => FloatCmpProperties(v1, v2);
    case None =>
    match TryFloat(h1, h2)
    case Some((v1, v2)) => FloatCmpProperties(v1, v2);
    case None =>
  }

  /// Identical lines compare equal (NaN fields included).
  lemma {:induction false} Reflexive(l: string)
    ensures LineComp(l, l) == 0
    decreases |l|
  {
    var (h, t) := SplitTab(l);
    HeadCmpProperties(h, h);
    if t.Some? {
      Reflexive(t.value);
    }
  }

  /// Swapping the lines negates the result.
  lemma {:induction false} Antisymmetric(l1: string, l2: string)
    ensures LineComp(l2, l1) == -LineComp(l1, l2)
    decreases |l1|
  {
    var (h1, t1) := SplitTab(l1);
    var (h2, t2) := SplitTab(l2);
    HeadCmpProperties(h1, h2);
    if HeadCmp(h1, h2) == 0 && t1.Some? && t2.Some? {
      Antisymmetric(t1.value, t2.value);
    }
  }

  /// A line ties with itself followed by more fields: fields beyond the end
  /// of the shorter line are never looked at.
  lemma {:induction false} ExtraFieldsTie(l: string, rest: string)
    ensures LineComp(l, l + ['\t'] + rest) == 0
    decreases |l|
  {
    var (h, t) := SplitTab(l);
    HeadCmpProperties(h, h);
    ExtendedSplit(l, rest);
    if t.Some? {
      ExtraFieldsTie(t.value, rest);
    }
  }

  /// Appending a tab and more text keeps the first field and extends the rest.
  lemma ExtendedSplit(l: string, rest: string)
    ensures var (h, t) := SplitTab(l);
      SplitTab(l + ['\t'] + rest)
        == (h, Some(if t.Some? then t.value + ['\t'] + rest else rest))
  {
    var (h, t) := SplitTab(l);
    if t.None? {
      HeadBeforeTab(l, rest);
    } else {
      assert l + ['\t'] + rest == h + ['\t'] + (t.value + ['\t'] + rest);
      HeadBeforeTab(h, t.value + ['\t'] + rest);
    }
  }

  /// The null marker `\N` is not numeric, so it is compared as a string: it
  /// sorts after every line whose first character comes before a backslash
  /// (digits, `-`, `.`, capitals, a tab) and after the empty line.
  lemma NullSortsAfter(l: string, t: string)
    requires l == [] || l[0] < '\\'
    requires t == [] || t[0] == '\t'
    ensures LineComp(l, "\\N" + t) == -1 && LineComp("\\N" + t, l) == 1
  {
    var n := "\\N" + t;
    NullHead(t);
    var h := SplitTab(l).0;
    FirstOfHead(l);
    NullHeadCmp(h);
    Antisymmetric(l, n);
  }

  /// The first field of `\N` followed by nothing or by a tab is `\N`.
  lemma NullHead(t: string)
    requires t == [] || t[0] == '\t'
    ensures SplitTab("\\N" + t).0 == "\\N"
  {
    if t == [] {
      NoTabSplit("\\N");
    } else {
      assert "\\N" + t == "\\N" + ['\t'] + t[1..];
      HeadBeforeTab("\\N", t[1..]);
    }
  }

  lemma FirstOfHead(l: string)
    ensures SplitTab(l).0 == [] || SplitTab(l).0[0] == l[0]
  {
  }

  lemma NullHeadCmp(h: string)
    requires h == [] || h[0] < '\\'
    ensures HeadCmp(h, "\\N") == -1
  {
    assert TryFloat(h, "\\N").None?;
    assert StrLess(h, "\\N");
    StrTrichotomy(h, "\\N");
  }

  /// A single field that does not start like a number is compared with the
  /// other one as a string.
  lemma StringFields(l1: string, l2: string)
    requires '\t' !in l1 && '\t' !in l2 && (!NumericStart(l1) || !NumericStart(l2))
    ensures LineComp(l1, l2) == StrCmp(l1, l2)
  {
    NoTabSplit(l1);
    NoTabSplit(l2);
  }

  /// Two single fields, not both starting like a number, in string order.
  lemma StringCase(l1: string, l2: string)
    requires '\t' !in l1 && '\t' !in l2 && (!NumericStart(l1) || !NumericStart(l2))
    requires StrLess(l1, l2)
    ensures LineComp(l1, l2) == -1 && LineComp(l2, l1) == 1
  {
    StringFields(l1, l2);
    StringFields(l2, l1);
    StrTrichotomy(l1, l2);
  }

  /// Cases of the `linecomp` tests whose fields are not both floats: two
  /// words, a number against a word, and a number against the empty line.
  lemma WordCases()
    ensures LineComp("a", "b") == -1 && LineComp("b", "a") == 1
  {
    StringCase("a", "b");
  }

  lemma NumberWordCases()
    ensures LineComp("0", "foo") == -1 && LineComp("foo", "0") == 1
  {
    StringCase("0", "foo");
  }

  lemma EmptyCases()
    ensures LineComp("", "42") == -1 && LineComp("42", "") == 1
  {
    StringCase("", "42");
  }

  /// Two lines of two fields each: the heads decide unless they tie.
  lemma TwoFields(h1: string, t1: string, h2: string, t2: string)
    requires '\t' !in h1 && '\t' !in h2
    ensures LineComp(h1 + ['\t'] + t1, h2 + ['\t'] + t2)
      == if HeadCmp(h1, h2) == 0 then LineComp(t1, t2) else HeadCmp(h1, h2)
  {
    HeadBeforeTab(h1, t1);
    HeadBeforeTab(h2, t2);
  }

  /// `linecomp` is not transitive: `1a` is no float, so `10 < 1a` and
  /// `1a < 2` as strings, while `2 < 10` as floats. The key order that
  /// `cmp_to_key(linecomp)` gives `sorted` is therefore no total preorder.
  lemma NotTransitive()
    ensures LineComp("10", "1a") == -1 && LineComp("1a", "2") == -1
    ensures LineComp("2", "10") == -1
  {
    NotAFloat();
    NoFloatBefore("10", "1a");
    NoFloatBefore("1a", "2");
    TwoBeforeTen();
  }

  /// Single fields of which one is no float compare as strings.
  lemma NoFloatBefore(l1: string, l2: string)
    requires '\t' !in l1 && '\t' !in l2 && (Parse(l1).None? || Parse(l2).None?)
    requires StrLess(l1, l2)
    ensures LineComp(l1, l2) == -1
  {
    NoTabSplit(l1);
    NoTabSplit(l2);
    StrTrichotomy(l1, l2);
    assert TryFloat(l1, l2) == None;
  }

  lemma TwoBeforeTen()
    ensures LineComp("2", "10") == -1
  {
    Two();
    Ten();
    assert TryFloat("2", "10") == Some((Finite(2, 0), Finite(10, 0)));
    assert HeadCmp("2", "10") == -1;
  }

  lemma NotAFloat()
    ensures Parse("1a") == None && SplitTab("1a") == ("1a", None)
  {
    NoTabSplit("1a");
    StripUnspaced("1a", FloatBlanks);
    assert DigitPartEnd("1a", 0) == 1;
    assert ParseDecimal("1a") == None;
    NotAWord("1a");
  }

  /// `float` does not skip the separators U+001C..U+001F that `str.strip`
  /// removes: `float("5\x1c")` raises.
  lemma SeparatorNotAFloat()
    ensures Strip("5\U{1C}", StrBlanks) == "5"
    ensures Parse("5\U{1C}") == None
  {
    SeparatorStripped();
    SeparatorKept();
  }

  lemma SeparatorStripped()
    ensures Strip("5\U{1C}", StrBlanks) == "5"
  {
    var s := "5\U{1C}";
    assert SkipSpaces(s, 0, StrBlanks) == 0;
    assert TrimmedLength(s, StrBlanks) == 1 by {
      assert s[..1] == "5";
    }
  }

  lemma SeparatorKept()
    ensures Parse("5\U{1C}") == None
  {
    var s := "5\U{1C}";
    StripUnspaced(s, FloatBlanks);
    assert DigitPartEnd(s, 0) == 1;
    assert ParseDecimal(s) == None;
    NotAWord(s);
  }

  /// So `linecomp` compares such a field as a string: `5\x1c` sorts after
  /// `10`, although 5 is below 10.
  lemma SeparatorCase()
    ensures LineComp("5\U{1C}", "10") == 1
  {
    SeparatorNotAFloat();
    NoTabSplit("5\U{1C}");
    NoTabSplit("10");
    assert StrLess("10", "5\U{1C}");
    NoFloatBefore("10", "5\U{1C}");
    Antisymmetric("10", "5\U{1C}");
  }

  lemma Floats()
    ensures Parse("2") == Some(Finite(2, 0)) && Parse("10") == Some(Finite(10, 0))
    ensures SplitTab("2") == ("2", None) && SplitTab("10") == ("10", None)
  {
    Two();
    Ten();
  }

  lemma Two()
    ensures Parse("2") == Some(Finite(2, 0)) && SplitTab("2") == ("2", None)
  {
    NoTabSplit("2");
    StripUnspaced("2", FloatBlanks);
    UnsignedInteger("2");
  }

  lemma Ten()
    ensures Parse("10") == Some(Finite(10, 0)) && SplitTab("10") == ("10", None)
  {
    NoTabSplit("10");
    StripUnspaced("10", FloatBlanks);
    UnsignedInteger("10");
    assert Value("10") == 10 by {
      assert "10"[..1] == "1";
    }
  }

  /// Bytes in a kibibyte, mebibyte and gibibyte.
  const KIBIBYTE: nat := 1024
  const MEBIBYTE: nat := 1024 * 1024
  const GIBIBYTE: nat := 1024 * 1024 * 1024

  /// The characters of `[\d._]`.
  predicate NumeralChar(c: char)
  {
    IsDigit(c) || c == '.' || c == '_'
  }

  /// End of the longest run of `[\d._]` starting at `i`.
  function NumeralEnd(t: string, i: nat): (j: nat)
    requires i <= |t|
    ensures i <= j <= |t| && (j < |t| ==> !NumeralChar(t[j]))
    ensures forall k | i <= k < j :: NumeralChar(t[k])
    decreases |t| - i
  {
    if i < |t| && NumeralChar(t[i]) then NumeralEnd(t, i + 1) else i
  }

  /// `MEMORY_UNITS` of the optional `[kmg]` at `i`.
  function UnitAt(t: string, i: nat): (f: nat)
    ensures f in {1, KIBIBYTE, MEBIBYTE, GIBIBYTE}
  {
    if i < |t| && t[i] == 'k' then KIBIBYTE
    else if i < |t| && t[i] == 'm' then MEBIBYTE
    else if i < |t| && t[i] == 'g' then GIBIBYTE
    else 1
  }

  /// `int(x)` of the exact value `x * 10^e`: truncation toward zero.
  function Truncate(x: int, e: int): int
  {
    if e >= 0 then x * Pow10(e)
    else if x >= 0 then x / Pow10(-e)
    else -((-x) / Pow10(-e))
  }

  /// `memory_size(size)`; `None` where it raises `ValueError`.
  function MemorySize(size: string): (r: Option<int>)
  {
    SizeOf(Strip(Lower(size), StrBlanks))
  }

  /// The pattern `([\d._]+)\s*([kmg]?)b?` matched at the start of the
  /// lower-cased, stripped text, the number converted with `float`, scaled by
  /// the unit and truncated.
  function SizeOf(t: string): (r: Option<int>)
  {
    var n := NumeralEnd(t, 0);
    if n == 0 then None
    else match Parse(t[..n])
      case Some(Finite(m, e)) => Some(Truncate(m * UnitAt(t, SkipSpaces(t, n, StrBlanks)), e))
      case _ => None
  }

  /// `memory_size` raises unless the lower-cased, stripped text starts with
  /// a digit, `.` or `_`.
  lemma MemorySizeRejects(size: string)
    ensures var t := Strip(Lower(size), StrBlanks);
      (t == [] || !NumeralChar(t[0])) ==> MemorySize(size).None?
  {
  }

  /// Digits, then the unit letter: the number of whole units.
  lemma SizeWithUnit(t: string, n: nat)
    requires 0 < n < |t| && forall k | 0 <= k < n :: IsDigit(t[k])
    requires t[n] == 'k' || t[n] == 'm' || t[n] == 'g'
    ensures SizeOf(t) == Some(Value(t[..n]) * UnitAt(t, n))
  {
    IntegerHead(t, n);
    assert !IsSpace(t[n]);
    assert SkipSpaces(t, n, StrBlanks) == n;
    var x := Value(t[..n]) * UnitAt(t, n);
    assert Truncate(x, 0) == x by {
      assert Pow10(0) == 1;
    }
  }

  /// Digits, then neither a numeral character nor whitespace nor a unit
  /// letter (or nothing): the number of bytes.
  lemma SizeWithoutUnit(t: string, n: nat)
    requires 0 < n <= |t| && forall k | 0 <= k < n :: IsDigit(t[k])
    requires n < |t| ==> !NumeralChar(t[n]) && !IsSpace(t[n]) && t[n] !in "kmg"
    ensures SizeOf(t) == Some(Value(t[..n]))
  {
    IntegerHead(t, n);
    assert SkipSpaces(t, n, StrBlanks) == n;
    assert UnitAt(t, n) == 1;
    assert Truncate(Value(t[..n]) * 1, 0) == Value(t[..n]) by {
      assert Pow10(0) == 1;
    }
  }

  lemma IntegerHead(t: string, n: nat)
    requires 0 < n <= |t| && forall k | 0 <= k < n :: IsDigit(t[k])
    requires n < |t| ==> !NumeralChar(t[n])
    ensures NumeralEnd(t, 0) == n
    ensures Parse(t[..n]) == Some(Finite(Value(t[..n]), 0))
  {
    NumeralRun(t, 0, n);
    var g := t[..n];
    assert AllDigits(g);
    UnsignedInteger(g);
    SignedDecimal(g, false, g, Value(g), 0);
  }

  lemma {:induction false} NumeralRun(t: string, i: nat, n: nat)
    requires i <= n <= |t| && forall k | i <= k < n :: NumeralChar(t[k])
    requires n < |t| ==> !NumeralChar(t[n])
    ensures NumeralEnd(t, i) == n
    decreases n - i
  {
    if i < n {
      NumeralRun(t, i + 1, n);
    }
  }

  /// Reading back a printed byte count gives the count.
  lemma MemorySizeShowNat(n: nat)
    ensures MemorySize(ShowNat(n)) == Some(n)
  {
    var d := ShowNat(n);
    LowerDigits(d);
    StripUnspaced(d, StrBlanks);
    SizeWithoutUnit(d, |d|);
    assert d[..|d|] == d;
    ValueShowNat(n);
  }

  /// A printed count followed by a unit letter in either case, and then any
  /// text: that many units.
  lemma MemorySizeUnit(n: nat, u: char, rest: string)
    requires u in "kmgKMG"
    ensures MemorySize(ShowNat(n) + [u] + rest) == Some(n * UnitAt([LowerChar(u)], 0))
  {
    var d := ShowNat(n);
    LowerUnit(u);
    UnitPrefix(d, u, rest);
    ValueShowNat(n);
    DigitsThenUnit(Strip(Lower(d + [u] + rest), StrBlanks), d, LowerChar(u));
  }

  /// The stripped, lower-cased text starts with the digits and the unit.
  lemma UnitPrefix(d: string, u: char, rest: string)
    requires AllDigits(d) && d != [] && u in "kmgKMG"
    ensures var t := Strip(Lower(d + [u] + rest), StrBlanks);
      |d| < |t| && t[..|d|] == d && t[|d|] == LowerChar(u)
  {
    var x := Lower(d + [u] + rest);
    LowerPrefix(d, u, rest);
    LowerUnit(u);
    var p := d + [LowerChar(u)];
    KeptPrefix(x, p);
    var t := Strip(x, StrBlanks);
    assert t[..|d|] == p[..|d|] == d;
    assert t[|d|] == p[|d|];
  }

  lemma DigitsThenUnit(t: string, d: string, c: char)
    requires AllDigits(d) && d != [] && |d| < |t| && t[..|d|] == d && t[|d|] == c && c in "kmg"
    ensures SizeOf(t) == Some(Value(d) * UnitAt([c], 0))
  {
    assert forall k | 0 <= k < |d| :: t[k] == d[k];
    SizeWithUnit(t, |d|);
  }

  lemma LowerUnit(u: char)
    requires u in "kmgKMG"
    ensures LowerChar(u) in "kmg" && !IsSpace(LowerChar(u))
  {
  }

  /// `strip` keeps a prefix that starts and ends with non-space characters.
  lemma KeptPrefix(x: string, p: string)
    requires p != [] && |p| <= |x| && x[..|p|] == p
    requires !IsSpace(p[0]) && !IsSpace(p[|p| - 1])
    ensures |p| <= |Strip(x, StrBlanks)| && Strip(x, StrBlanks)[..|p|] == p
  {
    assert x[0] == p[0] && x[|p| - 1] == p[|p| - 1];
    StripKeepsPrefix(x, |p| - 1);
  }

  lemma LowerPrefix(d: string, u: char, rest: string)
    requires AllDigits(d) && d != []
    ensures var x := Lower(d + [u] + rest);
      |d| < |x| && x[..|d| + 1] == d + [LowerChar(u)] && !IsSpace(x[0])
  {
    var size := d + [u] + rest;
    var x := Lower(size);
    forall k | 0 <= k < |d| ensures x[k] == d[k] {
      assert size[k] == d[k];
    }
    assert x[|d|] == LowerChar(size[|d|]);
  }

  lemma LowerDigits(d: string)
    requires AllDigits(d)
    ensures Lower(d) == d
  {
    assert forall k | 0 <= k < |d| :: Lower(d)[k] == d[k];
  }

  /// `strip` keeps everything up to a non-space character when the text
  /// starts with one.
  lemma StripKeepsPrefix(x: string, i: nat)
    requires i < |x| && !IsSpace(x[0]) && !IsSpace(x[i])
    ensures i < |Strip(x, StrBlanks)| && Strip(x, StrBlanks)[..i + 1] == x[..i + 1]
  {
    assert SkipSpaces(x, 0, StrBlanks) == 0;
    assert x[0..] == x;
    var n := TrimmedLength(x, StrBlanks);
    assert n > i;
  }
}
