/// The parts of Python's `str` that the split/sort tool relies on: whitespace
/// as `str.isspace` defines it, `strip`, ASCII `lower`, `split('\t', 1)`, and
/// the code-point order of string comparison.
module PyStr {
  import opened Wrappers

  /// `str.isspace` for one character: the ASCII controls 9-13 and 28-31, the
  /// space, and the Unicode separators Python counts as whitespace.
  predicate IsSpace(c: char) {
    c == ' ' || ('\t' <= c <= '\r') || ('\U{1C}' <= c <= '\U{1F}')
    || c == '\U{85}' || c == '\U{A0}' || c == '\U{1680}' || ('\U{2000}' <= c <= '\U{200A}')
    || c == '\U{2028}' || c == '\U{2029}' || c == '\U{202F}' || c == '\U{205F}' || c == '\U{3000}'
  }

  /// The set of characters a strip removes: `str.isspace` for `str.strip()`
  /// and a pattern's `\s`, or the smaller set `float` skips around a number.
  /// CPython's `float` turns non-ASCII whitespace into spaces and then skips
  /// only the ASCII whitespace 9-13 and 32, so the separators 28-31 stay.
  datatype Blanks = StrBlanks | FloatBlanks

  predicate IsBlank(b: Blanks, c: char) {
    IsSpace(c) && (b == StrBlanks || !('\U{1C}' <= c <= '\U{1F}'))
  }

  /// Index of the first non-blank character at or after `i`.
  function SkipSpaces(s: string, i: nat, b: Blanks): (k: nat)
    requires i <= |s|
    ensures i <= k <= |s|
    ensures forall m | i <= m < k :: IsBlank(b, s[m])
    ensures k < |s| ==> !IsBlank(b, s[k])
    decreases |s| - i
  {
    if i < |s| && IsBlank(b, s[i]) then SkipSpaces(s, i + 1, b) else i
  }

  /// Length of `s` without its trailing blanks.
  function TrimmedLength(s: string, b: Blanks): (n: nat)
    ensures n <= |s|
    ensures forall m | n <= m < |s| :: IsBlank(b, s[m])
    ensures n > 0 ==> !IsBlank(b, s[n - 1])
  {
    if s != [] && IsBlank(b, s[|s| - 1]) then TrimmedLength(s[..|s| - 1], b) else |s|
  }

  /// `s` without its leading and trailing blanks: `str.strip()` with no
  /// argument for `StrBlanks`.
  function Strip(s: string, b: Blanks): (r: string)
    ensures r != [] ==> !IsBlank(b, r[0]) && !IsBlank(b, r[|r| - 1])
    ensures |r| <= |s|
  {
    var t := s[SkipSpaces(s, 0, b)..];
    t[..TrimmedLength(t, b)]
  }

  /// `str.lower()` on ASCII letters; every other character is kept.
  function Lower(s: string): (r: string)
    ensures |r| == |s|
    ensures forall k | 0 <= k < |s| :: r[k] == LowerChar(s[k])
  {
    if s == [] then [] else [LowerChar(s[0])] + Lower(s[1..])
  }

  function LowerChar(c: char): char {
    if 'A' <= c <= 'Z' then (c as int + 32) as char else c
  }

  /// `s.split('\t', 1)`: the text before the first tab and, if there is a tab,
  /// the text after it.
  function SplitTab(s: string): (r: (string, Option<string>))
    ensures '\t' !in r.0
    ensures r.1.None? ==> r.0 == s
    ensures r.1.Some? ==> s == r.0 + ['\t'] + r.1.value
    decreases |s|
  {
    if s == [] then ([], None)
    else if s[0] == '\t' then ([], Some(s[1..]))
    else
      var rest := SplitTab(s[1..]);
      assert s == [s[0]] + s[1..];
      ([s[0]] + rest.0, rest.1)
  }

  /// `a < b` on Python strings: lexicographic by code point, a proper prefix first.
  predicate StrLess(a: string, b: string)
  {
    if a == [] then b != []
    else if b == [] then false
    else if a[0] != b[0] then a[0] < b[0]
    else StrLess(a[1..], b[1..])
  }

  /// `(a > b) - (a < b)`.
  function StrCmp(a: string, b: string): (r: int)
    ensures -1 <= r <= 1
  {
    (if StrLess(b, a) then 1 else 0) - (if StrLess(a, b) then 1 else 0)
  }

  /// The order `sorted` uses with the default key `str`: `a` may precede `b`.
  predicate StrLe(a: string, b: string) { !StrLess(b, a) }

  lemma {:induction false} StrLessIrreflexive(a: string)
    ensures !StrLess(a, a)
  {
    if a != [] { StrLessIrreflexive(a[1..]); }
  }

  /// Exactly one of `a < b`, `a == b`, `b < a` holds.
  lemma {:induction false} StrTrichotomy(a: string, b: string)
    ensures StrLess(a, b) || a == b || StrLess(b, a)
    ensures !(StrLess(a, b) && StrLess(b, a))
    ensures !(StrLess(a, b) && a == b)
  {
    if a != [] && b != [] && a[0] == b[0] {
      StrTrichotomy(a[1..], b[1..]);
      if a[1..] == b[1..] {
        assert a == [a[0]] + a[1..] && b == [b[0]] + b[1..];
      }
    }
    if a == b { StrLessIrreflexive(a); }
  }

  lemma {:induction false} StrLessTransitive(a: string, b: string, c: string)
    requires StrLess(a, b) && StrLess(b, c)
    ensures StrLess(a, c)
  {
    if a != [] && a[0] == b[0] && b[0] == c[0] {
      StrLessTransitive(a[1..], b[1..], c[1..]);
    }
  }

  /// String comparison is reflexive and antisymmetric.
  lemma StrCmpProperties(a: string, b: string)
    ensures StrCmp(a, a) == 0
    ensures StrCmp(b, a) == -StrCmp(a, b)
    ensures (StrCmp(a, b) == 0) <==> a == b
  {
    StrLessIrreflexive(a);
    StrTrichotomy(a, b);
  }
}
