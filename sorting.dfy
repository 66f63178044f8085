/// Stable sorting by a key order and the k-way merge of sorted runs, as
/// Python's `sorted(..., key=...)` and `heapq.merge(..., key=...)` behave on
/// a key order that is a total preorder.
module Sorting {
  /// `le(a, b)`: the key of `a` is not greater than the key of `b`.
  ghost predicate TotalPreorder<T(!new)>(le: (T, T) -> bool)
  {
    (forall a, b :: le(a, b) || le(b, a)) &&
    (forall a, b, c :: le(a, b) && le(b, c) ==> le(a, c))
  }

  /// Equal keys.
  predicate Equiv<T>(le: (T, T) -> bool, a: T, b: T)
  {
    le(a, b) && le(b, a)
  }

  predicate Sorted<T>(le: (T, T) -> bool, s: seq<T>)
  {
    forall i, j | 0 <= i < j < |s| :: le(s[i], s[j])
  }

  /// Inserts `x` after every element whose key is not greater than its own.
  function Insert<T>(le: (T, T) -> bool, x: T, s: seq<T>): seq<T>
  {
    if s == [] then [x]
    else if le(s[0], x) then [s[0]] + Insert(le, x, s[1..])
    else [x] + s
  }

  /// Inserting adds exactly one copy of `x` and loses nothing.
  lemma {:induction false} InsertPermutation<T>(le: (T, T) -> bool, x: T, s: seq<T>)
    ensures multiset(Insert(le, x, s)) == multiset(s) + multiset{x}
    ensures |Insert(le, x, s)| == |s| + 1
  {
    if s != [] && le(s[0], x) {
      InsertPermutation(le, x, s[1..]);
      assert s == [s[0]] + s[1..];
    }
  }

  /// `sorted(s, key=...)`: a stable insertion sort, the elements taken in
  /// order of their position.
  function SortBy<T>(le: (T, T) -> bool, s: seq<T>): seq<T>
  {
    if s == [] then []
    else Insert(le, s[|s| - 1], SortBy(le, s[..|s| - 1]))
  }

  /// Sorting is a permutation of its input.
  lemma {:induction false} SortByPermutation<T>(le: (T, T) -> bool, s: seq<T>)
    ensures multiset(SortBy(le, s)) == multiset(s)
    ensures |SortBy(le, s)| == |s|
  {
    if s != [] {
      var init, last := s[..|s| - 1], s[|s| - 1];
      SortByPermutation(le, init);
      InsertPermutation(le, last, SortBy(le, init));
      assert s == init + [last];
    }
  }

  /// The elements of `s` whose key equals the key of `y`, in order.
  function Filter<T>(le: (T, T) -> bool, y: T, s: seq<T>): (r: seq<T>)
  {
    if s == [] then []
    else (if Equiv(le, s[0], y) then [s[0]] else []) + Filter(le, y, s[1..])
  }

  /// The runs one after the other.
  function Concat<T>(rs: seq<seq<T>>): (r: seq<T>)
  {
    if rs == [] then [] else rs[0] + Concat(rs[1..])
  }

  /// The run `heapq.merge` takes its next element from, among the first `n`:
  /// the first whose head has the least key, or -1 when they are all empty.
  function SelectFrom<T>(le: (T, T) -> bool, runs: seq<seq<T>>, n: nat): (b: int)
    requires n <= |runs|
    ensures -1 <= b < n && (b >= 0 ==> runs[b] != [])
  {
    if n == 0 then -1
    else
      var b := SelectFrom(le, runs, n - 1);
      if runs[n - 1] != [] && (b < 0 || !le(runs[b][0], runs[n - 1][0])) then n - 1 else b
  }

  /// `heapq.merge(*runs, key=...)`.
  function MergeAll<T>(le: (T, T) -> bool, runs: seq<seq<T>>): seq<T>
    decreases |Concat(runs)|
  {
    var i := SelectFrom(le, runs, |runs|);
    if i < 0 then
      SelectNone(le, runs, |runs|);
      EmptyRuns(runs);
      []
    else
      var rest := runs[i := runs[i][1..]];
      ConcatAdvance(runs, i);
      [runs[i][0]] + MergeAll(le, rest)
  }

  lemma {:induction false} EmptyRuns<T>(runs: seq<seq<T>>)
    requires forall j | 0 <= j < |runs| :: runs[j] == []
    ensures Concat(runs) == []
  {
    if runs != [] {
      EmptyRuns(runs[1..]);
    }
  }

  /// Merging loses and invents no element of the runs.
  lemma {:induction false} MergeAllPermutation<T>(le: (T, T) -> bool, runs: seq<seq<T>>)
    ensures multiset(MergeAll(le, runs)) == multiset(Concat(runs))
    decreases |Concat(runs)|
  {
    var i := SelectFrom(le, runs, |runs|);
    if i < 0 {
      SelectNone(le, runs, |runs|);
      EmptyRuns(runs);
    } else {
      var rest := runs[i := runs[i][1..]];
      ConcatAdvance(runs, i);
      MergeAllPermutation(le, rest);
    }
  }

  /// The selection finds no run exactly when every run is empty.
  lemma {:induction false} SelectNone<T>(le: (T, T) -> bool, runs: seq<seq<T>>, n: nat)
    requires n <= |runs|
    ensures SelectFrom(le, runs, n) < 0 <==> forall j | 0 <= j < n :: runs[j] == []
  {
    if n > 0 {
      SelectNone(le, runs, n - 1);
    }
  }

  /// Taking the head of run `i` takes one element out of the concatenation.
  lemma ConcatAdvance<T>(runs: seq<seq<T>>, i: nat)
    requires i < |runs| && runs[i] != []
    ensures var rest := runs[i := runs[i][1..]];
      Concat(runs) == Concat(runs[..i]) + runs[i] + Concat(runs[i + 1..])
      && Concat(rest) == Concat(runs[..i]) + runs[i][1..] + Concat(runs[i + 1..])
      && multiset(Concat(runs)) == multiset(Concat(rest)) + multiset{runs[i][0]}
      && |Concat(rest)| == |Concat(runs)| - 1
  {
    var rest := runs[i := runs[i][1..]];
    assert Concat(runs) == Concat(runs[..i]) + runs[i] + Concat(runs[i + 1..]) by {
      ConcatSplit(runs, i);
    }
    assert Concat(rest) == Concat(runs[..i]) + runs[i][1..] + Concat(runs[i + 1..]) by {
      ConcatSplit(rest, i);
      assert rest[..i] == runs[..i];
      assert rest[i + 1..] == runs[i + 1..];
    }
    MultisetMiddle(Concat(runs[..i]), runs[i], Concat(runs[i + 1..]));
  }

  /// Taking the first element out of the middle part of a concatenation.
  lemma MultisetMiddle<T>(x: seq<T>, r: seq<T>, z: seq<T>)
    requires r != []
    ensures multiset(x + r + z) == multiset(x + r[1..] + z) + multiset{r[0]}
    ensures |x + r[1..] + z| == |x + r + z| - 1
  {
    assert r == [r[0]] + r[1..];
    assert x + r + z == (x + [r[0]]) + (r[1..] + z);
    assert x + r[1..] + z == x + (r[1..] + z);
  }

  /// The concatenation of the runs before `i`, then run `i`, then the rest.
  lemma {:induction false} ConcatSplit<T>(rs: seq<seq<T>>, i: nat)
    requires i < |rs|
    ensures Concat(rs) == Concat(rs[..i]) + Concat(rs[i..])
    ensures Concat(rs[i..]) == rs[i] + Concat(rs[i + 1..])
  {
    if i > 0 {
      ConcatSplit(rs[1..], i - 1);
      assert rs[1..][..i - 1] == rs[1..i];
      assert rs[1..][i - 1..] == rs[i..];
      assert rs[..i][1..] == rs[1..i];
      assert rs[i..][1..] == rs[i + 1..];
    } else {
      assert rs[..0] == [];
      assert rs[0..] == rs;
    }
  }

  /// Concatenating one more run.
  lemma {:induction false} ConcatOne<T>(rs: seq<seq<T>>, r: seq<T>)
    ensures Concat(rs + [r]) == Concat(rs) + r
  {
    if rs == [] {
      assert [r][1..] == [];
    } else {
      assert (rs + [r])[1..] == rs[1..] + [r];
      ConcatOne(rs[1..], r);
    }
  }

  /// A sorted sequence with an element in front that is not greater than
  /// any of its elements is sorted.
  lemma SortedCons<T>(le: (T, T) -> bool, a: T, t: seq<T>)
    requires Sorted(le, t) && forall k | 0 <= k < |t| :: le(a, t[k])
    ensures Sorted(le, [a] + t)
  {
    var s := [a] + t;
    forall i, j | 0 <= i < j < |s| ensures le(s[i], s[j]) {
      assert s[j] == t[j - 1];
      if i > 0 {
        assert s[i] == t[i - 1];
      }
    }
  }

  /// The first element of a sorted sequence is not greater than any.
  lemma HeadLeast<T(!new)>(le: (T, T) -> bool, s: seq<T>)
    requires TotalPreorder(le) && Sorted(le, s) && s != []
    ensures forall x | x in s :: le(s[0], x)
  {
    forall x | x in s ensures le(s[0], x) {
      var k :| 0 <= k < |s| && s[k] == x;
      if k == 0 {
        Reflexive(le, x);
      }
    }
  }

  /// Inserting into a sorted sequence keeps it sorted.
  lemma {:induction false} InsertSorted<T(!new)>(le: (T, T) -> bool, x: T, s: seq<T>)
    requires TotalPreorder(le) && Sorted(le, s)
    ensures Sorted(le, Insert(le, x, s))
  {
    if s == [] {
    } else if le(s[0], x) {
      var t := Insert(le, x, s[1..]);
      InsertSorted(le, x, s[1..]);
      InsertPermutation(le, x, s[1..]);
      forall k | 0 <= k < |t| ensures le(s[0], t[k]) {
        assert t[k] in multiset(t);
        if t[k] != x {
          assert t[k] in multiset(s[1..]);
          var j :| 0 <= j < |s[1..]| && s[1..][j] == t[k];
          assert s[j + 1] == t[k];
        }
      }
      SortedCons(le, s[0], t);
    } else {
      forall k | 0 <= k < |s| ensures le(x, s[k]) {
        assert le(x, s[0]);
        if k > 0 {
          assert le(s[0], s[k]);
        }
      }
      SortedCons(le, x, s);
    }
  }

  /// `sorted` returns a sorted sequence.
  lemma {:induction false} SortBySorted<T(!new)>(le: (T, T) -> bool, s: seq<T>)
    requires TotalPreorder(le)
    ensures Sorted(le, SortBy(le, s))
  {
    if s != [] {
      SortBySorted(le, s[..|s| - 1]);
      InsertSorted(le, s[|s| - 1], SortBy(le, s[..|s| - 1]));
    }
  }

  lemma {:induction false} FilterConcat<T>(le: (T, T) -> bool, y: T, a: seq<T>, b: seq<T>)
    ensures Filter(le, y, a + b) == Filter(le, y, a) + Filter(le, y, b)
  {
    if a == [] {
      assert a + b == b;
    } else {
      var h := if Equiv(le, a[0], y) then [a[0]] else [];
      assert a + b == [a[0]] + (a[1..] + b);
      FilterCons(le, y, a[0], a[1..] + b);
      FilterConcat(le, y, a[1..], b);
      assert a == [a[0]] + a[1..];
      FilterCons(le, y, a[0], a[1..]);
      AppendAssoc(h, Filter(le, y, a[1..]), Filter(le, y, b));
    }
  }

  lemma {:induction false} FilterNone<T>(le: (T, T) -> bool, y: T, s: seq<T>)
    requires forall k | 0 <= k < |s| :: !Equiv(le, s[k], y)
    ensures Filter(le, y, s) == []
  {
    if s != [] {
      FilterNone(le, y, s[1..]);
    }
  }

  /// Every element `Filter` keeps is in the sequence and has the key of `y`.
  lemma {:induction false} FilterElements<T>(le: (T, T) -> bool, y: T, s: seq<T>)
    ensures forall k | 0 <= k < |Filter(le, y, s)| ::
      Filter(le, y, s)[k] in s && Equiv(le, Filter(le, y, s)[k], y)
  {
    if s != [] {
      FilterElements(le, y, s[1..]);
    }
  }

  /// A sequence's first element is the first element kept for its own key.
  lemma HeadFilter<T(!new)>(le: (T, T) -> bool, s: seq<T>)
    requires TotalPreorder(le)
    ensures s != [] ==> Filter(le, s[0], s) == [s[0]] + Filter(le, s[0], s[1..])
  {
    if s != [] {
      Reflexive(le, s[0]);
    }
  }

  lemma Reflexive<T(!new)>(le: (T, T) -> bool, a: T)
    requires TotalPreorder(le)
    ensures le(a, a)
  {
  }

  /// Inserting `x` appends it to the elements with its key: the insertion is
  /// stable.
  lemma {:induction false} InsertFilter<T(!new)>(le: (T, T) -> bool, x: T, y: T, s: seq<T>)
    requires TotalPreorder(le) && Sorted(le, s)
    ensures Filter(le, y, Insert(le, x, s))
      == Filter(le, y, s) + (if Equiv(le, x, y) then [x] else [])
  {
    if s == [] {
      FilterCons(le, y, x, []);
    } else if le(s[0], x) {
      assert Sorted(le, s[1..]);
      InsertFilter(le, x, y, s[1..]);
      InsertFilterStep(le, x, y, s);
    } else {
      assert Insert(le, x, s) == [x] + s;
      FilterCons(le, y, x, s);
      if Equiv(le, x, y) {
        BelowAll(le, x, y, s);
      }
    }
  }

  /// The step of `InsertFilter` where `x` goes after the first element.
  lemma InsertFilterStep<T>(le: (T, T) -> bool, x: T, y: T, s: seq<T>)
    requires s != [] && le(s[0], x)
    requires Filter(le, y, Insert(le, x, s[1..]))
      == Filter(le, y, s[1..]) + (if Equiv(le, x, y) then [x] else [])
    ensures Filter(le, y, Insert(le, x, s))
      == Filter(le, y, s) + (if Equiv(le, x, y) then [x] else [])
  {
    var p := if Equiv(le, s[0], y) then [s[0]] else [];
    var q := if Equiv(le, x, y) then [x] else [];
    var t := Insert(le, x, s[1..]);
    var f := Filter(le, y, s[1..]);
    calc {
      Filter(le, y, Insert(le, x, s));
      { assert Insert(le, x, s) == [s[0]] + t; }
      Filter(le, y, [s[0]] + t);
      { FilterCons(le, y, s[0], t); }
      p + Filter(le, y, t);
      p + (f + q);
      { AppendAssoc(p, f, q); }
      (p + f) + q;
      { assert Filter(le, y, s) == p + f; }
      Filter(le, y, s) + q;
    }
  }

  lemma AppendAssoc<T>(a: seq<T>, b: seq<T>, c: seq<T>)
    ensures a + (b + c) == (a + b) + c
  {
  }

  /// `Filter` of a sequence with one element in front.
  lemma FilterCons<T>(le: (T, T) -> bool, y: T, a: T, t: seq<T>)
    ensures Filter(le, y, [a] + t) == (if Equiv(le, a, y) then [a] else []) + Filter(le, y, t)
  {
    assert ([a] + t)[0] == a && ([a] + t)[1..] == t;
  }

  /// A sorted sequence that starts above `x` keeps nothing of the key of `x`.
  lemma BelowAll<T(!new)>(le: (T, T) -> bool, x: T, y: T, s: seq<T>)
    requires TotalPreorder(le) && Sorted(le, s) && s != [] && !le(s[0], x) && Equiv(le, x, y)
    ensures Filter(le, y, s) == []
  {
    forall k | 0 <= k < |s| ensures !Equiv(le, s[k], y) {
      if k > 0 {
        assert le(s[0], s[k]);
      }
    }
    FilterNone(le, y, s);
  }

  /// `sorted` is stable: the elements of each key keep their order.
  lemma {:induction false} SortByStable<T(!new)>(le: (T, T) -> bool, y: T, s: seq<T>)
    requires TotalPreorder(le)
    ensures Filter(le, y, SortBy(le, s)) == Filter(le, y, s)
  {
    if s != [] {
      var init, last := s[..|s| - 1], s[|s| - 1];
      SortByStable(le, y, init);
      SortBySorted(le, init);
      InsertFilter(le, last, y, SortBy(le, init));
      FilterSnoc(le, y, s);
    }
  }

  lemma FilterSnoc<T>(le: (T, T) -> bool, y: T, s: seq<T>)
    requires s != []
    ensures Filter(le, y, s) == Filter(le, y, s[..|s| - 1])
      + (if Equiv(le, s[|s| - 1], y) then [s[|s| - 1]] else [])
  {
    var init, last := s[..|s| - 1], s[|s| - 1];
    assert s == init + [last];
    FilterConcat(le, y, init, [last]);
    assert [last] == [last] + [];
    FilterCons(le, y, last, []);
    var p := if Equiv(le, last, y) then [last] else [];
    assert p + [] == p;
  }

  /// Two sorted sequences that hold the elements of every key in the same
  /// order are equal: a stable sort has one possible result.
  lemma {:induction false} SortedUnique<T(!new)>(le: (T, T) -> bool, r1: seq<T>, r2: seq<T>)
    requires TotalPreorder(le) && Sorted(le, r1) && Sorted(le, r2)
    requires forall y :: Filter(le, y, r1) == Filter(le, y, r2)
    ensures r1 == r2
    decreases |r1|
  {
    HeadFilter(le, r1);
    HeadFilter(le, r2);
    if r1 != [] && r2 != [] {
      var a, b := r1[0], r2[0];
      SameHead(le, r1, r2);
      forall y ensures Filter(le, y, r1[1..]) == Filter(le, y, r2[1..]) {
        var p := if Equiv(le, a, y) then [a] else [];
        assert Filter(le, y, r1) == p + Filter(le, y, r1[1..]);
        assert Filter(le, y, r2) == p + Filter(le, y, r2[1..]);
        assert Filter(le, y, r1[1..]) == Filter(le, y, r1)[|p|..];
      }
      SortedUnique(le, r1[1..], r2[1..]);
      assert r1 == [a] + r1[1..];
      assert r2 == [b] + r2[1..];
    }
  }

  lemma SameHead<T(!new)>(le: (T, T) -> bool, r1: seq<T>, r2: seq<T>)
    requires TotalPreorder(le) && Sorted(le, r1) && Sorted(le, r2) && r1 != [] && r2 != []
    requires forall y :: Filter(le, y, r1) == Filter(le, y, r2)
    ensures r1[0] == r2[0]
  {
    var a, b := r1[0], r2[0];
    HeadFilter(le, r1);
    HeadFilter(le, r2);
    KeyFound(le, a, r1, r2);
    KeyFound(le, b, r2, r1);
    assert Equiv(le, b, a);
    assert Filter(le, a, r2)[0] == b;
  }

  /// The key of the first element of `r1` is not below the first of `r2`
  /// when `r2` holds the same elements of that key.
  lemma KeyFound<T(!new)>(le: (T, T) -> bool, a: T, r1: seq<T>, r2: seq<T>)
    requires TotalPreorder(le) && Sorted(le, r2) && r1 != [] && r2 != [] && a == r1[0]
    requires Filter(le, a, r1) == Filter(le, a, r2)
    ensures le(r2[0], a)
  {
    HeadFilter(le, r1);
    FilterElements(le, a, r2);
    var e := Filter(le, a, r2)[0];
    HeadLeast(le, r2);
    assert le(r2[0], e) && le(e, a);
  }

  /// The selected run's head has the least key of all heads, and every run
  /// before it has a head with a greater key: ties go to the lowest index.
  lemma {:induction false} SelectMin<T(!new)>(le: (T, T) -> bool, runs: seq<seq<T>>, n: nat)
    requires TotalPreorder(le) && n <= |runs|
    ensures var b := SelectFrom(le, runs, n);
      b >= 0 ==>
        (forall j | 0 <= j < n && runs[j] != [] :: le(runs[b][0], runs[j][0])) &&
        (forall j | 0 <= j < b && runs[j] != [] :: !le(runs[j][0], runs[b][0]))
  {
    if n > 0 {
      SelectMin(le, runs, n - 1);
      SelectNone(le, runs, n - 1);
      var b := SelectFrom(le, runs, n - 1);
      if runs[n - 1] != [] {
        Reflexive(le, runs[n - 1][0]);
        if b >= 0 {
          Reflexive(le, runs[b][0]);
        }
      }
    }
  }

  /// Every element of the runs has a key at least `h` when every run is
  /// sorted and starts at `h` or above.
  lemma {:induction false} AllAbove<T(!new)>(le: (T, T) -> bool, h: T, rs: seq<seq<T>>)
    requires TotalPreorder(le)
    requires forall j | 0 <= j < |rs| :: Sorted(le, rs[j]) && (rs[j] != [] ==> le(h, rs[j][0]))
    ensures forall x | x in Concat(rs) :: le(h, x)
  {
    if rs != [] {
      AllAbove(le, h, rs[1..]);
      if rs[0] != [] {
        HeadLeast(le, rs[0]);
      }
    }
  }

  /// No element of the runs has a key at most `h` when every run is sorted
  /// and starts strictly above `h`.
  lemma {:induction false} NoneBelow<T(!new)>(le: (T, T) -> bool, h: T, rs: seq<seq<T>>)
    requires TotalPreorder(le)
    requires forall j | 0 <= j < |rs| :: Sorted(le, rs[j]) && (rs[j] != [] ==> !le(rs[j][0], h))
    ensures forall x | x in Concat(rs) :: !le(x, h)
  {
    if rs != [] {
      NoneBelow(le, h, rs[1..]);
      if rs[0] != [] {
        HeadLeast(le, rs[0]);
      }
    }
  }

  /// The merge of sorted runs is sorted.
  lemma {:induction false} MergeAllSorted<T(!new)>(le: (T, T) -> bool, runs: seq<seq<T>>)
    requires TotalPreorder(le) && forall j | 0 <= j < |runs| :: Sorted(le, runs[j])
    ensures Sorted(le, MergeAll(le, runs))
    decreases |Concat(runs)|
  {
    var i := SelectFrom(le, runs, |runs|);
    if i >= 0 {
      var h := runs[i][0];
      var rest := runs[i := runs[i][1..]];
      ConcatAdvance(runs, i);
      SelectMin(le, runs, |runs|);
      forall j | 0 <= j < |rest| ensures Sorted(le, rest[j]) && (rest[j] != [] ==> le(h, rest[j][0])) {
        if j == i && rest[j] != [] {
          assert rest[j][0] == runs[i][1];
        }
      }
      MergeAllSorted(le, rest);
      AllAbove(le, h, rest);
      var m := MergeAll(le, rest);
      MergeAllPermutation(le, rest);
      forall k | 0 <= k < |m| ensures le(h, m[k]) {
        assert m[k] in multiset(Concat(rest));
      }
      SortedCons(le, h, m);
    }
  }

  /// The merge keeps the elements of each key in the order of the runs'
  /// concatenation: ties are taken from the lowest-numbered run first.
  lemma {:induction false} MergeAllStable<T(!new)>(le: (T, T) -> bool, y: T, runs: seq<seq<T>>)
    requires TotalPreorder(le) && forall j | 0 <= j < |runs| :: Sorted(le, runs[j])
    ensures Filter(le, y, MergeAll(le, runs)) == Filter(le, y, Concat(runs))
    decreases |Concat(runs)|
  {
    var i := SelectFrom(le, runs, |runs|);
    if i < 0 {
      SelectNone(le, runs, |runs|);
      EmptyRuns(runs);
    } else {
      var h := runs[i][0];
      var rest := runs[i := runs[i][1..]];
      ConcatAdvance(runs, i);
      assert forall j | 0 <= j < |rest| :: Sorted(le, rest[j]);
      MergeAllStable(le, y, rest);
      var m := MergeAll(le, rest);
      assert MergeAll(le, runs) == [h] + m;
      assert Filter(le, y, [h] + m) == (if Equiv(le, h, y) then [h] else []) + Filter(le, y, m);
      if Equiv(le, h, y) {
        NoneBefore(le, y, runs, i);
      }
      FilterAdvance(le, y, runs, i);
    }
  }

  /// Taking the head of run `i` out of the runs takes it out of the elements
  /// of its key, provided no earlier run holds one of that key.
  lemma FilterAdvance<T>(le: (T, T) -> bool, y: T, runs: seq<seq<T>>, i: nat)
    requires i < |runs| && runs[i] != []
    requires Equiv(le, runs[i][0], y) ==> Filter(le, y, Concat(runs[..i])) == []
    ensures Filter(le, y, Concat(runs))
      == (if Equiv(le, runs[i][0], y) then [runs[i][0]] else [])
        + Filter(le, y, Concat(runs[i := runs[i][1..]]))
  {
    ConcatAdvance(runs, i);
    FilterMiddle(le, y, Concat(runs[..i]), runs[i], Concat(runs[i + 1..]));
  }

  lemma FilterMiddle<T>(le: (T, T) -> bool, y: T, x: seq<T>, r: seq<T>, z: seq<T>)
    requires r != [] && (Equiv(le, r[0], y) ==> Filter(le, y, x) == [])
    ensures Filter(le, y, x + r + z)
      == (if Equiv(le, r[0], y) then [r[0]] else []) + Filter(le, y, x + r[1..] + z)
  {
    var p := if Equiv(le, r[0], y) then [r[0]] else [];
    var fx, fz, ft := Filter(le, y, x), Filter(le, y, z), Filter(le, y, r[1..]);
    assert r == [r[0]] + r[1..];
    FilterCons(le, y, r[0], r[1..]);
    assert Filter(le, y, x + r + z) == fx + (p + ft) + fz by {
      FilterConcat(le, y, x + r, z);
      FilterConcat(le, y, x, r);
    }
    assert Filter(le, y, x + r[1..] + z) == fx + ft + fz by {
      FilterConcat(le, y, x + r[1..], z);
      FilterConcat(le, y, x, r[1..]);
    }
    if Equiv(le, r[0], y) {
      calc {
        fx + (p + ft) + fz;
        == { assert fx + (p + ft) == p + ft; }
        p + ft + fz;
        == { AppendAssoc(p, ft, fz); }
        p + (ft + fz);
        == { assert fx + ft == ft; }
        p + (fx + ft + fz);
      }
    } else {
      assert p + ft == ft;
      assert p + (fx + ft + fz) == fx + ft + fz;
    }
  }

  /// The runs before the selected one hold no element of the key of its head.
  lemma NoneBefore<T(!new)>(le: (T, T) -> bool, y: T, runs: seq<seq<T>>, i: nat)
    requires TotalPreorder(le) && forall j | 0 <= j < |runs| :: Sorted(le, runs[j])
    requires i == SelectFrom(le, runs, |runs|) && Equiv(le, runs[i][0], y)
    ensures Filter(le, y, Concat(runs[..i])) == []
  {
    var h := runs[i][0];
    SelectMin(le, runs, |runs|);
    NoneBelow(le, h, runs[..i]);
    var x := Concat(runs[..i]);
    forall k | 0 <= k < |x| ensures !Equiv(le, x[k], y) {
      assert x[k] in x;
    }
    FilterNone(le, y, x);
  }

  /// Runs that keep the elements of each key as the chunks do, concatenated,
  /// keep them as the chunks' concatenation does.
  lemma {:induction false} FiltersAgree<T>(le: (T, T) -> bool, y: T, runs: seq<seq<T>>, chunks: seq<seq<T>>)
    requires |runs| == |chunks|
    requires forall j | 0 <= j < |runs| :: Filter(le, y, runs[j]) == Filter(le, y, chunks[j])
    ensures Filter(le, y, Concat(runs)) == Filter(le, y, Concat(chunks))
  {
    if runs != [] {
      FiltersAgree(le, y, runs[1..], chunks[1..]);
      FilterConcat(le, y, runs[0], Concat(runs[1..]));
      FilterConcat(le, y, chunks[0], Concat(chunks[1..]));
    }
  }

  /// Merging the sorted chunks gives what sorting all of them at once gives.
  lemma MergeSortedChunks<T(!new)>(le: (T, T) -> bool, chunks: seq<seq<T>>, runs: seq<seq<T>>)
    requires TotalPreorder(le) && |runs| == |chunks|
    requires forall j | 0 <= j < |runs| :: runs[j] == SortBy(le, chunks[j])
    ensures MergeAll(le, runs) == SortBy(le, Concat(chunks))
  {
    forall j | 0 <= j < |runs| ensures Sorted(le, runs[j]) {
      SortBySorted(le, chunks[j]);
    }
    MergeAllSorted(le, runs);
    SortBySorted(le, Concat(chunks));
    forall y ensures Filter(le, y, MergeAll(le, runs)) == Filter(le, y, SortBy(le, Concat(chunks))) {
      MergeAllStable(le, y, runs);
      forall j | 0 <= j < |runs| ensures Filter(le, y, runs[j]) == Filter(le, y, chunks[j]) {
        SortByStable(le, y, chunks[j]);
      }
      FiltersAgree(le, y, runs, chunks);
      SortByStable(le, y, Concat(chunks));
    }
    SortedUnique(le, MergeAll(le, runs), SortBy(le, Concat(chunks)));
  }

  /// Elements with equal keys are equal: the order of the default key `str`.
  ghost predicate Antisymmetric<T(!new)>(le: (T, T) -> bool)
  {
    forall a, b :: le(a, b) && le(b, a) ==> a == b
  }

  /// Under an antisymmetric order `Filter` keeps the copies of `y`.
  lemma {:induction false} FilterCopies<T(!new)>(le: (T, T) -> bool, y: T, s: seq<T>)
    requires TotalPreorder(le) && Antisymmetric(le)
    ensures Filter(le, y, s) == seq(multiset(s)[y], _ => y)
  {
    if s != [] {
      FilterCopies(le, y, s[1..]);
      assert s == [s[0]] + s[1..];
      FilterCons(le, y, s[0], s[1..]);
      var c := multiset(s[1..])[y];
      if s[0] == y {
        Reflexive(le, y);
        assert multiset(s)[y] == c + 1;
        Copies(y, c);
      } else {
        assert !Equiv(le, s[0], y);
        assert multiset(s)[y] == c;
        assert [] + seq(c, _ => y) == seq(c, _ => y);
      }
    }
  }

  lemma Copies<T>(y: T, c: nat)
    ensures seq(c + 1, _ => y) == [y] + seq(c, _ => y)
  {
  }

  /// Under a total order the sorted permutation of a sequence is unique:
  /// whatever is sorted and holds the same elements is what `sorted` returns.
  lemma SortedPermutation<T(!new)>(le: (T, T) -> bool, r: seq<T>, s: seq<T>)
    requires TotalPreorder(le) && Antisymmetric(le)
    requires Sorted(le, r) && multiset(r) == multiset(s)
    ensures r == SortBy(le, s)
  {
    SortBySorted(le, s);
    SortByPermutation(le, s);
    forall y ensures Filter(le, y, r) == Filter(le, y, SortBy(le, s)) {
      FilterCopies(le, y, r);
      FilterCopies(le, y, SortBy(le, s));
    }
    SortedUnique(le, r, SortBy(le, s));
  }
}
