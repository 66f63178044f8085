/// What a spilled partition of `MergeSort` reads back as. `_flush` writes the
/// sorted lines one after another with no separator, and `__next__` iterates
/// the file, which cuts its text after every `"\n"`.
module PartitionFiles {

  /// The text `writelines` leaves in the file: the lines, concatenated.
  function Written(lines: seq<string>): string
  {
    if lines == [] then [] else lines[0] + Written(lines[1..])
  }

  /// Where the first line of a non-empty text ends: just after its first
  /// `"\n"`, or at the end of the text.
  function LineEnd(text: string): (k: nat)
    requires text != []
    ensures 0 < k <= |text|
    ensures forall m | 0 <= m < k - 1 :: text[m] != '\n'
    ensures text[k - 1] == '\n' || k == |text|
  {
    if text[0] == '\n' || |text| == 1 then 1 else 1 + LineEnd(text[1..])
  }

  /// Iterating a file: one line per `"\n"`, each keeping its `"\n"`, and a
  /// last line without one if the text does not end in `"\n"`.
  function ReadBack(text: string): (lines: seq<string>)
    decreases |text|
  {
    if text == [] then [] else [text[..LineEnd(text)]] + ReadBack(text[LineEnd(text)..])
  }

  /// A line as iterating a text file yields it: it ends in `"\n"` and holds
  /// no other.
  predicate Terminated(l: string)
  {
    l != [] && l[|l| - 1] == '\n' && forall m | 0 <= m < |l| - 1 :: l[m] != '\n'
  }

  lemma FirstLineEnd(l: string, rest: string)
    requires Terminated(l)
    ensures LineEnd(l + rest) == |l|
  {
    var t := l + rest;
    assert t[|l| - 1] == '\n';
    assert forall m | 0 <= m < |l| - 1 :: t[m] == l[m];
  }

  /// A partition of terminated lines reads back as the lines written.
  lemma {:induction false} ReadBackWritten(lines: seq<string>)
    requires forall k | 0 <= k < |lines| :: Terminated(lines[k])
    ensures ReadBack(Written(lines)) == lines
  {
    if lines != [] {
      var l, rest := lines[0], Written(lines[1..]);
      FirstLineEnd(l, rest);
      assert (l + rest)[..|l|] == l && (l + rest)[|l|..] == rest;
      ReadBackWritten(lines[1..]);
      assert lines == [l] + lines[1..];
    }
  }

  /// Lines without a final `"\n"` run together: the sorted partition `a`,
  /// `b` reads back as the single line `ab`.
  lemma UnterminatedJoin()
    ensures ReadBack(Written(["a", "b"])) == ["ab"]
  {
    assert Written(["a", "b"]) == "ab" by {
      assert ["a", "b"][1..] == ["b"] && ["b"][1..] == [];
    }
    assert LineEnd("ab") == 2 by {
      assert "ab"[1..] == "b";
    }
    assert "ab"[..2] == "ab" && "ab"[2..] == [];
  }

  /// A line holding an inner `"\n"` comes back as two lines.
  lemma InnerNewlineSplits()
    ensures ReadBack(Written(["a\nb\n"])) == ["a\n", "b\n"]
  {
    var t: string := "a\nb\n";
    var ts: seq<string> := [t];
    assert Written(ts) == t by {
      assert ts[1..] == [];
    }
    assert LineEnd(t) == 2;
    assert t[..2] == "a\n" && t[2..] == "b\n";
    assert LineEnd("b\n") == 2 by {
      assert "b\n"[1..] == "\n";
    }
    assert "b\n"[..2] == "b\n" && "b\n"[2..] == [];
  }
}
