/// `MergeSort` of `pgtricks/mergesort.py`: lines are collected in a buffer
/// whose estimated size is tracked; a buffer that reaches the memory ceiling
/// is sorted and spilled as a partition, and iteration either merges the
/// partitions or, when nothing was spilled, sorts the buffer in memory.
module MergeSorting {
  import opened Wrappers
  import opened Sorting

  /// `_iterating`: not yet set, iterating the sorted buffer, or the merge of
  /// the partitions (each run is what is left of one partition).
  datatype Iteration = NotStarted | InMemory(rest: seq<string>) | Merging(runs: seq<seq<string>>)

  /// The error `append` raises once iteration has started.
  const AppendAfterSort := "Can't append lines after starting to sort"

  /// The sum of `getsizeof` over the lines.
  function SizeSum(lineSize: string -> nat, lines: seq<string>): nat
  {
    if lines == [] then 0
    else SizeSum(lineSize, lines[..|lines| - 1]) + lineSize(lines[|lines| - 1])
  }

  /// Each chunk sorted on its own: the partitions the chunks were spilled as.
  function SortEach(le: (string, string) -> bool, chunks: seq<seq<string>>): (r: seq<seq<string>>)
    ensures |r| == |chunks|
  {
    if chunks == [] then []
    else SortEach(le, chunks[..|chunks| - 1]) + [SortBy(le, chunks[|chunks| - 1])]
  }

  lemma {:induction false} SortEachAt(le: (string, string) -> bool, chunks: seq<seq<string>>, j: nat)
    requires j < |chunks|
    ensures SortEach(le, chunks)[j] == SortBy(le, chunks[j])
  {
    if j < |chunks| - 1 {
      SortEachAt(le, chunks[..|chunks| - 1], j);
    }
  }

  /// Each partition is a spilled buffer, which was not empty, sorted.
  ghost predicate SpilledAs(le: (string, string) -> bool, partitions: seq<seq<string>>, chunks: seq<seq<string>>)
  {
    (forall j | 0 <= j < |chunks| :: chunks[j] != []) &&
    partitions == SortEach(le, chunks)
  }

  /// Every appended line is in exactly one partition or in the buffer.
  ghost predicate HeldAs(chunks: seq<seq<string>>, buffer: seq<string>, appended: seq<string>)
  {
    Concat(chunks) + buffer == appended
  }

  /// Spilling a buffer that is not empty as a new sorted partition keeps
  /// every line in one place.
  lemma Spill(le: (string, string) -> bool, partitions: seq<seq<string>>, chunks: seq<seq<string>>,
              buffer: seq<string>, appended: seq<string>)
    requires SpilledAs(le, partitions, chunks) && HeldAs(chunks, buffer, appended) && buffer != []
    ensures SpilledAs(le, partitions + [SortBy(le, buffer)], chunks + [buffer])
    ensures HeldAs(chunks + [buffer], [], appended)
  {
    ConcatOne(chunks, buffer);
    assert (chunks + [buffer])[..|chunks|] == chunks;
    assert Concat(chunks + [buffer]) + [] == Concat(chunks + [buffer]);
  }

  /// Appending a line to the buffer adds its size to the sum and keeps every
  /// line in one place.
  lemma Buffered(lineSize: string -> nat, chunks: seq<seq<string>>, buffer: seq<string>,
                 appended: seq<string>, line: string)
    requires HeldAs(chunks, buffer, appended)
    ensures HeldAs(chunks, buffer + [line], appended + [line])
    ensures SizeSum(lineSize, buffer + [line]) == SizeSum(lineSize, buffer) + lineSize(line)
  {
    assert (buffer + [line])[..|buffer|] == buffer;
    AppendAssoc(Concat(chunks), buffer, [line]);
  }

  /// When every line was spilled, merging the partitions gives all lines
  /// sorted.
  lemma MergedPartitions(le: (string, string) -> bool, partitions: seq<seq<string>>,
                         chunks: seq<seq<string>>, appended: seq<string>)
    requires TotalPreorder(le) && SpilledAs(le, partitions, chunks) && HeldAs(chunks, [], appended)
    ensures MergeAll(le, partitions) == SortBy(le, appended)
  {
    forall j | 0 <= j < |partitions| ensures partitions[j] == SortBy(le, chunks[j]) {
      SortEachAt(le, chunks, j);
    }
    MergeSortedChunks(le, chunks, partitions);
    assert Concat(chunks) + [] == Concat(chunks);
  }

  /// The run the merge takes its next line from: the loop a heap replaces,
  /// with the same choice (least key, lowest run index on ties).
  method SelectRun(le: (string, string) -> bool, runs: seq<seq<string>>) returns (b: int)
    ensures b == SelectFrom(le, runs, |runs|)
  {
    b := -1;
    var j := 0;
    while j < |runs|
      invariant 0 <= j <= |runs| && b == SelectFrom(le, runs, j)
    {
      if runs[j] != [] && (b < 0 || !le(runs[b][0], runs[j][0])) {
        b := j;
      }
      j := j + 1;
    }
  }

  class MergeSort {
    /// The key order: `le(a, b)` when the key of `a` is not greater.
    const le: (string, string) -> bool
    const maxMemory: int
    /// `getsizeof` of a line and of a list of `n` lines built by appending.
    const lineSize: string -> nat
    const listSize: nat -> nat

    var partitions: seq<seq<string>>
    var buffer: seq<string>
    var memoryCounter: int
    var iterating: Iteration

    /// The buffers spilled so far, each unsorted, and every line appended.
    ghost var chunks: seq<seq<string>>
    ghost var appended: seq<string>

    /// The lines `Next` has still to hand out.
    ghost function Remaining(): seq<string>
      reads this`iterating, this`appended
    {
      match iterating
      case NotStarted => SortBy(le, appended)
      case InMemory(rest) => rest
      case Merging(runs) => MergeAll(le, runs)
    }

    /// The counter is the size of the buffer list plus the sizes of its lines.
    ghost predicate Counted()
      reads this`memoryCounter, this`buffer
    {
      memoryCounter == listSize(|buffer|) + SizeSum(lineSize, buffer)
    }

    ghost predicate Spilled()
      reads this`partitions, this`chunks
    {
      SpilledAs(le, partitions, chunks)
    }

    ghost predicate Held()
      reads this`chunks, this`buffer, this`appended
    {
      HeldAs(chunks, buffer, appended)
    }

    /// Bookkeeping that holds between any two statements of the methods:
    /// the counter, the partitions and where each appended line is; the
    /// sorted buffer is iterated only when nothing was spilled, and the
    /// partitions are merged only once the buffer was spilled too.
    ghost predicate Inv()
      reads this
    {
      TotalPreorder(le) && Counted() && Spilled() && Held() &&
      (iterating.InMemory? ==> partitions == []) &&
      (iterating.Merging? ==> buffer == [])
    }

    /// `Inv`, and a buffer that is not empty is below the ceiling.
    ghost predicate Valid()
      reads this
    {
      Inv() && (buffer == [] || memoryCounter < maxMemory)
    }

    /// `MergeSort(key, directory, max_memory)`.
    constructor(le: (string, string) -> bool, maxMemory: int, lineSize: string -> nat, listSize: nat -> nat)
      requires TotalPreorder(le)
      ensures Valid()
      ensures this.le == le && this.maxMemory == maxMemory
      ensures this.lineSize == lineSize && this.listSize == listSize
      ensures partitions == [] && buffer == [] && iterating == NotStarted
      ensures memoryCounter == listSize(0)
      ensures appended == []
    {
      this.le := le;
      this.maxMemory := maxMemory;
      this.lineSize := lineSize;
      this.listSize := listSize;
      partitions := [];
      iterating := NotStarted;
      buffer := [];
      memoryCounter := listSize(0);
      chunks := [];
      appended := [];
      new;
      Flush();
    }

    /// `append(line)`.
    method Append(line: string) returns (r: Outcome<string>)
      modifies this
      requires Valid()
      ensures Valid()
      ensures !old(iterating).NotStarted? ==>
        r == Fail(AppendAfterSort) && unchanged(this)
      ensures old(iterating).NotStarted? ==>
        var grown := old(memoryCounter) - listSize(|old(buffer)|)
          + listSize(|old(buffer)| + 1) + lineSize(line);
        r == Pass && iterating == NotStarted && appended == old(appended) + [line] &&
        if grown >= maxMemory then
          partitions == old(partitions) + [SortBy(le, old(buffer) + [line])] &&
          buffer == [] && memoryCounter == listSize(0)
        else
          partitions == old(partitions) && buffer == old(buffer) + [line] &&
          memoryCounter == grown
    {
      if !iterating.NotStarted? {
        return Fail(AppendAfterSort);
      }
      var counter := memoryCounter - listSize(|buffer|);
      var lines := buffer + [line];
      counter := counter + listSize(|lines|);
      counter := counter + lineSize(line);
      Buffered(lineSize, chunks, buffer, appended, line);
      buffer, memoryCounter, appended := lines, counter, appended + [line];
      if memoryCounter >= maxMemory {
        Flush();
      }
      r := Pass;
    }

    /// `_flush()`: a buffer that is not empty becomes a new partition,
    /// sorted; the buffer is emptied and the counter reset.
    method Flush()
      modifies this
      requires Inv() && iterating.NotStarted?
      ensures Valid() && iterating == NotStarted
      ensures partitions == old(partitions) + (if old(buffer) != [] then [SortBy(le, old(buffer))] else [])
      ensures buffer == [] && memoryCounter == listSize(0)
      ensures appended == old(appended)
    {
      if buffer != [] {
        Spill(le, partitions, chunks, buffer, appended);
        partitions, chunks, buffer, memoryCounter :=
          partitions + [SortBy(le, buffer)], chunks + [buffer], [], listSize(0);
      } else {
        buffer, memoryCounter := [], listSize(0);
      }
    }

    /// The first `__next__()`: with partitions on disk the buffer is spilled
    /// too and the partitions are merged; otherwise the buffer is sorted in
    /// memory and no partition is created.
    method Start()
      modifies this
      requires Valid() && iterating.NotStarted?
      ensures Valid() && !iterating.NotStarted?
      ensures appended == old(appended) && Remaining() == old(Remaining())
      ensures old(partitions) == [] ==>
        iterating == InMemory(SortBy(le, old(buffer))) &&
        partitions == [] && buffer == old(buffer)
      ensures old(partitions) != [] ==>
        iterating == Merging(partitions) && buffer == [] &&
        partitions == old(partitions) + (if old(buffer) != [] then [SortBy(le, old(buffer))] else [])
    {
      if partitions != [] {
        Flush();
        MergedPartitions(le, partitions, chunks, appended);
        iterating := Merging(partitions);
      } else {
        assert chunks == [] && Concat(chunks) == [];
        assert appended == buffer;
        iterating := InMemory(SortBy(le, buffer));
      }
    }

    /// `__next__()`: `None` where it raises `StopIteration`. Each call hands
    /// out the first line still to come; the first call starts iterating.
    method Next() returns (r: Option<string>)
      modifies this
      requires Valid()
      ensures Valid()
      ensures appended == old(appended) && !iterating.NotStarted?
      ensures old(iterating).NotStarted? && old(partitions) == [] ==>
        iterating.InMemory? && partitions == []
      ensures old(iterating).NotStarted? && old(partitions) != [] ==> iterating.Merging?
      ensures r == (if old(Remaining()) == [] then None else Some(old(Remaining())[0]))
      ensures Remaining() == if old(Remaining()) == [] then [] else old(Remaining())[1..]
    {
      if iterating.NotStarted? {
        Start();
      }
      r := Take();
    }

    /// One step of an iteration already started: the sorted buffer hands out
    /// its next line, or the merge its least head.
    method Take() returns (r: Option<string>)
      modifies this`iterating
      requires Valid() && !iterating.NotStarted?
      ensures Valid() && iterating.InMemory? == old(iterating).InMemory?
      ensures iterating.Merging? == old(iterating).Merging?
      ensures r == (if old(Remaining()) == [] then None else Some(old(Remaining())[0]))
      ensures Remaining() == if old(Remaining()) == [] then [] else old(Remaining())[1..]
    {
      match iterating {
        case InMemory(rest) =>
          if rest == [] {
            r := None;
          } else {
            r := Some(rest[0]);
            iterating := InMemory(rest[1..]);
          }
        case Merging(runs) =>
          var i := SelectRun(le, runs);
          if i < 0 {
            r := None;
          } else {
            r := Some(runs[i][0]);
            iterating := Merging(runs[i := runs[i][1..]]);
          }
      }
    }

    /// `for line in m`: `__iter__` returns the object itself and the loop
    /// calls `__next__` until it raises `StopIteration`. Drained from the
    /// start, the lines come out as `sorted` would return all of them:
    /// sorted, every appended line exactly once, ties in appending order.
    method Drain() returns (out: seq<string>)
      modifies this
      requires Valid()
      ensures Valid() && appended == old(appended)
      ensures out == old(Remaining()) && Remaining() == []
      ensures old(iterating).NotStarted? ==> out == SortBy(le, appended)
    {
      out := [];
      ghost var all := Remaining();
      var r := Next();
      while r.Some?
        invariant Valid() && appended == old(appended)
        invariant r.Some? ==> out + [r.value] + Remaining() == all
        invariant r.None? ==> out == all && Remaining() == []
        decreases |Remaining()| + (if r.Some? then 1 else 0)
      {
        ghost var rest := Remaining();
        out := out + [r.value];
        r := Next();
        if r.Some? {
          Shift(out, rest);
        }
      }
    }
  }

  /// The next line handed out moves from what remains to what was handed out.
  lemma Shift(out: seq<string>, rest: seq<string>)
    requires rest != []
    ensures out + [rest[0]] + rest[1..] == out + rest
  {
    assert [rest[0]] + rest[1..] == rest;
    AppendAssoc(out, [rest[0]], rest[1..]);
  }

  /// A new `MergeSort` that every line was appended to, in order.
  method Collect(le: (string, string) -> bool, maxMemory: int, lineSize: string -> nat,
                 listSize: nat -> nat, lines: seq<string>) returns (m: MergeSort)
    requires TotalPreorder(le)
    ensures fresh(m) && m.Valid() && m.iterating.NotStarted?
    ensures m.le == le && m.appended == lines
  {
    m := new MergeSort(le, maxMemory, lineSize, listSize);
    var k := 0;
    while k < |lines|
      invariant 0 <= k <= |lines|
      invariant m.Valid() && m.iterating.NotStarted? && m.appended == lines[..k]
      invariant m.le == le
    {
      var _ := m.Append(lines[k]);
      assert lines[..k + 1] == lines[..k] + [lines[k]];
      k := k + 1;
    }
    assert lines[..k] == lines;
  }

  /// Sorting a whole sequence of lines through a `MergeSort`, as the
  /// splitter does with the rows of a `COPY` block: whatever the ceiling
  /// and the size estimates, the result is the lines sorted by the key.
  method SortLines(le: (string, string) -> bool, maxMemory: int, lineSize: string -> nat,
                   listSize: nat -> nat, lines: seq<string>) returns (out: seq<string>)
    requires TotalPreorder(le)
    ensures out == SortBy(le, lines)
    ensures Sorted(le, out) && multiset(out) == multiset(lines)
  {
    var m := Collect(le, maxMemory, lineSize, listSize, lines);
    out := m.Drain();
    SortBySorted(le, lines);
    SortByPermutation(le, lines);
  }
}
