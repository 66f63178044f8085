/// The append and flush scenario of `pgtricks/tests/test_mergesort.py`, with
/// the key `str` and the sizes `sys.getsizeof` reports on 64-bit CPython.
module MergeSortScenario {
  import opened Sorting
  import opened PyStr
  import opened MergeSorting

  /// `sys.getsizeof` of an ASCII string: a 49-byte header and one byte per
  /// character.
  function AsciiSize(s: string): nat
  {
    49 + |s|
  }

  /// The capacity of a list grown from empty by `n` appends: CPython
  /// reallocates to `(n + n // 8 + 6) & ~3` slots when the list is full.
  function Capacity(n: nat): nat
  {
    if n == 0 then 0
    else if n <= Capacity(n - 1) then Capacity(n - 1)
    else (n + n / 8 + 6) / 4 * 4
  }

  /// `sys.getsizeof` of a list of `n` items grown by appends: a 56-byte
  /// header and eight bytes per slot.
  function ListSize(n: nat): nat
  {
    56 + 8 * Capacity(n)
  }

  /// Python's string order is a total preorder.
  lemma StrLeTotal()
    ensures TotalPreorder(StrLe)
  {
    forall a, b ensures StrLe(a, b) || StrLe(b, a) {
      StrTrichotomy(a, b);
    }
    forall a, b, c | StrLe(a, b) && StrLe(b, c) ensures StrLe(a, c) {
      StrTrichotomy(a, b);
      StrTrichotomy(b, c);
      StrTrichotomy(a, c);
      if StrLess(a, b) && StrLess(b, c) {
        StrLessTransitive(a, b, c);
      }
    }
  }

  /// Two lines already in string order come out of `sorted` as they are.
  lemma SortedPair(a: string, b: string)
    requires StrLess(a, b)
    ensures SortBy(StrLe, [a, b]) == [a, b]
  {
    StrTrichotomy(a, b);
    assert [a, b][..1] == [a] && [a][..0] == [];
    assert SortBy(StrLe, [a]) == Insert(StrLe, a, []) == [a];
    assert StrLe(a, b) && [a][1..] == [];
    assert Insert(StrLe, b, [a]) == [a] + Insert(StrLe, b, []) == [a, b];
  }

  /// The lines of the scenario: each is 50 or 51 bytes, and they are in
  /// string order.
  lemma ScenarioLines(lf: string)
    requires lf == "\n" || lf == "\r\n"
    ensures AsciiSize("1" + lf) == AsciiSize("2" + lf) == AsciiSize("3" + lf) == 50 + |lf|
    ensures ListSize(0) == 56 && ListSize(1) == 88 && ListSize(2) == 88
    ensures SortBy(StrLe, ["1" + lf, "2" + lf]) == ["1" + lf, "2" + lf]
    ensures SortBy(StrLe, ["3" + lf]) == ["3" + lf]
  {
    assert Capacity(1) == 4 && Capacity(2) == 4;
    assert ("1" + lf)[0] == '1' && ("2" + lf)[0] == '2';
    assert StrLess("1" + lf, "2" + lf);
    SortedPair("1" + lf, "2" + lf);
  }

  /// A new `MergeSort` with the key `str`, a ceiling of 174 bytes and
  /// CPython's sizes, after a first line: it stays in the buffer.
  method AppendOne(l1: string) returns (m: MergeSort)
    requires AsciiSize(l1) <= 52
    ensures fresh(m) && m.Valid() && m.iterating == NotStarted
    ensures m.le == StrLe && m.maxMemory == 174 && m.lineSize == AsciiSize && m.listSize == ListSize
    ensures m.partitions == [] && m.buffer == [l1] && m.memoryCounter == 88 + AsciiSize(l1)
  {
    StrLeTotal();
    assert ListSize(0) == 56 && ListSize(1) == 88 by {
      assert Capacity(1) == 4;
    }
    m := new MergeSort(StrLe, 174, AsciiSize, ListSize);
    var _ := m.Append(l1);
  }

  /// After a second line: the two filled the buffer and were spilled as one
  /// sorted partition.
  method AppendTwo(l1: string, l2: string) returns (m: MergeSort)
    requires AsciiSize(l1) <= 52 && AsciiSize(l1) + AsciiSize(l2) >= 174 - 88
    requires SortBy(StrLe, [l1, l2]) == [l1, l2]
    ensures fresh(m) && m.Valid() && m.iterating == NotStarted
    ensures m.le == StrLe && m.maxMemory == 174 && m.lineSize == AsciiSize && m.listSize == ListSize
    ensures m.partitions == [[l1, l2]] && m.buffer == []
  {
    m := AppendOne(l1);
    assert ListSize(1) == 88 && ListSize(2) == 88 by {
      assert Capacity(1) == 4 && Capacity(2) == 4;
    }
    var _ := m.Append(l2);
  }

  /// With a ceiling of 174 bytes, the first line stays in the buffer, the
  /// second fills it so that both are spilled as one sorted partition, and
  /// the third stays in the new buffer; a flush then spills the third as a
  /// second partition. Lines end in `"\n"` or in `"\r\n"`.
  method AppendThree(lf: string) returns (spilled: seq<seq<string>>, buffered: seq<string>,
                                          flushed: seq<seq<string>>)
    requires lf == "\n" || lf == "\r\n"
    ensures spilled == [["1" + lf, "2" + lf]] && buffered == ["3" + lf]
    ensures flushed == [["1" + lf, "2" + lf], ["3" + lf]]
  {
    ScenarioLines(lf);
    var m := AppendTwo("1" + lf, "2" + lf);
    var _ := m.Append("3" + lf);
    spilled, buffered := m.partitions, m.buffer;
    m.Flush();
    flushed := m.partitions;
  }
}
