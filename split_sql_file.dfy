/// `split_sql_file` of `pgtricks/pg_dump_splitsort.py`: the lines of a
/// `pg_dump` file are routed to a prologue, one file per table and an
/// epilogue, and the rows of every `COPY ... FROM stdin;` block are written
/// sorted just before the block's terminator.
module DumpSplitting {
  import opened Wrappers
  import opened DigitStrings
  import opened Sorting
  import opened MergeSorting

  /// What the three regular expressions tell about a line: `DATA_COMMENT_RE`
  /// gives the schema and table of a data comment, `COPY_RE` recognises the
  /// header of a `COPY` block and `SEQUENCE_SET_RE` a sequence setting.
  datatype Patterns = Patterns(
    dataComment: string -> Option<(string, string)>,
    copyHeader: string -> bool,
    sequenceSet: string -> bool)

  const Prologue := "0000_prologue.sql"
  /// The counter value of the epilogue.
  const EpilogueCounter: nat := 9999
  const Terminator := "\\.\n"
  const SearchPath := "SET search_path = "

  predicate StartsWith(s: string, prefix: string)
  {
    |prefix| <= |s| && s[..|prefix|] == prefix
  }

  /// Lines held back in `buf` until the next other line arrives.
  predicate Held(line: string)
  {
    line == "\n" || line == "--\n"
  }

  /// `format(n, '04')`: the numeral of `n`, zero-padded to four digits.
  function Pad4(n: nat): (s: string)
    ensures AllDigits(s) && Value(s) == n && |s| >= 4
  {
    var d := ShowNat(n);
    ValueShowNat(n);
    if |d| >= 4 then d
    else
      var s := seq(4 - |d|, _ => '0') + d;
      assert s[4 - |d|..] == d;
      LeadingZerosValue(s, 4 - |d|);
      s
  }

  /// A file name made of a four-digit number, `_` and the rest of the name.
  function Numbered(n: nat, rest: string): string
  {
    Pad4(n) + "_" + rest
  }

  /// `'{counter:04}_{schema}.{table}.sql'`.
  function TableFile(counter: nat, schema: string, table: string): string
  {
    Numbered(counter, schema + "." + table + ".sql")
  }

  /// `'%04d_epilogue.sql' % counter`.
  function EpilogueFile(counter: nat): string
  {
    Numbered(counter, "epilogue.sql")
  }

  /// The splitter's variables: what each file written so far holds, the
  /// file being written (`output`), the held lines (`buf`), `counter`, and
  /// the rows of the `COPY` block being read (`sorted_data_lines`, `None`
  /// outside a block).
  datatype Splitter = Splitter(files: map<string, seq<string>>, output: string, buf: seq<string>,
                               counter: nat, rows: Option<seq<string>>)

  /// The state before the first line: the prologue is open.
  function Initial(): Splitter
  {
    Splitter(map[Prologue := []], Prologue, [], 0, None)
  }

  /// `writelines(lines)`: the held lines, then `lines`, to the current file.
  function WriteLines(st: Splitter, lines: seq<string>): (r: Splitter)
    requires st.output in st.files
  {
    st.(files := st.files[st.output := st.files[st.output] + st.buf + lines], buf := [])
  }

  /// `output = new_output(name)`: the file is created empty.
  function NewOutput(st: Splitter, name: string): Splitter
  {
    st.(files := st.files[name := []], output := name)
  }

  /// The decision taken on a line that is neither held nor a search path
  /// setting, before the line itself is written: a data comment opens the
  /// next table's file, a `COPY` header starts a block, and any other line
  /// but a sequence setting, after a table and before the epilogue, opens
  /// the epilogue.
  function Route(p: Patterns, st: Splitter, line: string): Splitter
  {
    match p.dataComment(line)
    case Some((schema, table)) =>
      NewOutput(st.(counter := st.counter + 1), TableFile(st.counter + 1, schema, table))
    case None =>
      if p.copyHeader(line) then st.(rows := Some([]))
      else if p.sequenceSet(line) then st
      else if 1 <= st.counter < EpilogueCounter then
        NewOutput(st.(counter := EpilogueCounter), EpilogueFile(EpilogueCounter))
      else st
  }

  /// One pass of the loop over the input's lines.
  function Step(p: Patterns, le: (string, string) -> bool, st: Splitter, line: string): (r: Splitter)
    requires st.output in st.files
    ensures r.output in r.files
  {
    match st.rows
    case None =>
      if Held(line) then st.(buf := st.buf + [line])
      else if StartsWith(line, SearchPath) then WriteLines(st, [line])
      else WriteLines(Route(p, st, line), [line])
    case Some(rows) =>
      if line == Terminator then WriteLines(WriteLines(st, SortBy(le, rows)), [line]).(rows := None)
      else st.(rows := Some(rows + [line]))
  }

  /// The state after the given lines.
  function Run(p: Patterns, le: (string, string) -> bool, lines: seq<string>): (r: Splitter)
    ensures r.output in r.files
  {
    if lines == [] then Initial()
    else Step(p, le, Run(p, le, lines[..|lines| - 1]), lines[|lines| - 1])
  }

  /// The files `split_sql_file` leaves: the held lines are flushed to the
  /// last file at the end of the input.
  function Split(p: Patterns, le: (string, string) -> bool, lines: seq<string>): map<string, seq<string>>
  {
    var st := Run(p, le, lines);
    st.files[st.output := st.files[st.output] + st.buf]
  }

  /// One pass of the loop on a line outside a `COPY` block; `copying` when
  /// the line is a block's header, for which a `MergeSort` is to be created.
  method Outside(p: Patterns, le: (string, string) -> bool, files0: map<string, seq<string>>,
                 output0: string, buf0: seq<string>, counter0: nat, line: string)
      returns (files: map<string, seq<string>>, output: string, buf: seq<string>, counter: nat,
               copying: bool)
    requires output0 in files0
    ensures Step(p, le, Splitter(files0, output0, buf0, counter0, None), line) ==
      Splitter(files, output, buf, counter, if copying then Some([]) else None)
  {
    files, output, buf, counter, copying := files0, output0, buf0, counter0, false;
    if line == "\n" || line == "--\n" {
      buf := buf + [line];
    } else if StartsWith(line, SearchPath) {
      files, buf := files[output := files[output] + buf + [line]], [];
    } else {
      match p.dataComment(line) {
        case Some((schema, table)) =>
          counter := counter + 1;
          output := TableFile(counter, schema, table);
          files := files[output := []];
        case None =>
          if p.copyHeader(line) {
            copying := true;
          } else if p.sequenceSet(line) {
          } else if 1 <= counter < EpilogueCounter {
            counter := EpilogueCounter;
            output := EpilogueFile(counter);
            files := files[output := []];
          }
      }
      files, buf := files[output := files[output] + buf + [line]], [];
    }
  }

  /// The state after `k + 1` lines is one step on from the state after `k`.
  lemma RunPrefix(p: Patterns, le: (string, string) -> bool, lines: seq<string>, k: nat)
    requires k < |lines|
    ensures Run(p, le, lines[..k + 1]) == Step(p, le, Run(p, le, lines[..k]), lines[k])
  {
    assert lines[..k + 1][..k] == lines[..k];
  }

  /// At the terminator the held lines, the sorted rows and the terminator
  /// are written in one go.
  lemma TerminatorStep(p: Patterns, le: (string, string) -> bool, st: Splitter, line: string)
    requires st.output in st.files && st.rows.Some? && line == Terminator
    ensures Step(p, le, st, line) == Splitter(
      st.files[st.output := st.files[st.output] + st.buf + SortBy(le, st.rows.value) + [line]],
      st.output, [], st.counter, None)
  {
    var written := st.files[st.output] + st.buf + SortBy(le, st.rows.value);
    assert written + [] + [line] == written + [line];
    assert st.files[st.output := written][st.output := written + [line]]
      == st.files[st.output := written + [line]];
  }

  /// The `MergeSort` collecting the rows of the block being read, against
  /// the splitter's state: `null` outside a block.
  ghost predicate Collecting(m: MergeSort?, st: Splitter, le: (string, string) -> bool)
    reads m
  {
    (st.rows.None? <==> m == null) &&
    (m != null ==> m.Valid() && m.le == le && m.iterating.NotStarted? && m.appended == st.rows.value)
  }

  /// One pass of the loop over the input's lines. Outside a block the line
  /// is routed, and a `COPY` header creates the `MergeSort`; inside, the
  /// terminator drains it and any other line is appended to it.
  method Feed(p: Patterns, le: (string, string) -> bool, maxMemory: int, lineSize: string -> nat,
              listSize: nat -> nat, ghost st: Splitter, files0: map<string, seq<string>>,
              output0: string, buf0: seq<string>, counter0: nat, sortedDataLines0: MergeSort?,
              line: string)
      returns (files: map<string, seq<string>>, output: string, buf: seq<string>, counter: nat,
               sortedDataLines: MergeSort?)
    modifies sortedDataLines0
    requires TotalPreorder(le) && st.output in st.files
    requires st.files == files0 && st.output == output0 && st.buf == buf0 && st.counter == counter0
    requires Collecting(sortedDataLines0, st, le)
    ensures Step(p, le, st, line) == Splitter(files, output, buf, counter, Step(p, le, st, line).rows)
    ensures Collecting(sortedDataLines, Step(p, le, st, line), le)
    ensures sortedDataLines == null || sortedDataLines == sortedDataLines0 || fresh(sortedDataLines)
  {
    sortedDataLines := sortedDataLines0;
    if sortedDataLines == null {
      assert st == Splitter(files0, output0, buf0, counter0, None);
      var copying;
      files, output, buf, counter, copying := Outside(p, le, files0, output0, buf0, counter0, line);
      if copying {
        sortedDataLines := new MergeSort(le, maxMemory, lineSize, listSize);
      }
    } else {
      output, counter := output0, counter0;
      if line == Terminator {
        var sorted := sortedDataLines.Drain();
        TerminatorStep(p, le, st, line);
        files, buf := files0[output := files0[output] + buf0 + sorted + [line]], [];
        sortedDataLines := null;
      } else {
        var _ := sortedDataLines.Append(line);
        files, buf := files0, buf0;
      }
    }
  }

  /// `split_sql_file(sql_filepath, max_memory)` on the lines of the file;
  /// the result is what each created file holds. The rows of a block are
  /// sorted by a `MergeSort` under the given key order.
  method SplitSqlFile(p: Patterns, le: (string, string) -> bool, maxMemory: int,
                      lineSize: string -> nat, listSize: nat -> nat, lines: seq<string>)
      returns (files: map<string, seq<string>>)
    requires TotalPreorder(le)
    ensures files == Split(p, le, lines)
  {
    var output := Prologue;
    files := map[output := []];
    var buf: seq<string> := [];
    var counter: nat := 0;
    var sortedDataLines: MergeSort? := null;
    ghost var st := Initial();
    var k := 0;
    while k < |lines|
      invariant 0 <= k <= |lines| && st == Run(p, le, lines[..k])
      invariant st.files == files && st.output == output && st.buf == buf && st.counter == counter
      invariant Collecting(sortedDataLines, st, le)
      invariant sortedDataLines != null ==> fresh(sortedDataLines)
    {
      var line := lines[k];
      RunPrefix(p, le, lines, k);
      files, output, buf, counter, sortedDataLines :=
        Feed(p, le, maxMemory, lineSize, listSize, st, files, output, buf, counter, sortedDataLines, line);
      st := Step(p, le, st, line);
      k := k + 1;
      assert st == Run(p, le, lines[..k]);
    }
    assert lines[..k] == lines;
    files := files[output := files[output] + buf];
  }
}
