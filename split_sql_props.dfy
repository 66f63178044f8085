/// What `split_sql_file` promises about the files it writes: reading them in
/// the order of their leading number gives back the dump, every line once
/// and in place, except that the rows of each complete `COPY` block come
/// sorted; the prologue, table files and epilogue are opened as the dump's
/// comments direct.
module DumpSplittingProperties {
  import opened Wrappers
  import opened DigitStrings
  import opened Sorting
  import opened DumpSplitting

  /// The leading digits of a file name.
  function DigitPrefix(s: string): (d: string)
    ensures AllDigits(d)
  {
    if s != [] && IsDigit(s[0]) then [s[0]] + DigitPrefix(s[1..]) else []
  }

  /// The number a file name starts with.
  function Number(name: string): nat
  {
    Value(DigitPrefix(name))
  }

  lemma {:induction false} DigitPrefixOf(d: string, rest: string)
    requires AllDigits(d) && (rest == [] || !IsDigit(rest[0]))
    ensures DigitPrefix(d + rest) == d
  {
    if d != [] {
      assert (d + rest)[1..] == d[1..] + rest;
      DigitPrefixOf(d[1..], rest);
      assert [d[0]] + d[1..] == d;
    }
  }

  /// The number a `Numbered` name starts with is its number.
  lemma NumberOf(n: nat, rest: string)
    ensures Number(Numbered(n, rest)) == n
  {
    assert Numbered(n, rest) == Pad4(n) + ("_" + rest);
    DigitPrefixOf(Pad4(n), "_" + rest);
  }

  lemma PrologueNumber()
    ensures Number(Prologue) == 0
  {
    assert Prologue == "0000" + "_prologue.sql";
    DigitPrefixOf("0000", "_prologue.sql");
  }

  /// What the named files hold, one after the other.
  function Joined(files: map<string, seq<string>>, names: seq<string>): seq<string>
  {
    if names == [] then []
    else
      var last := names[|names| - 1];
      Joined(files, names[..|names| - 1]) + (if last in files then files[last] else [])
  }

  /// Changing a file that is not named leaves the joined text as it is.
  lemma {:induction false} JoinedFrame(files: map<string, seq<string>>, names: seq<string>,
                                       name: string, x: seq<string>)
    requires name !in names
    ensures Joined(files[name := x], names) == Joined(files, names)
  {
    if names != [] {
      JoinedFrame(files, names[..|names| - 1], name, x);
    }
  }

  /// The file names in increasing order of their numbers.
  ghost predicate Increasing(names: seq<string>)
  {
    forall i, j | 0 <= i < j < |names| :: Number(names[i]) < Number(names[j])
  }

  /// The dump as reading the split files should give it back: the lines
  /// written so far, and the rows of the `COPY` block being read.
  datatype Dump = Dump(out: seq<string>, rows: Option<seq<string>>)

  /// A line that starts a `COPY` block when it comes outside one: the
  /// splitter checks the header pattern only after the held lines, the
  /// search path and the data comments.
  predicate Header(p: Patterns, line: string)
  {
    !Held(line) && !StartsWith(line, SearchPath) && p.dataComment(line).None? && p.copyHeader(line)
  }

  /// One line of the dump: a line outside a block is kept where it is, the
  /// rows of a block are collected and put back sorted before the terminator.
  function DumpStep(p: Patterns, le: (string, string) -> bool, d: Dump, line: string): Dump
  {
    match d.rows
    case None => Dump(d.out + [line], if Header(p, line) then Some([]) else None)
    case Some(rows) =>
      if line == Terminator then Dump(d.out + SortBy(le, rows) + [line], None)
      else Dump(d.out, Some(rows + [line]))
  }

  function Text(p: Patterns, le: (string, string) -> bool, lines: seq<string>): Dump
  {
    if lines == [] then Dump([], None)
    else DumpStep(p, le, Text(p, le, lines[..|lines| - 1]), lines[|lines| - 1])
  }

  /// The files in the order they were opened: the prologue, and each name
  /// the output switched to.
  ghost function Opened(p: Patterns, le: (string, string) -> bool, lines: seq<string>): seq<string>
  {
    if lines == [] then [Prologue]
    else
      var st := Run(p, le, lines[..|lines| - 1]);
      var next := Step(p, le, st, lines[|lines| - 1]);
      Opened(p, le, lines[..|lines| - 1]) + (if next.output != st.output then [next.output] else [])
  }

  /// The splitter's state against the files opened and the dump read so far:
  /// the last file opened is the output and carries the counter's number,
  /// the files are exactly the opened ones, numbered in increasing order,
  /// and what they hold followed by the held lines is the dump so far.
  ghost predicate Consistent(st: Splitter, names: seq<string>, d: Dump)
  {
    names != [] && names[|names| - 1] == st.output &&
    Increasing(names) && Number(st.output) == st.counter &&
    (forall n :: n in st.files <==> n in names) &&
    Joined(st.files, names) + st.buf == d.out && st.rows == d.rows
  }

  /// Every opened file's number is at most the counter, so a name with a
  /// larger number is new.
  lemma NewName(st: Splitter, names: seq<string>, d: Dump, name: string)
    requires Consistent(st, names, d) && Number(name) > st.counter
    ensures name !in names && name != st.output
  {
  }

  /// Writing to the output appends to the joined text.
  lemma WriteStep(st: Splitter, names: seq<string>, out: seq<string>, lines: seq<string>)
    requires Consistent(st, names, Dump(out, st.rows))
    ensures st.output in st.files
    ensures Joined(WriteLines(st, lines).files, names) == out + lines
  {
    var init, o := names[..|names| - 1], st.output;
    assert names == init + [o];
    assert o !in init;
    JoinedFrame(st.files, init, o, st.files[o] + st.buf + lines);
    AppendAssoc(Joined(st.files, init), st.files[o], st.buf);
    AppendAssoc(Joined(st.files, init), st.files[o] + st.buf, lines);
  }

  /// Opening a new file adds nothing to the joined text.
  lemma OpenStep(st: Splitter, names: seq<string>, d: Dump, counter: nat, name: string)
    requires Consistent(st, names, d) && Number(name) == counter > st.counter
    ensures Consistent(NewOutput(st.(counter := counter), name), names + [name], d)
  {
    NewName(st, names, d, name);
    var next := NewOutput(st.(counter := counter), name);
    var names' := names + [name];
    assert names'[..|names'| - 1] == names;
    JoinedFrame(st.files, names, name, []);
    assert Joined(next.files, names') == Joined(st.files, names);
    forall i, j | 0 <= i < j < |names'| ensures Number(names'[i]) < Number(names'[j]) {
      if j == |names| && i < |names| - 1 {
        assert Number(names[i]) < Number(names[|names| - 1]);
      }
    }
  }

  /// A data comment opens the next table's file and writes the held lines
  /// and the comment to it.
  lemma TableStep(p: Patterns, le: (string, string) -> bool, st: Splitter, names: seq<string>,
                  d: Dump, line: string)
    requires Consistent(st, names, d) && st.rows.None?
    requires !Held(line) && !StartsWith(line, SearchPath) && p.dataComment(line).Some?
    ensures var next := Step(p, le, st, line);
      next.output != st.output && Consistent(next, names + [next.output], DumpStep(p, le, d, line))
  {
    var (schema, table) := p.dataComment(line).value;
    var r := Route(p, st, line);
    NumberOf(st.counter + 1, schema + "." + table + ".sql");
    OpenStep(st, names, d, st.counter + 1, r.output);
    NewName(st, names, d, r.output);
    WriteStep(r, names + [r.output], d.out, [line]);
  }

  /// The first other line after a table opens the epilogue and writes the
  /// held lines and the line to it.
  lemma EpilogueStep(p: Patterns, le: (string, string) -> bool, st: Splitter, names: seq<string>,
                     d: Dump, line: string)
    requires Consistent(st, names, d) && st.rows.None?
    requires !Held(line) && !StartsWith(line, SearchPath) && p.dataComment(line).None?
    requires !p.copyHeader(line) && !p.sequenceSet(line) && 1 <= st.counter < EpilogueCounter
    ensures var next := Step(p, le, st, line);
      next.output != st.output && Consistent(next, names + [next.output], DumpStep(p, le, d, line))
  {
    var r := Route(p, st, line);
    NumberOf(EpilogueCounter, "epilogue.sql");
    OpenStep(st, names, d, EpilogueCounter, r.output);
    NewName(st, names, d, r.output);
    WriteStep(r, names + [r.output], d.out, [line]);
  }

  /// A line that opens no file is written to the current one.
  lemma StayStep(p: Patterns, le: (string, string) -> bool, st: Splitter, names: seq<string>,
                 d: Dump, line: string)
    requires Consistent(st, names, d) && st.rows.None?
    requires !Held(line) && !StartsWith(line, SearchPath) && p.dataComment(line).None?
    requires p.copyHeader(line) || p.sequenceSet(line) || !(1 <= st.counter < EpilogueCounter)
    ensures var next := Step(p, le, st, line);
      next.output == st.output && Consistent(next, names, DumpStep(p, le, d, line))
  {
    WriteStep(Route(p, st, line), names, d.out, [line]);
  }

  /// The terminator writes the held lines, the sorted rows and itself to the
  /// current file.
  lemma BlockStep(p: Patterns, le: (string, string) -> bool, st: Splitter, names: seq<string>,
                  d: Dump, line: string)
    requires Consistent(st, names, d) && st.rows.Some? && line == Terminator
    ensures var next := Step(p, le, st, line);
      next.output == st.output && Consistent(next, names, DumpStep(p, le, d, line))
  {
    var o, sorted := st.output, SortBy(le, st.rows.value);
    var next := Step(p, le, st, line);
    WriteStep(st, names, d.out, sorted + [line]);
    TerminatorStep(p, le, st, line);
    AppendAssoc(st.files[o] + st.buf, sorted, [line]);
    assert next.files == WriteLines(st, sorted + [line]).files;
    AppendAssoc(d.out, sorted, [line]);
    assert Joined(next.files, names) + next.buf == d.out + sorted + [line];
    assert DumpStep(p, le, d, line) == Dump(d.out + sorted + [line], None);
  }

  /// One line keeps the state consistent with the opened files and the dump.
  lemma StepConsistent(p: Patterns, le: (string, string) -> bool, st: Splitter, names: seq<string>,
                       d: Dump, line: string)
    requires Consistent(st, names, d)
    ensures st.output in st.files
    ensures var next := Step(p, le, st, line);
      Consistent(next, names + (if next.output != st.output then [next.output] else []),
                 DumpStep(p, le, d, line))
  {
    assert names + [] == names;
    match st.rows
    case None =>
      if Held(line) {
        AppendAssoc(Joined(st.files, names), st.buf, [line]);
      } else if StartsWith(line, SearchPath) {
        WriteStep(st, names, d.out, [line]);
      } else if p.dataComment(line).Some? {
        TableStep(p, le, st, names, d, line);
      } else if !p.copyHeader(line) && !p.sequenceSet(line) && 1 <= st.counter < EpilogueCounter {
        EpilogueStep(p, le, st, names, d, line);
      } else {
        StayStep(p, le, st, names, d, line);
      }
    case Some(rows) =>
      if line == Terminator {
        BlockStep(p, le, st, names, d, line);
      }
  }

  /// After any prefix of the dump the state is consistent.
  lemma InitialConsistent(p: Patterns, le: (string, string) -> bool)
    ensures Consistent(Run(p, le, []), Opened(p, le, []), Text(p, le, []))
  {
    PrologueNumber();
    assert Joined(map[Prologue := []], [Prologue]) == [];
  }

  lemma {:induction false} RunConsistent(p: Patterns, le: (string, string) -> bool, lines: seq<string>)
    ensures Consistent(Run(p, le, lines), Opened(p, le, lines), Text(p, le, lines))
  {
    if lines == [] {
      InitialConsistent(p, le);
    } else {
      var init, line := lines[..|lines| - 1], lines[|lines| - 1];
      var st, names, d := Run(p, le, init), Opened(p, le, init), Text(p, le, init);
      RunConsistent(p, le, init);
      StepConsistent(p, le, st, names, d, line);
      var next := Step(p, le, st, line);
      assert Run(p, le, lines) == next;
      assert Opened(p, le, lines) == names + (if next.output != st.output then [next.output] else []);
      assert Text(p, le, lines) == DumpStep(p, le, d, line);
    }
  }

  /// The split keeps the dump: the files are exactly the opened ones, their
  /// numbers increase in the order they were opened (so no file is opened
  /// twice and none is truncated), the first is the prologue, and reading
  /// them in that order gives every line of the dump once, in place, but
  /// for the rows of each complete `COPY` block, which come sorted. The rows
  /// of a block the dump leaves unterminated are not written.
  lemma SplitKeepsDump(p: Patterns, le: (string, string) -> bool, lines: seq<string>)
    ensures var names, files := Opened(p, le, lines), Split(p, le, lines);
      names != [] && names[0] == Prologue && Increasing(names) &&
      (forall n :: n in files <==> n in names) &&
      Joined(files, names) == Text(p, le, lines).out
  {
    var st, names := Run(p, le, lines), Opened(p, le, lines);
    RunConsistent(p, le, lines);
    OpenedFirst(p, le, lines);
    WriteStep(st, names, Text(p, le, lines).out, []);
    assert st.files[st.output] + st.buf + [] == st.files[st.output] + st.buf;
  }

  lemma {:induction false} OpenedFirst(p: Patterns, le: (string, string) -> bool, lines: seq<string>)
    ensures Opened(p, le, lines) != [] && Opened(p, le, lines)[0] == Prologue
  {
    if lines != [] {
      OpenedFirst(p, le, lines[..|lines| - 1]);
    }
  }

  /// The state after one more line is one more step.
  lemma RunSnoc(p: Patterns, le: (string, string) -> bool, lines: seq<string>, line: string)
    ensures Run(p, le, lines + [line]) == Step(p, le, Run(p, le, lines), line)
  {
    assert (lines + [line])[..|lines|] == lines;
  }

  /// Without a data comment the counter stays at zero and the prologue
  /// stays the output.
  lemma {:induction false} PrologueRun(p: Patterns, le: (string, string) -> bool, lines: seq<string>)
    requires forall k | 0 <= k < |lines| :: p.dataComment(lines[k]).None?
    ensures Run(p, le, lines).output == Prologue && Run(p, le, lines).counter == 0
    ensures Opened(p, le, lines) == [Prologue]
  {
    if lines != [] {
      var init := lines[..|lines| - 1];
      PrologueRun(p, le, init);
      PrologueStep(p, le, Run(p, le, init), lines[|lines| - 1]);
      assert [Prologue] + [] == [Prologue];
    }
  }

  lemma PrologueStep(p: Patterns, le: (string, string) -> bool, st: Splitter, line: string)
    requires st.output in st.files && st.counter == 0 && p.dataComment(line).None?
    ensures Step(p, le, st, line).output == st.output && Step(p, le, st, line).counter == 0
  {
  }

  /// Without a data comment everything stays in the prologue: the split
  /// leaves the prologue alone, holding the dump.
  lemma PrologueOnly(p: Patterns, le: (string, string) -> bool, lines: seq<string>)
    requires forall k | 0 <= k < |lines| :: p.dataComment(lines[k]).None?
    ensures Split(p, le, lines) == map[Prologue := Text(p, le, lines).out]
  {
    var st := Run(p, le, lines);
    PrologueRun(p, le, lines);
    RunConsistent(p, le, lines);
    JoinedOne(st.files, Prologue);
    OnlyFile(st.files, Prologue, st.files[Prologue] + st.buf);
  }

  lemma JoinedOne(files: map<string, seq<string>>, name: string)
    ensures Joined(files, [name]) == if name in files then files[name] else []
  {
    assert [name][..0] == [];
  }

  /// A map whose only key is `name`, updated there.
  lemma OnlyFile(files: map<string, seq<string>>, name: string, x: seq<string>)
    requires forall n :: n in files <==> n in [name]
    ensures files[name := x] == map[name := x]
  {
  }

  /// Writing a line to a new file: the held lines come first.
  lemma OpenWrite(st: Splitter, counter: nat, name: string, line: string)
    ensures WriteLines(NewOutput(st.(counter := counter), name), [line]) ==
      st.(files := st.files[name := st.buf + [line]], output := name, counter := counter, buf := [])
  {
    assert [] + st.buf + [line] == st.buf + [line];
  }

  /// A data comment outside a block creates the next table's file, which
  /// did not exist, and writes to it the held lines and then the comment;
  /// no other file changes.
  lemma DataCommentOpens(p: Patterns, le: (string, string) -> bool, pre: seq<string>, line: string)
    requires Run(p, le, pre).rows.None? && !Held(line) && !StartsWith(line, SearchPath)
    requires p.dataComment(line).Some?
    ensures var st, next := Run(p, le, pre), Run(p, le, pre + [line]);
      var (schema, table) := p.dataComment(line).value;
      var name := TableFile(st.counter + 1, schema, table);
      name !in st.files && next.output == name && next.counter == st.counter + 1 &&
      next.files == st.files[name := st.buf + [line]] && next.buf == [] && next.rows.None?
  {
    var st := Run(p, le, pre);
    var (schema, table) := p.dataComment(line).value;
    var name := TableFile(st.counter + 1, schema, table);
    RunSnoc(p, le, pre, line);
    assert Step(p, le, st, line) == WriteLines(NewOutput(st.(counter := st.counter + 1), name), [line]);
    OpenWrite(st, st.counter + 1, name, line);
    RunConsistent(p, le, pre);
    NumberOf(st.counter + 1, schema + "." + table + ".sql");
    NewName(st, Opened(p, le, pre), Text(p, le, pre), name);
  }

  /// The first line after a table that is not held, a search path, a data
  /// comment, a `COPY` header or a sequence setting creates the epilogue,
  /// which did not exist, and writes to it the held lines and then itself;
  /// from then on the counter is past the epilogue's, so it is opened once.
  lemma EpilogueOpens(p: Patterns, le: (string, string) -> bool, pre: seq<string>, line: string)
    requires Run(p, le, pre).rows.None? && !Held(line) && !StartsWith(line, SearchPath)
    requires p.dataComment(line).None? && !p.copyHeader(line) && !p.sequenceSet(line)
    requires 1 <= Run(p, le, pre).counter < EpilogueCounter
    ensures var st, next := Run(p, le, pre), Run(p, le, pre + [line]);
      var name := EpilogueFile(EpilogueCounter);
      name !in st.files && next.output == name && next.counter == EpilogueCounter &&
      next.files == st.files[name := st.buf + [line]] && next.buf == [] && next.rows.None?
  {
    var st := Run(p, le, pre);
    var name := EpilogueFile(EpilogueCounter);
    RunSnoc(p, le, pre, line);
    assert Step(p, le, st, line) == WriteLines(NewOutput(st.(counter := EpilogueCounter), name), [line]);
    OpenWrite(st, EpilogueCounter, name, line);
    RunConsistent(p, le, pre);
    NumberOf(EpilogueCounter, "epilogue.sql");
    NewName(st, Opened(p, le, pre), Text(p, le, pre), name);
  }

  /// No file is opened twice; in particular the epilogue is opened at most
  /// once.
  lemma OpenedOnce(p: Patterns, le: (string, string) -> bool, lines: seq<string>)
    ensures var names := Opened(p, le, lines);
      forall i, j | 0 <= i < j < |names| :: names[i] != names[j]
  {
    RunConsistent(p, le, lines);
  }

  /// A `COPY` block outside a block: the header, then the block's rows
  /// sorted, then the terminator are written to the current file after the
  /// held lines, and nothing else changes.
  lemma CopyBlock(p: Patterns, le: (string, string) -> bool, pre: seq<string>, header: string,
                  rows: seq<string>)
    requires Run(p, le, pre).rows.None? && Header(p, header) && Terminator !in rows
    ensures var st := Run(p, le, pre);
      Run(p, le, pre + [header] + rows + [Terminator]) == st.(
        files := st.files[st.output := st.files[st.output] + st.buf + [header] + SortBy(le, rows) + [Terminator]],
        buf := [])
  {
    var st := Run(p, le, pre);
    var o, sorted := st.output, SortBy(le, rows);
    var w := st.files[o] + st.buf + [header];
    var started := st.(files := st.files[o := w], buf := [], rows := Some([]));
    RunSnoc(p, le, pre, header);
    HeaderStep(p, le, st, header);
    Collected(p, le, pre + [header], started, rows, |rows|);
    SnocSlice(pre, rows, 0);
    RunSnoc(p, le, pre + [header] + rows, Terminator);
    TerminatorStep(p, le, started.(rows := Some(rows)), Terminator);
    UpdateTwice(st.files, o, w, sorted, Terminator);
  }

  /// A `COPY` header is written after the held lines and starts a block.
  lemma HeaderStep(p: Patterns, le: (string, string) -> bool, st: Splitter, header: string)
    requires st.output in st.files && st.rows.None? && Header(p, header)
    ensures Step(p, le, st, header) == st.(files := st.files[st.output := st.files[st.output] + st.buf + [header]],
                                           buf := [], rows := Some([]))
  {
  }

  lemma UpdateTwice(files: map<string, seq<string>>, o: string, w: seq<string>, x: seq<string>, t: string)
    ensures files[o := w][o := w + [] + x + [t]] == files[o := w + x + [t]]
  {
    assert w + [] + x + [t] == w + x + [t];
  }

  /// Inside a block the rows are only collected.
  lemma {:induction false} Collected(p: Patterns, le: (string, string) -> bool, pre: seq<string>,
                                     st: Splitter, rows: seq<string>, k: nat)
    requires k <= |rows| && Terminator !in rows
    requires Run(p, le, pre) == st.(rows := Some([]))
    ensures Run(p, le, pre + rows[..k]) == st.(rows := Some(rows[..k]))
  {
    if k == 0 {
      assert pre + rows[..0] == pre;
    } else {
      var a, x := pre + rows[..k - 1], rows[k - 1];
      Collected(p, le, pre, st, rows, k - 1);
      RunSnoc(p, le, a, x);
      SnocSlice(pre, rows, k);
      assert x in rows;
      RowStep(p, le, st, rows[..k - 1], x);
      calc {
        Run(p, le, pre + rows[..k]);
        Run(p, le, a + [x]);
        Step(p, le, Run(p, le, a), x);
        Step(p, le, st.(rows := Some(rows[..k - 1])), x);
        st.(rows := Some(rows[..k - 1] + [x]));
        st.(rows := Some(rows[..k]));
      }
    }
  }

  lemma RowStep(p: Patterns, le: (string, string) -> bool, st: Splitter, rows: seq<string>, line: string)
    requires st.output in st.files && line != Terminator
    ensures Step(p, le, st.(rows := Some(rows)), line) == st.(rows := Some(rows + [line]))
  {
  }

  lemma SnocSlice(pre: seq<string>, rows: seq<string>, k: nat)
    requires k <= |rows|
    ensures rows[..|rows|] == rows
    ensures 0 < k ==> rows[..k - 1] + [rows[k - 1]] == rows[..k]
    ensures 0 < k ==> pre + rows[..k - 1] + [rows[k - 1]] == pre + rows[..k]
  {
    if k == 0 {
      return;
    }
    assert rows[..k - 1] + [rows[k - 1]] == rows[..k];
    AppendAssoc(pre, rows[..k - 1], [rows[k - 1]]);
  }
}
