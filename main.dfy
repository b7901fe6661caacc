/**
 * The program: read lines, split each one, and route the fragments to a
 * sequence of output files, opening the next generated filename whenever a
 * fragment starts a new chunk.
 *
 * The host is abstract. The file system is the set of names whose `os.Stat`
 * does not report "not exist" plus the list of files this run created, each
 * with everything written to it; standard input is the list of lines the
 * scanner delivered (already stripped of their terminators) and the error the
 * scanner reported at the end, if any.
 */
module SplitFiles {
  import opened Wrappers
  import opened Splitter
  import opened FilenameGeneration

  /** One callback of `scanChunks`: a fragment and whether it starts a new chunk. */
  datatype Event = Event(fragment: string, newChunk: bool)

  /** A file created by this run and everything written to it. */
  datatype OutFile = OutFile(name: string, contents: string)

  /**
   * The state the program changes: the sequencer's `currentIndex`, the names
   * that exist on disk, the files created so far (the last one is the open
   * one) and the "already exists" warnings issued.
   */
  datatype State = State(index: nat, present: set<string>, files: seq<OutFile>, warnings: seq<string>)

  /** Why the program stops with an error. */
  datatype RunError =
    | UsageError(setup: SetupError)
    | PatternError(splitter: SplitterError)
    | ReadError(cause: string)

  // ---------------------------------------------------------------------
  // openNextFile, as a function of the state

  /** The names of the indices `1..k`. */
  function NamesUpTo(f: FormatTemplate, k: nat): set<string>
  {
    if k == 0 then {} else NamesUpTo(f, k - 1) + {GenerateFilename(f, k)}
  }

  /** A later index has a name that none of the indices `1..k` has. */
  lemma {:induction false} NotNamedYet(f: FormatTemplate, k: nat, j: nat)
    requires k < j
    ensures GenerateFilename(f, j) !in NamesUpTo(f, k)
  {
    if k > 0 {
      NotNamedYet(f, k - 1, j);
      FilenameInjective(f, k, j);
    }
  }

  /** Skipping an existing name leaves fewer existing names still to be tried. */
  lemma NamesShrink(f: FormatTemplate, present: set<string>, k: nat)
    requires GenerateFilename(f, k + 1) in present
    ensures |present - NamesUpTo(f, k + 1)| < |present - NamesUpTo(f, k)|
  {
    var name := GenerateFilename(f, k + 1);
    NotNamedYet(f, k, k + 1);
    assert present - NamesUpTo(f, k + 1) == (present - NamesUpTo(f, k)) - {name};
  }

  /** Where the search of `openNextFile` ends, and the warnings issued by then. */
  datatype Drawn = Drawn(index: nat, warnings: seq<string>)

  /**
   * `openNextFile` with the counter at `k` and the warnings `w` issued so
   * far: draw the next name; an existing one, with overwrite off, is warned
   * about and the search goes on from there.
   */
  function Draw(f: FormatTemplate, overwrite: bool, present: set<string>, k: nat, w: seq<string>): (r: Drawn)
    ensures k < r.index
    decreases |present - NamesUpTo(f, k)|
  {
    var name := GenerateFilename(f, k + 1);
    if name in present && !overwrite then
      NamesShrink(f, present, k);
      Draw(f, overwrite, present, k + 1, w + [name])
    else Drawn(k + 1, w)
  }

  /**
   * The index the search from `k` ends on, stated by itself: the next
   * index, with overwrite on; otherwise the first index after `k` whose
   * name does not exist.
   */
  function NextFree(f: FormatTemplate, overwrite: bool, present: set<string>, k: nat): (j: nat)
    ensures k < j
    decreases |present - NamesUpTo(f, k)|
  {
    if overwrite || GenerateFilename(f, k + 1) !in present then k + 1
    else
      NamesShrink(f, present, k);
      NextFree(f, overwrite, present, k + 1)
  }

  /**
   * With overwrite on the search takes the next index; otherwise it ends on
   * an index whose name does not exist, and every index it passes over has
   * a name that does.
   */
  lemma {:induction false} NextFreeSpec(f: FormatTemplate, overwrite: bool, present: set<string>, k: nat)
    ensures var j := NextFree(f, overwrite, present, k);
      && (overwrite ==> j == k + 1)
      && (!overwrite ==> GenerateFilename(f, j) !in present)
      && (forall i :: k < i < j ==> GenerateFilename(f, i) in present)
    decreases |present - NamesUpTo(f, k)|
  {
    if !overwrite && GenerateFilename(f, k + 1) in present {
      NamesShrink(f, present, k);
      NextFreeSpec(f, overwrite, present, k + 1);
    }
  }

  /** The names of the indices strictly between `lo` and `hi`, in order. */
  function Skipped(f: FormatTemplate, lo: nat, hi: nat): seq<string>
    decreases hi - lo
  {
    if hi <= lo + 1 then [] else [GenerateFilename(f, lo + 1)] + Skipped(f, lo + 1, hi)
  }

  /** The skipped names are those of the indices `lo + 1 .. hi - 1`, one each. */
  lemma {:induction false} SkippedSpec(f: FormatTemplate, lo: nat, hi: nat)
    ensures |Skipped(f, lo, hi)| == (if hi <= lo + 1 then 0 else hi - lo - 1)
    ensures forall i :: 0 <= i < |Skipped(f, lo, hi)| ==> Skipped(f, lo, hi)[i] == GenerateFilename(f, lo + 1 + i)
    decreases hi - lo
  {
    if hi > lo + 1 {
      var rest := Skipped(f, lo + 1, hi);
      SkippedSpec(f, lo + 1, hi);
      assert Skipped(f, lo, hi) == [GenerateFilename(f, lo + 1)] + rest;
      forall i | 1 <= i < |Skipped(f, lo, hi)|
        ensures Skipped(f, lo, hi)[i] == GenerateFilename(f, lo + 1 + i)
      {
        assert Skipped(f, lo, hi)[i] == rest[i - 1];
        assert (lo + 1) + 1 + (i - 1) == lo + 1 + i;
      }
    }
  }

  /**
   * The search, step by step, ends on the index `NextFree` names, having
   * added a warning for exactly the names passed over.
   */
  lemma {:induction false} DrawSpec(f: FormatTemplate, overwrite: bool, present: set<string>, k: nat, w: seq<string>)
    ensures var j := NextFree(f, overwrite, present, k);
      Draw(f, overwrite, present, k, w) == Drawn(j, w + Skipped(f, k, j))
    decreases |present - NamesUpTo(f, k)|
  {
    var name := GenerateFilename(f, k + 1);
    if name in present && !overwrite {
      NamesShrink(f, present, k);
      var j := NextFree(f, overwrite, present, k + 1);
      DrawSpec(f, overwrite, present, k + 1, w + [name]);
      assert NextFree(f, overwrite, present, k) == j;
      assert Skipped(f, k, j) == [name] + Skipped(f, k + 1, j);
      ConcatAssoc(w, [name], Skipped(f, k + 1, j));
    } else {
      assert w + Skipped(f, k, k + 1) == w;
    }
  }

  /** `openNextFile`: skip the existing names (with a warning each), then create the next one. */
  function OpenStep(f: FormatTemplate, overwrite: bool, s: State): State
  {
    var d := Draw(f, overwrite, s.present, s.index, s.warnings);
    var name := GenerateFilename(f, d.index);
    State(d.index, s.present + {name}, s.files + [OutFile(name, "")], d.warnings)
  }

  /**
   * `openNextFile` moves the counter forward and creates the file of the
   * index it settles on. With overwrite off that name did not exist and a
   * warning names each existing name passed over; with overwrite on the
   * next index is taken and nothing is skipped.
   */
  lemma OpenStepSpec(f: FormatTemplate, overwrite: bool, s: State)
    ensures var r := OpenStep(f, overwrite, s);
      var name := GenerateFilename(f, r.index);
      && s.index < r.index
      && r.present == s.present + {name}
      && r.files == s.files + [OutFile(name, "")]
      && (!overwrite ==> name !in s.present)
      && (overwrite ==> r.index == s.index + 1 && r.warnings == s.warnings)
      && |r.warnings| == |s.warnings| + (r.index - s.index - 1)
      && r.warnings[..|s.warnings|] == s.warnings
      && (forall i :: |s.warnings| <= i < |r.warnings| ==>
            r.warnings[i] == GenerateFilename(f, s.index + 1 + (i - |s.warnings|)) && r.warnings[i] in s.present)
  {
    var j := NextFree(f, overwrite, s.present, s.index);
    DrawSpec(f, overwrite, s.present, s.index, s.warnings);
    NextFreeSpec(f, overwrite, s.present, s.index);
    SkippedSpec(f, s.index, j);
    var r := OpenStep(f, overwrite, s);
    assert r.warnings == s.warnings + Skipped(f, s.index, j);
    forall i | |s.warnings| <= i < |r.warnings|
      ensures r.warnings[i] == GenerateFilename(f, s.index + 1 + (i - |s.warnings|)) && r.warnings[i] in s.present
    {
      assert r.warnings[i] == Skipped(f, s.index, j)[i - |s.warnings|];
    }
  }

  /** With `out.1` on disk and no `--force`, the first file created is `out.2`, after one warning. */
  lemma SkipExample()
    ensures var f := Directive("out.", 1, "");
      OpenStep(f, false, State(0, {"out.1"}, [], []))
        == State(2, {"out.1", "out.2"}, [OutFile("out.2", "")], ["out.1"])
  {
    var f := Directive("out.", 1, "");
    assert GenerateFilename(f, 1) == "out.1";
    assert GenerateFilename(f, 2) == "out.2";
    assert Draw(f, false, {"out.1"}, 1, ["out.1"]) == Drawn(2, ["out.1"]);
    assert [] + ["out.1"] == ["out.1"];
  }

  /** With `--force` the existing `out.1` is taken over, without a warning. */
  lemma ForceExample()
    ensures var f := Directive("out.", 1, "");
      OpenStep(f, true, State(0, {"out.1"}, [], []))
        == State(1, {"out.1"}, [OutFile("out.1", "")], [])
  {
    assert GenerateFilename(Directive("out.", 1, ""), 1) == "out.1";
  }

  /** `fmt.Fprint(writer, chunk)`: the chunk goes verbatim to the end of the open file. */
  function Append(files: seq<OutFile>, chunk: string): seq<OutFile>
    requires |files| >= 1
  {
    var last := files[|files| - 1];
    files[..|files| - 1] + [last.(contents := last.contents + chunk)]
  }

  /** The callback given to `scanChunks`: rotate on a new chunk, then write the fragment. */
  function HandleStep(f: FormatTemplate, overwrite: bool, s: State, e: Event): (r: State)
    requires |s.files| >= 1
    ensures |r.files| >= 1
  {
    var s1 := if e.newChunk then OpenStep(f, overwrite, s) else s;
    s1.(files := Append(s1.files, e.fragment))
  }

  /** The state after the callback has handled every event in order. */
  function Process(f: FormatTemplate, overwrite: bool, s: State, events: seq<Event>): (r: State)
    requires |s.files| >= 1
    ensures |r.files| >= 1
  {
    if events == [] then s
    else HandleStep(f, overwrite, Process(f, overwrite, s, events[..|events| - 1]), events[|events| - 1])
  }

  // ---------------------------------------------------------------------
  // scanChunks, as a function of the input

  /** The scanner strips the terminator; `scanChunks` puts one `"\n"` back. */
  function Terminated(line: string): string
  {
    line + "\n"
  }

  /** The callbacks for one line: the whole line when it splits into one part, else one per part. */
  function LineEvents(line: string, parts: seq<string>): seq<Event>
  {
    if |parts| == 1 then [Event(line, false)] else PartEvents(parts, |parts|)
  }

  /** Part 0 continues the current chunk; every later part starts a new one. */
  function PartEvents(parts: seq<string>, n: nat): seq<Event>
    requires n <= |parts|
  {
    if n == 0 then [] else PartEvents(parts, n - 1) + [Event(parts[n - 1], n - 1 > 0)]
  }

  /** Every callback `scanChunks` makes for the given lines, in order; each line is split on its own. */
  function Events(lines: seq<string>, split: string -> seq<string>): seq<Event>
  {
    if lines == [] then []
    else
      var line := Terminated(lines[|lines| - 1]);
      Events(lines[..|lines| - 1], split) + LineEvents(line, split(line))
  }

  /** The input text: every line followed by `"\n"`. */
  function Input(lines: seq<string>): string
  {
    if lines == [] then [] else Input(lines[..|lines| - 1]) + Terminated(lines[|lines| - 1])
  }

  // ---------------------------------------------------------------------
  // Observing the output

  /** What each created file holds, in creation order. */
  function Contents(files: seq<OutFile>): (cs: seq<string>)
    ensures |cs| == |files|
  {
    if files == [] then [] else Contents(files[..|files| - 1]) + [files[|files| - 1].contents]
  }

  /** The text an event contributes once the files are joined by `sep`. */
  function Piece(e: Event, sep: string): string
  {
    if e.newChunk then sep + e.fragment else e.fragment
  }

  /** The events' fragments, with `sep` in front of every fragment that starts a new chunk. */
  function Flatten(events: seq<Event>, sep: string): string
  {
    if events == [] then [] else Flatten(events[..|events| - 1], sep) + Piece(events[|events| - 1], sep)
  }

  /** The number of events that start a new chunk. */
  function NewChunks(events: seq<Event>): nat
  {
    if events == [] then 0
    else NewChunks(events[..|events| - 1]) + (if events[|events| - 1].newChunk then 1 else 0)
  }

  /** The number of occurrences of `sep` over all terminated lines. */
  function Occurrences(lines: seq<string>, sep: string): nat
    requires |sep| > 0
  {
    if lines == [] then 0
    else Occurrences(lines[..|lines| - 1], sep) + Count(Terminated(lines[|lines| - 1]), sep)
  }

  // ---------------------------------------------------------------------
  // The program's state, updated in place

  class Program {
    const overwrite: bool
    const sequencer: Sequencer
    var present: set<string>
    var files: seq<OutFile>
    var warnings: seq<string>

    ghost function Snapshot(): State
      reads this, sequencer
    {
      State(sequencer.currentIndex, present, files, warnings)
    }

    /** Program start: the names already on disk, nothing created, a fresh sequencer. */
    constructor (overwrite: bool, present: set<string>)
      ensures this.overwrite == overwrite && fresh(sequencer)
      ensures sequencer.formatTemplate == Unset && sequencer.currentIndex == 0
      ensures this.present == present && files == [] && warnings == []
    {
      this.overwrite := overwrite;
      sequencer := new Sequencer();
      this.present := present;
      files := [];
      warnings := [];
    }

    /**
     * `openNextFile`: draw names until one does not exist (or overwrite is
     * on), warning about each one skipped, and create that file.
     */
    method OpenNextFile()
      modifies this`present, this`files, this`warnings, sequencer`currentIndex
      ensures Snapshot() == OpenStep(sequencer.formatTemplate, overwrite, old(Snapshot()))
    {
      var filename := DrawFreeName();
      present := present + {filename};
      files := files + [OutFile(filename, "")];
    }

    /** The loop of `openNextFile`: draw names, warning about each one that exists. */
    method DrawFreeName() returns (filename: string)
      modifies this`warnings, sequencer`currentIndex
      ensures Drawn(sequencer.currentIndex, warnings)
        == Draw(sequencer.formatTemplate, overwrite, present, old(sequencer.currentIndex), old(warnings))
      ensures filename == GenerateFilename(sequencer.formatTemplate, sequencer.currentIndex)
    {
      ghost var f := sequencer.formatTemplate;
      ghost var goal := Draw(f, overwrite, present, sequencer.currentIndex, warnings);
      ghost var k := sequencer.currentIndex;
      filename := sequencer.NextFilename();
      while filename in present && !overwrite
        invariant sequencer.currentIndex == k + 1
        invariant filename == GenerateFilename(f, k + 1)
        invariant Draw(f, overwrite, present, k, warnings) == goal
        decreases goal.index - k
      {
        warnings := warnings + [filename];
        filename := sequencer.NextFilename();
        k := k + 1;
      }
    }

    /**
     * The callback: on a new chunk, close the open file and open the next
     * one; then write the fragment to the open file.
     */
    method HandleChunk(chunk: string, newChunk: bool)
      requires |files| >= 1
      modifies this`present, this`files, this`warnings, sequencer`currentIndex
      ensures Snapshot() == HandleStep(sequencer.formatTemplate, overwrite, old(Snapshot()), Event(chunk, newChunk))
    {
      if newChunk {
        OpenNextFile();
      }
      var last := files[|files| - 1];
      files := files[..|files| - 1] + [last.(contents := last.contents + chunk)];
    }

    /**
     * `scanChunks`: every line, with `"\n"` put back, is split; a line of one
     * part is passed whole, otherwise each part is passed in order. At the
     * end the scanner's error, if any, is returned.
     */
    method ScanChunks(lines: seq<string>, split: string -> seq<string>, readError: Option<string>)
      returns (err: Option<string>)
      requires |files| >= 1
      modifies this`present, this`files, this`warnings, sequencer`currentIndex
      ensures err == readError
      ensures Snapshot() == Process(sequencer.formatTemplate, overwrite, old(Snapshot()), Events(lines, split))
    {
      ghost var s0 := Snapshot();
      var k := 0;
      while k < |lines|
        invariant 0 <= k <= |lines|
        invariant |files| >= 1
        invariant Snapshot() == Process(sequencer.formatTemplate, overwrite, s0, Events(lines[..k], split))
      {
        HandleLine(lines[k] + "\n", split, s0, Events(lines[..k], split));
        EventsSnoc(lines, k, split);
        k := k + 1;
      }
      assert lines[..k] == lines;
      err := readError;
    }

    /** One line of `scanChunks`: passed whole when it splits into one part, else part by part. */
    method HandleLine(line: string, split: string -> seq<string>, ghost s0: State, ghost done: seq<Event>)
      requires |files| >= 1 && |s0.files| >= 1
      requires Snapshot() == Process(sequencer.formatTemplate, overwrite, s0, done)
      modifies this`present, this`files, this`warnings, sequencer`currentIndex
      ensures |files| >= 1
      ensures Snapshot() == Process(sequencer.formatTemplate, overwrite, s0, done + LineEvents(line, split(line)))
    {
      var parts := split(line);
      if |parts| == 1 {
        HandlePart(line, false, s0, done);
      } else {
        HandleParts(parts, s0, done);
      }
    }

    /**
     * The inner loop of `scanChunks` for a line of several parts: part 0
     * continues the current chunk and every later part starts a new one.
     */
    method HandleParts(parts: seq<string>, ghost s0: State, ghost done: seq<Event>)
      requires |files| >= 1 && |s0.files| >= 1
      requires Snapshot() == Process(sequencer.formatTemplate, overwrite, s0, done)
      modifies this`present, this`files, this`warnings, sequencer`currentIndex
      ensures Snapshot() == Process(sequencer.formatTemplate, overwrite, s0, done + PartEvents(parts, |parts|))
    {
      var i := 0;
      assert done + PartEvents(parts, 0) == done;
      while i < |parts|
        invariant 0 <= i <= |parts|
        invariant |files| >= 1
        invariant Snapshot() == Process(sequencer.formatTemplate, overwrite, s0, done + PartEvents(parts, i))
      {
        HandlePart(parts[i], i > 0, s0, done + PartEvents(parts, i));
        PartEventsTake(done, parts, i);
        i := i + 1;
      }
    }

    /** One callback, as one more step of `Process`. */
    method HandlePart(chunk: string, newChunk: bool, ghost s0: State, ghost done: seq<Event>)
      requires |files| >= 1 && |s0.files| >= 1
      requires Snapshot() == Process(sequencer.formatTemplate, overwrite, s0, done)
      modifies this`present, this`files, this`warnings, sequencer`currentIndex
      ensures |files| >= 1
      ensures Snapshot() == Process(sequencer.formatTemplate, overwrite, s0, done + [Event(chunk, newChunk)])
    {
      ghost var pre := Snapshot();
      HandleChunk(chunk, newChunk);
      ProcessStep(sequencer.formatTemplate, overwrite, s0, done, Event(chunk, newChunk), pre, Snapshot());
    }

    /**
     * `main` after argument parsing: set up the template, build the splitter,
     * open the first file before reading, route every line, and stop with
     * the read error if the scanner reported one.
     */
    method Run(template: string, pattern: string, patternIsRegexp: bool, regexpCompiles: bool,
               regexpSplit: string -> seq<string>, lines: seq<string>, readError: Option<string>)
      returns (failure: Option<RunError>)
      modifies this`present, this`files, this`warnings, sequencer
      ensures Compile(template).Failure? ==>
        && failure == Some(UsageError(Compile(template).error))
        && Snapshot() == old(Snapshot())
        && sequencer.formatTemplate == old(sequencer.formatTemplate)
      ensures Compile(template).Success? ==> sequencer.formatTemplate == Compile(template).value
      ensures Compile(template).Success? && New(pattern, patternIsRegexp, regexpCompiles).Failure? ==>
        && failure == Some(PatternError(New(pattern, patternIsRegexp, regexpCompiles).error))
        && Snapshot() == old(Snapshot())
      ensures Compile(template).Success? && New(pattern, patternIsRegexp, regexpCompiles).Success? ==>
        && var f := Compile(template).value;
        && var splitter := New(pattern, patternIsRegexp, regexpCompiles).value;
        && Snapshot() == Process(f, overwrite, OpenStep(f, overwrite, old(Snapshot())), Events(lines, SplitMethod(splitter, regexpSplit)))
        && failure == (if readError.Some? then Some(ReadError(readError.value)) else None)
    {
      var err := sequencer.SetupFilenameTemplate(template);
      if err.Some? {
        return Some(UsageError(err.value));
      }
      var splitter := New(pattern, patternIsRegexp, regexpCompiles);
      if splitter.Failure? {
        return Some(PatternError(splitter.error));
      }
      OpenNextFile();
      var scanErr := ScanChunks(lines, SplitMethod(splitter.value, regexpSplit), readError);
      if scanErr.Some? {
        return Some(ReadError(scanErr.value));
      }
      return None;
    }
  }

  /** The events of one more line follow the events of the lines before it. */
  lemma EventsSnoc(lines: seq<string>, k: nat, split: string -> seq<string>)
    requires k < |lines|
    ensures Events(lines[..k + 1], split) == Events(lines[..k], split) + LineEvents(lines[k] + "\n", split(lines[k] + "\n"))
  {
    assert lines[..k + 1][..k] == lines[..k];
  }

  /** The callbacks for the first `i + 1` parts extend those for the first `i`. */
  lemma PartEventsTake(done: seq<Event>, parts: seq<string>, i: nat)
    requires i < |parts|
    ensures done + PartEvents(parts, i + 1) == (done + PartEvents(parts, i)) + [Event(parts[i], i > 0)]
  {
  }

  /** Handling one more event is one more step of the callback. */
  lemma ProcessStep(f: FormatTemplate, overwrite: bool, s: State, events: seq<Event>, e: Event,
                    pre: State, post: State)
    requires |s.files| >= 1
    requires pre == Process(f, overwrite, s, events)
    requires post == HandleStep(f, overwrite, pre, e)
    ensures post == Process(f, overwrite, s, events + [e])
  {
    assert (events + [e])[..|events|] == events;
  }

  // ---------------------------------------------------------------------
  // What the output files hold

  lemma ContentsSnoc(files: seq<OutFile>, file: OutFile)
    ensures Contents(files + [file]) == Contents(files) + [file.contents]
  {
    assert (files + [file])[..|files|] == files;
  }

  lemma ContentsAppend(files: seq<OutFile>, chunk: string)
    requires |files| >= 1
    ensures var cs := Contents(files);
      Contents(Append(files, chunk)) == cs[..|cs| - 1] + [cs[|cs| - 1] + chunk]
  {
    var n := |files|;
    var init := files[..n - 1];
    var last := files[n - 1];
    ContentsSnoc(init, last.(contents := last.contents + chunk));
    assert Contents(files) == Contents(init) + [last.contents];
    assert Contents(files)[..n - 1] == Contents(init);
  }

  /** Writing to a file just created gives it the chunk as its contents. */
  lemma AppendNew(files: seq<OutFile>, name: string, chunk: string)
    ensures Append(files + [OutFile(name, "")], chunk) == files + [OutFile(name, chunk)]
  {
    assert (files + [OutFile(name, "")])[..|files|] == files;
    assert "" + chunk == chunk;
  }

  /**
   * One callback: the files joined by `sep` grow by the fragment (after a
   * `sep` when it starts a new chunk), a new chunk adds exactly one file,
   * and every file before the open one is left as it was.
   */
  lemma HandleStepOutput(f: FormatTemplate, overwrite: bool, s: State, e: Event, sep: string)
    requires |s.files| >= 1
    ensures var r := HandleStep(f, overwrite, s, e);
      && Join(Contents(r.files), sep) == Join(Contents(s.files), sep) + Piece(e, sep)
      && |r.files| == |s.files| + (if e.newChunk then 1 else 0)
      && r.files[..|s.files| - 1] == s.files[..|s.files| - 1]
  {
    if e.newChunk {
      var name := GenerateFilename(f, Draw(f, overwrite, s.present, s.index, s.warnings).index);
      assert OpenStep(f, overwrite, s).files == s.files + [OutFile(name, "")];
      NewChunkOutput(s.files, name, e.fragment, sep);
    } else {
      SameChunkOutput(s.files, e.fragment, sep);
    }
  }

  /** Writing to a file just created: one more part, after a separator. */
  lemma NewChunkOutput(files: seq<OutFile>, name: string, chunk: string, sep: string)
    requires |files| >= 1
    ensures var r := Append(files + [OutFile(name, "")], chunk);
      && Join(Contents(r), sep) == Join(Contents(files), sep) + (sep + chunk)
      && |r| == |files| + 1
      && r[..|files| - 1] == files[..|files| - 1]
  {
    AppendNew(files, name, chunk);
    ContentsSnoc(files, OutFile(name, chunk));
    JoinSnoc(Contents(files), chunk, sep);
    assert Join(Contents(files), sep) + sep + chunk == Join(Contents(files), sep) + (sep + chunk);
  }

  /** Writing to the open file: its contents, and so the joined text, grow by the chunk. */
  lemma SameChunkOutput(files: seq<OutFile>, chunk: string, sep: string)
    requires |files| >= 1
    ensures var r := Append(files, chunk);
      && Join(Contents(r), sep) == Join(Contents(files), sep) + chunk
      && |r| == |files|
      && r[..|files| - 1] == files[..|files| - 1]
  {
    ContentsAppend(files, chunk);
    JoinExtendLast(Contents(files), chunk, sep);
  }

  /**
   * Every callback in order: the joined files grow by the flattened events
   * and one file is added per new chunk.
   */
  lemma {:induction false} ProcessOutput(f: FormatTemplate, overwrite: bool, s: State, events: seq<Event>, sep: string)
    requires |s.files| >= 1
    ensures var r := Process(f, overwrite, s, events);
      && Join(Contents(r.files), sep) == Join(Contents(s.files), sep) + Flatten(events, sep)
      && |r.files| == |s.files| + NewChunks(events)
  {
    if events != [] {
      var init := events[..|events| - 1];
      var e := events[|events| - 1];
      var p := Process(f, overwrite, s, init);
      assert Process(f, overwrite, s, events) == HandleStep(f, overwrite, p, e);
      assert Flatten(events, sep) == Flatten(init, sep) + Piece(e, sep);
      assert NewChunks(events) == NewChunks(init) + (if e.newChunk then 1 else 0);
      ProcessOutput(f, overwrite, s, init, sep);
      HandleStepOutput(f, overwrite, p, e, sep);
      ConcatAssoc(Join(Contents(s.files), sep), Flatten(init, sep), Piece(e, sep));
    }
  }

  /** One more event adds its piece and, when it starts a chunk, one new chunk. */
  lemma FlattenSnoc(events: seq<Event>, e: Event, sep: string)
    ensures Flatten(events + [e], sep) == Flatten(events, sep) + Piece(e, sep)
  {
    assert (events + [e])[..|events|] == events;
  }

  lemma NewChunksSnoc(events: seq<Event>, e: Event)
    ensures NewChunks(events + [e]) == NewChunks(events) + (if e.newChunk then 1 else 0)
  {
    assert (events + [e])[..|events|] == events;
  }

  /** The events of two runs of callbacks, one after the other. */
  lemma {:induction false} FlattenAppend(a: seq<Event>, b: seq<Event>, sep: string)
    ensures Flatten(a + b, sep) == Flatten(a, sep) + Flatten(b, sep)
    ensures NewChunks(a + b) == NewChunks(a) + NewChunks(b)
    decreases |b|
  {
    if b == [] {
      assert a + b == a;
    } else {
      var init := b[..|b| - 1];
      var e := b[|b| - 1];
      assert b == init + [e];
      assert a + b == (a + init) + [e];
      FlattenAppend(a, init, sep);
      FlattenSnoc(a + init, e, sep);
      FlattenSnoc(init, e, sep);
      ConcatAssoc(Flatten(a, sep), Flatten(init, sep), Piece(e, sep));
      NewChunksSnoc(a + init, e);
      NewChunksSnoc(init, e);
    }
  }

  /** The callbacks for the first `n` parts spell out those parts joined by `sep`. */
  lemma {:induction false} FlattenParts(parts: seq<string>, n: nat, sep: string)
    requires 1 <= n <= |parts|
    ensures Flatten(PartEvents(parts, n), sep) == Join(parts[..n], sep)
  {
    if n == 1 {
      FirstPartEvent(parts, sep);
    } else {
      FlattenParts(parts, n - 1, sep);
      FlattenPartsStep(parts, n, sep);
    }
  }

  lemma FlattenPartsStep(parts: seq<string>, n: nat, sep: string)
    requires 2 <= n <= |parts|
    requires Flatten(PartEvents(parts, n - 1), sep) == Join(parts[..n - 1], sep)
    ensures Flatten(PartEvents(parts, n), sep) == Join(parts[..n], sep)
  {
    FlattenSnoc(PartEvents(parts, n - 1), Event(parts[n - 1], true), sep);
    JoinTake(parts, n, sep);
  }

  /** Of the callbacks for the first `n` parts, all but the first start a new chunk. */
  lemma {:induction false} PartsNewChunks(parts: seq<string>, n: nat)
    requires 1 <= n <= |parts|
    ensures NewChunks(PartEvents(parts, n)) == n - 1
  {
    if n == 1 {
      FirstPartEvent(parts, []);
    } else {
      PartsNewChunks(parts, n - 1);
      NewChunksSnoc(PartEvents(parts, n - 1), Event(parts[n - 1], true));
    }
  }

  lemma JoinTake(parts: seq<string>, n: nat, sep: string)
    requires 2 <= n <= |parts|
    ensures Join(parts[..n], sep) == Join(parts[..n - 1], sep) + sep + parts[n - 1]
  {
    JoinSnoc(parts[..n - 1], parts[n - 1], sep);
    assert parts[..n - 1] + [parts[n - 1]] == parts[..n];
  }

  lemma FirstPartEvent(parts: seq<string>, sep: string)
    requires 1 <= |parts|
    ensures PartEvents(parts, 1) == [Event(parts[0], false)]
    ensures Flatten(PartEvents(parts, 1), sep) == parts[0] == Join(parts[..1], sep)
    ensures NewChunks(PartEvents(parts, 1)) == 0
  {
    PartEventsOne(parts);
    FlattenOne(Event(parts[0], false), sep);
    assert parts[..1] == [parts[0]];
  }

  lemma PartEventsOne(parts: seq<string>)
    requires 1 <= |parts|
    ensures PartEvents(parts, 1) == [Event(parts[0], false)]
  {
    assert PartEvents(parts, 1) == [] + [Event(parts[0], false)];
  }

  lemma FlattenOne(e: Event, sep: string)
    ensures Flatten([e], sep) == Piece(e, sep)
    ensures NewChunks([e]) == if e.newChunk then 1 else 0
  {
    FlattenSnoc([], e, sep);
    NewChunksSnoc([], e);
    assert [] + [e] == [e];
  }

  /**
   * The callbacks for one line hand over the line itself, cut where the
   * splitter cut it, with as many new chunks as cuts.
   */
  lemma LineOutput(line: string, parts: seq<string>, sep: string)
    requires |parts| >= 1 && Join(parts, sep) == line
    ensures Flatten(LineEvents(line, parts), sep) == line
    ensures NewChunks(LineEvents(line, parts)) == |parts| - 1
  {
    if |parts| > 1 {
      FlattenParts(parts, |parts|, sep);
      PartsNewChunks(parts, |parts|);
      assert parts[..|parts|] == parts;
    } else {
      FlattenOne(Event(line, false), sep);
    }
  }

  /** A literal splitter: the events of all lines spell out the input, one new chunk per cut. */
  lemma {:induction false} EventsOutput(lines: seq<string>, sep: string, regexpSplit: string -> seq<string>)
    ensures Flatten(Events(lines, SplitMethod(CharacterSplitter(sep), regexpSplit)), sep) == Input(lines)
    ensures |sep| > 0 ==> NewChunks(Events(lines, SplitMethod(CharacterSplitter(sep), regexpSplit))) == Occurrences(lines, sep)
  {
    if lines != [] {
      var init := lines[..|lines| - 1];
      var line := Terminated(lines[|lines| - 1]);
      var parts := Split(line, sep);
      EventsOutput(init, sep, regexpSplit);
      AtLeastOnePart(line, sep);
      JoinSplit(line, sep);
      LineOutput(line, parts, sep);
      FlattenAppend(Events(init, SplitMethod(CharacterSplitter(sep), regexpSplit)), LineEvents(line, parts), sep);
      if |sep| > 0 {
        SplitCount(line, sep);
      }
    }
  }

  /** Opening the first file: one empty file. */
  lemma FirstFile(f: FormatTemplate, overwrite: bool, s: State, sep: string)
    requires s.files == []
    ensures |OpenStep(f, overwrite, s).files| == 1
    ensures Join(Contents(OpenStep(f, overwrite, s).files), sep) == ""
  {
    var name := GenerateFilename(f, Draw(f, overwrite, s.present, s.index, s.warnings).index);
    assert OpenStep(f, overwrite, s).files == [] + [OutFile(name, "")];
    ContentsSnoc([], OutFile(name, ""));
  }

  /**
   * The program's promise for a literal separator: after the first file is
   * opened and every line is handled, the created files joined by the
   * separator, in creation order, are exactly the input, and there is one
   * file more than there are occurrences of the separator.
   */
  lemma OutputReassemblesInput(f: FormatTemplate, overwrite: bool, s: State, lines: seq<string>, sep: string,
                               regexpSplit: string -> seq<string>)
    requires s.files == []
    ensures var out := Process(f, overwrite, OpenStep(f, overwrite, s), Events(lines, SplitMethod(CharacterSplitter(sep), regexpSplit)));
      && Join(Contents(out.files), sep) == Input(lines)
      && |out.files| == 1 + NewChunks(Events(lines, SplitMethod(CharacterSplitter(sep), regexpSplit)))
      && (|sep| > 0 ==> |out.files| == 1 + Occurrences(lines, sep))
  {
    var first := OpenStep(f, overwrite, s);
    FirstFile(f, overwrite, s, sep);
    ProcessOutput(f, overwrite, first, Events(lines, SplitMethod(CharacterSplitter(sep), regexpSplit)), sep);
    EventsOutput(lines, sep, regexpSplit);
  }

  // ---------------------------------------------------------------------
  // The callbacks of one line

  /** The callbacks for the first `n` parts: part `i` as it is, a new chunk from part 1 on. */
  lemma {:induction false} PartEventsSpec(parts: seq<string>, n: nat)
    requires n <= |parts|
    ensures |PartEvents(parts, n)| == n
    ensures forall i :: 0 <= i < n ==> PartEvents(parts, n)[i] == Event(parts[i], i > 0)
  {
    if n > 0 {
      PartEventsSpec(parts, n - 1);
      assert PartEvents(parts, n) == PartEvents(parts, n - 1) + [Event(parts[n - 1], n - 1 > 0)];
    }
  }

  /**
   * The callbacks `scanChunks` makes for one line: the whole line, not a new
   * chunk, when the splitter gives one part; otherwise one per part, in
   * order, the first continuing the current chunk and every other starting
   * a new one (none at all for zero parts).
   */
  lemma LineEventsSpec(line: string, parts: seq<string>)
    ensures |parts| == 1 ==> LineEvents(line, parts) == [Event(line, false)]
    ensures |parts| != 1 ==> |LineEvents(line, parts)| == |parts|
    ensures |parts| != 1 ==> forall i :: 0 <= i < |parts| ==> LineEvents(line, parts)[i] == Event(parts[i], i > 0)
  {
    PartEventsSpec(parts, |parts|);
  }

  /**
   * With the literal splitter every scanned line makes at least one
   * callback, the first of which continues the open chunk.
   */
  lemma LiteralLineCallbacks(line: string, sep: string)
    ensures var events := LineEvents(Terminated(line), Split(Terminated(line), sep));
      |events| >= 1 && !events[0].newChunk
  {
    var t := Terminated(line);
    AtLeastOnePart(t, sep);
    LineEventsSpec(t, Split(t, sep));
  }

  /** Empty input: the file opened before reading is the only one, and it stays empty. */
  lemma EmptyInput(f: FormatTemplate, overwrite: bool, s: State, split: string -> seq<string>)
    requires s.files == []
    ensures var out := Process(f, overwrite, OpenStep(f, overwrite, s), Events([], split));
      |out.files| == 1 && out.files[0].contents == ""
  {
    OpenStepSpec(f, overwrite, s);
  }

  /** The line `aXbXc` split on `X`: three callbacks, `a` continuing the open chunk. */
  lemma ExampleLine()
    ensures LineEvents("aXbXc\n", Split("aXbXc\n", "X")) == [Event("a", false), Event("b", true), Event("c\n", true)]
  {
    var parts := ["a", "b", "c\n"];
    ExampleSplit();
    LineEventsSpec("aXbXc\n", parts);
    var events := LineEvents("aXbXc\n", parts);
    assert events[0] == Event("a", false) && events[1] == Event("b", true) && events[2] == Event("c\n", true);
  }

  /**
   * The line `aXbXc` split on `X` with the template `out-?.txt` and nothing
   * on disk: three files, `out-1.txt` holding `a`, `out-2.txt` holding `b`
   * and `out-3.txt` holding `c` and the terminator.
   */
  lemma ExampleFiles(regexpSplit: string -> seq<string>)
    ensures var f := Directive("out-", 1, ".txt");
      var out := Process(f, false, OpenStep(f, false, State(0, {}, [], [])),
                         Events(["aXbXc"], SplitMethod(CharacterSplitter("X"), regexpSplit)));
      out.files == [OutFile("out-1.txt", "a"), OutFile("out-2.txt", "b"), OutFile("out-3.txt", "c\n")]
  {
    var f := Directive("out-", 1, ".txt");
    ExampleEvents(regexpSplit);
    ThreeChunks(f, "a", "b", "c\n");
    ExampleNames();
  }

  /** The template `out-?.txt` numbers its files `out-1.txt`, `out-2.txt`, `out-3.txt`. */
  lemma ExampleNames()
    ensures var f := Directive("out-", 1, ".txt");
      GenerateFilename(f, 1) == "out-1.txt" && GenerateFilename(f, 2) == "out-2.txt" && GenerateFilename(f, 3) == "out-3.txt"
  {
    var f := Directive("out-", 1, ".txt");
    assert GenerateFilename(f, 1) == "out-1.txt";
    assert GenerateFilename(f, 2) == "out-2.txt";
  }

  /** Three fragments, the last two starting new chunks, from a fresh start: three files, one fragment each. */
  lemma ThreeChunks(f: FormatTemplate, a: string, b: string, c: string)
    ensures var out := Process(f, false, OpenStep(f, false, State(0, {}, [], [])),
                               [Event(a, false), Event(b, true), Event(c, true)]);
      out.files == [OutFile(GenerateFilename(f, 1), a), OutFile(GenerateFilename(f, 2), b), OutFile(GenerateFilename(f, 3), c)]
  {
    var events := [Event(a, false), Event(b, true), Event(c, true)];
    var s0 := OpenStep(f, false, State(0, {}, [], []));
    FirstChunk(f, a);
    SecondChunk(f, a, b);
    ThirdChunk(f, a, b, c);
    assert events[0] == Event(a, false) && events[1] == Event(b, true) && events[2] == Event(c, true);
    ProcessThree(f, false, s0, events);
  }

  /** The second fragment opens the file of index 2. */
  lemma SecondChunk(f: FormatTemplate, a: string, b: string)
    ensures var n1, n2 := GenerateFilename(f, 1), GenerateFilename(f, 2);
      HandleStep(f, false, State(1, {n1}, [OutFile(n1, a)], []), Event(b, true))
        == State(2, {n1, n2}, [OutFile(n1, a), OutFile(n2, b)], [])
  {
    var n1, n2 := GenerateFilename(f, 1), GenerateFilename(f, 2);
    FilenameInjective(f, 1, 2);
    FreshChunk(f, State(1, {n1}, [OutFile(n1, a)], []), b);
    assert {n1} + {n2} == {n1, n2} && [OutFile(n1, a)] + [OutFile(n2, b)] == [OutFile(n1, a), OutFile(n2, b)];
  }

  /** The third fragment opens the file of index 3. */
  lemma ThirdChunk(f: FormatTemplate, a: string, b: string, c: string)
    ensures var n1, n2, n3 := GenerateFilename(f, 1), GenerateFilename(f, 2), GenerateFilename(f, 3);
      HandleStep(f, false, State(2, {n1, n2}, [OutFile(n1, a), OutFile(n2, b)], []), Event(c, true))
        == State(3, {n1, n2, n3}, [OutFile(n1, a), OutFile(n2, b), OutFile(n3, c)], [])
  {
    var n1, n2, n3 := GenerateFilename(f, 1), GenerateFilename(f, 2), GenerateFilename(f, 3);
    FilenameInjective(f, 1, 3);
    FilenameInjective(f, 2, 3);
    var files := [OutFile(n1, a), OutFile(n2, b)];
    FreshChunk(f, State(2, {n1, n2}, files, []), c);
    assert {n1, n2} + {n3} == {n1, n2, n3} && files + [OutFile(n3, c)] == [OutFile(n1, a), OutFile(n2, b), OutFile(n3, c)];
  }

  /** From a fresh start with nothing on disk, the first fragment goes to the file of index 1. */
  lemma FirstChunk(f: FormatTemplate, a: string)
    ensures var n1 := GenerateFilename(f, 1);
      && OpenStep(f, false, State(0, {}, [], [])) == State(1, {n1}, [OutFile(n1, "")], [])
      && HandleStep(f, false, OpenStep(f, false, State(0, {}, [], [])), Event(a, false))
           == State(1, {n1}, [OutFile(n1, a)], [])
  {
    var n1 := GenerateFilename(f, 1);
    assert Draw(f, false, {}, 0, []) == Drawn(1, []);
    assert OpenStep(f, false, State(0, {}, [], [])) == State(1, {n1}, [OutFile(n1, "")], []);
    AppendNew([], n1, a);
  }

  /** Three callbacks are three steps, in order. */
  lemma ProcessThree(f: FormatTemplate, overwrite: bool, s: State, events: seq<Event>)
    requires |s.files| >= 1 && |events| == 3
    ensures Process(f, overwrite, s, events)
      == HandleStep(f, overwrite, HandleStep(f, overwrite, HandleStep(f, overwrite, s, events[0]), events[1]), events[2])
  {
    assert events[..2] + [events[2]] == events;
    ProcessSnoc(f, overwrite, s, events[..2], events[2]);
    assert events[..1] + [events[1]] == events[..2];
    ProcessSnoc(f, overwrite, s, events[..1], events[1]);
    assert [] + [events[0]] == events[..1];
    ProcessSnoc(f, overwrite, s, [], events[0]);
  }

  /** One more callback is one more step. */
  lemma ProcessSnoc(f: FormatTemplate, overwrite: bool, s: State, events: seq<Event>, e: Event)
    requires |s.files| >= 1
    ensures Process(f, overwrite, s, events + [e]) == HandleStep(f, overwrite, Process(f, overwrite, s, events), e)
  {
    assert (events + [e])[..|events|] == events;
  }

  /** The callbacks of that input are those of its one line. */
  lemma ExampleEvents(regexpSplit: string -> seq<string>)
    ensures Events(["aXbXc"], SplitMethod(CharacterSplitter("X"), regexpSplit))
      == [Event("a", false), Event("b", true), Event("c\n", true)]
  {
    var split := SplitMethod(CharacterSplitter("X"), regexpSplit);
    var line := Terminated("aXbXc");
    assert line == "aXbXc\n";
    assert split(line) == Split(line, "X");
    ExampleLine();
    assert ["aXbXc"][..0] == [];
    assert Events(["aXbXc"], split) == [] + LineEvents(line, split(line));
  }

  /** A new chunk whose next name does not exist opens that name and writes the fragment to it. */
  lemma FreshChunk(f: FormatTemplate, s: State, fragment: string)
    requires |s.files| >= 1 && GenerateFilename(f, s.index + 1) !in s.present
    ensures var name := GenerateFilename(f, s.index + 1);
      HandleStep(f, false, s, Event(fragment, true))
        == State(s.index + 1, s.present + {name}, s.files + [OutFile(name, fragment)], s.warnings)
  {
    assert Draw(f, false, s.present, s.index, s.warnings) == Drawn(s.index + 1, s.warnings);
    AppendNew(s.files, GenerateFilename(f, s.index + 1), fragment);
  }

  // ---------------------------------------------------------------------
  // Without overwrite, no existing file is touched

  /**
   * Every created file has a name that did not exist at the start and
   * exists now, and no two created files share a name.
   */
  ghost predicate Unclobbered(original: set<string>, s: State)
  {
    && (forall i :: 0 <= i < |s.files| ==> s.files[i].name in s.present && s.files[i].name !in original)
    && (forall i, j :: 0 <= i < j < |s.files| ==> s.files[i].name != s.files[j].name)
    && original <= s.present
  }

  /** Writing to the open file keeps every file's name. */
  lemma AppendNames(files: seq<OutFile>, chunk: string)
    requires |files| >= 1
    ensures |Append(files, chunk)| == |files|
    ensures forall i :: 0 <= i < |files| ==> Append(files, chunk)[i].name == files[i].name
  {
  }

  /** With overwrite off, opening the next file creates a name not seen before. */
  lemma OpenStepUnclobbered(f: FormatTemplate, original: set<string>, s: State)
    requires Unclobbered(original, s)
    ensures Unclobbered(original, OpenStep(f, false, s))
  {
    OpenStepSpec(f, false, s);
  }

  lemma HandleStepUnclobbered(f: FormatTemplate, original: set<string>, s: State, e: Event)
    requires |s.files| >= 1 && Unclobbered(original, s)
    ensures Unclobbered(original, HandleStep(f, false, s, e))
  {
    var s1 := if e.newChunk then OpenStep(f, false, s) else s;
    if e.newChunk {
      OpenStepUnclobbered(f, original, s);
    }
    AppendNames(s1.files, e.fragment);
  }

  lemma {:induction false} ProcessUnclobbered(f: FormatTemplate, original: set<string>, s: State, events: seq<Event>)
    requires |s.files| >= 1 && Unclobbered(original, s)
    ensures Unclobbered(original, Process(f, false, s, events))
  {
    if events != [] {
      var init := events[..|events| - 1];
      ProcessUnclobbered(f, original, s, init);
      HandleStepUnclobbered(f, original, Process(f, false, s, init), events[|events| - 1]);
    }
  }

  /**
   * Without `--force`, a whole run creates only files whose names did not
   * exist when it started, each under its own name.
   */
  lemma RunUnclobbered(f: FormatTemplate, s: State, events: seq<Event>)
    requires s.files == []
    ensures |OpenStep(f, false, s).files| == 1
    ensures Unclobbered(s.present, Process(f, false, OpenStep(f, false, s), events))
  {
    assert Unclobbered(s.present, s);
    OpenStepUnclobbered(f, s.present, s);
    OpenStepSpec(f, false, s);
    ProcessUnclobbered(f, s.present, OpenStep(f, false, s), events);
  }
}
