# splitfiles, modelled in Dafny

`splitfiles PATTERN TEMPLATE` reads standard input line by line. It cuts
each line at the occurrences of PATTERN, a literal string or, with
`--regexp`, a regular expression. It writes the pieces into a numbered
sequence of files: every cut closes the current file and opens the next one.
The file names come from TEMPLATE. Its single run of N `?` characters is
replaced by the file's index, zero-padded to N digits. A template with no
`?` gets `.?` appended. A template with more than one run is refused.
Existing files are skipped with a warning unless `--force` is given.

The model has four modules:

- `Wrappers` (wrappers.dfy): `Option` and `Result`.
- `Splitter` (splitter.dfy): the `Splitter` interface and its `New`
  dispatch. The literal splitter is Go's `strings.Split`, written out as a
  recursive function over strings. Its laws are proved: the round trip
  through `Join`, the number of parts, parts free of the separator, the
  first part, and the empty separator.
- `FilenameGeneration` (filename_generation.dfy):
  - the scan for runs of `?`;
  - `SetupFilenameTemplate`, as the function `Compile` and as a method of
    the `Sequencer` class, which holds the package-level `formatTemplate`
    and `currentIndex`;
  - rendering `%0Nd` by hand (`Decimal`, `ZeroPad`, `GenerateFilename`);
  - `NextFilename`.

  The compiled format is kept structurally, as prefix, width and suffix.
- `SplitFiles` (main.dfy): the `Program` class, whose fields are the
  sequencer, the names present on disk, the files created so far with
  their contents, and the warnings issued. Its methods are `openNextFile`,
  the rotate-and-write closure, `scanChunks` with its two loops, and
  `main`. Each method is proved against a function of its old state:
  - `OpenNextFile` against `OpenStep`;
  - `HandleChunk` against `HandleStep`;
  - `ScanChunks` against `Process` of `Events`.

  The lemmas about those functions state what the program promises:
  - Output reassembly: for a literal pattern, the created files joined by
    the pattern are exactly the input, each line followed by `"\n"`.
  - File count: for a non-empty pattern, there is one file more than there
    are occurrences of the pattern within the terminated lines, each line
    counted on its own. An occurrence that spans a line boundary makes no
    cut.
  - No overwriting: without `--force`, only names that did not exist are
    created, each under its own name.

The host is abstract:
- The file system is the set of names whose `os.Stat` does not report "not
  exist", together with the list of files this run created.
- Standard input is the list of lines the scanner delivered, already
  stripped of their terminators, plus the scanner's final error, if any.
- The regular-expression engine is given as parameters: whether the pattern
  compiles, and the function its `Split` computes.

The code prints no filenames and keeps no per-file line counts, so the
model has neither. In the model the set of
existing names is finite, and distinct indices give distinct names
(`FilenameInjective`), so the skip search `Draw` always ends. In the program
it need not end: any `os.Stat` error other than "not exist" counts as
existing. Some such errors hold for every candidate name. Then
`openNextFile` keeps recursing until the goroutine stack limit crashes the
program (see "## Left out").

## Model

| member | source | states |
|---|---|---|
| Splitter.New | splitter/splitter.go:39-45 | The literal variant always succeeds and returns the literal splitter for the pattern. The regexp variant succeeds exactly when the pattern compiles, and otherwise fails with that pattern. |
| Splitter.Index | splitter/splitter.go:35-37 | The leftmost occurrence of the separator, or none when it does not occur (strings.Index, used by Split). |
| Splitter.IndexUnique | splitter/splitter.go:35-37 | Index is the only result meeting this contract: an occurrence with none before it, or none at all. |
| Splitter.JoinSplit | splitter/splitter.go:35-37 | Joining the parts of Split(text, sep) with sep gives back text, for every sep including the empty one. |
| Splitter.AtLeastOnePart | splitter/splitter.go:35-37 | Split gives at least one part exactly when the text or the separator is non-empty (Split("", "") gives none). |
| Splitter.SplitWhole | splitter/splitter.go:35-37 | For a non-empty separator, Split(text, sep) == [text] exactly when sep does not occur in text. |
| Splitter.SplitCount | splitter/splitter.go:35-37 | For a non-empty separator, the number of parts is one more than strings.Count (non-overlapping, leftmost first). |
| Splitter.PartsAvoidSep | splitter/splitter.go:35-37 | For a non-empty separator, no part contains the separator. |
| Splitter.FirstPart | splitter/splitter.go:35-37 | The first part is a prefix of the text, ends at the leftmost occurrence (or is the whole text), and contains no earlier occurrence. |
| Splitter.SplitEmptySep | splitter/splitter.go:35-37 | An empty separator cuts after every character: there are \|text\| parts, and part k is [text[k]]. |
| Splitter.SplitOn | splitter/splitter.go:35-37 | strings.Split for a non-empty separator: cut at every leftmost, non-overlapping occurrence, dropping the occurrences. Its laws are JoinSplit, SplitWhole, SplitCount, PartsAvoidSep and FirstPart. |
| Splitter.Explode | splitter/splitter.go:35-37 | strings.Split for the empty separator: one part per character, none for "". Its law is SplitEmptySep. |
| Splitter.Split | splitter/splitter.go:35-37 | `characterSplitter.Split`, i.e. strings.Split(text, sep): Explode for the empty separator, SplitOn otherwise. |
| Splitter.Join | splitter/splitter.go:35-37 | strings.Join, the partner of Split in the round trip JoinSplit. |
| Splitter.Count | splitter/splitter.go:35-37 | strings.Count for a non-empty separator: the left-to-right, non-overlapping occurrences. It is the independent reference in SplitCount. |
| Splitter.SplitText | splitter/splitter.go:23-37 | The `Split` method of each variant: strings.Split for the literal splitter, the engine's split for the regexp one. |
| Splitter.SplitMethod | splitter/splitter.go:6-8 | The `Splitter` interface seen by its caller: the function its `Split` method computes. |
| Splitter.ExampleSplit | splitter/splitter.go:35-37 | Split("aXbXc\n", "X") == ["a", "b", "c\n"]. |
| FilenameGeneration.RunsFrom | filename_generation.go:18 | The maximal runs of `?` from a position on, left to right. Every run lies after that position, is non-empty and ends within the text. |
| FilenameGeneration.PlaceholderRuns | filename_generation.go:18 | All maximal runs of `?` in the template, as `FindAllString` of `\?+` finds them. Setup only tells zero, one and more apart, so the limit of 2 does not matter. |
| FilenameGeneration.Compile | filename_generation.go:17-30 | SetupFilenameTemplate as a function of the template: retry with `.?` when there is no run, refuse on two or more runs, otherwise put the directive in place of the run. Its laws are the Compile lemmas below. |
| FilenameGeneration.RunLength | filename_generation.go:18 | The run of `?` at i is all `?` and maximal: it ends at the end of the text or before a character other than `?`. |
| FilenameGeneration.RunsEmpty | filename_generation.go:18-20 | The `\?+` search finds no run exactly when the text holds no `?`. |
| FilenameGeneration.FirstRun | filename_generation.go:18 | The first run found is maximal and has no `?` before it; the other runs are the ones found after it. |
| FilenameGeneration.RunsOfSingle | filename_generation.go:18 | A template of the form prefix + `?`×n + suffix, with no `?` in prefix or suffix, has exactly that one run. |
| FilenameGeneration.CompileRetries | filename_generation.go:20-21 | A template without `?` compiles as the template with `.?` appended. |
| FilenameGeneration.CompileNoPlaceholder | filename_generation.go:20-21 | A template t without `?` compiles to prefix t + ".", width 1, empty suffix. The retry does not recurse again: t + ".?" has exactly one run. |
| FilenameGeneration.CompileRejects | filename_generation.go:18-23 | Setup refuses a template exactly when it holds two separate runs of `?` (both directions). |
| FilenameGeneration.CompileOneRun | filename_generation.go:24-28 | With exactly one run, the directive replaces that run: the text before it, its length, the text after it. |
| FilenameGeneration.CompileSingle | filename_generation.go:24-28 | prefix + `?`×N + suffix, with no `?` in prefix or suffix, compiles to prefix + `%0Nd` + suffix. |
| FilenameGeneration.CompileShape | filename_generation.go:17-30 | Conversely, any compiled format comes from the (extended) template: prefix and suffix hold no `?`, the width is at least 1, and the template is prefix + `?`×width + suffix. |
| FilenameGeneration.Sequencer.SetupFilenameTemplate | filename_generation.go:17-30 | On success returns nil and assigns the compiled format. On refusal returns the error and leaves formatTemplate as it was. |
| FilenameGeneration.Sequencer.NextFilename | filename_generation.go:32-35 | The counter grows by exactly 1 before rendering, and the name returned is the rendering of the new index. |
| FilenameGeneration.Decimal | filename_generation.go:37-39 | The decimal rendering of an index is non-empty and all digits. |
| FilenameGeneration.GenerateFilename | filename_generation.go:37-39 | `fmt.Sprintf(formatTemplate, index)`: prefix + ZeroPad(index, width) + suffix, or Go's `%!(EXTRA int=…)` before setup. Its laws are ZeroPadSpec and FilenameInjective. |
| FilenameGeneration.Sequencer.constructor | filename_generation.go:12-14 | Program start: no format assigned (Go's empty string) and the counter at 0. |
| FilenameGeneration.DecimalRoundTrip | filename_generation.go:37-39 | Reading the decimal rendering back gives the index. |
| FilenameGeneration.DecimalNoLeadingZero | filename_generation.go:37-39 | The decimal rendering starts with '0' exactly when the index is 0. |
| FilenameGeneration.DecimalFits | filename_generation.go:37-39 | An index fits in n digits exactly when it is below 10^n, so the padding applies exactly then. |
| FilenameGeneration.ZeroPad | filename_generation.go:37-39 | The padded field consists of digits only. |
| FilenameGeneration.ZeroPadSpec | filename_generation.go:37-39 | The padded field has length max(width, digits). It ends with the full decimal rendering (never truncated), is zeros before that, and reads back as the index. |
| FilenameGeneration.FilenameInjective | filename_generation.go:33-38 | With a fixed format (assigned or not), two indices give the same filename exactly when they are equal. |
| FilenameGeneration.HelloAccepted | filename_generation.go:23-28 | "hello_??.txt" compiles to prefix "hello_", width 2, suffix ".txt". |
| FilenameGeneration.HelloNames | filename_generation.go:37-39 | With that format, index 1 renders "hello_01.txt" and index 123 renders "hello_123.txt". |
| FilenameGeneration.HelloRefused | filename_generation.go:22-23 | "hello_?_?.txt" is refused with the multiple-groups error. |
| FilenameGeneration.PlainTemplate | filename_generation.go:20-21 | "out" compiles to "out." + `%01d`, and index 2 renders "out.2". |
| FilenameGeneration.UnsetRendering | filename_generation.go:37-39 | Rendering before setup gives Go's Sprintf with an empty format: "%!(EXTRA int=7)" for index 7. |
| SplitFiles.NotNamedYet | main.go:62-69 | A later index has a name that none of the indices 1..k has. |
| SplitFiles.NamesShrink | main.go:62-69 | Skipping an existing name leaves strictly fewer existing names untried, which bounds the skipping. |
| SplitFiles.Draw | main.go:62-73 | The skip search always ends on an index after the one it starts from. |
| SplitFiles.NextFree | main.go:62-73 | The index the skip search ends on comes after the start. |
| SplitFiles.NextFreeSpec | main.go:62-73 | With overwrite the search takes the next index. Without overwrite it ends on a name that does not exist, and every index passed over has a name that exists. |
| SplitFiles.SkippedSpec | main.go:67-69 | The skipped names are those of the indices between the search's start and end, in order, one each. |
| SplitFiles.DrawSpec | main.go:62-73 | The step-by-step search ends on NextFree's index. It adds exactly one warning per skipped name, in order, after the earlier warnings. |
| SplitFiles.OpenStepSpec | main.go:62-73 | openNextFile advances the counter and creates, with empty contents, the file of the index it settles on. Without overwrite that name did not exist, and each new warning names an existing name passed over, in index order. With overwrite it takes the next index with no warning. |
| SplitFiles.OpenStep | main.go:62-72 | openNextFile as a function of the state: skip as Draw does, then create the chosen name with empty contents. Its contract is OpenStepSpec. |
| SplitFiles.Program.constructor | main.go:19 | Program start: the --force setting, the names on disk, nothing created, no warning, a fresh sequencer with no format and the counter at 0. |
| SplitFiles.SkipExample | main.go:62-73 | With out.1 on disk and no --force, the first file is out.2, after one warning about out.1. |
| SplitFiles.ForceExample | main.go:67-71 | With --force, out.1 is taken over without a warning. |
| SplitFiles.Program.OpenNextFile | main.go:62-73 | The new state is OpenStep of the old one: counter, warnings, existing names and the list of created files. |
| SplitFiles.Program.DrawFreeName | main.go:63-69 | The loop draws names until one is free (or overwrite is on). The counter and warnings it leaves are those of Draw, and the name returned is that of the final index. |
| SplitFiles.Append | main.go:53 | `fmt.Fprint(writer, chunk)`: the chunk is added verbatim to the end of the open (last) file, and the other files are unchanged. |
| SplitFiles.HandleStep | main.go:41-55 | The callback always leaves a file open. |
| SplitFiles.Program.HandleChunk | main.go:41-55 | The new state is HandleStep of the old: on a new chunk the next file is opened first, then the fragment is appended verbatim to the open file. |
| SplitFiles.HandleStepOutput | main.go:41-55 | One callback extends the files joined by sep by the fragment, after a sep when it starts a new chunk. It adds exactly one file per new chunk and leaves all earlier files unchanged. |
| SplitFiles.Process | main.go:41-55 | However many callbacks are handled, a file stays open. |
| SplitFiles.ProcessOutput | main.go:41-55 | Over any list of callbacks, the joined files grow by the flattened events, and one file is added per new chunk. |
| SplitFiles.Terminated | main.go:81 | The scanned line with one `"\n"` put back. |
| SplitFiles.PartEvents | main.go:98-100 | The callbacks of the inner loop for the first n parts, in order. Its contract is PartEventsSpec. |
| SplitFiles.LineEvents | main.go:84-100 | The callbacks for one line: the whole line with false when it splits into one part, otherwise the parts. Its contract is LineEventsSpec. |
| SplitFiles.Events | main.go:80-102 | The callbacks for all lines in order, each line terminated and split on its own. Its laws are EventsOutput and OutputReassemblesInput. |
| SplitFiles.PartEventsSpec | main.go:98-100 | The callbacks for the first n parts: part i as it is, flagged new exactly when i > 0. |
| SplitFiles.LineEventsSpec | main.go:84-100 | A line that splits into one part is passed whole with newChunk false. Otherwise there is one callback per part, in order: the first continues the chunk and the rest start new ones (none for zero parts). |
| SplitFiles.LiteralLineCallbacks | main.go:80-88 | With the literal splitter, every scanned line (with its "\n") makes at least one callback, and the first one continues the open chunk. |
| SplitFiles.ExampleLine | main.go:82-100 | The line "aXbXc" split on "X" gives the callbacks ("a", false), ("b", true), ("c\n", true). |
| SplitFiles.ExampleEvents | main.go:80-100 | The input of the one line "aXbXc", split on "X", gives those three callbacks. |
| SplitFiles.FreshChunk | main.go:42-53 | A new chunk whose next name does not exist opens that name and writes the fragment to it, leaving the earlier files and the warnings as they were. |
| SplitFiles.ThreeChunks | main.go:35-55 | From a fresh start with nothing on disk, a continuing fragment and two new-chunk fragments give three files: the files of indices 1, 2 and 3, one fragment each. |
| SplitFiles.ExampleFiles | main.go:35-100 | The line "aXbXc" split on "X", with the template "out-?.txt" and nothing on disk, gives out-1.txt = "a", out-2.txt = "b" and out-3.txt = "c\n". |
| SplitFiles.LineOutput | main.go:84-100 | For at least one part, joining back to the line with the pattern (the literal split), the callbacks for one line flatten to the line itself, with as many new chunks as cuts. |
| SplitFiles.EventsOutput | main.go:80-100 | For a literal pattern, the callbacks of all lines flatten to the input with "\n" after every line. For a non-empty pattern, there is one new chunk per occurrence within each terminated line. |
| SplitFiles.Program.ScanChunks | main.go:75-108 | Every line gets "\n" put back and is split, and its callbacks come in order. The state after the loop is Process of every event, and the scanner's error is returned. |
| SplitFiles.Program.HandleLine | main.go:81-101 | One line: passed whole when it splits into one part, otherwise part by part. The state is Process over the line's events. |
| SplitFiles.Program.HandleParts | main.go:98-100 | The inner loop hands part i with newChunk == (i > 0). The state is Process over those events. |
| SplitFiles.Program.HandlePart | main.go:99 | One callback is one more step of Process. |
| SplitFiles.FirstFile | main.go:35-36 | Opening before reading creates exactly one file, and it is empty. |
| SplitFiles.EmptyInput | main.go:35-59 | Empty input still produces exactly one output file, and it is empty. |
| SplitFiles.OutputReassemblesInput | main.go:35-100 | For a literal pattern, the created files joined by the pattern, in creation order, are exactly the input with "\n" after every line. There is one file more than there are new chunks, which for a non-empty pattern is one more than the occurrences within each terminated line. |
| SplitFiles.OpenStepUnclobbered | main.go:62-72 | Without overwrite, opening the next file keeps every created name new (not on disk at the start) and distinct. |
| SplitFiles.HandleStepUnclobbered | main.go:41-55 | Without overwrite, one callback keeps every created name new and distinct. |
| SplitFiles.ProcessUnclobbered | main.go:41-55 | Without overwrite, any list of callbacks keeps every created name new and distinct. |
| SplitFiles.RunUnclobbered | main.go:35-72 | Without --force, a whole run writes only to files whose names did not exist when it started, each under its own name. |
| SplitFiles.Program.Run | main.go:23-60 | A refused template gives a usage error and nothing changes. A pattern that does not compile gives a pattern error. The format is already assigned by then, and nothing else changes. Otherwise the format is assigned as well, one file is opened before reading, and every line is routed. The result is the scanner's error, if any. |

## Left out

- The regular-expression engine (`regexp.Compile`, `Regexp.Split`, splitter/splitter.go:10-25): whether the pattern compiles and what its split computes are parameters of `New` and `Run`.
- The `?`-run search is written out by hand instead of using the `\?+` regexp (`FindAllString`, `ReplaceAllStringFunc`).
- Command-line parsing, version and usage output, and the text of the fatal and warning messages (kingpin). Each warning is recorded as the name it is about.
- The real file system and buffering. `os.Stat`, `os.Create`, the `bufio.Writer`, `Flush` and `Close` become a set of existing names and a list of created files with their contents. Any `Stat` result other than "not exist" counts as existing.
- Failure to create or write a file: creations and writes always succeed in the model. So the callback never returns an error. The abort of `scanChunks` on a single-part callback error is not modelled, and neither is the discarding of errors in the multi-part loop (main.go:99).
- A failed `os.Create` at a rotation is not fatal in the program, and the model has no creation failure, so it does not capture what follows:
  - The callback returns at main.go:47-48, before the `Fprint` at main.go:53, so the fragment of the failed rotation is written nowhere. The error is dropped at main.go:99.
  - Each later new-chunk fragment of the same line runs main.go:42-46 again. It flushes the old writer, calls `Close` on the nil file, and retries `openNextFile`, which may succeed.
  - Until a later new-chunk fragment retries `openNextFile` with success (main.go:46, 50), each continuation fragment goes to the old writer of the file already closed. It is lost at that writer's next `Flush`. After a successful retry, continuation fragments go to the new writer.
  - Once the old `bufio.Writer` overflows, its flush to the closed file fails and `Fprint` returns the error. On a one-part line that aborts `scanChunks` (main.go:85-87), and the program exits at main.go:56.
- Program.Run: on the read-error path the program exits at main.go:56, before the flush and close at main.go:58-59. Whatever the `bufio.Writer` still held for the last file (up to its buffer size) never reaches disk. The contents in `Run`'s ensures are what was handed to `Fprint`, not what is on disk after a read error.
- Endless skipping: the model's set of existing names is finite, and Draw always ends. `os.Stat` errors other than "not exist" count as existing (main.go:64-65). Some errors hold for every candidate name, for example a template below a regular file (ENOTDIR), a name component that is too long (ENAMETOOLONG), or a directory that cannot be searched (EACCES). Then `openNextFile` recurses in the program (main.go:67-69) without limit: Go does not remove tail calls, so the recursion keeps going until the goroutine stack limit crashes the program. The model cannot express such inputs.
- Byte strings: Go strings are bytes, and the model's strings are sequences of characters. Input that is not valid UTF-8 is outside the model. With an empty pattern, Go's `strings.Split` keeps each invalid byte as a part of its own.
- The internals of `bufio.Scanner` (its line-length limit, stripping `\r`, a missing final newline): the input is the list of lines it delivered plus its final error.
- `fmt.Sprintf` reinterpreting any other `%` in the template; the template is taken as free of `%`.
- Integer overflow of `currentIndex`; indices are unbounded naturals.
- `handleLine` (main.go:110-119), which nothing calls, and the unreachable `app.Fatalf` after the `return` at main.go:105.
- Printing filenames and per-file line counts: the code has neither.
- The recursion of `openNextFile` is a loop in `Program.DrawFreeName`. `Draw` keeps the recursive form, and the two are proved equal.
- `Program.HandleLine`, `Program.HandleParts` and `Program.HandlePart` are the body and the inner loop of `scanChunks`, factored out as methods.
