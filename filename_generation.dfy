/**
 * Filename generation: a template holding one run of `?` characters is
 * compiled into a numeric directive (the run of length N becomes `%0Nd`), and
 * a process-wide counter, bumped before every rendering, numbers the
 * successive filenames.
 *
 * The compiled `formatTemplate` is kept structurally, as the text before the
 * directive, the padding width and the text after it; rendering writes the
 * zero padding out by hand.
 */
module FilenameGeneration {
  import opened Wrappers

  /** A maximal run of `?` in a template: where it starts and how long it is. */
  datatype Run = Run(start: nat, len: nat)

  /**
   * The package-level `formatTemplate`: unassigned (Go's empty string), or a
   * template with one `%0<width>d` directive between `prefix` and `suffix`.
   */
  datatype FormatTemplate =
    | Unset
    | Directive(prefix: string, width: nat, suffix: string)

  /** Why setup refused a template. */
  datatype SetupError = MultiplePlaceholderGroups

  /** The template holds no `?` at all. */
  predicate NoPlaceholder(t: string)
  {
    forall k :: 0 <= k < |t| ==> t[k] != '?'
  }

  /** `?` repeated `n` times. */
  function Marks(n: nat): string
  {
    seq(n, _ => '?')
  }

  /**
   * The template holds two separate runs of `?`: a `?`, later something
   * else, and later again a `?`.
   */
  ghost predicate HasTwoGroups(t: string)
  {
    exists x, y, z :: 0 <= x < y < z < |t| && t[x] == '?' && t[y] != '?' && t[z] == '?'
  }

  /** The template setup actually compiles: a template without `?` gets `.?` appended. */
  function Extended(t: string): string
  {
    if NoPlaceholder(t) then t + ".?" else t
  }

  // ---------------------------------------------------------------------
  // The scan for runs of `?` (the `\?+` search)

  /** The length of the run of `?` that starts at `i` (zero when `t[i]` is not `?`). */
  function RunLength(t: string, i: nat): (n: nat)
    requires i <= |t|
    ensures i + n <= |t|
    ensures forall k :: i <= k < i + n ==> t[k] == '?'
    ensures i + n == |t| || t[i + n] != '?'
    decreases |t| - i
  {
    if i < |t| && t[i] == '?' then 1 + RunLength(t, i + 1) else 0
  }

  /** The maximal runs of `?` in `t[i..]`, left to right. */
  function RunsFrom(t: string, i: nat): (runs: seq<Run>)
    requires i <= |t|
    ensures forall k :: 0 <= k < |runs| ==>
      i <= runs[k].start && 1 <= runs[k].len && runs[k].start + runs[k].len <= |t|
    decreases |t| - i
  {
    if i == |t| then []
    else if t[i] != '?' then RunsFrom(t, i + 1)
    else
      var n := RunLength(t, i);
      [Run(i, n)] + RunsFrom(t, i + n)
  }

  /** All maximal runs of `?` in the template. */
  function PlaceholderRuns(t: string): seq<Run>
  {
    RunsFrom(t, 0)
  }

  /** There are no runs left exactly when no `?` is left. */
  lemma {:induction false} RunsEmpty(t: string, i: nat)
    requires i <= |t|
    ensures RunsFrom(t, i) == [] <==> forall k :: i <= k < |t| ==> t[k] != '?'
    decreases |t| - i
  {
    if i < |t| && t[i] != '?' {
      RunsEmpty(t, i + 1);
    }
  }

  /**
   * The first run found from `i` is maximal: nothing before it from `i` is a
   * `?`, it is all `?`, the character after it is not a `?`, and the other
   * runs are those found after it.
   */
  lemma {:induction false} FirstRun(t: string, i: nat)
    requires i <= |t|
    requires RunsFrom(t, i) != []
    ensures var r := RunsFrom(t, i)[0];
      && (forall k :: i <= k < r.start ==> t[k] != '?')
      && (forall k :: r.start <= k < r.start + r.len ==> t[k] == '?')
      && (r.start + r.len == |t| || t[r.start + r.len] != '?')
      && RunsFrom(t, i)[1..] == RunsFrom(t, r.start + r.len)
    decreases |t| - i
  {
    if t[i] != '?' {
      FirstRun(t, i + 1);
    }
  }

  /** A template of the form prefix + `?`×n + suffix has exactly that one run. */
  lemma RunsOfSingle(t: string, p: string, n: nat, s: string)
    requires t == p + Marks(n) + s && 1 <= n
    requires NoPlaceholder(p) && NoPlaceholder(s)
    ensures PlaceholderRuns(t) == [Run(|p|, n)]
  {
    assert t[|p|] == '?';
    RunsEmpty(t, 0);
    FirstRun(t, 0);
    var r := PlaceholderRuns(t)[0];
    assert r.start == |p| by {
      assert t[r.start] == '?';
    }
    assert forall k :: |p| <= k < |p| + n ==> t[k] == '?';
    if |s| > 0 {
      assert t[|p| + n] == s[0];
    }
    assert r.len == n;
    RunsEmpty(t, |p| + n);
  }

  // ---------------------------------------------------------------------
  // SetupFilenameTemplate, as a function of the template

  /**
   * What setup makes of a template: one run of `?` becomes the directive, two
   * or more runs are refused, and no run at all retries with `.?` appended.
   */
  function Compile(template: string): (r: Result<FormatTemplate, SetupError>)
    decreases if NoPlaceholder(template) then 1 else 0
  {
    var runs := PlaceholderRuns(template);
    if |runs| == 0 then
      RunsEmpty(template, 0);
      assert (template + ".?")[|template| + 1] == '?';
      Compile(template + ".?")
    else if |runs| > 1 then
      Failure(MultiplePlaceholderGroups)
    else
      var run := runs[0];
      Success(Directive(template[..run.start], run.len, template[run.start + run.len..]))
  }

  /** With exactly one run, setup puts the directive in the run's place. */
  lemma CompileOneRun(t: string, r: Run)
    requires PlaceholderRuns(t) == [r]
    ensures r.start + r.len <= |t|
    ensures Compile(t) == Success(Directive(t[..r.start], r.len, t[r.start + r.len..]))
  {
  }

  /** Without a run, setup retries with `.?` appended. */
  lemma CompileRetries(t: string)
    requires NoPlaceholder(t)
    ensures Compile(t) == Compile(t + ".?")
  {
    RunsEmpty(t, 0);
  }

  /** The template with `.?` appended has its one run at the end. */
  lemma CompileExtended(t: string)
    requires NoPlaceholder(t)
    ensures PlaceholderRuns(t + ".?") == [Run(|t| + 1, 1)]
    ensures Compile(t + ".?") == Success(Directive(t + ".", 1, ""))
  {
    ExtendedShape(t);
    RunsOfSingle(t + ".?", t + ".", 1, "");
    CompileSingle(t + ".?", t + ".", 1, "");
  }

  /** Appending `.?` adds one mark after a text without `?`. */
  lemma ExtendedShape(t: string)
    requires NoPlaceholder(t)
    ensures NoPlaceholder(t + ".")
    ensures t + ".?" == (t + ".") + Marks(1) + ""
  {
    assert Marks(1) == "?";
  }

  /**
   * A template without `?` compiles as if `.?` had been appended, and the
   * retry does not recurse again: the extended template has exactly one run.
   */
  lemma CompileNoPlaceholder(t: string)
    requires NoPlaceholder(t)
    ensures PlaceholderRuns(t + ".?") == [Run(|t| + 1, 1)]
    ensures Compile(t) == Compile(t + ".?") == Success(Directive(t + ".", 1, ""))
  {
    CompileRetries(t);
    CompileExtended(t);
  }

  /** A template with one run of `n` marks compiles to the `%0nd` directive in its place. */
  lemma CompileSingle(t: string, p: string, n: nat, s: string)
    requires t == p + Marks(n) + s && 1 <= n
    requires NoPlaceholder(p) && NoPlaceholder(s)
    ensures Compile(t) == Success(Directive(p, n, s))
  {
    RunsOfSingle(t, p, n, s);
    assert t[..|p|] == p;
    assert t[|p| + n..] == s;
  }

  /**
   * Conversely, whatever setup compiles is the (extended) template with its one
   * run of marks replaced: the prefix and suffix hold no `?` and the width is
   * at least one.
   */
  lemma CompileShape(t: string)
    requires Compile(t).Success?
    ensures var d := Compile(t).value;
      && d.Directive? && 1 <= d.width
      && NoPlaceholder(d.prefix) && NoPlaceholder(d.suffix)
      && Extended(t) == d.prefix + Marks(d.width) + d.suffix
  {
    if NoPlaceholder(t) {
      CompileNoPlaceholder(t);
      assert t + ".?" == (t + ".") + Marks(1) + "";
    } else {
      RunsEmpty(t, 0);
      var runs := PlaceholderRuns(t);
      assert |runs| == 1;
      ShapeOfRun(t, runs[0]);
      CompileOneRun(t, runs[0]);
    }
  }

  /** A template whose only run is `r` is the marks of `r` between two texts without `?`. */
  lemma ShapeOfRun(t: string, r: Run)
    requires PlaceholderRuns(t) == [r]
    ensures 1 <= r.len && r.start + r.len <= |t|
    ensures NoPlaceholder(t[..r.start]) && NoPlaceholder(t[r.start + r.len..])
    ensures t == t[..r.start] + Marks(r.len) + t[r.start + r.len..]
  {
    FirstRun(t, 0);
    RunsEmpty(t, r.start + r.len);
    assert t[r.start..r.start + r.len] == Marks(r.len);
    assert t == t[..r.start] + t[r.start..r.start + r.len] + t[r.start + r.len..];
  }

  /** Setup refuses a template exactly when it holds two separate runs of `?`. */
  lemma CompileRejects(t: string)
    ensures Compile(t).Failure? <==> HasTwoGroups(t)
  {
    var runs := PlaceholderRuns(t);
    RunsEmpty(t, 0);
    if |runs| == 0 {
      CompileNoPlaceholder(t);
    } else {
      FirstRun(t, 0);
      var r := runs[0];
      var e := r.start + r.len;
      RunsEmpty(t, e);
      if |runs| == 1 {
        forall x, y, z | 0 <= x < y < z < |t| && t[x] == '?' && t[z] == '?'
          ensures t[y] == '?'
        {
          assert r.start <= x && z < e;
        }
      } else {
        FirstRun(t, e);
        var r2 := runs[1];
        assert t[r2.start] == '?';
        assert t[e] != '?';
        assert 0 <= r.start < e < r2.start < |t| && t[r.start] == '?';
      }
    }
  }

  // ---------------------------------------------------------------------
  // Rendering an index: `fmt.Sprintf` of the directive

  predicate IsDigit(c: char)
  {
    '0' <= c <= '9'
  }

  predicate AllDigits(s: string)
  {
    forall k :: 0 <= k < |s| ==> IsDigit(s[k])
  }

  function Digit(d: nat): (c: char)
    requires d < 10
  {
    (('0' as int) + d) as char
  }

  /** The decimal digits of `i`, without leading zeros (`"0"` for zero). */
  function Decimal(i: nat): (s: string)
    ensures 1 <= |s| && AllDigits(s)
  {
    if i < 10 then [Digit(i)] else Decimal(i / 10) + [Digit(i % 10)]
  }

  /** The number a string of decimal digits denotes: the inverse of `Decimal` on digit strings. */
  function Value(s: string): nat
    requires AllDigits(s)
  {
    if s == [] then 0 else 10 * Value(s[..|s| - 1]) + (s[|s| - 1] as int - '0' as int)
  }

  /** `n` zero characters. */
  function Zeros(n: nat): string
  {
    seq(n, _ => '0')
  }

  /** `i` in decimal, left-padded with zeros to at least `width` digits (`%0<width>d`). */
  function ZeroPad(i: nat, width: nat): (s: string)
    ensures AllDigits(s)
  {
    var d := Decimal(i);
    if |d| < width then Zeros(width - |d|) + d else d
  }

  /** `fmt.Sprintf(formatTemplate, index)`. An unassigned template renders as Go's `%!(EXTRA int=…)`. */
  function GenerateFilename(f: FormatTemplate, index: nat): string
  {
    match f
    case Unset => "%!(EXTRA int=" + Decimal(index) + ")"
    case Directive(prefix, width, suffix) => prefix + ZeroPad(index, width) + suffix
  }

  /** Reading back the decimal rendering gives the index. */
  lemma {:induction false} DecimalRoundTrip(i: nat)
    ensures Value(Decimal(i)) == i
  {
    if i >= 10 {
      DecimalRoundTrip(i / 10);
      var s := Decimal(i);
      assert s[..|s| - 1] == Decimal(i / 10);
    }
  }

  /** The decimal rendering has no leading zero, unless it is the single digit of zero. */
  lemma {:induction false} DecimalNoLeadingZero(i: nat)
    ensures Decimal(i)[0] == '0' <==> i == 0
  {
    if i >= 10 {
      DecimalNoLeadingZero(i / 10);
    }
  }

  function Pow10(n: nat): (p: nat)
    ensures 1 <= p
  {
    if n == 0 then 1 else 10 * Pow10(n - 1)
  }

  /** `i` fits in `n` digits exactly when it is below `10^n`. */
  lemma {:induction false} DecimalFits(i: nat, n: nat)
    requires 1 <= n
    ensures |Decimal(i)| <= n <==> i < Pow10(n)
  {
    if i >= 10 && n > 1 {
      DecimalFits(i / 10, n - 1);
    } else if i >= 10 {
      assert Pow10(1) == 10;
    } else {
      PowAtLeastTen(n);
    }
  }

  lemma {:induction false} PowAtLeastTen(n: nat)
    requires 1 <= n
    ensures 10 <= Pow10(n)
  {
    if n > 1 {
      PowAtLeastTen(n - 1);
    }
  }

  /** Leading zeros do not change the number a digit string denotes. */
  lemma {:induction false} ValueLeadingZeros(m: nat, s: string)
    requires AllDigits(s)
    ensures AllDigits(Zeros(m) + s) && Value(Zeros(m) + s) == Value(s)
    decreases |s|
  {
    var z := Zeros(m) + s;
    if s == [] {
      assert z == Zeros(m);
      ValueZeros(m);
    } else {
      assert z[..|z| - 1] == Zeros(m) + s[..|s| - 1];
      ValueLeadingZeros(m, s[..|s| - 1]);
    }
  }

  lemma {:induction false} ValueZeros(m: nat)
    ensures AllDigits(Zeros(m)) && Value(Zeros(m)) == 0
  {
    if m > 0 {
      assert Zeros(m)[..m - 1] == Zeros(m - 1);
      ValueZeros(m - 1);
    }
  }

  /**
   * The padded field is at least `width` digits long, ends with the full
   * decimal rendering (it never truncates), is zeros before that, and reads
   * back as the index.
   */
  lemma ZeroPadSpec(i: nat, width: nat)
    ensures var s := ZeroPad(i, width);
      && |s| == (if width < |Decimal(i)| then |Decimal(i)| else width)
      && s[|s| - |Decimal(i)|..] == Decimal(i)
      && (forall k :: 0 <= k < |s| - |Decimal(i)| ==> s[k] == '0')
      && Value(s) == i
  {
    var d := Decimal(i);
    DecimalRoundTrip(i);
    if |d| < width {
      ValueLeadingZeros(width - |d|, d);
    }
  }

  /** `p + a + s == p + b + s` forces `a == b`. */
  lemma MiddleCancel(p: string, a: string, b: string, s: string)
    requires p + a + s == p + b + s
    ensures a == b
  {
    var t := p + a + s;
    assert |a| == |b|;
    assert a == t[|p|..|p| + |a|];
    assert b == (p + b + s)[|p|..|p| + |b|];
  }

  /** With a fixed format, distinct indices give distinct filenames. */
  lemma FilenameInjective(f: FormatTemplate, i: nat, j: nat)
    ensures GenerateFilename(f, i) == GenerateFilename(f, j) <==> i == j
  {
    if GenerateFilename(f, i) == GenerateFilename(f, j) {
      match f
      case Unset =>
        MiddleCancel("%!(EXTRA int=", Decimal(i), Decimal(j), ")");
        DecimalRoundTrip(i);
        DecimalRoundTrip(j);
      case Directive(prefix, width, suffix) =>
        MiddleCancel(prefix, ZeroPad(i, width), ZeroPad(j, width), suffix);
        ZeroPadSpec(i, width);
        ZeroPadSpec(j, width);
    }
  }

  // ---------------------------------------------------------------------
  // Worked examples

  /** The accepted template of setup's own refusal message: `hello_??.txt` becomes `hello_%02d.txt`. */
  lemma HelloAccepted()
    ensures Compile("hello_??.txt") == Success(Directive("hello_", 2, ".txt"))
  {
    assert "hello_??.txt" == "hello_" + Marks(2) + ".txt";
    CompileSingle("hello_??.txt", "hello_", 2, ".txt");
  }

  /** Its filenames: `hello_01.txt` first, and an index too wide for the padding is not cut. */
  lemma HelloNames()
    ensures GenerateFilename(Directive("hello_", 2, ".txt"), 1) == "hello_01.txt"
    ensures GenerateFilename(Directive("hello_", 2, ".txt"), 123) == "hello_123.txt"
  {
    assert Zeros(1) == "0";
    assert Decimal(123) == Decimal(12) + ['3'];
  }

  /** The refused template of the same message: `hello_?_?.txt` has two runs of `?`. */
  lemma HelloRefused()
    ensures Compile("hello_?_?.txt") == Failure(MultiplePlaceholderGroups)
  {
    var t := "hello_?_?.txt";
    CompileRejects(t);
    assert t[6] == '?' && t[7] != '?' && t[8] == '?';
  }

  /** A template without `?` gets `.?` appended: `out` numbers files `out.1`, `out.2`, … */
  lemma PlainTemplate()
    ensures Compile("out") == Success(Directive("out.", 1, ""))
    ensures GenerateFilename(Directive("out.", 1, ""), 2) == "out.2"
  {
    CompileNoPlaceholder("out");
    assert "out" + "." == "out.";
  }

  /** Before setup, the format is empty and Go's `Sprintf` reports the unused operand. */
  lemma UnsetRendering()
    ensures GenerateFilename(Unset, 7) == "%!(EXTRA int=7)"
  {
  }

  // ---------------------------------------------------------------------
  // The package-level state: `formatTemplate` and `currentIndex`

  class Sequencer {
    var formatTemplate: FormatTemplate
    var currentIndex: nat

    /** Program start: no format assigned yet, counter at zero. */
    constructor ()
      ensures formatTemplate == Unset && currentIndex == 0
    {
      formatTemplate := Unset;
      currentIndex := 0;
    }

    /**
     * `SetupFilenameTemplate`: on success the compiled format is assigned; on
     * refusal an error is returned and the format is left as it was.
     */
    method SetupFilenameTemplate(template: string) returns (err: Option<SetupError>)
      modifies this`formatTemplate
      ensures Compile(template).Success? ==> err == None && formatTemplate == Compile(template).value
      ensures Compile(template).Failure? ==>
        err == Some(Compile(template).error) && formatTemplate == old(formatTemplate)
      decreases if NoPlaceholder(template) then 1 else 0
    {
      var matches := PlaceholderRuns(template);
      if |matches| == 0 {
        RunsEmpty(template, 0);
        assert (template + ".?")[|template| + 1] == '?';
        err := SetupFilenameTemplate(template + ".?");
      } else if |matches| > 1 {
        err := Some(MultiplePlaceholderGroups);
      } else {
        var run := matches[0];
        formatTemplate := Directive(template[..run.start], run.len, template[run.start + run.len..]);
        err := None;
      }
    }

    /** `NextFilename`: bump the counter by one, then render the new index. */
    method NextFilename() returns (name: string)
      modifies this`currentIndex
      ensures currentIndex == old(currentIndex) + 1
      ensures name == GenerateFilename(formatTemplate, currentIndex)
    {
      currentIndex := currentIndex + 1;
      name := GenerateFilename(formatTemplate, currentIndex);
    }
  }
}
