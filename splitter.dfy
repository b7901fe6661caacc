/**
 * The splitter package: a `Splitter` turns one line of text into its ordered
 * fragments. The literal variant is Go's `strings.Split(text, sep)`, written
 * out here as a recursive function over `seq<char>`; the regular-expression
 * variant relies on a foreign engine and is represented only by its
 * construction outcome.
 */
module Splitter {
  import opened Wrappers

  /** `sep` occurs in `text` starting at index `i`. */
  predicate OccursAt(text: string, sep: string, i: nat)
  {
    i + |sep| <= |text| && text[i..i + |sep|] == sep
  }

  /** `sep` occurs somewhere in `text` (Go's `strings.Contains`). */
  predicate Contains(text: string, sep: string)
  {
    exists i: nat :: i <= |text| && OccursAt(text, sep, i)
  }

  /** The leftmost occurrence of `sep` in `text` (Go's `strings.Index`). */
  function Index(text: string, sep: string): (r: Option<nat>)
    ensures r.Some? ==> OccursAt(text, sep, r.value)
    ensures r.Some? ==> forall j: nat :: j < r.value ==> !OccursAt(text, sep, j)
    ensures r.None? ==> !Contains(text, sep)
    decreases |text|
  {
    if |text| < |sep| then None
    else if text[..|sep|] == sep then Some(0)
    else
      OccursShift(text, sep);
      match Index(text[1..], sep)
      case None => None
      case Some(j) => Some(j + 1)
  }

  /** An occurrence in `text[1..]` is an occurrence in `text` one place later. */
  lemma OccursShift(text: string, sep: string)
    requires |text| >= 1
    ensures forall j: nat :: OccursAt(text[1..], sep, j) <==> OccursAt(text, sep, j + 1)
    ensures forall j: nat :: 1 <= j ==> (OccursAt(text, sep, j) <==> OccursAt(text[1..], sep, j - 1))
  {
    forall j: nat | j + 1 + |sep| <= |text|
      ensures OccursAt(text[1..], sep, j) <==> OccursAt(text, sep, j + 1)
    {
      assert text[1..][j..j + |sep|] == text[j + 1..j + 1 + |sep|];
    }
  }

  /**
   * Go's `strings.Split(text, sep)` for a non-empty separator: the text is cut
   * at every leftmost, non-overlapping occurrence of `sep`, and the
   * occurrences themselves are dropped.
   */
  function SplitOn(text: string, sep: string): (parts: seq<string>)
    requires |sep| > 0
    decreases |text|
  {
    match Index(text, sep)
      case None => [text]
      case Some(i) => [text[..i]] + SplitOn(text[i + |sep|..], sep)
  }

  /** Go's `strings.Split(text, "")`: one part per character, none for "". */
  function Explode(text: string): (parts: seq<string>)
  {
    if text == [] then [] else [[text[0]]] + Explode(text[1..])
  }

  /** Go's `strings.Split(text, sep)`. */
  function Split(text: string, sep: string): (parts: seq<string>)
  {
    if sep == [] then Explode(text) else SplitOn(text, sep)
  }

  /** Go's `strings.Join(parts, sep)`: the parts with `sep` between neighbours. */
  function Join(parts: seq<string>, sep: string): string
  {
    if parts == [] then []
    else if |parts| == 1 then parts[0]
    else parts[0] + sep + Join(parts[1..], sep)
  }

  /**
   * Go's `strings.Count(text, sep)` for a non-empty separator: the number of
   * non-overlapping occurrences, found by scanning left to right.
   */
  function Count(text: string, sep: string): nat
    requires |sep| > 0
    decreases |text|
  {
    if |text| < |sep| then 0
    else if text[..|sep|] == sep then 1 + Count(text[|sep|..], sep)
    else Count(text[1..], sep)
  }

  /** The two variants behind the `Splitter` interface. */
  datatype Splitter =
    | CharacterSplitter(characters: string)
    | RegexpSplitter(pattern: string)

  /** A pattern that the regular-expression engine refuses to compile. */
  datatype SplitterError = InvalidPattern(pattern: string)

  /**
   * `New(pattern, patternIsRegexp)`. Whether `regexp.Compile` accepts the
   * pattern is decided by the foreign engine and is given as `regexpCompiles`.
   */
  function New(pattern: string, patternIsRegexp: bool, regexpCompiles: bool): (r: Result<Splitter, SplitterError>)
    ensures !patternIsRegexp ==> r == Success(CharacterSplitter(pattern))
    ensures patternIsRegexp ==> (r.Success? <==> regexpCompiles)
    ensures r.Success? && patternIsRegexp ==> r.value == RegexpSplitter(pattern)
    ensures r.Failure? ==> r.error == InvalidPattern(pattern)
  {
    if patternIsRegexp then
      if regexpCompiles then Success(RegexpSplitter(pattern)) else Failure(InvalidPattern(pattern))
    else Success(CharacterSplitter(pattern))
  }

  /**
   * `Splitter.Split(text)`. The literal variant is `Split`; the
   * regular-expression variant is the engine's split, given as `regexpSplit`.
   */
  function SplitText(s: Splitter, regexpSplit: string -> seq<string>, text: string): (parts: seq<string>)
  {
    match s
    case CharacterSplitter(characters) => Split(text, characters)
    case RegexpSplitter(_) => regexpSplit(text)
  }

  /** A splitter seen through its interface: the function its `Split` method computes. */
  function SplitMethod(s: Splitter, regexpSplit: string -> seq<string>): string -> seq<string>
  {
    text => SplitText(s, regexpSplit, text)
  }

  // ---------------------------------------------------------------------
  // Laws of the literal split

  /** Concatenation regroups freely (stated once, so that proofs need not rediscover it). */
  lemma ConcatAssoc<T>(a: seq<T>, b: seq<T>, c: seq<T>)
    ensures (a + b) + c == a + (b + c)
  {
  }

  /** Joining the parts of a split with the separator gives back the text. */
  lemma {:induction false} JoinSplit(text: string, sep: string)
    ensures Join(Split(text, sep), sep) == text
  {
    if sep == [] {
      JoinExplode(text);
    } else {
      JoinSplitOn(text, sep);
    }
  }

  lemma {:induction false} JoinExplode(text: string)
    ensures Join(Explode(text), []) == text
    ensures |Explode(text)| == |text|
  {
    if text != [] {
      JoinExplode(text[1..]);
      if |text| > 1 {
        assert [[text[0]]] + Explode(text[1..]) != [];
      }
      assert text == [text[0]] + text[1..];
    }
  }

  lemma {:induction false} JoinSplitOn(text: string, sep: string)
    requires |sep| > 0
    ensures Join(SplitOn(text, sep), sep) == text
    decreases |text|
  {
    match Index(text, sep)
    case None =>
    case Some(i) =>
      var rest := text[i + |sep|..];
      JoinSplitOn(rest, sep);
      SplitOnNonEmpty(rest, sep);
      JoinCons(text[..i], SplitOn(rest, sep), sep);
      CutAround(text, sep, i);
  }

  /** Joining a part in front of a non-empty list. */
  lemma JoinCons(x: string, rest: seq<string>, sep: string)
    requires |rest| >= 1
    ensures Join([x] + rest, sep) == x + sep + Join(rest, sep)
  {
    assert ([x] + rest)[1..] == rest;
  }

  /** An occurrence at `i` cuts the text into what precedes it, `sep` and what follows it. */
  lemma CutAround(text: string, sep: string, i: nat)
    requires OccursAt(text, sep, i)
    ensures text == text[..i] + sep + text[i + |sep|..]
  {
    assert text[i..i + |sep|] == sep;
  }

  lemma {:induction false} SplitOnNonEmpty(text: string, sep: string)
    requires |sep| > 0
    ensures |SplitOn(text, sep)| >= 1
  {
  }

  /** Split always yields at least one part, except `Split("", "")`, which yields none. */
  lemma AtLeastOnePart(text: string, sep: string)
    ensures |Split(text, sep)| >= 1 <==> text != [] || sep != []
  {
    if sep == [] {
      JoinExplode(text);
    }
  }

  /** A non-empty separator that does not occur leaves the text as its only part, and conversely. */
  lemma {:induction false} SplitWhole(text: string, sep: string)
    requires |sep| > 0
    ensures Split(text, sep) == [text] <==> !Contains(text, sep)
  {
    match Index(text, sep)
    case None =>
    case Some(i) =>
      SplitOnNonEmpty(text[i + |sep|..], sep);
      assert |Split(text, sep)| >= 2;
  }

  /** For a non-empty separator, the parts are one more than the occurrences. */
  lemma {:induction false} SplitCount(text: string, sep: string)
    requires |sep| > 0
    ensures |Split(text, sep)| == Count(text, sep) + 1
    decreases |text|
  {
    match Index(text, sep)
    case None =>
      CountAbsent(text, sep);
    case Some(i) =>
      CountSkip(text, sep, i);
      SplitCount(text[i + |sep|..], sep);
  }

  /** No occurrence means a count of zero. */
  lemma {:induction false} CountAbsent(text: string, sep: string)
    requires |sep| > 0
    requires !Contains(text, sep)
    ensures Count(text, sep) == 0
    decreases |text|
  {
    if |text| >= |sep| {
      assert !OccursAt(text, sep, 0);
      OccursShift(text, sep);
      CountAbsent(text[1..], sep);
    }
  }

  /** Counting skips the text before the leftmost occurrence at `i`. */
  lemma {:induction false} CountSkip(text: string, sep: string, i: nat)
    requires |sep| > 0
    requires OccursAt(text, sep, i)
    requires forall j: nat :: j < i ==> !OccursAt(text, sep, j)
    ensures Count(text, sep) == 1 + Count(text[i + |sep|..], sep)
    decreases i
  {
    if i == 0 {
      assert text[..|sep|] == sep;
    } else {
      assert !OccursAt(text, sep, 0);
      var t := text[1..];
      OccursShift(text, sep);
      assert OccursAt(t, sep, i - 1);
      CountSkip(t, sep, i - 1);
      assert t[i - 1 + |sep|..] == text[i + |sep|..];
    }
  }

  /** For a non-empty separator, no part contains the separator. */
  lemma {:induction false} PartsAvoidSep(text: string, sep: string)
    requires |sep| > 0
    ensures forall k :: 0 <= k < |Split(text, sep)| ==> !Contains(Split(text, sep)[k], sep)
    decreases |text|
  {
    match Index(text, sep)
    case None =>
    case Some(i) =>
      var rest := text[i + |sep|..];
      PartsAvoidSep(rest, sep);
      forall j: nat | OccursAt(text[..i], sep, j) ensures false {
        assert text[..i][j..j + |sep|] == text[j..j + |sep|];
        assert j < i;
        assert OccursAt(text, sep, j);
      }
      assert !Contains(text[..i], sep);
      assert Split(text, sep) == [text[..i]] + Split(rest, sep);
  }

  /**
   * For a non-empty separator, the first part is the longest prefix of the text
   * that ends at the leftmost occurrence, or the whole text when there is none.
   */
  lemma FirstPart(text: string, sep: string)
    requires |sep| > 0
    ensures |Split(text, sep)| >= 1
    ensures var p := Split(text, sep)[0];
      && p == text[..|p|]
      && (p == text || OccursAt(text, sep, |p|))
      && forall j: nat :: j < |p| ==> !OccursAt(text, sep, j)
  {
    SplitOnNonEmpty(text, sep);
    match Index(text, sep)
    case None =>
    case Some(i) =>
  }

  /** `Index` is determined by its contract: the occurrence with none before it, or none at all. */
  lemma IndexUnique(text: string, sep: string, r: Option<nat>)
    requires r.Some? ==> OccursAt(text, sep, r.value) && forall j: nat :: j < r.value ==> !OccursAt(text, sep, j)
    requires r.None? ==> forall j: nat :: j <= |text| ==> !OccursAt(text, sep, j)
    ensures Index(text, sep) == r
  {
    match Index(text, sep)
    case None =>
      if r.Some? {
        assert Contains(text, sep);
      }
    case Some(i) =>
  }

  /** For the empty separator, a text is cut after every character. */
  lemma {:induction false} SplitEmptySep(text: string)
    ensures |Split(text, [])| == |text|
    ensures forall k :: 0 <= k < |text| ==> Split(text, [])[k] == [text[k]]
  {
    JoinExplode(text);
    ExplodeAt(text);
  }

  lemma {:induction false} ExplodeAt(text: string)
    ensures |Explode(text)| == |text|
    ensures forall k :: 0 <= k < |text| ==> Explode(text)[k] == [text[k]]
  {
    JoinExplode(text);
    if text != [] {
      ExplodeAt(text[1..]);
    }
  }

  /** A worked split: `aXbXc` and its terminator, cut at every `X`. */
  lemma ExampleSplit()
    ensures Split("aXbXc\n", "X") == ["a", "b", "c\n"]
  {
    var t := "aXbXc\n";
    var t2, t4 := t[2..], t[4..];
    CharAt(t, 'X', 1);
    CharAt(t2, 'X', 1);
    CharAt(t4, 'X', 2);
    assert t2[2..] == t4;
    assert SplitOn(t4, "X") == [t4];
    assert SplitOn(t2, "X") == [t2[..1]] + [t4];
    assert SplitOn(t, "X") == [t[..1]] + [t2[..1], t4];
    assert t[..1] == "a" && t2[..1] == "b" && t4 == "c\n";
  }

  /** The first `c` in `t` is at `i`, or there is none when `i == |t|`. */
  lemma CharAt(t: string, c: char, i: nat)
    requires i <= |t| && (i < |t| ==> t[i] == c) && forall k :: 0 <= k < i ==> t[k] != c
    ensures Index(t, [c]) == if i < |t| then Some(i) else None
  {
    NoCharBefore(t, c, i);
    if i < |t| {
      assert t[i..i + 1] == [t[i]];
      IndexUnique(t, [c], Some(i));
    } else {
      IndexUnique(t, [c], None);
    }
  }

  /** A character that does not occur among the first `i` does not occur before `i`. */
  lemma NoCharBefore(t: string, c: char, i: nat)
    requires i <= |t| && forall k :: 0 <= k < i ==> t[k] != c
    ensures forall j: nat :: j < i ==> !OccursAt(t, [c], j)
  {
    forall j: nat | j < i
      ensures !OccursAt(t, [c], j)
    {
      assert t[j..j + 1][0] == t[j];
    }
  }

  /** Joining a non-empty list of parts with one more part appended. */
  lemma {:induction false} JoinSnoc(parts: seq<string>, x: string, sep: string)
    requires |parts| >= 1
    ensures Join(parts + [x], sep) == Join(parts, sep) + sep + x
    decreases |parts|
  {
    if |parts| == 1 {
      assert (parts + [x])[1..] == [x];
    } else {
      assert (parts + [x])[1..] == parts[1..] + [x];
      JoinSnoc(parts[1..], x, sep);
    }
  }

  /** Extending the last part extends the joined text by the same amount. */
  lemma {:induction false} JoinExtendLast(parts: seq<string>, f: string, sep: string)
    requires |parts| >= 1
    ensures Join(parts[..|parts| - 1] + [parts[|parts| - 1] + f], sep) == Join(parts, sep) + f
    decreases |parts|
  {
    var n := |parts|;
    if n == 1 {
    } else {
      var init := parts[..n - 1];
      JoinSnoc(init, parts[n - 1] + f, sep);
      JoinSnoc(init, parts[n - 1], sep);
      assert init + [parts[n - 1]] == parts;
    }
  }
}
