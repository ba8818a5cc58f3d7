/** When the wrapper's lines fit the column: the words seen as stretches that cannot
    be broken, and a wrapper that places whole stretches. */
module WrappingRuns {
  import Ordering
  import opened Text
  import opened Wrapping

  /** The words in stretches: one ends where no span is open. */
  function Runs(words: seq<string>): (runs: seq<seq<string>>)
    ensures words != [] ==> runs != []
  {
    if words == [] then []
    else
      var n := |words| - 1;
      if MarksInLine(words[..n]) % 2 == 1 then GrowLast(Runs(words[..n]), words[n])
      else Runs(words[..n]) + [[words[n]]]
  }

  lemma RunsSnoc(words: seq<string>, word: string)
    ensures Runs(words + [word]) ==
              if MarksInLine(words) % 2 == 1 then GrowLast(Runs(words), word) else Runs(words) + [[word]]
  {
    assert (words + [word])[..|words|] == words;
  }

  // ----- a wrapper of whole stretches -----

  datatype Placed = Placed(lines: seq<seq<string>>, column: nat)

  function PlaceRun(st: Placed, run: seq<string>, first: string, indent: string): Placed {
    if st.lines == [] then Placed([run], |first| + WordsWidth(run))
    else if st.column + 1 + WordsWidth(run) > WIDTH then Placed(st.lines + [run], |indent| + WordsWidth(run))
    else Placed(LastExtended(st.lines, run), st.column + 1 + WordsWidth(run))
  }

  function LastExtended(lines: seq<seq<string>>, run: seq<string>): seq<seq<string>>
    requires lines != []
  {
    lines[..|lines| - 1] + [lines[|lines| - 1] + run]
  }

  function ByRuns(runs: seq<seq<string>>, first: string, indent: string): Placed {
    if runs == [] then Placed([], 0)
    else PlaceRun(ByRuns(runs[..|runs| - 1], first, indent), runs[|runs| - 1], first, indent)
  }

  lemma ByRunsSnoc(runs: seq<seq<string>>, run: seq<string>, first: string, indent: string)
    ensures ByRuns(runs + [run], first, indent) == PlaceRun(ByRuns(runs, first, indent), run, first, indent)
  {
    assert (runs + [run])[..|runs|] == runs;
  }

  // ----- word by word and stretch by stretch -----

  ghost predicate Agree(st: State, placed: Placed) {
    st.lines == placed.lines && st.column == placed.column
  }

  /** Word by word and stretch by stretch, the words come to the same lines. */
  ghost predicate Agreed(words: seq<string>, first: string, indent: string) {
    Agree(Wrapped(words, first, indent), ByRuns(Runs(words), first, indent))
  }

  /** The output is within the column but for lines that are one stretch. */
  ghost predicate OutputIsLoose(words: seq<string>, first: string, indent: string) {
    IsLoose(Wrapped(words, first, indent).lines, words, first, indent)
  }

  lemma ANewRunIsPlacedAlike(st: State, placed: Placed, word: string, first: string, indent: string)
    requires Agree(st, placed) && !st.inCode && (st.column == 0 <==> st.lines == [])
    ensures Agree(Place(st, word, first, indent), PlaceRun(placed, [word], first, indent))
  {
    if st.lines != [] { assert LastExtended(st.lines, [word]) == GrowLast(st.lines, word); }
    assert WordsWidth([word]) == |word|;
  }

  /** A stretch grown by a word goes where it went, unless it went to the end of a
      line which is then too wide. */
  lemma AGrownRunStays(before: Placed, run: seq<string>, word: string, first: string, indent: string)
    requires run != []
    requires before.lines != [] && before.column + 1 + WordsWidth(run) <= WIDTH ==>
               before.column + 1 + WordsWidth(run + [word]) <= WIDTH
    ensures var was, now := PlaceRun(before, run, first, indent), PlaceRun(before, run + [word], first, indent);
            was.lines != [] && now.lines == GrowLast(was.lines, word) && now.column == was.column + 1 + |word|
  {
    WidthGrown(run, word);
    var was, now := PlaceRun(before, run, first, indent), PlaceRun(before, run + [word], first, indent);
    if before.lines != [] && before.column + 1 + WordsWidth(run) <= WIDTH {
      Ordering.Assoc(before.lines[|before.lines| - 1], run, [word]);
      assert was.lines[..|was.lines| - 1] == before.lines[..|before.lines| - 1];
    } else if before.lines != [] {
      assert was.lines[..|was.lines| - 1] == before.lines;
    }
  }

  /** Where the last stretch starts: outside code, with a span open ever after. */
  ghost predicate StartsLast(words: seq<string>, s: nat) {
    && s < |words| && MarksInLine(words[..s]) % 2 == 0
    && OpenBetween(words, s, |words|)
    && Runs(words) == Runs(words[..s]) + [words[s..]]
  }

  /** After each word from `s` on, and before `n`, a span is open. */
  ghost predicate OpenBetween(words: seq<string>, s: nat, n: nat)
    requires n <= |words|
  {
    forall j :: s < j < n ==> MarksInLine(words[..j]) % 2 == 1
  }

  lemma StillOpen(before: seq<string>, word: string, s: nat)
    requires OpenBetween(before, s, |before|) && MarksInLine(before) % 2 == 1
    ensures OpenBetween(before + [word], s, |before| + 1)
  {
    var words := before + [word];
    assert before[..|before|] == before;
    forall j | s < j < |words|
      ensures MarksInLine(words[..j]) % 2 == 1
    {
      assert words[..j] == before[..j];
    }
  }

  lemma PartsOfMore(before: seq<string>, word: string, s: nat)
    requires s < |before|
    ensures (before + [word])[..s] == before[..s] && (before + [word])[s..] == before[s..] + [word]
  {
  }

  lemma GrowLastOf<T>(a: seq<seq<T>>, last: seq<T>, x: T)
    ensures GrowLast(a + [last], x) == a + [last + [x]]
  {
  }

  lemma LastRunGrows(before: seq<string>, word: string, s: nat)
    requires StartsLast(before, s) && MarksInLine(before) % 2 == 1
    ensures StartsLast(before + [word], s)
  {
    var words := before + [word];
    RunsSnoc(before, word);
    GrowLastOf(Runs(before[..s]), before[s..], word);
    PartsOfMore(before, word, s);
    StillOpen(before, word, s);
  }

  lemma {:induction false} LastRunStarts(words: seq<string>) returns (s: nat)
    requires words != []
    ensures StartsLast(words, s)
  {
    s := |words| - 1;
    var before, word := words[..s], words[s];
    assert words == before + [word] && words[s..] == [word];
    if MarksInLine(before) % 2 == 1 {
      s := LastRunStarts(before);
      LastRunGrows(before, word, s);
    }
  }

  lemma PlaceIsUndone(st: State, word: string, first: string, indent: string)
    requires (st.column == 0 <==> st.lines == []) && NoEmptyLine(st.lines)
    ensures WithoutLast(Place(st, word, first, indent).lines) == st.lines
  {
    var next := Place(st, word, first, indent).lines;
    if |next| == |st.lines| {
      var m := |st.lines| - 1;
      assert next[m][..|next[m]| - 1] == st.lines[m];
      assert st.lines[..m] + [st.lines[m]] == st.lines;
    }
  }

  lemma GoodPart(words: seq<string>, before: seq<string>, word: string)
    requires GoodWords(words) && words == before + [word]
    ensures GoodWords(before)
  {
    assert forall w :: w in before ==> w in words;
  }

  lemma WrappedWithoutLast(before: seq<string>, word: string, first: string, indent: string)
    requires GoodWords(before)
    ensures Wrapped(before + [word], first, indent).lines != []
    ensures WithoutLast(Wrapped(before + [word], first, indent).lines) == Wrapped(before, first, indent).lines
  {
    WrappedShape(before, first, indent);
    WrappedSnoc(before, word, first, indent);
    PlaceIsUndone(Wrapped(before, first, indent), word, first, indent);
  }

  lemma OneLessIsLoose(words: seq<string>, before: seq<string>, word: string, first: string, indent: string)
    requires GoodWords(words) && words == before + [word]
    requires OutputIsLoose(words, first, indent)
    ensures GoodWords(before) && OutputIsLoose(before, first, indent)
  {
    GoodPart(words, before, word);
    WrappedWithoutLast(before, word, first, indent);
    WithoutLastWraps(Wrapped(words, first, indent).lines, words, first, indent);
    assert words[..|words| - 1] == before;
  }

  lemma {:induction false} PrefixIsLoose(words: seq<string>, first: string, indent: string, k: nat)
    requires GoodWords(words) && k <= |words|
    requires OutputIsLoose(words, first, indent)
    ensures GoodWords(words[..k]) && OutputIsLoose(words[..k], first, indent)
    decreases |words|
  {
    if k == |words| {
      assert words[..k] == words;
    } else {
      var before := words[..|words| - 1];
      assert words == before + [words[|words| - 1]] && before[..k] == words[..k];
      OneLessIsLoose(words, before, words[|words| - 1], first, indent);
      PrefixIsLoose(before, first, indent, k);
    }
  }

  /** A line of complete stretches and then some is no stretch. */
  lemma BehindALineIsNoRun(line: seq<string>, more: seq<string>)
    requires line != [] && more != [] && MarksInLine(line) % 2 == 0
    ensures !IsRun(line + more)
  {
    assert (line + more)[..|line|] == line;
  }

  lemma EvenRest(a: nat, b: nat, total: nat)
    requires total == a + b && a % 2 == 0 && total % 2 == 0
    ensures b % 2 == 0
  {
  }

  lemma LastLineIsClosed(lines: seq<seq<string>>)
    requires lines != [] && EndsOutsideCode(lines) && CodeMarks(lines) % 2 == 0
    ensures MarksInLine(lines[|lines| - 1]) % 2 == 0
  {
    var m := |lines| - 1;
    assert m == 0 ==> lines[..m] == [];
    EvenRest(CodeMarks(lines[..m]), MarksInLine(lines[m]), CodeMarks(lines));
  }

  /** What is placed after complete stretches: `was` once `run` is placed behind
      them, `now` with a word more. */
  lemma GrownStillFits(st: State, run: seq<string>, word: string, words: seq<string>, now: State, first: string,
                       indent: string)
    requires NoEmptyLine(st.lines) && EndsOutsideCode(st.lines) && CodeMarks(st.lines) % 2 == 0 && run != []
    requires st.lines != [] && st.column + 1 + WordsWidth(run) <= WIDTH
    requires now.lines == LastExtended(st.lines, run + [word]) && now.column == st.column + 1 + WordsWidth(run + [word])
    requires IsLoose(now.lines, words, first, indent)
               && now.column == LineWidth(now.lines, |now.lines| - 1, first, indent)
    ensures now.column <= WIDTH
  {
    var m := |st.lines| - 1;
    LastLineIsClosed(st.lines);
    BehindALineIsNoRun(st.lines[m], run + [word]);
    assert now.lines[m] == st.lines[m] + (run + [word]);
    assert LineWidth(now.lines, m, first, indent) <= WIDTH;
  }

  lemma GrownByAWord(st: State, run: seq<string>, word: string, was: State, now: State, first: string, indent: string)
    requires st.lines != [] && run != [] && st.column + 1 + WordsWidth(run) <= WIDTH
    requires Agree(was, PlaceRun(Placed(st.lines, st.column), run, first, indent))
    requires now == Place(was, word, first, indent) && was.inCode && was.column > 0
    ensures now.lines == LastExtended(st.lines, run + [word]) && now.column == st.column + 1 + WordsWidth(run + [word])
  {
    WidthGrown(run, word);
    var m := |st.lines| - 1;
    assert was.lines == st.lines[..m] + [st.lines[m] + run];
    assert was.lines[..m] == st.lines[..m];
    Ordering.Assoc(st.lines[m], run, [word]);
  }

  lemma GrownRunAgrees(st: State, run: seq<string>, was: State, word: string, words: seq<string>, now: State,
                       first: string, indent: string)
    requires NoEmptyLine(st.lines) && EndsOutsideCode(st.lines) && CodeMarks(st.lines) % 2 == 0 && run != []
    requires Agree(was, PlaceRun(Placed(st.lines, st.column), run, first, indent))
    requires now == Place(was, word, first, indent) && was.inCode && was.column > 0
    requires IsLoose(now.lines, words, first, indent)
    requires now.lines != [] && now.column == LineWidth(now.lines, |now.lines| - 1, first, indent)
    ensures Agree(now, PlaceRun(Placed(st.lines, st.column), run + [word], first, indent))
  {
    if st.lines != [] && st.column + 1 + WordsWidth(run) <= WIDTH {
      GrownByAWord(st, run, word, was, now, first, indent);
      GrownStillFits(st, run, word, words, now, first, indent);
    }
    AGrownRunStays(Placed(st.lines, st.column), run, word, first, indent);
  }

  /** What the wrapper knows of code agrees with its words. */
  lemma WrappedKnows(words: seq<string>, first: string, indent: string)
    requires GoodWords(words)
    ensures var st := Wrapped(words, first, indent);
            && Shaped(st, words, first, indent) && EndsOutsideCode(st.lines)
            && CodeMarks(st.lines) == MarksInLine(words) && (st.inCode <==> MarksInLine(words) % 2 == 1)
  {
    WrappedShape(words, first, indent);
    LinesEndOutsideCode(words, first, indent);
    MarksAreTheWords(Wrapped(words, first, indent).lines);
  }

  lemma AgreeAfterAWord(words: seq<string>, before: seq<string>, word: string, first: string, indent: string)
    requires GoodWords(words) && words == before + [word] && GoodWords(before)
    requires MarksInLine(before) % 2 == 0
    requires Agreed(before, first, indent)
    ensures Agreed(words, first, indent)
  {
    WrappedKnows(before, first, indent);
    WrappedSnoc(before, word, first, indent);
    RunsSnoc(before, word);
    ByRunsSnoc(Runs(before), [word], first, indent);
    ANewRunIsPlacedAlike(Wrapped(before, first, indent), ByRuns(Runs(before), first, indent), word, first, indent);
  }

  lemma AgreeInsideARun(words: seq<string>, before: seq<string>, word: string, s: nat, first: string, indent: string)
    requires GoodWords(words) && words == before + [word] && GoodWords(before) && MarksInLine(before) % 2 == 1
    requires StartsLast(before, s) && StartsLast(words, s) && GoodWords(before[..s])
    requires OutputIsLoose(words, first, indent)
    requires Agreed(before[..s], first, indent)
    requires Agreed(before, first, indent)
    ensures Agreed(words, first, indent)
  {
    var done, run := before[..s], before[s..];
    WrappedKnows(done, first, indent);
    WrappedKnows(before, first, indent);
    WrappedKnows(words, first, indent);
    WrappedSnoc(before, word, first, indent);
    PartsOfMore(before, word, s);
    ByRunsSnoc(Runs(done), run, first, indent);
    ByRunsSnoc(Runs(done), run + [word], first, indent);
    GrownRunAgrees(Wrapped(done, first, indent), run, Wrapped(before, first, indent), word, words,
                   Wrapped(words, first, indent),
                   first, indent);
  }

  /** Word by word and stretch by stretch come to the same lines when the first are
      within the column wherever they can be. */
  lemma {:induction false} LooseAgrees(words: seq<string>, first: string, indent: string)
    requires GoodWords(words) && OutputIsLoose(words, first, indent)
    ensures Agreed(words, first, indent)
    decreases |words|
  {
    if words == [] {
    } else {
      var before, word := words[..|words| - 1], words[|words| - 1];
      assert words == before + [word];
      OneLessIsLoose(words, before, word, first, indent);
      LooseAgrees(before, first, indent);
      if MarksInLine(before) % 2 == 0 {
        AgreeAfterAWord(words, before, word, first, indent);
      } else {
        OpenIsNotEmpty(before);
        var s := LastRunStarts(before);
        PrefixIsLoose(before, first, indent, s);
        LooseAgrees(before[..s], first, indent);
        LastRunGrows(before, word, s);
        AgreeInsideARun(words, before, word, s, first, indent);
      }
    }
  }

  lemma OpenIsNotEmpty(words: seq<string>)
    requires MarksInLine(words) % 2 == 1
    ensures words != []
  {
  }

  // ----- stretches placed whole -----

  ghost predicate AreRuns(runs: seq<seq<string>>) {
    forall k :: 0 <= k < |runs| ==> runs[k] != [] && IsRun(runs[k])
  }

  lemma MarksFrom(words: seq<string>, s: nat, j: nat)
    requires s + j <= |words|
    ensures MarksInLine(words[..s + j]) == MarksInLine(words[..s]) + MarksInLine(words[s..][..j])
  {
    assert words[..s + j] == words[..s] + words[s..][..j];
    MarksAppend(words[..s], words[s..][..j]);
  }

  lemma TheLastIsARun(words: seq<string>, s: nat)
    requires StartsLast(words, s)
    ensures words[s..] != [] && IsRun(words[s..])
  {
    forall j | 0 < j < |words[s..]|
      ensures MarksInLine(words[s..][..j]) % 2 == 1
    {
      MarksFrom(words, s, j);
      assert MarksInLine(words[..s + j]) % 2 == 1;
    }
  }

  lemma {:induction false} RunsAreRuns(words: seq<string>)
    ensures AreRuns(Runs(words)) && Flatten(Runs(words)) == words
    decreases |words|
  {
    if words == [] {
    } else {
      var s := LastRunStarts(words);
      RunsAreRuns(words[..s]);
      TheLastIsARun(words, s);
      FlattenNewLine(Runs(words[..s]), words[s..]);
    }
  }

  lemma {:induction false} WidthOfBoth(a: seq<string>, b: seq<string>)
    requires a != [] && b != []
    ensures WordsWidth(a + b) == WordsWidth(a) + 1 + WordsWidth(b)
  {
    var n := |b| - 1;
    if n == 0 {
      assert b == [b[0]];
      WidthGrown(a, b[0]);
    } else {
      WidthOfBoth(a, b[..n]);
      assert a + b == a + b[..n] + [b[n]] && b == b[..n] + [b[n]];
      WidthGrown(a + b[..n], b[n]);
      WidthGrown(b[..n], b[n]);
    }
  }

  /** What placing whole stretches keeps; every line fits when `narrow`, and
      otherwise one that does not is a single stretch. */
  ghost predicate WellPlaced(placed: Placed, runs: seq<seq<string>>, first: string, indent: string, narrow: bool) {
    && (placed.lines == [] <==> runs == [])
    && NoEmptyLine(placed.lines)
    && Flatten(placed.lines) == Flatten(runs)
    && (placed.lines != [] ==> placed.column == LineWidth(placed.lines, |placed.lines| - 1, first, indent))
    && (forall k :: 0 <= k < |placed.lines| ==>
          LineWidth(placed.lines, k, first, indent) <= WIDTH || (!narrow && IsRun(placed.lines[k])))
  }

  lemma FlattenExtended(lines: seq<seq<string>>, run: seq<string>)
    requires lines != []
    ensures Flatten(LastExtended(lines, run)) == Flatten(lines) + run
  {
    var m := |lines| - 1;
    FlattenNewLine(lines[..m], lines[m] + run);
    Ordering.Assoc(Flatten(lines[..m]), lines[m], run);
  }

  lemma PlacedOnTheLine(placed: Placed, runs: seq<seq<string>>, run: seq<string>, first: string, indent: string,
                        narrow: bool)
    requires WellPlaced(placed, runs, first, indent, narrow) && run != [] && placed.lines != []
    requires placed.column + 1 + WordsWidth(run) <= WIDTH
    ensures WellPlaced(PlaceRun(placed, run, first, indent), runs + [run], first, indent, narrow)
  {
    var m, next := |placed.lines| - 1, LastExtended(placed.lines, run);
    FlattenNewLine(runs, run);
    FlattenExtended(placed.lines, run);
    WidthOfBoth(placed.lines[m], run);
    forall k | 0 <= k < |next|
      ensures next[k] != []
      ensures LineWidth(next, k, first, indent) <= WIDTH || (!narrow && IsRun(next[k]))
    {
      if k < m { assert next[k] == placed.lines[k]; }
    }
  }

  lemma PlacedOnANewLine(placed: Placed, runs: seq<seq<string>>, run: seq<string>, first: string, indent: string,
                         narrow: bool)
    requires WellPlaced(placed, runs, first, indent, narrow) && run != [] && IsRun(run)
    requires placed.lines == [] || placed.column + 1 + WordsWidth(run) > WIDTH
    requires narrow ==> (if runs == [] then |first| else |indent|) + WordsWidth(run) <= WIDTH
    ensures WellPlaced(PlaceRun(placed, run, first, indent), runs + [run], first, indent, narrow)
  {
    var next := placed.lines + [run];
    FlattenNewLine(runs, run);
    FlattenNewLine(placed.lines, run);
    assert placed.lines == [] ==> next == [run];
    forall k | 0 <= k < |next|
      ensures next[k] != []
      ensures LineWidth(next, k, first, indent) <= WIDTH || (!narrow && IsRun(next[k]))
    {
      if k < |placed.lines| { assert next[k] == placed.lines[k]; }
    }
  }

  /** Each stretch fits alone: on the first line if it is the first, on a line of
      its own if not. */
  ghost predicate EachRunFits(runs: seq<seq<string>>, first: string, indent: string) {
    forall k :: 0 <= k < |runs| ==> LineWidth(runs, k, first, indent) <= 76
  }

  lemma {:induction false} WholeRunsAreWellPlaced(runs: seq<seq<string>>, first: string, indent: string, narrow: bool)
    requires AreRuns(runs) && (narrow ==> EachRunFits(runs, first, indent))
    ensures WellPlaced(ByRuns(runs, first, indent), runs, first, indent, narrow)
  {
    if runs == [] {
    } else {
      var n := |runs| - 1;
      var before, run := runs[..n], runs[n];
      assert narrow ==> forall k :: 0 <= k < n ==>
               LineWidth(before, k, first, indent) == LineWidth(runs, k, first, indent);
      WholeRunsAreWellPlaced(before, first, indent, narrow);
      assert runs == before + [run];
      assert narrow ==> LineWidth(runs, n, first, indent) <= WIDTH;
      var placed := ByRuns(before, first, indent);
      if placed.lines == [] || placed.column + 1 + WordsWidth(run) > WIDTH {
        PlacedOnANewLine(placed, before, run, first, indent, narrow);
      } else {
        PlacedOnTheLine(placed, before, run, first, indent, narrow);
      }
    }
  }

  // ----- when the output fits -----

  /** The wrapper's lines are within the column but for single stretches exactly
      when placing whole stretches gives the same lines. */
  lemma LooseExactlyWhen(words: seq<string>, first: string, indent: string)
    requires GoodWords(words)
    ensures OutputIsLoose(words, first, indent) <==>
              ByRuns(Runs(words), first, indent).lines == Wrapped(words, first, indent).lines
  {
    if OutputIsLoose(words, first, indent) {
      LooseAgrees(words, first, indent);
    }
    RunsAreRuns(words);
    WholeRunsAreWellPlaced(Runs(words), first, indent, false);
  }

  /** A wrapping that fits and breaks nowhere inside code. */
  ghost predicate Fits(lines: seq<seq<string>>, words: seq<string>, first: string, indent: string) {
    IsWrapping(lines, words, first, indent) && EndsOutsideCode(lines)
  }

  lemma LinesAreNoWider(lines: seq<seq<string>>, words: seq<string>, first: string, indent: string)
    requires words != [] && Fits(lines, words, first, indent)
    ensures lines != []
    ensures Fits(WithoutLast(lines), words[..|words| - 1], first, indent)
  {
    WithoutLastWraps(lines, words, first, indent);
    WithoutLastEndsOutside(lines);
    var shorter := WithoutLast(lines);
    if |lines[|lines| - 1]| > 1 { LastWordWidth(lines, first, indent); }
    forall k | 0 <= k < |shorter|
      ensures LineWidth(shorter, k, first, indent) <= WIDTH
    {
      assert LineWidth(lines, k, first, indent) <= WIDTH;
    }
  }

  /** A wrapping of the words that fits gives one of each beginning of them. */
  lemma {:induction false} PrefixWraps(lines: seq<seq<string>>, words: seq<string>, k: nat, first: string,
                                       indent: string)
    returns (shorter: seq<seq<string>>)
    requires Fits(lines, words, first, indent) && k <= |words|
    ensures Fits(shorter, words[..k], first, indent)
    decreases |words|
  {
    if k == |words| {
      assert words[..k] == words;
      shorter := lines;
    } else {
      LinesAreNoWider(lines, words, first, indent);
      shorter := PrefixWraps(WithoutLast(lines), words[..|words| - 1], k, first, indent);
      assert words[..|words| - 1][..k] == words[..k];
    }
  }

  lemma ClosedIsNotInside(words: seq<string>, s: nat, t: nat)
    requires StartsLast(words, s) && t < |words| && MarksInLine(words[..t]) % 2 == 0
    ensures t <= s
  {
  }

  /** A line that breaks nowhere inside code ends with the whole last stretch. */
  lemma LastLineHoldsTheLastRun(lines: seq<seq<string>>, words: seq<string>, s: nat)
    requires lines != [] && NoEmptyLine(lines) && Flatten(lines) == words && EndsOutsideCode(lines)
               && StartsLast(words, s)
    ensures var m := |lines| - 1;
            |words| - |lines[m]| <= s && (m == 0 ==> lines[m] == words)
    ensures var last := lines[|lines| - 1];
            last[s - (|words| - |last|)..] == words[s..]
  {
    var m := |lines| - 1;
    var t := |words| - |lines[m]|;
    assert words[..t] == Flatten(lines[..m]) && words[t..] == lines[m];
    MarksAreTheWords(lines[..m]);
    assert m == 0 ==> lines[..m] == [];
    assert m > 0 ==> CodeMarks(lines[..m]) % 2 == 0;
    ClosedIsNotInside(words, s, t);
  }

  lemma WidthOfTail(line: seq<string>, j: nat)
    requires j < |line|
    ensures WordsWidth(line[j..]) <= WordsWidth(line)
  {
    if j == 0 {
      assert line[j..] == line;
    } else {
      assert line == line[..j] + line[j..];
      WidthOfBoth(line[..j], line[j..]);
    }
  }

  lemma TailFits(last: seq<string>, j: nat, lead: nat, own: nat)
    requires j < |last| && lead + WordsWidth(last) <= WIDTH && own <= lead
    ensures own + WordsWidth(last[j..]) <= WIDTH
  {
    WidthOfTail(last, j);
  }

  lemma TheLastRunFits(lines: seq<seq<string>>, words: seq<string>, s: nat, first: string, indent: string)
    requires |indent| <= |first| && Fits(lines, words, first, indent) && StartsLast(words, s)
    ensures (if s == 0 then |first| else |indent|) + WordsWidth(words[s..]) <= WIDTH
  {
    assert lines != [] by { assert Flatten([]) == []; }
    var m := |lines| - 1;
    LastLineHoldsTheLastRun(lines, words, s);
    if s == 0 { OneLineOfAll(lines, words); }
    assert LineWidth(lines, m, first, indent) <= WIDTH;
    TailFits(lines[m], s - (|words| - |lines[m]|), if m == 0 then |first| else |indent|,
             if s == 0 then |first| else |indent|);
  }

  lemma OneLineOfAll(lines: seq<seq<string>>, words: seq<string>)
    requires lines != [] && NoEmptyLine(lines) && Flatten(lines) == words && |words| <= |lines[|lines| - 1]|
    ensures |lines| == 1
  {
    var m := |lines| - 1;
    AWordALine(lines[..m]);
  }

  lemma {:induction false} AWordALine(lines: seq<seq<string>>)
    requires NoEmptyLine(lines)
    ensures |lines| <= |Flatten(lines)|
  {
    if lines == [] {
    } else {
      AWordALine(lines[..|lines| - 1]);
    }
  }

  lemma {:induction false} FittingFitsTheRuns(lines: seq<seq<string>>, words: seq<string>, first: string,
                                              indent: string)
    requires |indent| <= |first| && Fits(lines, words, first, indent)
    ensures EachRunFits(Runs(words), first, indent)
    decreases |words|
  {
    if words == [] {
    } else {
      var s := LastRunStarts(words);
      TheLastRunFits(lines, words, s, first, indent);
      var shorter := PrefixWraps(lines, words, s, first, indent);
      FittingFitsTheRuns(shorter, words[..s], first, indent);
      OneMoreRunFits(Runs(words[..s]), words[s..], s == 0, first, indent);
    }
  }

  lemma OneMoreRunFits(runs: seq<seq<string>>, run: seq<string>, alone: bool, first: string, indent: string)
    requires EachRunFits(runs, first, indent) && (alone <==> runs == [])
    requires (if alone then |first| else |indent|) + WordsWidth(run) <= WIDTH
    ensures EachRunFits(runs + [run], first, indent)
  {
    var all := runs + [run];
    forall k | 0 <= k < |all|
      ensures LineWidth(all, k, first, indent) <= WIDTH
    {
      if k < |runs| { assert LineWidth(runs, k, first, indent) <= WIDTH; }
    }
  }

  lemma {:induction false} RunsEndOutsideCode(words: seq<string>)
    ensures EndsOutsideCode(Runs(words))
    decreases |words|
  {
    if words == [] {
    } else {
      var s := LastRunStarts(words);
      var before := Runs(words[..s]);
      RunsEndOutsideCode(words[..s]);
      RunsAreRuns(words[..s]);
      MarksAreTheWords(before);
      OneMoreLineEndsOutside(before, words[s..]);
    }
  }

  lemma OneMoreLineEndsOutside(lines: seq<seq<string>>, line: seq<string>)
    requires EndsOutsideCode(lines) && CodeMarks(lines) % 2 == 0
    ensures EndsOutsideCode(lines + [line])
  {
    forall k | 0 < k < |lines| + 1
      ensures CodeMarks((lines + [line])[..k]) % 2 == 0
    {
      assert (lines + [line])[..k] == lines[..k];
      if k == |lines| { assert lines[..k] == lines; }
    }
  }

  lemma RunsFit(words: seq<string>, first: string, indent: string)
    requires EachRunFits(Runs(words), first, indent)
    ensures Fits(Runs(words), words, first, indent)
  {
    RunsAreRuns(words);
    RunsEndOutsideCode(words);
  }

  /** Words can be cut into lines that fit, and only outside code, exactly when
      each stretch fits alone. */
  lemma AWrappingFitsExactlyWhen(words: seq<string>, first: string, indent: string)
    requires |indent| <= |first|
    ensures (exists lines :: Fits(lines, words, first, indent)) <==> EachRunFits(Runs(words), first, indent)
  {
    if EachRunFits(Runs(words), first, indent) { RunsFit(words, first, indent); }
    if lines :| Fits(lines, words, first, indent) { FittingFitsTheRuns(lines, words, first, indent); }
  }

  /** When the output is within its column: exactly when each stretch fits alone and
      none is begun on a line where it does not end, which is to say that placing
      whole stretches gives the same lines. */
  lemma TheOutputFitsExactlyWhen(words: seq<string>, first: string, indent: string)
    requires GoodWords(words) && |indent| <= |first|
    ensures IsWrapping(Wrapped(words, first, indent).lines, words, first, indent)
       <==> && EachRunFits(Runs(words), first, indent)
            && ByRuns(Runs(words), first, indent).lines == Wrapped(words, first, indent).lines
  {
    var mine := Wrapped(words, first, indent).lines;
    WrappedShape(words, first, indent);
    LinesEndOutsideCode(words, first, indent);
    RunsAreRuns(words);
    if IsWrapping(mine, words, first, indent) {
      FittingFitsTheRuns(mine, words, first, indent);
      LooseAgrees(words, first, indent);
    }
    if EachRunFits(Runs(words), first, indent) {
      WholeRunsAreWellPlaced(Runs(words), first, indent, true);
    }
  }

  // ----- texts -----

  ghost predicate NoCode(words: seq<string>) {
    forall w :: w in words ==> '`' !in w
  }

  lemma {:induction false} PlainMarks(words: seq<string>)
    requires NoCode(words)
    ensures MarksInLine(words) == 0
  {
    if words == [] {
    } else {
      var n := |words| - 1;
      assert words[n] in words;
      assert forall w :: w in words[..n] ==> w in words;
      PlainMarks(words[..n]);
    }
  }

  ghost predicate Singles(runs: seq<seq<string>>, words: seq<string>) {
    |runs| == |words| && forall k :: 0 <= k < |words| ==> runs[k] == [words[k]]
  }

  lemma {:induction false} EachPlainWordIsARun(words: seq<string>)
    requires NoCode(words)
    ensures Singles(Runs(words), words)
  {
    if words == [] {
    } else {
      var n := |words| - 1;
      var before := words[..n];
      assert forall w :: w in before ==> w in words;
      assert words == before + [words[n]];
      PlainMarks(before);
      EachPlainWordIsARun(before);
      RunsSnoc(before, words[n]);
    }
  }

  lemma SinglesFit(runs: seq<seq<string>>, words: seq<string>, first: string, indent: string)
    requires Singles(runs, words)
    ensures EachRunFits(runs, first, indent) <==>
              forall k :: 0 <= k < |words| ==> (if k == 0 then |first| else |indent|) + |words[k]| <= 76
  {
    forall k | 0 <= k < |words|
      ensures LineWidth(runs, k, first, indent) == (if k == 0 then |first| else |indent|) + |words[k]|
    {
    }
  }

  lemma {:induction false} PlainWordsAgree(words: seq<string>, first: string, indent: string)
    requires GoodWords(words) && NoCode(words)
    ensures Agreed(words, first, indent)
  {
    if words == [] {
    } else {
      var n := |words| - 1;
      var before := words[..n];
      assert forall w :: w in before ==> w in words;
      assert words == before + [words[n]];
      PlainWordsAgree(before, first, indent);
      PlainMarks(before);
      AgreeAfterAWord(words, before, words[n], first, indent);
    }
  }

  /** Without code, the output is as narrow as it can be: a line is too wide only
      when it is a single word, and it fits exactly when each word fits. */
  lemma PlainOutputFitsExactlyWhen(words: seq<string>, first: string, indent: string)
    requires GoodWords(words) && NoCode(words) && |indent| <= |first|
    ensures OutputIsLoose(words, first, indent)
    ensures IsWrapping(Wrapped(words, first, indent).lines, words, first, indent) <==>
              forall k :: 0 <= k < |words| ==> (if k == 0 then |first| else |indent|) + |words[k]| <= 76
  {
    PlainWordsAgree(words, first, indent);
    LooseExactlyWhen(words, first, indent);
    TheOutputFitsExactlyWhen(words, first, indent);
    EachPlainWordIsARun(words);
    SinglesFit(Runs(words), words, first, indent);
  }
  lemma {:induction false} FieldsAddNothing(s: string, c: char)
    requires c !in s
    ensures forall w :: w in Fields(s) ==> c !in w
  {
    if s == "" {
    } else {
      var n := |s| - 1;
      assert s[n] in s && s == s[..n] + [s[n]];
      assert forall d :: d in s[..n] ==> d in s;
      FieldsAddNothing(s[..n], c);
      FieldsSnoc(s[..n], s[n]);
      if !IsSpace(s[n]) && n > 0 && !IsSpace(s[n - 1]) {
        GrownHasOnly(Fields(s[..n]), s[n], c);
      }
    }
  }

  lemma GrownHasOnly(words: seq<string>, d: char, c: char)
    requires words != [] && c != d && forall w :: w in words ==> c !in w
    ensures forall w :: w in GrowLast(words, d) ==> c !in w
  {
    var n := |words| - 1;
    assert words[n] in words;
    forall w | w in GrowLast(words, d) ensures w in words || w == words[n] + [d] {}
  }

  /** So a generated paragraph or bullet has the fewest lines of any wrapping that
      keeps its code spans whole and is within the column wherever it can be, and is
      one of those itself exactly when placing whole stretches gives the same lines:
      always, when it has no code span. */
  lemma FewestLines(text: string, first: string, indent: string, other: seq<seq<string>>)
    requires IsLoose(other, Fields(text), first, indent) && EndsOutsideCode(other)
    ensures var words := Fields(text); var mine := Wrapped(words, first, indent).lines;
            && |mine| <= |other|
            && EndsOutsideCode(mine)
            && (IsLoose(mine, words, first, indent) <==> ByRuns(Runs(words), first, indent).lines == mine)
            && ('`' !in text ==> IsLoose(mine, words, first, indent))
  {
    FieldsAreGood(text);
    GreedyIsBest(Fields(text), first, indent, other);
    LinesEndOutsideCode(Fields(text), first, indent);
    LooseExactlyWhen(Fields(text), first, indent);
    if '`' !in text {
      FieldsAddNothing(text, '`');
      PlainWordsAgree(Fields(text), first, indent);
    }
  }

  lemma StaysOnTheLine(st: State, word: string, first: string, indent: string)
    requires st.column > 0 && st.lines != [] && (st.inCode || st.column + 1 + |word| <= WIDTH)
    ensures var next := Place(st, word, first, indent);
            next.column == st.column + 1 + |word| && next.lines != [] && next.inCode == Toggled(st.inCode, word)
  {
  }

  lemma OverrunsAfter(words: seq<string>, b: string, c: string, first: string, indent: string)
    requires var st := Wrapped(words, first, indent);
             && st.column > 0 && st.lines != [] && !st.inCode
             && st.column + 1 + |b| <= 76 < st.column + 1 + |b| + 1 + |c|
    requires Count(b, '`') % 2 == 1
    ensures Wrapped(words + [b] + [c], first, indent).column > WIDTH
  {
    var st := Wrapped(words, first, indent);
    WrappedSnoc(words, b, first, indent);
    StaysOnTheLine(st, b, first, indent);
    WrappedSnoc(words + [b], c, first, indent);
    StaysOnTheLine(Wrapped(words + [b], first, indent), c, first, indent);
  }

  lemma FirstWordPlaced(a: string, first: string, indent: string)
    requires Count(a, '`') % 2 == 0
    ensures Wrapped([a], first, indent) == State([[a]], |first| + |a|, false)
  {
    WrappedSnoc([], a, first, indent);
    assert [] + [a] == [a];
    assert Wrapped([], first, indent) == State([], 0, false);
    assert [] + [[a]] == [[a]];
  }

  lemma OneWordLine(a: string)
    ensures Flatten([[a]]) == [a] && CodeMarks([[a]]) == Count(a, '`') && WordsWidth([a]) == |a|
  {
    FlattenNewLine([], [a]);
    MarksNewLine([], a);
    assert [] + [[a]] == [[a]] && [] + [a] == [a];
  }

  lemma BreakingBeforeTheSpanFits(lines: seq<seq<string>>, span: seq<string>, first: string, indent: string)
    requires |lines| == 1 && lines[0] != [] && span != [] && CodeMarks(lines) % 2 == 0
    requires |first| + WordsWidth(lines[0]) <= WIDTH && |indent| + WordsWidth(span) <= WIDTH
    ensures Fits(lines + [span], Flatten(lines) + span, first, indent)
  {
    FlattenNewLine(lines, span);
    assert (lines + [span])[..1] == lines;
  }

  /** The price of choosing word by word: a span whose first word still fits on
      the line is begun there and runs past the column, although breaking before
      the span would have fitted. */
  lemma ASpanBegunLateOverruns(a: string, b: string, c: string, first: string, indent: string)
    requires a != "" && Count(a, '`') % 2 == 0 && Count(b, '`') % 2 == 1
    requires |first| + |a| + 1 + |b| <= 76 < |first| + |a| + 1 + |b| + 1 + |c|
    requires |indent| + |b| + 1 + |c| <= 76
    ensures Wrapped([a] + [b] + [c], first, indent).column > WIDTH
    ensures Fits([[a]] + [[b] + [c]], [a] + [b] + [c], first, indent)
  {
    FirstWordPlaced(a, first, indent);
    OverrunsAfter([a], b, c, first, indent);
    BreakingBeforeTheSpanFits([[a]], [b] + [c], first, indent) by {
      OneWordLine(a);
      WidthGrown([b], c);
    }
    Ordering.Assoc([a], [b], [c]);
    OneWordLine(a);
  }

  function Late(): string {
    seq(70, _ => 'a') + " " + "`b" + " " + "cccc`"
  }

  lemma FieldsOfThree(a: string, b: string, c: string)
    requires a != "" && NoSpace(a) && b != "" && NoSpace(b) && c != "" && NoSpace(c)
    ensures Fields(a + " " + b + " " + c) == [a] + [b] + [c]
  {
    FieldsOfWord(a);
    FieldsPlusWord(a, b);
    FieldsPlusWord(a + " " + b, c);
  }

  lemma OneBacktickIsOdd(rest: string)
    requires '`' !in rest
    ensures Count("`" + rest, '`') == 1
  {
    CountAppend("`", rest, '`');
  }

  /** The output is too wide although the words can be wrapped within the column. */
  ghost predicate OverrunsNeedlessly(words: seq<string>, first: string, indent: string) {
    && !IsWrapping(Wrapped(words, first, indent).lines, words, first, indent)
    && exists other :: Fits(other, words, first, indent)
  }

  lemma TooWideIsNoWrapping(words: seq<string>, first: string, indent: string)
    requires GoodWords(words) && Wrapped(words, first, indent).column > WIDTH
    ensures !IsWrapping(Wrapped(words, first, indent).lines, words, first, indent)
  {
    WrappedShape(words, first, indent);
  }

  lemma TooWideIsNeedless(words: seq<string>, other: seq<seq<string>>, first: string, indent: string)
    requires GoodWords(words) && Wrapped(words, first, indent).column > WIDTH && Fits(other, words, first, indent)
    ensures OverrunsNeedlessly(words, first, indent)
  {
    TooWideIsNoWrapping(words, first, indent);
  }

  lemma ThreeGoodWords(a: string, b: string, c: string)
    requires a != "" && NoSpace(a) && b != "" && NoSpace(b) && c != "" && NoSpace(c)
    ensures GoodWords([a] + [b] + [c])
  {
  }

  lemma ALateSpan(a: string, b: string, c: string, first: string, indent: string)
    requires a != "" && NoSpace(a) && b != "" && NoSpace(b) && c != "" && NoSpace(c)
    requires Count(a, '`') % 2 == 0 && Count(b, '`') % 2 == 1
    requires |first| + |a| + 1 + |b| <= 76 < |first| + |a| + 1 + |b| + 1 + |c|
    requires |indent| + |b| + 1 + |c| <= 76
    ensures OverrunsNeedlessly(Fields(a + " " + b + " " + c), first, indent)
  {
    FieldsOfThree(a, b, c);
    ThreeGoodWords(a, b, c);
    ASpanBegunLateOverruns(a, b, c, first, indent);
    TooWideIsNeedless([a] + [b] + [c], [[a]] + [[b] + [c]], first, indent);
  }

  /** A paragraph that overruns its column although its words can be wrapped within
      it. */
  lemma AParagraphOverruns()
    ensures OverrunsNeedlessly(Fields(Late()), "", "")
  {
    var a := seq(70, _ => 'a');
    OneBacktickIsOdd("b");
    assert "`" + "b" == "`b" && '`' !in a;
    ALateSpan(a, "`b", "cccc`", "", "");
  }
}
