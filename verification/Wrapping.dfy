/** Generated prose wrapped to the column the documents use, never inside an
    inline code span. */
module Wrapping {
  import Ordering
  import opened Text

  const WIDTH: nat := 76

  /** `xss` with `x` put at the end of its last part. */
  function GrowLast<T>(xss: seq<seq<T>>, x: T): (r: seq<seq<T>>)
    requires xss != []
    ensures |r| == |xss| && r[..|r| - 1] == xss[..|xss| - 1] && r[|r| - 1] == xss[|xss| - 1] + [x]
  {
    xss[..|xss| - 1] + [xss[|xss| - 1] + [x]]
  }

  lemma GrowLastAfter<T>(a: seq<seq<T>>, b: seq<seq<T>>, x: T)
    requires b != []
    ensures GrowLast(a + b, x) == a + GrowLast(b, x)
  {
    assert (a + b)[..|a + b| - 1] == a + b[..|b| - 1];
  }

  // ----- words -----

  ghost predicate GoodWords(words: seq<string>) {
    forall w :: w in words ==> w != "" && NoSpace(w)
  }

  lemma GrownIsGood(words: seq<string>, c: char)
    requires GoodWords(words) && words != [] && !IsSpace(c)
    ensures GoodWords(GrowLast(words, c))
  {
    var n := |words| - 1;
    var grown := words[n] + [c];
    assert words[n] in words;
    assert NoSpace(grown);
    forall w | w in GrowLast(words, c) ensures w in words || w == grown {}
  }

  /** strings.Fields: the maximal runs of bytes that are not white. */
  function Fields(s: string): (fs: seq<string>)
    ensures s != "" && !IsSpace(s[|s| - 1]) ==> fs != []
  {
    if s == "" then []
    else
      var n := |s| - 1;
      var before := Fields(s[..n]);
      if IsSpace(s[n]) then before
      else if n == 0 || IsSpace(s[n - 1]) then before + [[s[n]]]
      else GrowLast(before, s[n])
  }

  lemma {:induction false} FieldsAreGood(s: string)
    ensures GoodWords(Fields(s))
  {
    if s == "" {
    } else {
      var n := |s| - 1;
      FieldsAreGood(s[..n]);
      if !IsSpace(s[n]) && n > 0 && !IsSpace(s[n - 1]) { GrownIsGood(Fields(s[..n]), s[n]); }
    }
  }

  /** A byte after a text either ends a word, starts one, or grows the last. */
  lemma FieldsSnoc(s: string, c: char)
    ensures Fields(s + [c]) ==
              if IsSpace(c) then Fields(s)
              else if s == "" || IsSpace(s[|s| - 1]) then Fields(s) + [[c]]
              else GrowLast(Fields(s), c)
  {
    var t := s + [c];
    assert t[..|s|] == s && t[|s|] == c;
    assert s != "" ==> t[|s| - 1] == s[|s| - 1];
  }

  lemma {:induction false} FieldsAcross(a: string, c: char, b: string)
    requires IsSpace(c)
    ensures Fields(a + [c] + b) == Fields(a) + Fields(b)
  {
    if b == "" {
      assert a + [c] + b == a + [c];
      FieldsSnoc(a, c);
    } else {
      var n := |b| - 1;
      var left := a + [c] + b[..n];
      assert b == b[..n] + [b[n]] && a + [c] + b == left + [b[n]];
      FieldsAcross(a, c, b[..n]);
      FieldsSnoc(left, b[n]);
      FieldsSnoc(b[..n], b[n]);
      if n > 0 {
        assert left[|left| - 1] == b[n - 1];
        if !IsSpace(b[n - 1]) { GrowLastAfter(Fields(a), Fields(b[..n]), b[n]); }
      } else {
        assert left[|left| - 1] == c;
      }
    }
  }

  lemma {:induction false} FieldsOfWord(w: string)
    requires w != "" && NoSpace(w)
    ensures Fields(w) == [w]
  {
    var n := |w| - 1;
    assert w[n] in w && w == w[..n] + [w[n]];
    FieldsSnoc(w[..n], w[n]);
    if n == 0 {
    } else {
      assert forall c :: c in w[..n] ==> c in w;
      assert w[n - 1] in w;
      FieldsOfWord(w[..n]);
    }
  }

  lemma {:induction false} FieldsOfSpace(s: string)
    requires AllSpace(s)
    ensures Fields(s) == []
  {
    if s == "" {
    } else {
      assert s[|s| - 1] in s;
      assert forall c :: c in s[..|s| - 1] ==> c in s;
      FieldsOfSpace(s[..|s| - 1]);
    }
  }

  lemma FieldsAfterSpace(p: string, s: string)
    requires AllSpace(p)
    ensures Fields(p + s) == Fields(s)
  {
    if p == "" {
      assert p + s == s;
    } else {
      var n := |p| - 1;
      assert p[n] in p;
      assert forall c :: c in p[..n] ==> c in p;
      assert p[..n] + [p[n]] == p;
      FieldsAcross(p[..n], p[n], s);
      FieldsOfSpace(p[..n]);
      assert [] + Fields(s) == Fields(s);
    }
  }

  // ----- the greedy wrapper -----

  /** Where the wrapper stands: the lines so far, the column reached, and whether
      a code span is open. */
  datatype State = State(lines: seq<seq<string>>, column: nat, inCode: bool)

  function Toggled(inCode: bool, word: string): bool {
    if Count(word, '`') % 2 == 1 then !inCode else inCode
  }

  function Place(st: State, word: string, first: string, indent: string): State {
    var inCode := Toggled(st.inCode, word);
    if st.column == 0 then State(st.lines + [[word]], |first| + |word|, inCode)
    else if st.lines == [] || (!st.inCode && st.column + 1 + |word| > WIDTH) then
      State(st.lines + [[word]], |indent| + |word|, inCode)
    else State(GrowLast(st.lines, word), st.column + 1 + |word|, inCode)
  }

  function Wrapped(words: seq<string>, first: string, indent: string): State {
    if words == [] then State([], 0, false)
    else Place(Wrapped(words[..|words| - 1], first, indent), words[|words| - 1], first, indent)
  }

  lemma WrappedSnoc(words: seq<string>, word: string, first: string, indent: string)
    ensures Wrapped(words + [word], first, indent) == Place(Wrapped(words, first, indent), word, first, indent)
  {
    assert (words + [word])[..|words|] == words;
  }

  function RenderLine(prefix: string, line: seq<string>): string {
    if line == [] then prefix
    else if |line| == 1 then prefix + line[0]
    else RenderLine(prefix, line[..|line| - 1]) + " " + line[|line| - 1]
  }

  function Render(lines: seq<seq<string>>, first: string, indent: string): string {
    if lines == [] then ""
    else if |lines| == 1 then RenderLine(first, lines[0])
    else Render(lines[..|lines| - 1], first, indent) + "\n" + RenderLine(indent, lines[|lines| - 1])
  }

  function Flatten(lines: seq<seq<string>>): seq<string> {
    if lines == [] then [] else Flatten(lines[..|lines| - 1]) + lines[|lines| - 1]
  }

  /** wrapAt. */
  method WrapAt(text: string, first: string, indent: string) returns (out: string)
    ensures out == Render(Wrapped(Fields(text), first, indent).lines, first, indent) + "\n"
  {
    out := "";
    var column := 0;
    var prefix := first;
    var inCode := false;
    var words := Fields(text);
    ghost var st := State([], 0, false);
    FieldsAreGood(text);
    for i := 0 to |words|
      invariant st == Wrapped(words[..i], first, indent)
      invariant column == st.column && inCode == st.inCode && out == Render(st.lines, first, indent)
      invariant prefix == if column == 0 then first else indent
    {
      var word := words[i];
      st := PlaceNext(words, i, st, first, indent);
      var piece: string;
      if column == 0 {
        piece := prefix + word;
        column := |prefix| + |word|;
        prefix := indent;
      } else if !inCode && column + 1 + |word| > WIDTH {
        piece := "\n" + (indent + word);
        column := |indent| + |word|;
      } else {
        piece := " " + word;
        column := column + 1 + |word|;
      }
      out := out + piece;
      if Count(word, '`') % 2 == 1 { inCode := !inCode; }
    }
    assert words[..|words|] == words;
    out := out + "\n";
  }

  lemma PlaceNext(words: seq<string>, i: nat, st: State, first: string, indent: string) returns (next: State)
    requires i < |words| && GoodWords(words) && st == Wrapped(words[..i], first, indent)
    ensures next == Wrapped(words[..i + 1], first, indent)
    ensures Render(next.lines, first, indent) == Render(st.lines, first, indent) + Piece(st, words[i], first, indent)
    ensures next.inCode == Toggled(st.inCode, words[i]) && next.column > 0
    ensures next.column == if st.column == 0 then |first| + |words[i]|
                           else if !st.inCode && st.column + 1 + |words[i]| > WIDTH then |indent| + |words[i]|
                           else st.column + 1 + |words[i]|
  {
    next := Place(st, words[i], first, indent);
    assert words[i] in words;
    assert words[..i + 1][..i] == words[..i];
    assert forall w :: w in words[..i] ==> w in words;
    WrappedShape(words[..i], first, indent);
    PlaceRenders(st, words[i], first, indent);
  }

  lemma RenderLineGrown(prefix: string, line: seq<string>, word: string)
    requires line != []
    ensures RenderLine(prefix, line + [word]) == RenderLine(prefix, line) + " " + word
  {
    assert (line + [word])[..|line|] == line;
  }

  lemma RenderNewLine(lines: seq<seq<string>>, line: seq<string>, first: string, indent: string)
    requires lines != []
    ensures Render(lines + [line], first, indent) == Render(lines, first, indent) + "\n" + RenderLine(indent, line)
  {
    assert (lines + [line])[..|lines|] == lines;
  }

  lemma RenderGrown(lines: seq<seq<string>>, word: string, first: string, indent: string)
    requires lines != [] && lines[|lines| - 1] != []
    ensures Render(GrowLast(lines, word), first, indent) == Render(lines, first, indent) + " " + word
  {
    var n := |lines| - 1;
    var line := lines[n];
    RenderLineGrown(if n == 0 then first else indent, line, word);
    if n > 0 {
      assert GrowLast(lines, word) == lines[..n] + [line + [word]];
      RenderNewLine(lines[..n], line + [word], first, indent);
      var before := Render(lines[..n], first, indent);
      assert before + "\n" + (RenderLine(indent, line) + " " + word)
               == before + "\n" + RenderLine(indent, line) + " " + word;
    }
  }

  /** What placing a word writes. */
  function Piece(st: State, word: string, first: string, indent: string): string {
    if st.column == 0 then first + word
    else if !st.inCode && st.column + 1 + |word| > WIDTH then "\n" + (indent + word)
    else " " + word
  }

  lemma PlaceRenders(st: State, word: string, first: string, indent: string)
    requires st.column == 0 <==> st.lines == []
    requires st.lines != [] ==> st.lines[|st.lines| - 1] != []
    ensures Render(Place(st, word, first, indent).lines, first, indent)
              == Render(st.lines, first, indent) + Piece(st, word, first, indent)
  {
    if st.column == 0 {
      assert st.lines + [[word]] == [[word]];
    } else if !st.inCode && st.column + 1 + |word| > WIDTH {
      RenderNewLine(st.lines, [word], first, indent);
      Ordering.Assoc(Render(st.lines, first, indent), "\n", indent + word);
    } else {
      RenderGrown(st.lines, word, first, indent);
      Ordering.Assoc(Render(st.lines, first, indent), " ", word);
    }
  }

  lemma FlattenNewLine(lines: seq<seq<string>>, line: seq<string>)
    ensures Flatten(lines + [line]) == Flatten(lines) + line
  {
    assert (lines + [line])[..|lines|] == lines;
  }

  lemma FlattenGrown(lines: seq<seq<string>>, word: string)
    requires lines != []
    ensures Flatten(GrowLast(lines, word)) == Flatten(lines) + [word]
  {
    var n := |lines| - 1;
    assert Flatten(lines[..n]) + (lines[n] + [word]) == Flatten(lines[..n]) + lines[n] + [word];
  }

  /** What the state always is: no empty line, the words in order, a column that
      is the width of the last line. */
  ghost predicate Shaped(st: State, words: seq<string>, first: string, indent: string) {
    && (st.column == 0 <==> words == []) && (st.lines == [] <==> words == [])
    && NoEmptyLine(st.lines)
    && Flatten(st.lines) == words
    && (st.lines != [] ==> st.column == LineWidth(st.lines, |st.lines| - 1, first, indent))
  }

  ghost predicate NoEmptyLine(lines: seq<seq<string>>) {
    forall k :: 0 <= k < |lines| ==> lines[k] != []
  }

  lemma PlaceShapes(st: State, words: seq<string>, word: string, first: string, indent: string)
    requires Shaped(st, words, first, indent) && word != ""
    ensures Shaped(Place(st, word, first, indent), words + [word], first, indent)
  {
    FlattenNewLine(st.lines, [word]);
    if st.lines != [] {
      FlattenGrown(st.lines, word);
      WidthGrown(st.lines[|st.lines| - 1], word);
      var grown := GrowLast(st.lines, word);
      forall k | 0 <= k < |grown| ensures grown[k] != [] {
        if k < |grown| - 1 { assert grown[..|grown| - 1][k] == st.lines[..|grown| - 1][k]; }
      }
    }
  }

  lemma WidthGrown(line: seq<string>, word: string)
    requires line != []
    ensures WordsWidth(line + [word]) == WordsWidth(line) + 1 + |word|
  {
    assert (line + [word])[..|line|] == line;
  }

  lemma {:induction false} WrappedShape(words: seq<string>, first: string, indent: string)
    requires forall w :: w in words ==> w != ""
    ensures Shaped(Wrapped(words, first, indent), words, first, indent)
  {
    if words == [] {
    } else {
      var n := |words| - 1;
      assert forall w :: w in words[..n] ==> w in words;
      WrappedShape(words[..n], first, indent);
      assert words[n] in words && words == words[..n] + [words[n]];
      PlaceShapes(Wrapped(words[..n], first, indent), words[..n], words[n], first, indent);
    }
  }

  // ----- widths -----

  function WordsWidth(line: seq<string>): nat {
    if line == [] then 0
    else if |line| == 1 then |line[0]|
    else WordsWidth(line[..|line| - 1]) + 1 + |line[|line| - 1]|
  }

  function LineWidth(lines: seq<seq<string>>, k: nat, first: string, indent: string): nat
    requires k < |lines|
  {
    (if k == 0 then |first| else |indent|) + WordsWidth(lines[k])
  }

  /** A way to cut `words` into lines that fit. */
  ghost predicate IsWrapping(lines: seq<seq<string>>, words: seq<string>, first: string, indent: string) {
    && Flatten(lines) == words
    && NoEmptyLine(lines)
    && (forall k :: 0 <= k < |lines| ==> LineWidth(lines, k, first, indent) <= 76)
  }

  // ----- where a line may end -----

  function CodeMarks(lines: seq<seq<string>>): nat {
    if lines == [] then 0 else CodeMarks(lines[..|lines| - 1]) + MarksInLine(lines[|lines| - 1])
  }

  function MarksInLine(line: seq<string>): nat {
    if line == [] then 0 else MarksInLine(line[..|line| - 1]) + Count(line[|line| - 1], '`')
  }

  lemma MarksNewLine(lines: seq<seq<string>>, word: string)
    ensures CodeMarks(lines + [[word]]) == CodeMarks(lines) + Count(word, '`')
  {
    assert (lines + [[word]])[..|lines|] == lines;
    assert [word][..0] == [];
    assert MarksInLine([word]) == Count(word, '`');
  }

  lemma MarksGrown(lines: seq<seq<string>>, word: string)
    requires lines != []
    ensures CodeMarks(GrowLast(lines, word)) == CodeMarks(lines) + Count(word, '`')
  {
    var line := lines[|lines| - 1];
    assert (line + [word])[..|line|] == line;
  }

  /** Every line but the last ends where the backticks so far are even. */
  ghost predicate EndsOutsideCode(lines: seq<seq<string>>) {
    forall k :: 0 < k < |lines| ==> CodeMarks(lines[..k]) % 2 == 0
  }

  lemma {:induction false} LinesEndOutsideCode(words: seq<string>, first: string, indent: string)
    requires forall w :: w in words ==> w != ""
    ensures var st := Wrapped(words, first, indent);
            (st.inCode <==> CodeMarks(st.lines) % 2 == 1) && EndsOutsideCode(st.lines)
  {
    if words == [] {
    } else {
      var n := |words| - 1;
      assert forall w :: w in words[..n] ==> w in words;
      LinesEndOutsideCode(words[..n], first, indent);
      WrappedShape(words[..n], first, indent);
      PlaceKeepsSpans(Wrapped(words[..n], first, indent), words[n], first, indent);
    }
  }

  lemma EndsNewLine(lines: seq<seq<string>>, word: string)
    requires EndsOutsideCode(lines) && CodeMarks(lines) % 2 == 0
    ensures EndsOutsideCode(lines + [[word]])
  {
    forall k | 0 < k < |lines| + 1
      ensures CodeMarks((lines + [[word]])[..k]) % 2 == 0
    {
      assert (lines + [[word]])[..k] == lines[..k];
      if k == |lines| { assert lines[..k] == lines; }
    }
  }

  lemma EndsGrown(lines: seq<seq<string>>, word: string)
    requires EndsOutsideCode(lines) && lines != []
    ensures EndsOutsideCode(GrowLast(lines, word))
  {
    forall k | 0 < k < |lines|
      ensures CodeMarks(GrowLast(lines, word)[..k]) % 2 == 0
    {
      assert GrowLast(lines, word)[..k] == lines[..k];
    }
  }

  lemma PlaceCountsMarks(st: State, word: string, first: string, indent: string)
    requires st.column == 0 <==> st.lines == []
    ensures CodeMarks(Place(st, word, first, indent).lines) == CodeMarks(st.lines) + Count(word, '`')
  {
    MarksNewLine(st.lines, word);
    if st.lines != [] { MarksGrown(st.lines, word); }
  }

  lemma Parity(a: nat, b: nat)
    ensures (a + b) % 2 == if b % 2 == 1 then 1 - a % 2 else a % 2
  {
  }

  lemma PlaceKeepsSpans(st: State, word: string, first: string, indent: string)
    requires (st.inCode <==> CodeMarks(st.lines) % 2 == 1) && EndsOutsideCode(st.lines)
    requires st.column == 0 <==> st.lines == []
    ensures var next := Place(st, word, first, indent);
            (next.inCode <==> CodeMarks(next.lines) % 2 == 1) && EndsOutsideCode(next.lines)
  {
    PlaceCountsMarks(st, word, first, indent);
    Parity(CodeMarks(st.lines), Count(word, '`'));
    if st.column == 0 {
      assert CodeMarks([]) == 0;
      EndsNewLine(st.lines, word);
    } else if !st.inCode && st.column + 1 + |word| > WIDTH {
      EndsNewLine(st.lines, word);
    } else {
      EndsGrown(st.lines, word);
    }
  }

  lemma {:induction false} MarksAppend(a: seq<string>, b: seq<string>)
    ensures MarksInLine(a + b) == MarksInLine(a) + MarksInLine(b)
  {
    if b == [] {
      assert a + b == a;
    } else {
      var n := |b| - 1;
      assert (a + b)[..|a| + n] == a + b[..n];
      MarksAppend(a, b[..n]);
    }
  }

  /** The backticks of a document are those of its words, however they are cut. */
  lemma {:induction false} MarksAreTheWords(lines: seq<seq<string>>)
    ensures CodeMarks(lines) == MarksInLine(Flatten(lines))
  {
    if lines == [] {
    } else {
      var n := |lines| - 1;
      MarksAreTheWords(lines[..n]);
      MarksAppend(Flatten(lines[..n]), lines[n]);
    }
  }

  /** A stretch of words that cannot be broken: before each word but the first a
      span is open. A single word is one. */
  ghost predicate IsRun(line: seq<string>) {
    forall j :: 0 < j < |line| ==> MarksInLine(line[..j]) % 2 == 1
  }

  /** A way to cut `words` into lines that fit, but for lines that are nothing but
      a stretch that cannot be broken. */
  ghost predicate IsLoose(lines: seq<seq<string>>, words: seq<string>, first: string, indent: string) {
    && Flatten(lines) == words
    && NoEmptyLine(lines)
    && (forall k :: 0 <= k < |lines| ==> LineWidth(lines, k, first, indent) <= 76 || IsRun(lines[k]))
  }

  /** A wrapping with its last word taken away. */
  ghost function WithoutLast(lines: seq<seq<string>>): seq<seq<string>>
    requires lines != []
  {
    var n := |lines| - 1;
    if |lines[n]| <= 1 then lines[..n] else lines[..n] + [lines[n][..|lines[n]| - 1]]
  }

  lemma PartOfARun(line: seq<string>, n: nat)
    requires n <= |line|
    ensures IsRun(line) ==> IsRun(line[..n])
  {
    forall j | 0 < j < n
      ensures line[..n][..j] == line[..j]
    {
    }
  }

  lemma WithoutLastWraps(lines: seq<seq<string>>, words: seq<string>, first: string, indent: string)
    requires words != [] && IsLoose(lines, words, first, indent)
    ensures lines != []
    ensures IsLoose(WithoutLast(lines), words[..|words| - 1], first, indent)
    ensures var n := |lines| - 1; lines[n][|lines[n]| - 1] == words[|words| - 1]
  {
    var n := |lines| - 1;
    var last := lines[n];
    var shorter := WithoutLast(lines);
    assert last == last[..|last| - 1] + [last[|last| - 1]];
    assert words == Flatten(lines[..n]) + last;
    assert words[..|words| - 1] == Flatten(lines[..n]) + last[..|last| - 1];
    if |last| > 1 {
      assert shorter[..n] == lines[..n];
    }
    forall k | 0 <= k < |shorter|
      ensures (LineWidth(shorter, k, first, indent) <= WIDTH || IsRun(shorter[k])) && shorter[k] != []
    {
      assert LineWidth(lines, k, first, indent) <= WIDTH || IsRun(lines[k]);
      if k == n { PartOfARun(lines[k], |shorter[k]|); }
    }
  }

  /** As few lines, and among those as short a last line. */
  ghost predicate NoWorse(st: State, other: seq<seq<string>>, first: string, indent: string) {
    && |st.lines| <= |other|
    && (other != [] && |st.lines| == |other| ==> st.column <= LineWidth(other, |other| - 1, first, indent))
  }

  lemma SameBefore<T>(a: seq<T>, b: seq<T>, x: T)
    requires a + [x] == b + [x]
    ensures a == b
  {
    assert a == (a + [x])[..|a|] && b == (b + [x])[..|b|];
  }

  /** A wrapping that may not break inside code ends with a word on its own line
      only where no span is open. */
  lemma AloneOutsideCode(other: seq<seq<string>>, words: seq<string>, word: string)
    requires |other| > 1 && EndsOutsideCode(other) && Flatten(other) == words + [word]
    requires other[|other| - 1] == [word]
    ensures MarksInLine(words) % 2 == 0
  {
    var m := |other| - 1;
    SameBefore(Flatten(other[..m]), words, word);
    MarksAreTheWords(other[..m]);
    assert CodeMarks(other[..m]) % 2 == 0;
  }

  /** The last line of a wrapping, against the same line without its last word. */
  lemma LastWordWidth(other: seq<seq<string>>, first: string, indent: string)
    requires other != [] && |other[|other| - 1]| > 1
    ensures var m, last := |other| - 1, other[|other| - 1];
            && |WithoutLast(other)| == |other|
            && LineWidth(other, m, first, indent)
                == LineWidth(WithoutLast(other), m, first, indent) + 1 + |last[|last| - 1]|
  {
    var last := other[|other| - 1];
    assert last == last[..|last| - 1] + [last[|last| - 1]];
    WidthGrown(last[..|last| - 1], last[|last| - 1]);
  }

  lemma WordsBeforeTheLast(lines: seq<seq<string>>, words: seq<string>, word: string, short: seq<string>)
    requires lines != [] && Flatten(lines) == words + [word] && lines[|lines| - 1] == short + [word]
    ensures words == Flatten(lines[..|lines| - 1]) + short
  {
    var head := Flatten(lines[..|lines| - 1]);
    Ordering.Assoc(head, short, [word]);
    SameBefore(head + short, words, word);
  }

  lemma MarksBeforeTheLast(lines: seq<seq<string>>, words: seq<string>, word: string, short: seq<string>)
    requires lines != [] && Flatten(lines) == words + [word] && lines[|lines| - 1] == short + [word]
    ensures MarksInLine(words) == CodeMarks(lines[..|lines| - 1]) + MarksInLine(short)
  {
    WordsBeforeTheLast(lines, words, word, short);
    MarksAppend(Flatten(lines[..|lines| - 1]), short);
    MarksAreTheWords(lines[..|lines| - 1]);
  }

  lemma ClosedInside(short: seq<string>, word: string)
    requires short != [] && MarksInLine(short) % 2 == 0
    ensures !IsRun(short + [word])
  {
    assert (short + [word])[..|short|] == short;
  }

  /** Where a span is not open, a last line of several words is more than one
      stretch. */
  lemma ClosedIsNoRun(other: seq<seq<string>>, words: seq<string>, word: string)
    requires other != [] && EndsOutsideCode(other) && Flatten(other) == words + [word]
    requires |other[|other| - 1]| > 1 && MarksInLine(words) % 2 == 0
    ensures !IsRun(other[|other| - 1])
  {
    var m, last := |other| - 1, other[|other| - 1];
    var short := last[..|last| - 1];
    FlattenLast(other, words, word);
    assert last == short + [word];
    MarksBeforeTheLast(other, words, word, short);
    assert m == 0 ==> other[..m] == [];
    Parity(MarksInLine(short), CodeMarks(other[..m]));
    ClosedInside(short, word);
  }

  /** Placing one more word greedily stays ahead of any wrapping that ends with
      it and breaks outside code. */
  lemma PlaceStaysAhead(st: State, words: seq<string>, word: string, other: seq<seq<string>>, first: string,
                        indent: string)
    requires Shaped(st, words, first, indent) && (st.inCode <==> MarksInLine(words) % 2 == 1)
    requires IsLoose(other, words + [word], first, indent) && EndsOutsideCode(other)
    requires other != [] && NoWorse(st, WithoutLast(other), first, indent)
    requires WithoutLast(other) == [] ==> words == []
    ensures NoWorse(Place(st, word, first, indent), other, first, indent)
  {
    FlattenLast(other, words, word);
    if |other[|other| - 1]| > 1 {
      LastWordWidth(other, first, indent);
      if !st.inCode { ClosedIsNoRun(other, words, word); }
      AheadOnTheSameLine(st, word, other, first, indent);
    } else {
      assert other[|other| - 1] == [word];
      if |other| > 1 { AloneOutsideCode(other, words, word); }
      AheadOnANewLine(st, word, other, first, indent);
    }
  }

  lemma AheadOnTheSameLine(st: State, word: string, other: seq<seq<string>>, first: string, indent: string)
    requires st.column == 0 <==> st.lines == []
    requires other != [] && |WithoutLast(other)| == |other| && NoWorse(st, WithoutLast(other), first, indent)
    requires var m := |other| - 1;
             && LineWidth(other, m, first, indent) == LineWidth(WithoutLast(other), m, first, indent) + 1 + |word|
             && (st.inCode || LineWidth(other, m, first, indent) <= WIDTH)
    requires st.column == 0 ==> |other| > 1 || |first| + |word| <= LineWidth(other, 0, first, indent)
    ensures NoWorse(Place(st, word, first, indent), other, first, indent)
  {
  }

  lemma AheadOnANewLine(st: State, word: string, other: seq<seq<string>>, first: string, indent: string)
    requires (st.column == 0 <==> st.lines == []) && (st.inCode ==> |other| == 1)
    requires other != [] && other[|other| - 1] == [word] && NoWorse(st, WithoutLast(other), first, indent)
    ensures NoWorse(Place(st, word, first, indent), other, first, indent)
  {
    assert |WithoutLast(other)| == |other| - 1;
    assert WordsWidth([word]) == |word|;
  }

  lemma WithoutLastEndsOutside(lines: seq<seq<string>>)
    requires lines != [] && EndsOutsideCode(lines)
    ensures EndsOutsideCode(WithoutLast(lines))
  {
    var shorter := WithoutLast(lines);
    forall k | 0 < k < |shorter|
      ensures CodeMarks(shorter[..k]) % 2 == 0
    {
      assert shorter[..k] == lines[..k];
    }
  }

  lemma FlattenLast(lines: seq<seq<string>>, words: seq<string>, word: string)
    requires lines != [] && Flatten(lines) == words + [word] && lines[|lines| - 1] != []
    ensures var last := lines[|lines| - 1]; last[|last| - 1] == word
  {
    var last := lines[|lines| - 1];
    assert Flatten(lines)[|Flatten(lines)| - 1] == last[|last| - 1];
  }

  /** Greedy is best, whatever the words: no wrapping of them that breaks only
      outside code, and in which a line is too wide only when it is one stretch
      that cannot be broken, has fewer lines, and among those with as few, none has
      a shorter last line. */
  lemma {:induction false} GreedyIsBest(words: seq<string>, first: string, indent: string, other: seq<seq<string>>)
    requires GoodWords(words)
    requires IsLoose(other, words, first, indent) && EndsOutsideCode(other)
    ensures NoWorse(Wrapped(words, first, indent), other, first, indent)
    decreases |words|
  {
    if words == [] {
    } else {
      var n := |words| - 1;
      var before, word := words[..n], words[n];
      assert words == before + [word];
      assert forall w :: w in before ==> w in words;
      WithoutLastWraps(other, words, first, indent);
      WithoutLastEndsOutside(other);
      GreedyIsBest(before, first, indent, WithoutLast(other));
      var st := Wrapped(before, first, indent);
      WrappedShape(before, first, indent);
      LinesEndOutsideCode(before, first, indent);
      MarksAreTheWords(st.lines);
      PlaceStaysAhead(st, before, word, other, first, indent);
    }
  }

  // ----- nothing is lost, and doing it again changes nothing -----

  lemma FieldsPlusWord(s: string, word: string)
    requires word != "" && NoSpace(word)
    ensures Fields(s + " " + word) == Fields(s) + [word]
  {
    FieldsAcross(s, ' ', word);
    FieldsOfWord(word);
  }

  lemma OneMoreWord(rendered: string, lead: seq<string>, rest: seq<string>, word: string)
    requires Fields(rendered) == lead + rest && word != "" && NoSpace(word)
    ensures Fields(rendered + " " + word) == lead + (rest + [word])
  {
    FieldsPlusWord(rendered, word);
    Ordering.Assoc(lead, rest, [word]);
  }

  lemma {:induction false} LineReadsBack(prefix: string, line: seq<string>)
    requires GoodWords(line) && line != []
    ensures Fields(RenderLine(prefix, line)) == Fields(prefix + line[0]) + line[1..]
    decreases |line|
  {
    var n := |line| - 1;
    if n == 0 {
      assert line[1..] == [];
    } else {
      var before, word := line[..n], line[n];
      assert GoodWords(before) by { assert forall w :: w in before ==> w in line; }
      LineReadsBack(prefix, before);
      assert word in line;
      LineGrowsBack(prefix, before, word);
      LastApart(line);
    }
  }

  lemma LastApart<T>(xs: seq<T>)
    requires |xs| > 1
    ensures var n := |xs| - 1;
            xs[..n] + [xs[n]] == xs && xs[..n][0] == xs[0] && xs[..n][1..] + [xs[n]] == xs[1..]
  {
  }

  lemma LineGrowsBack(prefix: string, line: seq<string>, word: string)
    requires line != [] && word != "" && NoSpace(word)
    requires Fields(RenderLine(prefix, line)) == Fields(prefix + line[0]) + line[1..]
    ensures Fields(RenderLine(prefix, line + [word])) == Fields(prefix + line[0]) + (line[1..] + [word])
  {
    RenderLineGrown(prefix, line, word);
    OneMoreWord(RenderLine(prefix, line), Fields(prefix + line[0]), line[1..], word);
  }

  lemma LineOfWords(prefix: string, line: seq<string>)
    requires GoodWords(line) && line != [] && AllSpace(prefix)
    ensures Fields(RenderLine(prefix, line)) == line
  {
    LineReadsBack(prefix, line);
    assert line[0] in line;
    WordAfterSpace(prefix, line[0]);
    assert [line[0]] + line[1..] == line;
  }

  lemma WordAfterSpace(prefix: string, word: string)
    requires word != "" && NoSpace(word) && AllSpace(prefix)
    ensures Fields(prefix + word) == [word]
  {
    FieldsAfterSpace(prefix, word);
    FieldsOfWord(word);
  }

  lemma OneMoreLineReadsBack(rendered: string, lead: seq<string>, words: seq<string>, indent: string, line: seq<string>)
    requires Fields(rendered) == lead + words && GoodWords(line) && line != [] && AllSpace(indent)
    ensures Fields(rendered + "\n" + RenderLine(indent, line)) == lead + (words + line)
  {
    FieldsAcross(rendered, '\n', RenderLine(indent, line));
    LineOfWords(indent, line);
    Ordering.Assoc(lead, words, line);
  }

  lemma GoodParts(a: seq<string>, b: seq<string>)
    requires GoodWords(a + b)
    ensures GoodWords(a) && GoodWords(b)
  {
    assert forall w :: w in a || w in b ==> w in a + b;
  }

  /** The words of the document, behind those of `lead`. */
  ghost predicate ReadsBack(lines: seq<seq<string>>, first: string, indent: string, lead: seq<string>) {
    Fields(Render(lines, first, indent)) == lead + Flatten(lines)
  }

  lemma GrownReadsBack(before: seq<seq<string>>, line: seq<string>, first: string, indent: string, lead: seq<string>)
    requires before != [] && GoodWords(line) && line != [] && AllSpace(indent)
    requires ReadsBack(before, first, indent, lead)
    ensures ReadsBack(before + [line], first, indent, lead)
  {
    RenderNewLine(before, line, first, indent);
    FlattenNewLine(before, line);
    OneMoreLineReadsBack(Render(before, first, indent), lead, Flatten(before), indent, line);
  }

  lemma OneLineReadsBack(line: seq<string>, first: string, indent: string, lead: seq<string>)
    requires Fields(RenderLine(first, line)) == lead + line
    ensures ReadsBack([line], first, indent, lead)
  {
    assert [line][..0] == [];
    assert Flatten([line]) == line;
  }

  /** `lead` is what the first line reads back as before its own words. */
  lemma {:induction false} RenderReadsBack(lines: seq<seq<string>>, first: string, indent: string, lead: seq<string>)
    requires GoodWords(Flatten(lines)) && lines != [] && NoEmptyLine(lines)
    requires AllSpace(indent)
    requires Fields(RenderLine(first, lines[0])) == lead + lines[0]
    ensures ReadsBack(lines, first, indent, lead)
  {
    var n := |lines| - 1;
    var before := lines[..n];
    assert lines == before + [lines[n]];
    if n == 0 {
      OneLineReadsBack(lines[0], first, indent, lead);
    } else {
      GoodParts(Flatten(before), lines[n]);
      RenderReadsBack(before, first, indent, lead);
      GrownReadsBack(before, lines[n], first, indent, lead);
    }
  }

  lemma FieldsBeforeNewline(body: string)
    ensures Fields(body + "\n") == Fields(body)
  {
    FieldsSnoc(body, '\n');
  }

  lemma WordsReadBack(words: seq<string>)
    requires GoodWords(words)
    ensures Fields(Render(Wrapped(words, "", "").lines, "", "")) == words
  {
    var lines := Wrapped(words, "", "").lines;
    WrappedShape(words, "", "");
    if words != [] {
      LineIsPart(lines, 0);
      LineOfWords("", lines[0]);
      assert [] + lines[0] == lines[0] && [] + words == words;
      RenderReadsBack(lines, "", "", []);
    }
  }

  /** The words of the text, in order, and nothing else, come back out of a
      wrapped paragraph. */
  lemma ParagraphKeepsTheWords(text: string)
    ensures Fields(Render(Wrapped(Fields(text), "", "").lines, "", "") + "\n") == Fields(text)
  {
    FieldsAreGood(text);
    WordsReadBack(Fields(text));
    FieldsBeforeNewline(Render(Wrapped(Fields(text), "", "").lines, "", ""));
  }

  /** A bullet carries its dash and then the words. */
  lemma BulletKeepsTheWords(text: string)
    requires Fields(text) != []
    ensures Fields(Render(Wrapped(Fields(text), "- ", "  ").lines, "- ", "  ") + "\n") == ["-"] + Fields(text)
  {
    var words := Fields(text);
    var lines := Wrapped(words, "- ", "  ").lines;
    FieldsAreGood(text);
    WrappedShape(words, "- ", "  ");
    FieldsBeforeNewline(Render(lines, "- ", "  "));
    LineIsPart(lines, 0);
    BulletLine(lines[0]);
    RenderReadsBack(lines, "- ", "  ", ["-"]);
  }

  lemma BulletLine(line: seq<string>)
    requires GoodWords(line) && line != []
    ensures Fields(RenderLine("- ", line)) == ["-"] + line
  {
    var word := line[0];
    LineReadsBack("- ", line);
    DashAndWord(word) by { assert word in line; }
    Ordering.Assoc(["-"], [word], line[1..]);
    assert [word] + line[1..] == line;
  }

  lemma DashAndWord(word: string)
    requires word != "" && NoSpace(word)
    ensures Fields("- " + word) == ["-"] + [word]
  {
    assert "- " + word == "-" + [' '] + word;
    FieldsAcross("-", ' ', word);
    FieldsOfWord("-");
    FieldsOfWord(word);
  }

  function Paragraph(text: string): string {
    Render(Wrapped(Fields(text), "", "").lines, "", "") + "\n"
  }

  /** wrapParagraph. */
  method WrapParagraph(text: string) returns (out: string)
    ensures out == Paragraph(text)
    ensures Fields(out) == Fields(text)
  {
    out := WrapAt(text, "", "");
    ParagraphKeepsTheWords(text);
  }

  /** wrapBullet. */
  method WrapBullet(text: string) returns (out: string)
    ensures out == Render(Wrapped(Fields(text), "- ", "  ").lines, "- ", "  ") + "\n"
    ensures Fields(out) == if Fields(text) == [] then [] else ["-"] + Fields(text)
  {
    out := WrapAt(text, "- ", "  ");
    if Fields(text) != [] {
      BulletKeepsTheWords(text);
    } else {
      FieldsBeforeNewline("");
    }
  }

  /** Wrapping what is already wrapped changes no byte. */
  lemma WrappingIsIdempotent(text: string)
    ensures Paragraph(Paragraph(text)) == Paragraph(text)
  {
    ParagraphKeepsTheWords(text);
  }

  // ----- the lines of the text -----

  lemma {:induction false} JoinSnoc(words: seq<string>, word: string)
    requires words != []
    ensures Join(words + [word], " ") == Join(words, " ") + " " + word
  {
    var all := words + [word];
    if |words| == 1 {
      assert all[1..] == [word];
    } else {
      assert all[1..] == words[1..] + [word];
      JoinSnoc(words[1..], word);
      assert words[0] + " " + (Join(words[1..], " ") + " " + word)
               == words[0] + " " + Join(words[1..], " ") + " " + word;
    }
  }

  /** A line is its prefix and its words with one space between each two, and that
      long. */
  lemma {:induction false} LineIsJoined(prefix: string, line: seq<string>)
    requires line != []
    ensures RenderLine(prefix, line) == prefix + Join(line, " ")
    ensures |RenderLine(prefix, line)| == |prefix| + WordsWidth(line)
  {
    var n := |line| - 1;
    assert line == line[..n] + [line[n]];
    if n > 0 {
      LineIsJoined(prefix, line[..n]);
      JoinSnoc(line[..n], line[n]);
      assert prefix + (Join(line[..n], " ") + " " + line[n]) == prefix + Join(line[..n], " ") + " " + line[n];
    }
  }

  /** What line `k` of the text reads. */
  function LineText(lines: seq<seq<string>>, k: nat, first: string, indent: string): string
    requires k < |lines|
  {
    (if k == 0 then first else indent) + Join(lines[k], " ")
  }

  ghost predicate AreTheLines(texts: seq<string>, lines: seq<seq<string>>, first: string, indent: string) {
    && |texts| == |lines|
    && forall k :: 0 <= k < |lines| ==>
         texts[k] == LineText(lines, k, first, indent) && |texts[k]| == LineWidth(lines, k, first, indent)
  }

  lemma OneMoreText(texts: seq<string>, lines: seq<seq<string>>, line: seq<string>, first: string, indent: string)
    requires lines != [] && line != [] && AreTheLines(texts, lines, first, indent)
    ensures AreTheLines(texts + [RenderLine(indent, line)], lines + [line], first, indent)
  {
    LineIsJoined(indent, line);
    var all := lines + [line];
    forall k | 0 <= k < |lines|
      ensures LineText(all, k, first, indent) == LineText(lines, k, first, indent)
      ensures LineWidth(all, k, first, indent) == LineWidth(lines, k, first, indent)
    {
    }
  }

  /** Cut at its newlines, the text is the lines, each behind its prefix and as wide
      as it is counted. */
  lemma {:induction false} TheTextIsItsLines(lines: seq<seq<string>>, first: string, indent: string)
    requires lines != [] && NoEmptyLine(lines) && GoodWords(Flatten(lines))
    requires '\n' !in first && '\n' !in indent
    ensures AreTheLines(Split(Render(lines, first, indent), '\n'), lines, first, indent)
  {
    var n := |lines| - 1;
    var before, line := lines[..n], lines[n];
    assert lines == before + [line];
    GoodParts(Flatten(before), line);
    if n == 0 {
      LineIsOne(first, line);
      SplitOfPiece(RenderLine(first, line), '\n');
      LineIsJoined(first, line);
    } else {
      LineIsOne(indent, line);
      SplitOfPiece(RenderLine(indent, line), '\n');
      TheTextIsItsLines(before, first, indent);
      SplitAcross(Render(before, first, indent), '\n', RenderLine(indent, line));
      OneMoreText(Split(Render(before, first, indent), '\n'), before, line, first, indent);
    }
  }

  // ----- code spans stay whole -----

  lemma {:induction false} LineMarks(prefix: string, line: seq<string>)
    requires '`' !in prefix && GoodWords(line)
    ensures Count(RenderLine(prefix, line), '`') == MarksInLine(line)
  {
    if line == [] {
    } else {
      var n := |line| - 1;
      var word := line[n];
      if n == 0 {
        assert line[..0] == [];
        CountAppend(prefix, word, '`');
      } else {
        assert forall w :: w in line[..n] ==> w in line;
        LineMarks(prefix, line[..n]);
        var before := RenderLine(prefix, line[..n]);
        CountAppend(before + " ", word, '`');
        CountAppend(before, " ", '`');
      }
    }
  }

  lemma {:induction false} LineIsOne(prefix: string, line: seq<string>)
    requires '\n' !in prefix && GoodWords(line)
    ensures '\n' !in RenderLine(prefix, line)
  {
    if line == [] {
    } else {
      var n := |line| - 1;
      assert line[n] in line && IsSpace('\n');
      assert forall w :: w in line[..n] ==> w in line;
      LineIsOne(prefix, line[..n]);
    }
  }

  /** No newline of the text stands where the backticks so far are odd. */
  ghost predicate BreaksOutside(text: string) {
    forall i :: 0 <= i < |text| && text[i] == '\n' ==> Count(text[..i], '`') % 2 == 0
  }

  lemma BreaksAfterALine(before: string, line: string)
    requires BreaksOutside(before) && Count(before, '`') % 2 == 0 && '\n' !in line
    ensures BreaksOutside(before + "\n" + line)
    ensures Count(before + "\n" + line, '`') == Count(before, '`') + Count(line, '`')
  {
    var whole := before + "\n" + line;
    CountAppend(before + "\n", line, '`');
    CountAppend(before, "\n", '`');
    forall i | 0 <= i < |whole| && whole[i] == '\n'
      ensures Count(whole[..i], '`') % 2 == 0
    {
      if i < |before| {
        assert whole[..i] == before[..i];
      } else if i == |before| {
        assert whole[..i] == before;
      }
    }
  }

  lemma EndsOutsideBefore(lines: seq<seq<string>>, n: nat)
    requires EndsOutsideCode(lines) && n <= |lines|
    ensures EndsOutsideCode(lines[..n]) && (0 < n < |lines| ==> CodeMarks(lines[..n]) % 2 == 0)
  {
    forall k | 0 < k < n ensures CodeMarks(lines[..n][..k]) % 2 == 0 {
      assert lines[..n][..k] == lines[..k];
    }
  }

  lemma {:induction false} NewlinesAreOutsideCode(lines: seq<seq<string>>, first: string, indent: string)
    requires '`' !in first && '`' !in indent && '\n' !in first && '\n' !in indent
    requires forall k :: 0 <= k < |lines| ==> GoodWords(lines[k])
    requires EndsOutsideCode(lines)
    ensures Count(Render(lines, first, indent), '`') == CodeMarks(lines)
    ensures BreaksOutside(Render(lines, first, indent))
  {
    if |lines| == 1 {
      LineMarks(first, lines[0]);
      LineIsOne(first, lines[0]);
      assert lines[..0] == [];
      assert forall c :: c in RenderLine(first, lines[0]) ==> c != '\n';
    } else if lines != [] {
      var n := |lines| - 1;
      EndsOutsideBefore(lines, n);
      NewlinesAreOutsideCode(lines[..n], first, indent);
      LineMarks(indent, lines[n]);
      LineIsOne(indent, lines[n]);
      BreaksAfterALine(Render(lines[..n], first, indent), RenderLine(indent, lines[n]));
    }
  }

  /** Whatever the text, no line break but the last byte falls where the
      backticks written so far are odd. */
  lemma CodeSpansAreNeverBroken(text: string, first: string, indent: string, i: nat)
    requires '`' !in first && '`' !in indent && '\n' !in first && '\n' !in indent
    ensures var out := Render(Wrapped(Fields(text), first, indent).lines, first, indent) + "\n";
            i < |out| - 1 && out[i] == '\n' ==> Count(out[..i], '`') % 2 == 0
  {
    var words := Fields(text);
    var lines := Wrapped(words, first, indent).lines;
    FieldsAreGood(text);
    WrappedShape(words, first, indent);
    LinesEndOutsideCode(words, first, indent);
    forall k | 0 <= k < |lines| ensures GoodWords(lines[k]) {
      LineIsPart(lines, k);
    }
    NewlinesAreOutsideCode(lines, first, indent);
    var body := Render(lines, first, indent);
    if i < |body| { assert (body + "\n")[..i] == body[..i]; }
  }

  lemma {:induction false} LineIsPart(lines: seq<seq<string>>, k: nat)
    requires k < |lines|
    ensures forall w :: w in lines[k] ==> w in Flatten(lines)
  {
    if k == |lines| - 1 {
    } else {
      LineIsPart(lines[..|lines| - 1], k);
    }
  }
}
