/** Reading back the claims a generated block makes: the block is cut into the
    spans a claim is judged in, and a client and a provider named in one span
    are held to the capability matrix. */
module CapabilityClaims {
  import Ordering
  import opened Wrappers
  import opened Text
  import opened Wrapping

  // ----- lines -----

  predicate IsDigit(c: char) { '0' <= c <= '9' }

  function Digits(t: string): nat {
    if t != "" && IsDigit(t[0]) then 1 + Digits(t[1..]) else 0
  }

  /** A list item opens with a dash, a star or a plus, or with digits and a dot,
      and then white space. */
  predicate IsBullet(t: string) {
    || (|t| >= 2 && t[0] in {'-', '*', '+'} && IsReSpace(t[1]))
    || (var d := Digits(t); d > 0 && |t| >= d + 2 && t[d] == '.' && IsReSpace(t[d + 1]))
  }

  ghost predicate AllDigits(s: string) {
    forall c :: c in s ==> 48 <= c as int <= 57
  }

  /** The line begins with a dash, a star or a plus, or a number and a dot, and then a
      white byte. */
  ghost predicate OpensAnItem(t: string) {
    exists mark, white, rest ::
      && t == mark + [white] + rest && IsReSpace(white)
      && IsItemMark(mark)
  }

  ghost predicate IsItemMark(mark: string) {
    mark in {"-", "*", "+"} || exists number :: number != "" && AllDigits(number) && mark == number + "."
  }

  lemma {:induction false} DigitsLead(t: string)
    ensures Digits(t) <= |t| && AllDigits(t[..Digits(t)]) && (Digits(t) < |t| ==> !IsDigit(t[Digits(t)]))
  {
    if t != "" && IsDigit(t[0]) {
      DigitsLead(t[1..]);
      var n := Digits(t[1..]);
      assert t[..n + 1] == [t[0]] + t[1..][..n];
    }
  }

  lemma {:induction false} DigitsOf(number: string, rest: string)
    requires AllDigits(number) && (rest != "" ==> !IsDigit(rest[0]))
    ensures Digits(number + rest) == |number|
  {
    if number == "" {
      assert number + rest == rest;
    } else {
      assert number[0] in number && forall c :: c in number[1..] ==> c in number;
      assert (number + rest)[1..] == number[1..] + rest;
      DigitsOf(number[1..], rest);
    }
  }

  lemma BulletMeans(t: string)
    ensures IsBullet(t) <==> OpensAnItem(t)
  {
    if IsBullet(t) { BulletOpens(t); }
    if mark, white, rest :| t == mark + [white] + rest && IsReSpace(white) && IsItemMark(mark) {
      if mark !in {"-", "*", "+"} {
        var number :| number != "" && AllDigits(number) && mark == number + ".";
        assert t == number + ("." + ([white] + rest));
        DigitsOf(number, "." + ([white] + rest));
      }
    }
  }

  lemma BulletOpens(t: string)
    requires IsBullet(t)
    ensures OpensAnItem(t)
  {
    if |t| >= 2 && t[0] in {'-', '*', '+'} && IsReSpace(t[1]) {
      assert t == [t[0]] + [t[1]] + t[2..];
      assert [t[0]] in {"-", "*", "+"};
    } else {
      DigitsLead(t);
      var d := Digits(t);
      assert t == (t[..d] + ".") + [t[d + 1]] + t[d + 2..];
      assert t[..d] != "" && IsItemMark(t[..d] + ".");
    }
  }

  datatype LineKind = FenceMarker | Blank | TableRow | ListItem | Plain

  datatype Line = Line(text: string, kind: LineKind)

  /** How the reader takes a line: by what it looks like once trimmed. */
  function KindOf(trimmed: string): LineKind {
    if HasPrefix(trimmed, "```") then FenceMarker
    else if trimmed == "" then Blank
    else if HasPrefix(trimmed, "|") then TableRow
    else if IsBullet(trimmed) then ListItem
    else Plain
  }

  /** What a line is, by how it begins. */
  lemma KindMeans(t: string)
    ensures KindOf(t) == FenceMarker <==> "```" <= t
    ensures KindOf(t) == Blank <==> t == ""
    ensures KindOf(t) == TableRow <==> "|" <= t
    ensures KindOf(t) == ListItem <==> OpensAnItem(t)
  {
    BulletMeans(t);
    if HasPrefix(t, "```") { assert "```"[0] == t[0]; }
    if HasPrefix(t, "|") { assert "|"[0] == t[0]; }
    assert "```" <= t ==> HasPrefix(t, "```");
    assert "|" <= t ==> HasPrefix(t, "|");
  }

  function TakeLine(text: string): Line {
    Line(text, KindOf(TrimSpace(text)))
  }

  function Taken(texts: seq<string>, take: string -> Line): seq<Line> {
    if texts == [] then [] else Taken(texts[..|texts| - 1], take) + [take(texts[|texts| - 1])]
  }

  function LinesOfBlock(block: string): seq<Line> {
    Taken(Split(block, '\n'), TakeLine)
  }

  lemma {:induction false} EachIsTaken(texts: seq<string>, take: string -> Line, i: nat)
    requires i < |texts|
    ensures |Taken(texts, take)| == |texts| && Taken(texts, take)[i] == take(texts[i])
  {
    var n := |texts| - 1;
    if n == 0 {
    } else if i == n {
      EachIsTaken(texts[..n], take, 0);
    } else {
      EachIsTaken(texts[..n], take, i);
    }
  }

  /** The lines of a block are what stands between its newlines, each of the kind it
      looks like once the white bytes around it are gone. */
  lemma LinesMean(block: string, i: nat)
    ensures var lines, texts := LinesOfBlock(block), Split(block, '\n');
      && |lines| == |texts|
      && (i < |lines| ==> lines[i].text == texts[i] && lines[i].kind == KindOf(TrimSpace(texts[i])))
  {
    EachIsTaken(Split(block, '\n'), TakeLine, if i < |Split(block, '\n')| then i else 0);
  }

  // ----- sentences -----

  /** A sentence ends at `i`: a stop followed by white space or by the end. */
  predicate StopAt(text: string, i: nat) {
    i < |text| && text[i] in {'.', '!', '?'} && (i + 1 == |text| || IsReSpace(text[i + 1]))
  }

  predicate IsStop(c: char) { c == '.' || c == '!' || c == '?' }

  lemma StopMeans(before: string, stop: char, after: string)
    ensures StopAt(before + [stop] + after, |before|) <==> IsStop(stop) && (after == "" || IsReSpace(after[0]))
    ensures forall i :: i >= |before + [stop] + after| ==> !StopAt(before + [stop] + after, i)
  {
    var text := before + [stop] + after;
    assert text[|before|] == stop;
    assert after != "" ==> text[|before| + 1] == after[0];
  }

  /** Where the first sentence starting at or after `from` ends, the white byte
      after its stop included. */
  function NextEnd(text: string, from: nat): Option<nat>
    decreases |text| - from
  {
    if from >= |text| then None
    else if StopAt(text, from) then Some(if from + 1 == |text| then from + 1 else from + 2)
    else NextEnd(text, from + 1)
  }

  lemma {:induction false} NextEndIsFirst(text: string, from: nat)
    ensures var e := NextEnd(text, from);
            if e.None? then forall i :: from <= i ==> !StopAt(text, i)
            else
              && from < e.value <= |text|
              && (if e.value == |text| && StopAt(text, |text| - 1) then true
                  else from <= e.value - 2 && StopAt(text, e.value - 2))
              && (forall j :: from <= j < e.value - 2 ==> !StopAt(text, j))
    decreases |text| - from
  {
    if from >= |text| || StopAt(text, from) {
    } else {
      NextEndIsFirst(text, from + 1);
    }
  }

  function SentencesFrom(text: string, start: nat): seq<string>
    requires start <= |text|
    decreases |text| - start
  {
    NextEndIsFirst(text, start);
    var e := NextEnd(text, start);
    if e.Some? then [text[start..e.value]] + SentencesFrom(text, e.value)
    else
      var rest := TrimSpace(text[start..]);
      if rest == "" then [] else [rest]
  }

  /** The words of the texts, one text after the other. */
  ghost function WordsOf(texts: seq<string>): seq<string> {
    if texts == [] then [] else WordsOf(texts[..|texts| - 1]) + Fields(texts[|texts| - 1])
  }

  lemma WordsSnoc(texts: seq<string>, t: string)
    ensures WordsOf(texts + [t]) == WordsOf(texts) + Fields(t)
  {
    assert (texts + [t])[..|texts|] == texts;
  }

  lemma WordsOfOne(t: string)
    ensures WordsOf([t]) == Fields(t)
  {
    assert [t][..0] == [];
    assert [] + Fields(t) == Fields(t);
  }

  lemma {:induction false} WordsAppend(a: seq<string>, b: seq<string>)
    ensures WordsOf(a + b) == WordsOf(a) + WordsOf(b)
  {
    if b == [] {
      assert a + b == a;
    } else {
      var n := |b| - 1;
      WordsAppend(a, b[..n]);
      assert a + b == a + b[..n] + [b[n]];
      WordsSnoc(a + b[..n], b[n]);
      Ordering.Assoc(WordsOf(a), WordsOf(b[..n]), Fields(b[n]));
    }
  }

  lemma {:induction false} FieldsBeforeSpace(s: string, white: string)
    requires AllSpace(white)
    ensures Fields(s + white) == Fields(s)
  {
    if white == "" {
      assert s + white == s;
    } else {
      var n := |white| - 1;
      assert white[n] in white && forall c :: c in white[..n] ==> c in white;
      FieldsBeforeSpace(s, white[..n]);
      FieldsSnoc(s + white[..n], white[n]);
      assert s + white == s + white[..n] + [white[n]];
    }
  }

  /** Trimming a text leaves its words. */
  lemma FieldsOfTrim(s: string)
    ensures Fields(TrimSpace(s)) == Fields(s)
  {
    TrimMeans(s, TrimSpace(s));
    var before, after :| AllSpace(before) && AllSpace(after) && s == before + TrimSpace(s) + after;
    FieldsAfterSpace(before, TrimSpace(s));
    FieldsBeforeSpace(before + TrimSpace(s), after);
  }

  lemma EndsAreWhite(text: string, start: nat)
    ensures var e := NextEnd(text, start);
            e.Some? ==> start < e.value <= |text| && (e.value < |text| ==> IsSpace(text[e.value - 1]))
  {
    NextEndIsFirst(text, start);
  }

  lemma WordsOfMore(first: string, rest: seq<string>)
    ensures WordsOf([first] + rest) == Fields(first) + WordsOf(rest)
  {
    WordsAppend([first], rest);
    WordsOfOne(first);
  }

  /** The sentences of a text hold its words. */
  lemma {:induction false} SentencesKeepTheWords(text: string, start: nat)
    requires start <= |text|
    ensures WordsOf(SentencesFrom(text, start)) == Fields(text[start..])
    decreases |text| - start
  {
    EndsAreWhite(text, start);
    var e := NextEnd(text, start);
    if e.Some? {
      SentencesKeepTheWords(text, e.value);
      WordsOfMore(text[start..e.value], SentencesFrom(text, e.value));
      FieldsCut(text, start, e.value);
    } else {
      FieldsOfTrim(text[start..]);
      WordsOfOne(TrimSpace(text[start..]));
    }
  }

  lemma FieldsCut(text: string, start: nat, mid: nat)
    requires start < mid <= |text| && (mid < |text| ==> IsSpace(text[mid - 1]))
    ensures Fields(text[start..]) == Fields(text[start..mid]) + Fields(text[mid..])
  {
    if mid == |text| {
      assert text[start..mid] == text[start..] && text[mid..] == "";
    } else {
      var head, c, rest := text[start..mid - 1], text[mid - 1], text[mid..];
      assert text[start..mid] == head + [c] && text[start..] == head + [c] + rest;
      FieldsAcross(head, c, rest);
      FieldsSnoc(head, c);
    }
  }

  /** The same cut, as the loop makes it. */
  method CutSentences(text: string) returns (units: seq<string>)
    ensures units == SentencesFrom(text, 0)
  {
    units := [];
    var start := 0;
    while true
      invariant start <= |text|
      invariant units + SentencesFrom(text, start) == SentencesFrom(text, 0)
      decreases |text| - start
    {
      NextEndIsFirst(text, start);
      var e := NextEnd(text, start);
      if e.None? { break; }
      Ordering.Assoc(units, [text[start..e.value]], SentencesFrom(text, e.value));
      units := units + [text[start..e.value]];
      start := e.value;
    }
    var rest := TrimSpace(text[start..]);
    if rest != "" {
      units := units + [rest];
    }
  }

  // ----- spans -----

  /** What a claim is judged in: a table row, a fence, or a run of prose lines. */
  datatype Span = Row(line: Line) | Fenced(lines: seq<Line>, closed: bool) | Prose(lines: seq<Line>)

  function Texts(lines: seq<Line>): seq<string> {
    if lines == [] then [] else Texts(lines[..|lines| - 1]) + [lines[|lines| - 1].text]
  }

  function Trimmed(lines: seq<Line>): seq<string> {
    if lines == [] then [] else Trimmed(lines[..|lines| - 1]) + [TrimSpace(lines[|lines| - 1].text)]
  }

  function UnitsOf(s: Span): seq<string> {
    match s
    case Row(line) => [TrimSpace(line.text)]
    case Fenced(lines, closed) => if closed || lines != [] then [Join(Texts(lines), "\n")] else []
    case Prose(lines) => if lines == [] then [] else SentencesFrom(Join(Trimmed(lines), " "), 0)
  }

  /** A row or a fence is judged as a whole: the row without the white bytes around it,
      the fence line for line. */
  lemma RowsAndFencesAreWhole(s: Span)
    requires s.Row? || (s.Fenced? && s.lines != [] && forall text :: text in Texts(s.lines) ==> '\n' !in text)
    ensures |UnitsOf(s)| == 1
    ensures s.Fenced? ==> Split(UnitsOf(s)[0], '\n') == Texts(s.lines)
    ensures s.Row? ==> InkAtBothEnds(UnitsOf(s)[0])
    ensures s.Row? ==> exists before, after ::
              AllSpace(before) && AllSpace(after) && s.line.text == before + UnitsOf(s)[0] + after
  {
    match s
    case Row(line) => TrimMeans(line.text, TrimSpace(line.text));
    case Fenced(lines, _) => JoinSplits(Texts(lines), '\n');
  }

  function UnitsOfAll(spans: seq<Span>): seq<string> {
    if spans == [] then [] else UnitsOfAll(spans[..|spans| - 1]) + UnitsOf(spans[|spans| - 1])
  }

  /** The reader's position: the spans behind it, and the one it is in. */
  datatype Reader = Reader(spans: seq<Span>, paragraph: seq<Line>, fence: seq<Line>, inFence: bool)

  function Flush(r: Reader): Reader {
    if r.paragraph == [] then r else r.(spans := r.spans + [Prose(r.paragraph)], paragraph := [])
  }

  function ReadLine(r: Reader, line: Line): Reader {
    if line.kind.FenceMarker? then
      if r.inFence then r.(spans := r.spans + [Fenced(r.fence, true)], fence := [], inFence := false)
      else Flush(r).(inFence := true)
    else if r.inFence then r.(fence := r.fence + [line])
    else match line.kind
      case Blank => Flush(r)
      case TableRow => var f := Flush(r); f.(spans := f.spans + [Row(line)])
      case ListItem => var f := Flush(r); f.(paragraph := f.paragraph + [line])
      case Plain => r.(paragraph := r.paragraph + [line])
  }

  function ReadLines(lines: seq<Line>): Reader {
    if lines == [] then Reader([], [], [], false)
    else ReadLine(ReadLines(lines[..|lines| - 1]), lines[|lines| - 1])
  }

  /** The spans of a block: what is left open at its end is kept too. */
  function SpansOf(lines: seq<Line>): seq<Span> {
    Ended(ReadLines(lines))
  }

  function Ended(r: Reader): seq<Span> {
    var f := Flush(r);
    if f.fence == [] then f.spans else f.spans + [Fenced(f.fence, false)]
  }

  /** The reader's position in the units of a reader's spans: a line joins a
      paragraph trimmed, a fence as it stands. */
  datatype Position = Position(units: seq<string>, paragraph: seq<string>, fence: seq<string>, inFence: bool)

  ghost function PositionOf(r: Reader): Position {
    Position(UnitsOfAll(r.spans), Trimmed(r.paragraph), Texts(r.fence), r.inFence)
  }

  function Sentences(paragraph: seq<string>): seq<string> {
    if paragraph == [] then [] else SentencesFrom(Join(paragraph, " "), 0)
  }

  /** The variables of capabilityUnits and its flushing closure. */
  class UnitReader {
    var units: seq<string>
    var paragraph: seq<string>
    var fence: seq<string>
    var inFence: bool

    ghost function Now(): Position
      reads this
    {
      Position(units, paragraph, fence, inFence)
    }

    constructor ()
      ensures Now() == PositionOf(ReadLines([]))
    {
      units, paragraph, fence, inFence := [], [], [], false;
    }

    /** The paragraph joined, cut into sentences, and emptied. */
    method FlushParagraph()
      modifies this`units, this`paragraph
      ensures units == old(units) + Sentences(old(paragraph)) && paragraph == []
    {
      if |paragraph| == 0 { return; }
      var more := CutSentences(Join(paragraph, " "));
      units := units + more;
      paragraph := [];
    }

    /** One line taken. */
    method Read(line: Line)
      modifies this
      ensures Moves(old(Now()), line, Now())
    {
      if line.kind.FenceMarker? {
        if inFence {
          units := units + [Join(fence, "\n")];
          fence := [];
          inFence := false;
        } else {
          FlushParagraph();
          inFence := true;
        }
        return;
      }
      if inFence {
        fence := fence + [line.text];
        return;
      }
      if line.kind.Blank? {
        FlushParagraph();
        return;
      }
      if line.kind.TableRow? {
        FlushParagraph();
        units := units + [TrimSpace(line.text)];
        return;
      }
      if line.kind.ListItem? {
        FlushParagraph();
      }
      paragraph := paragraph + [TrimSpace(line.text)];
    }
  }

  /** capabilityUnits. */
  method CapabilityUnits(block: string) returns (units: seq<string>)
    ensures units == UnitsOfAll(SpansOf(LinesOfBlock(block)))
    ensures WordsOf(units) == WordsOf(Texts(WithoutMarkers(LinesOfBlock(block))))
  {
    BlockBlanksAreWhite(block);
    units := ReadWhole(LinesOfBlock(block));
  }

  method ReadWhole(lines: seq<Line>) returns (units: seq<string>)
    requires BlanksAreWhite(lines)
    ensures units == UnitsOfAll(SpansOf(lines))
    ensures WordsOf(units) == WordsOf(Texts(WithoutMarkers(lines)))
  {
    UnitsKeepTheWords(lines);
    units := ReadBlock(lines);
  }

  method ReadBlock(lines: seq<Line>) returns (units: seq<string>)
    ensures units == UnitsOfAll(SpansOf(lines))
  {
    var reader := new UnitReader();
    for i := 0 to |lines|
      invariant fresh(reader) && reader.Now() == PositionOf(ReadLines(lines[..i]))
    {
      ghost var was := reader.Now();
      reader.Read(lines[i]);
      OneMoreRead(lines, i, was, reader.Now());
    }
    assert lines[..|lines|] == lines;
    BlockEnds(ReadLines(lines));
    reader.FlushParagraph();
    units := reader.units;
    if |reader.fence| > 0 {
      units := units + [Join(reader.fence, "\n")];
    }
  }

  // ----- the method moves as the reader does -----

  /** Where a line takes the method from the position of `r`, case by case. */
  ghost predicate Moves(was: Position, line: Line, now: Position) {
    var flushed := was.units + Sentences(was.paragraph);
    if line.kind.FenceMarker? then
      if was.inFence then now == Position(was.units + [Join(was.fence, "\n")], was.paragraph, [], false)
      else now == Position(flushed, [], was.fence, true)
    else if was.inFence then now == was.(fence := was.fence + [line.text])
    else match line.kind
      case Blank => now == was.(units := flushed, paragraph := [])
      case TableRow => now == was.(units := flushed + [TrimSpace(line.text)], paragraph := [])
      case ListItem => now == was.(units := flushed, paragraph := [] + [TrimSpace(line.text)])
      case Plain => now == was.(paragraph := was.paragraph + [TrimSpace(line.text)])
  }

  lemma FlushMoves(r: Reader)
    ensures var was := PositionOf(r);
            PositionOf(Flush(r)) == was.(units := was.units + Sentences(was.paragraph), paragraph := [])
  {
    TrimmedSize(r.paragraph);
    if r.paragraph == [] {
      assert PositionOf(r).paragraph == [];
    } else {
      OneMoreSpan(r.spans, Prose(r.paragraph));
    }
  }

  lemma ReadLineMoves(r: Reader, line: Line)
    ensures Moves(PositionOf(r), line, PositionOf(ReadLine(r, line)))
  {
    FlushMoves(r);
    if line.kind.FenceMarker? {
      if r.inFence { OneMoreSpan(r.spans, Fenced(r.fence, true)); }
    } else if r.inFence {
      OneMoreLine(r.fence, line);
    } else {
      match line.kind
      case Blank =>
      case TableRow => OneMoreSpan(Flush(r).spans, Row(line));
      case ListItem => OneMoreLine(Flush(r).paragraph, line);
      case Plain => OneMoreLine(r.paragraph, line);
    }
  }

  lemma OneMoreRead(lines: seq<Line>, i: nat, was: Position, now: Position)
    requires i < |lines| && was == PositionOf(ReadLines(lines[..i])) && Moves(was, lines[i], now)
    ensures now == PositionOf(ReadLines(lines[..i + 1]))
  {
    assert lines[..i + 1][..i] == lines[..i];
    var r := ReadLines(lines[..i]);
    ReadLineMoves(r, lines[i]);
    MovesOneWay(was, lines[i], now, PositionOf(ReadLine(r, lines[i])));
  }

  lemma MovesOneWay(was: Position, line: Line, a: Position, b: Position)
    requires Moves(was, line, a) && Moves(was, line, b)
    ensures a == b
  {
  }

  /** What is left open at the end of a block is flushed, and a fence kept. */
  lemma BlockEnds(r: Reader)
    ensures var was := PositionOf(r);
            var flushed := was.units + Sentences(was.paragraph);
            UnitsOfAll(Ended(r)) == if was.fence == [] then flushed else flushed + [Join(was.fence, "\n")]
  {
    FlushMoves(r);
    TextsSize(r.fence);
    if r.fence != [] { OneMoreSpan(Flush(r).spans, Fenced(r.fence, false)); }
  }

  lemma {:induction false} TextsSize(lines: seq<Line>)
    ensures |Texts(lines)| == |lines|
  {
    if lines == [] {
    } else {
      TextsSize(lines[..|lines| - 1]);
    }
  }

  lemma {:induction false} TrimmedSize(lines: seq<Line>)
    ensures |Trimmed(lines)| == |lines|
  {
    if lines == [] {
    } else {
      TrimmedSize(lines[..|lines| - 1]);
    }
  }

  lemma OneMoreSpan(spans: seq<Span>, s: Span)
    ensures UnitsOfAll(spans + [s]) == UnitsOfAll(spans) + UnitsOf(s)
  {
    assert (spans + [s])[..|spans|] == spans;
  }

  lemma OneMoreLine(lines: seq<Line>, line: Line)
    ensures Texts(lines + [line]) == Texts(lines) + [line.text]
    ensures Trimmed(lines + [line]) == Trimmed(lines) + [TrimSpace(line.text)]
  {
    assert (lines + [line])[..|lines|] == lines;
  }

  // ----- what the spans are -----

  function SpanLines(s: Span): seq<Line> {
    match s
    case Row(line) => [line]
    case Fenced(lines, _) => lines
    case Prose(lines) => lines
  }

  function LinesOf(spans: seq<Span>): seq<Line> {
    if spans == [] then [] else LinesOf(spans[..|spans| - 1]) + SpanLines(spans[|spans| - 1])
  }

  /** An odd number of markers stands before a line inside a fence. */
  function OpenFence(lines: seq<Line>): bool {
    lines != [] && OpenFence(lines[..|lines| - 1]) != lines[|lines| - 1].kind.FenceMarker?
  }

  /** The lines that say something: every line but the fence markers and, outside
      a fence, the blank ones. */
  function ContentLines(lines: seq<Line>): seq<Line> {
    if lines == [] then []
    else
      var n := |lines| - 1;
      ContentLines(lines[..n]) + (if Says(OpenFence(lines[..n]), lines[n]) then [lines[n]] else [])
  }

  predicate Says(inFence: bool, line: Line) {
    !line.kind.FenceMarker? && (inFence || !line.kind.Blank?)
  }

  /** A run of prose holds no marker, no blank line and no table row, and a list
      item can only be its first line. */
  ghost predicate GoodProse(lines: seq<Line>) {
    && lines != []
    && (forall i :: 0 <= i < |lines| ==> lines[i].kind.Plain? || (i == 0 && lines[i].kind.ListItem?))
  }

  ghost predicate GoodSpan(s: Span) {
    match s
    case Row(line) => line.kind.TableRow?
    case Fenced(lines, closed) => (closed || lines != []) && NoMarker(lines)
    case Prose(lines) => GoodProse(lines)
  }

  ghost predicate GoodSpans(spans: seq<Span>) {
    forall i :: 0 <= i < |spans| ==> GoodSpan(spans[i])
  }

  ghost predicate NoMarker(lines: seq<Line>) {
    forall i :: 0 <= i < |lines| ==> !lines[i].kind.FenceMarker?
  }

  ghost predicate GoodReader(r: Reader, lines: seq<Line>) {
    && GoodSpans(r.spans)
    && (r.paragraph != [] ==> GoodProse(r.paragraph) && !r.inFence)
    && (r.fence != [] ==> r.inFence) && NoMarker(r.fence)
    && r.inFence == OpenFence(lines)
    && LinesOf(r.spans) + (if r.inFence then r.fence else r.paragraph) == ContentLines(lines)
  }

  lemma LinesOfSnoc(spans: seq<Span>, s: Span)
    ensures LinesOf(spans + [s]) == LinesOf(spans) + SpanLines(s)
  {
    assert (spans + [s])[..|spans|] == spans;
  }

  lemma FlushIsGood(r: Reader, lines: seq<Line>)
    requires GoodReader(r, lines)
    ensures GoodReader(Flush(r), lines) && Flush(r).paragraph == []
  {
    if r.paragraph != [] { LinesOfSnoc(r.spans, Prose(r.paragraph)); }
  }

  lemma {:induction false} ReaderIsGood(lines: seq<Line>)
    ensures GoodReader(ReadLines(lines), lines)
  {
    if lines == [] {
    } else {
      var n := |lines| - 1;
      ReaderIsGood(lines[..n]);
      LineKeepsGood(ReadLines(lines[..n]), lines[..n], lines[n]);
      assert lines[..n] + [lines[n]] == lines;
    }
  }

  lemma ContentSnoc(lines: seq<Line>, line: Line)
    ensures ContentLines(lines + [line]) == ContentLines(lines) + (if Says(OpenFence(lines), line) then [line] else [])
    ensures OpenFence(lines + [line]) == (OpenFence(lines) != line.kind.FenceMarker?)
  {
    assert (lines + [line])[..|lines|] == lines;
  }

  lemma MarkerKeepsGood(r: Reader, lines: seq<Line>, line: Line)
    requires GoodReader(r, lines) && line.kind.FenceMarker?
    ensures GoodReader(ReadLine(r, line), lines + [line])
  {
    ContentSnoc(lines, line);
    if r.inFence {
      LinesOfSnoc(r.spans, Fenced(r.fence, true));
      assert LinesOf(r.spans + [Fenced(r.fence, true)]) + [] == ContentLines(lines);
    } else {
      FlushIsGood(r, lines);
    }
  }

  lemma FencedLineKeepsGood(r: Reader, lines: seq<Line>, line: Line)
    requires GoodReader(r, lines) && r.inFence && !line.kind.FenceMarker?
    ensures GoodReader(ReadLine(r, line), lines + [line])
  {
    ContentSnoc(lines, line);
    Ordering.Assoc(LinesOf(r.spans), r.fence, [line]);
  }

  lemma SpanAdded(spans: seq<Span>, s: Span)
    requires GoodSpans(spans) && GoodSpan(s)
    ensures GoodSpans(spans + [s])
  {
  }

  lemma RowIsContent(spans: seq<Span>, lines: seq<Line>, line: Line)
    requires LinesOf(spans) + [] == ContentLines(lines) && line.kind.TableRow?
    ensures LinesOf(spans + [Row(line)]) + [] == ContentLines(lines + [line])
  {
    ContentSnoc(lines, line);
    LinesOfSnoc(spans, Row(line));
    assert LinesOf(spans) + [] == LinesOf(spans);
    assert LinesOf(spans + [Row(line)]) + [] == LinesOf(spans + [Row(line)]);
  }

  lemma RowKeepsGood(r: Reader, lines: seq<Line>, line: Line)
    requires GoodReader(r, lines) && !r.inFence && r.paragraph == [] && line.kind.TableRow?
    ensures GoodReader(r.(spans := r.spans + [Row(line)]), lines + [line])
  {
    SpanAdded(r.spans, Row(line));
    RowIsContent(r.spans, lines, line);
    ContentSnoc(lines, line);
  }

  lemma ProseKeepsGood(r: Reader, lines: seq<Line>, line: Line)
    requires GoodReader(r, lines) && !r.inFence
    requires line.kind.Plain? || (line.kind.ListItem? && r.paragraph == [])
    ensures GoodReader(r.(paragraph := r.paragraph + [line]), lines + [line])
  {
    ContentSnoc(lines, line);
    Ordering.Assoc(LinesOf(r.spans), r.paragraph, [line]);
  }

  lemma LineKeepsGood(r: Reader, lines: seq<Line>, line: Line)
    requires GoodReader(r, lines)
    ensures GoodReader(ReadLine(r, line), lines + [line])
  {
    FlushIsGood(r, lines);
    if line.kind.FenceMarker? {
      MarkerKeepsGood(r, lines, line);
    } else if r.inFence {
      FencedLineKeepsGood(r, lines, line);
    } else if line.kind.Blank? {
      ContentSnoc(lines, line);
    } else if line.kind.TableRow? {
      RowKeepsGood(Flush(r), lines, line);
    } else if line.kind.ListItem? {
      ProseKeepsGood(Flush(r), lines, line);
    } else {
      ProseKeepsGood(r, lines, line);
    }
  }

  /** The spans are the block's content, line for line, in order; no span mixes
      two table rows or two list items, and what stands in a fence is one span. */
  lemma SpansAreTheBlock(lines: seq<Line>)
    ensures LinesOf(SpansOf(lines)) == ContentLines(lines)
    ensures GoodSpans(SpansOf(lines))
  {
    ReaderIsGood(lines);
    FlushIsGood(ReadLines(lines), lines);
    LastFenceIsKept(Flush(ReadLines(lines)), lines);
  }

  /** Whether the last line belongs to a run of prose that is still open. */
  ghost predicate InProse(lines: seq<Line>) {
    lines != [] && !OpenFence(lines) && (lines[|lines| - 1].kind.Plain? || lines[|lines| - 1].kind.ListItem?)
  }

  /** Whether the last line is one inside a fence. */
  ghost predicate InFence(lines: seq<Line>) {
    lines != [] && OpenFence(lines) && !lines[|lines| - 1].kind.FenceMarker?
  }

  /** What one more line makes of the spans: a plain line goes on with the prose
      before it, a fenced one with its fence, a closing marker closes it, a row
      or an item stands by itself, and the others add nothing. */
  ghost predicate Adds(was: seq<Span>, now: seq<Span>, lines: seq<Line>, line: Line) {
    var n := |was| - 1;
    if OpenFence(lines) then
      if line.kind.FenceMarker? then
        if InFence(lines)
        then was != [] && was[n].Fenced? && now == was[..n] + [Fenced(was[n].lines, true)]
        else now == was + [Fenced([], true)]
      else if InFence(lines)
      then was != [] && was[n].Fenced? && now == was[..n] + [Fenced(was[n].lines + [line], false)]
      else now == was + [Fenced([line], false)]
    else match line.kind
      case FenceMarker => now == was
      case Blank => now == was
      case TableRow => now == was + [Row(line)]
      case ListItem => now == was + [Prose([line])]
      case Plain =>
        if InProse(lines)
        then was != [] && was[n].Prose? && now == was[..n] + [Prose(was[n].lines + [line])]
        else now == was + [Prose([line])]
  }

  /** Where the reader is between two lines. */
  ghost predicate Stands(r: Reader, lines: seq<Line>) {
    && r.inFence == OpenFence(lines)
    && (r.paragraph != [] <==> InProse(lines))
    && (r.fence != [] <==> InFence(lines))
  }

  lemma {:induction false} ReaderStands(lines: seq<Line>)
    ensures Stands(ReadLines(lines), lines)
  {
    if lines == [] {
    } else {
      var n := |lines| - 1;
      ReaderStands(lines[..n]);
    }
  }

  lemma LastOf(spans: seq<Span>, s: Span)
    ensures var all := spans + [s]; all[..|all| - 1] == spans && all[|all| - 1] == s
  {
  }

  lemma OneMoreAdds(r: Reader, lines: seq<Line>, line: Line)
    requires Stands(r, lines)
    ensures Adds(Ended(r), Ended(ReadLine(r, line)), lines, line)
  {
    var was, now := Ended(r), Ended(ReadLine(r, line));
    assert [] + [line] == [line];
    if r.fence != [] {
      assert was == r.spans + [Fenced(r.fence, false)];
      LastOf(r.spans, Fenced(r.fence, false));
      if line.kind.FenceMarker? {
        assert now == r.spans + [Fenced(r.fence, true)];
      } else {
        assert now == r.spans + [Fenced(r.fence + [line], false)];
      }
    } else if r.paragraph != [] {
      assert was == r.spans + [Prose(r.paragraph)];
      LastOf(r.spans, Prose(r.paragraph));
      if line.kind.Plain? {
        assert now == r.spans + [Prose(r.paragraph + [line])];
      }
    } else {
      assert r.paragraph + [line] == [line] && r.fence + [line] == [line];
    }
  }

  /** Line after line, this makes the spans of a block. */
  lemma EachLineAdds(lines: seq<Line>, line: Line)
    ensures SpansOf([]) == []
    ensures Adds(SpansOf(lines), SpansOf(lines + [line]), lines, line)
  {
    ReaderStands(lines);
    assert (lines + [line])[..|lines|] == lines;
    OneMoreAdds(ReadLines(lines), lines, line);
  }

  lemma LastFenceIsKept(r: Reader, lines: seq<Line>)
    requires GoodReader(r, lines) && r.paragraph == []
    ensures var spans := if r.fence == [] then r.spans else r.spans + [Fenced(r.fence, false)];
            LinesOf(spans) == ContentLines(lines) && GoodSpans(spans)
  {
    if r.fence != [] { LinesOfSnoc(r.spans, Fenced(r.fence, false)); }
  }

  // ----- nothing is lost -----

  lemma WordsFirst(parts: seq<string>)
    requires parts != []
    ensures WordsOf(parts) == Fields(parts[0]) + WordsOf(parts[1..])
  {
    assert parts == [parts[0]] + parts[1..];
    WordsAppend([parts[0]], parts[1..]);
    WordsOfOne(parts[0]);
  }

  lemma {:induction false} WordsOfJoin(parts: seq<string>, sep: char)
    requires IsSpace(sep)
    ensures Fields(Join(parts, [sep])) == WordsOf(parts)
  {
    if |parts| == 1 {
      WordsOfOne(parts[0]);
      assert parts == [parts[0]];
    } else if |parts| > 1 {
      WordsOfJoin(parts[1..], sep);
      FieldsAcross(parts[0], sep, Join(parts[1..], [sep]));
      WordsFirst(parts);
    }
  }

  lemma {:induction false} TextsAppend(a: seq<Line>, b: seq<Line>)
    ensures Texts(a + b) == Texts(a) + Texts(b)
  {
    if b == [] {
      assert a + b == a;
    } else {
      var n := |b| - 1;
      TextsAppend(a, b[..n]);
      assert a + b == a + b[..n] + [b[n]];
      OneMoreLine(a + b[..n], b[n]);
      Ordering.Assoc(Texts(a), Texts(b[..n]), [b[n].text]);
    }
  }

  lemma {:induction false} WordsOfTrimmed(lines: seq<Line>)
    ensures WordsOf(Trimmed(lines)) == WordsOf(Texts(lines))
  {
    if lines == [] {
    } else {
      var n := |lines| - 1;
      WordsOfTrimmed(lines[..n]);
      FieldsOfTrim(lines[n].text);
      WordsSnoc(Trimmed(lines[..n]), TrimSpace(lines[n].text));
      WordsSnoc(Texts(lines[..n]), lines[n].text);
    }
  }

  lemma UnitsOfKeepWords(s: Span)
    requires GoodSpan(s)
    ensures WordsOf(UnitsOf(s)) == WordsOf(Texts(SpanLines(s)))
  {
    match s
    case Row(line) =>
      WordsOfOne(TrimSpace(line.text));
      OneMoreLine([], line);
      assert [] + [line] == [line] && [] + [line.text] == [line.text];
      WordsOfOne(line.text);
      FieldsOfTrim(line.text);
    case Fenced(lines, closed) =>
      WordsOfJoin(Texts(lines), '\n');
      WordsOfOne(Join(Texts(lines), "\n"));
    case Prose(lines) =>
      var text := Join(Trimmed(lines), " ");
      SentencesKeepTheWords(text, 0);
      assert text[0..] == text;
      WordsOfJoin(Trimmed(lines), ' ');
      WordsOfTrimmed(lines);
  }

  lemma {:induction false} UnitsKeepWords(spans: seq<Span>)
    requires GoodSpans(spans)
    ensures WordsOf(UnitsOfAll(spans)) == WordsOf(Texts(LinesOf(spans)))
  {
    if spans == [] {
    } else {
      var n := |spans| - 1;
      UnitsKeepWords(spans[..n]);
      UnitsOfKeepWords(spans[n]);
      WordsAppend(UnitsOfAll(spans[..n]), UnitsOf(spans[n]));
      TextsAppend(LinesOf(spans[..n]), SpanLines(spans[n]));
      WordsAppend(Texts(LinesOf(spans[..n])), Texts(SpanLines(spans[n])));
    }
  }

  /** Every line of the block but its fence markers. */
  function WithoutMarkers(lines: seq<Line>): seq<Line> {
    if lines == [] then []
    else
      WithoutMarkers(lines[..|lines| - 1])
      + (if lines[|lines| - 1].kind.FenceMarker? then [] else [lines[|lines| - 1]])
  }

  ghost predicate BlanksAreWhite(lines: seq<Line>) {
    forall i :: 0 <= i < |lines| && lines[i].kind.Blank? ==> Fields(lines[i].text) == []
  }

  /** The content and the lines without markers hold the same words. */
  ghost predicate SameWords(lines: seq<Line>) {
    WordsOf(Texts(ContentLines(lines))) == WordsOf(Texts(WithoutMarkers(lines)))
  }

  lemma {:induction false} BlanksHoldNoWord(lines: seq<Line>)
    requires BlanksAreWhite(lines)
    ensures SameWords(lines)
  {
    if lines == [] {
    } else {
      var n := |lines| - 1;
      BlanksHoldNoWord(lines[..n]);
      BlankHoldsNoWord(lines[..n], lines[n]);
      assert lines == lines[..n] + [lines[n]];
    }
  }

  lemma BlankHoldsNoWord(lines: seq<Line>, line: Line)
    requires SameWords(lines)
    requires line.kind.Blank? ==> Fields(line.text) == []
    ensures SameWords(lines + [line])
  {
    assert (lines + [line])[..|lines|] == lines;
    var said, kept := ContentLines(lines), WithoutMarkers(lines);
    if line.kind.FenceMarker? {
      assert said + [] == said && kept + [] == kept;
    } else {
      WordsOfOneMore(kept, line);
      if Says(OpenFence(lines), line) {
        WordsOfOneMore(said, line);
      } else {
        assert said + [] == said;
        assert WordsOf(Texts(kept)) + [] == WordsOf(Texts(kept));
      }
    }
  }

  lemma WordsOfOneMore(lines: seq<Line>, line: Line)
    ensures WordsOf(Texts(lines + [line])) == WordsOf(Texts(lines)) + Fields(line.text)
  {
    OneMoreLine(lines, line);
    WordsSnoc(Texts(lines), line.text);
  }

  ghost predicate BlankMeansWhite(take: string -> Line) {
    forall t :: take(t).kind.Blank? ==> Fields(take(t).text) == []
  }

  lemma BlankLinesAreWhite()
    ensures BlankMeansWhite(TakeLine)
  {
    forall t | TakeLine(t).kind.Blank?
      ensures Fields(t) == []
    {
      NothingTrimmed(t);
    }
  }

  lemma NothingTrimmed(text: string)
    requires KindOf(TrimSpace(text)).Blank?
    ensures Fields(text) == []
  {
    OnlyEmptyIsBlank(TrimSpace(text));
    FieldsOfTrim(text);
  }

  lemma OnlyEmptyIsBlank(trimmed: string)
    requires KindOf(trimmed).Blank?
    ensures trimmed == ""
  {
  }

  lemma {:induction false} BlanksTakenAreWhite(texts: seq<string>, take: string -> Line)
    requires BlankMeansWhite(take)
    ensures BlanksAreWhite(Taken(texts, take))
  {
    if texts == [] {
    } else {
      BlanksTakenAreWhite(texts[..|texts| - 1], take);
    }
  }

  lemma BlockBlanksAreWhite(block: string)
    ensures BlanksAreWhite(LinesOfBlock(block))
  {
    BlankLinesAreWhite();
    BlanksTakenAreWhite(Split(block, '\n'), TakeLine);
  }

  /** Fence markers aside, the units hold the words of the lines, each whole and in
      order, whether or not the last fence is closed. */
  lemma UnitsKeepTheWords(lines: seq<Line>)
    requires BlanksAreWhite(lines)
    ensures WordsOf(UnitsOfAll(SpansOf(lines))) == WordsOf(Texts(WithoutMarkers(lines)))
  {
    SpansAreTheBlock(lines);
    UnitsKeepWords(SpansOf(lines));
    BlanksHoldNoWord(lines);
  }

  /** A sentence of a paragraph is a stretch of it, and holds one stop at most,
      that one at its end. */
  lemma {:induction false} NoSentenceHoldsTwo(text: string, start: nat, k: nat) returns (from: nat, to: nat)
    requires start <= |text| && k < |SentencesFrom(text, start)|
    ensures start <= from <= to <= |text|
    ensures SentencesFrom(text, start)[k] == text[from..to]
              || SentencesFrom(text, start)[k] == TrimSpace(text[from..to])
    ensures forall i :: from <= i < to - 2 ==> !StopAt(text, i)
    decreases |text| - start
  {
    NextEndIsFirst(text, start);
    var e := NextEnd(text, start);
    if e.None? {
      from, to := start, |text|;
      assert text[start..] == text[from..to];
    } else {
      var rest := SentencesFrom(text, e.value);
      assert SentencesFrom(text, start) == [text[start..e.value]] + rest;
      if k == 0 {
        from, to := start, e.value;
      } else {
        from, to := NoSentenceHoldsTwo(text, e.value, k - 1);
        assert ([text[start..e.value]] + rest)[k] == rest[k - 1];
      }
    }
  }

  // ----- which pairs a unit names -----

  predicate IsWordByte(c: char) { 'a' <= c <= 'z' || IsDigit(c) }

  function Lower(s: string): string {
    if s == "" then ""
    else [if 'A' <= s[0] <= 'Z' then s[0] - 'A' + 'a' else s[0]] + Lower(s[1..])
  }

  /** The bytes of a word, and what lower case does, by their codes. */
  lemma LowerMeans(s: string, i: nat)
    requires i < |s|
    ensures |Lower(s)| == |s|
    ensures Lower(s)[i] as int == if 65 <= s[i] as int <= 90 then s[i] as int + 32 else s[i] as int
    ensures IsWordByte(s[i]) <==> 97 <= s[i] as int <= 122 || 48 <= s[i] as int <= 57
  {
    if i == 0 {
      LowerKeepsLength(s);
    } else {
      LowerMeans(s[1..], i - 1);
    }
  }

  lemma {:induction false} LowerKeepsLength(s: string)
    ensures |Lower(s)| == |s|
  {
    if s == "" {
    } else {
      LowerKeepsLength(s[1..]);
    }
  }

  /** `w` is a whole run of letters and digits of `s`, starting at `k`. */
  ghost predicate WordAt(s: string, w: string, k: int) {
    && w != "" && OccursAt(s, w, k)
    && (forall i :: 0 <= i < |w| ==> IsWordByte(w[i]))
    && (k > 0 ==> !IsWordByte(s[k - 1]))
    && (k + |w| < |s| ==> !IsWordByte(s[k + |w|]))
  }

  ghost predicate HasWord(s: string, w: string) {
    exists k :: WordAt(s, w, k)
  }

  /** A word stands between two bytes that belong to none, or at an end of the text. */
  ghost predicate StandsAlone(before: string, w: string, after: string) {
    && w != "" && (forall c :: c in w ==> IsWordByte(c))
    && (before != "" ==> !IsWordByte(before[|before| - 1]))
    && (after != "" ==> !IsWordByte(after[0]))
  }

  lemma WordStands(s: string, w: string, k: int)
    requires WordAt(s, w, k)
    ensures StandsAlone(s[..k], w, s[k + |w|..]) && s == s[..k] + w + s[k + |w|..]
  {
  }

  lemma StandingIsAWord(before: string, w: string, after: string)
    requires StandsAlone(before, w, after)
    ensures WordAt(before + w + after, w, |before|)
  {
    OccursMeans(before + w + after, w, |before|);
  }

  lemma WordMeans(s: string, w: string)
    ensures HasWord(s, w) <==> exists before, after :: StandsAlone(before, w, after) && s == before + w + after
  {
    if k :| WordAt(s, w, k) { WordStands(s, w, k); }
    if before, after :| StandsAlone(before, w, after) && s == before + w + after { StandingIsAWord(before, w, after); }
  }

  /** The words of a text: maximal runs, so "exo" is not one of "exoscale". */
  method FindWords(s: string) returns (words: set<string>)
    ensures forall w :: w in words <==> HasWord(s, w)
  {
    words := {};
    var i := 0;
    while i < |s|
      invariant 0 <= i <= |s|
      invariant i == 0 || i == |s| || !IsWordByte(s[i - 1])
      invariant forall w :: w in words ==> HasWord(s, w)
      invariant forall w, k :: WordAt(s, w, k) && k < i ==> w in words
    {
      if !IsWordByte(s[i]) {
        i := i + 1;
        continue;
      }
      var j := i;
      while j < |s| && IsWordByte(s[j])
        invariant i <= j <= |s|
        invariant forall k :: i <= k < j ==> IsWordByte(s[k])
      {
        j := j + 1;
      }
      assert WordAt(s, s[i..j], i);
      forall w, k | WordAt(s, w, k) && i <= k < j
        ensures w == s[i..j]
      {
        OneWordHere(s, w, k, i, j);
      }
      words := words + {s[i..j]};
      i := if j < |s| then j + 1 else j;
    }
  }

  lemma OneWordHere(s: string, w: string, k: nat, i: nat, j: nat)
    requires WordAt(s, w, k) && i <= k < j <= |s|
    requires forall m :: i <= m < j ==> IsWordByte(s[m])
    requires j < |s| ==> !IsWordByte(s[j])
    ensures w == s[i..j]
  {
    assert k == i;
    assert forall m :: 0 <= m < |w| ==> w[m] == s[k + m];
    assert k + |w| == j;
  }

  /** capabilityPairsIn: a client and a provider are a pair of a unit exactly when
      both are words of it. */
  method CapabilityPairsIn(unit: string, tokens: seq<string>, providers: seq<string>)
    returns (pairs: seq<(string, string)>)
    ensures forall c, p :: (c, p) in pairs <==>
              c in tokens && p in providers && HasWord(Lower(unit), c) && HasWord(Lower(unit), p)
  {
    var words := FindWords(Lower(unit));
    var clients: seq<string> := [];
    for i := 0 to |tokens|
      invariant forall c :: c in clients <==> c in tokens[..i] && c in words
    {
      assert tokens[..i + 1] == tokens[..i] + [tokens[i]];
      if tokens[i] in words { clients := clients + [tokens[i]]; }
    }
    assert tokens[..|tokens|] == tokens;
    pairs := [];
    if |clients| == 0 { return; }
    for i := 0 to |providers|
      invariant forall q :: q in pairs <==> q.0 in clients && q.1 in providers[..i] && q.1 in words
    {
      var p := providers[i];
      assert providers[..i + 1] == providers[..i] + [p];
      if p !in words { continue; }
      for k := 0 to |clients|
        invariant forall q :: q in pairs <==>
                    (q.0 in clients && q.1 in providers[..i] && q.1 in words) || (q.1 == p && q.0 in clients[..k])
      {
        assert clients[..k + 1] == clients[..k] + [clients[k]];
        pairs := pairs + [(clients[k], p)];
      }
      assert clients[..|clients|] == clients;
    }
    assert providers[..|providers|] == providers;
  }

  // ----- the decision -----

  datatype MatrixRow = MatrixRow(refused: bool, marker: string)

  type Matrix = map<(string, string), MatrixRow>

  /** A claim nothing owns: no row for the pair, or a row that refuses it while
      the span does not carry the row's marker. */
  ghost predicate Unowned(matrix: Matrix, unit: string, client: string, provider: string) {
    || (provider, client) !in matrix
    || (matrix[(provider, client)].refused && !Contains(Lower(unit), Lower(matrix[(provider, client)].marker)))
  }

  /** The unit has the marker in it, whatever the case of either. */
  ghost predicate Carries(unit: string, marker: string) {
    exists before, after :: Lower(unit) == before + Lower(marker) + after
  }

  datatype Problem = Problem(unit: string, client: string, provider: string)

  /** The unit names both words and no row of the matrix owns the claim. */
  ghost predicate IsProblem(q: Problem, matrix: Matrix, tokens: seq<string>, providers: seq<string>) {
    && q.client in tokens && q.provider in providers
    && HasWord(Lower(q.unit), q.client) && HasWord(Lower(q.unit), q.provider)
    && Unowned(matrix, q.unit, q.client, q.provider)
  }

  /** The loops of unownedCapabilityClaims over one section's body. */
  method UnownedClaims(body: string, matrix: Matrix, tokens: seq<string>, providers: seq<string>)
    returns (problems: seq<Problem>)
    ensures forall q :: q in problems <==>
              q.unit in UnitsOfAll(SpansOf(LinesOfBlock(body))) && IsProblem(q, matrix, tokens, providers)
  {
    var units := CapabilityUnits(body);
    problems := ClaimsOf(units, matrix, tokens, providers);
  }

  method ClaimsOf(units: seq<string>, matrix: Matrix, tokens: seq<string>, providers: seq<string>)
    returns (problems: seq<Problem>)
    ensures forall q :: q in problems <==> q.unit in units && IsProblem(q, matrix, tokens, providers)
  {
    problems := [];
    for i := 0 to |units|
      invariant forall q :: q in problems <==> q.unit in units[..i] && IsProblem(q, matrix, tokens, providers)
    {
      assert units[..i + 1] == units[..i] + [units[i]];
      var more := ProblemsIn(units[i], matrix, tokens, providers);
      problems := problems + more;
    }
    assert units[..|units|] == units;
  }

  method ProblemsIn(unit: string, matrix: Matrix, tokens: seq<string>, providers: seq<string>)
    returns (problems: seq<Problem>)
    ensures forall q :: q in problems <==> q.unit == unit && IsProblem(q, matrix, tokens, providers)
  {
    var pairs := CapabilityPairsIn(unit, tokens, providers);
    problems := [];
    for k := 0 to |pairs|
      invariant forall q :: q in problems <==>
                  q.unit == unit && (q.client, q.provider) in pairs[..k] && Unowned(matrix, unit, q.client, q.provider)
    {
      var (client, provider) := pairs[k];
      assert pairs[..k + 1] == pairs[..k] + [pairs[k]];
      var unowned := IsUnowned(matrix, unit, client, provider);
      if unowned {
        problems := problems + [Problem(unit, client, provider)];
      }
    }
    assert pairs[..|pairs|] == pairs;
  }

  method IsUnowned(matrix: Matrix, unit: string, client: string, provider: string) returns (unowned: bool)
    ensures unowned <==> Unowned(matrix, unit, client, provider)
    ensures !unowned <==>
              && (provider, client) in matrix
              && (matrix[(provider, client)].refused ==> Carries(unit, matrix[(provider, client)].marker))
  {
    if (provider, client) !in matrix { return true; }
    var row := matrix[(provider, client)];
    ContainsMeans(Lower(unit), Lower(row.marker));
    IndexMeans(Lower(unit), Lower(row.marker));
    return row.refused && Index(Lower(unit), Lower(row.marker)) == -1;
  }
}
