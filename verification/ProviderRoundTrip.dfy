/** Printing provider blocks in any layout and reading them back: which entries
    and which attributes the reader sees, exactly. */
module ProviderRoundTrip {
  import opened Wrappers
  import opened Text
  import opened ProviderBlocks

  // ----- the printer -----

  /** One attribute of an entry, with the white space and commas before it and the
      blanks around its equals sign. */
  datatype Attr = Attr(gap: string, key: string, left: string, right: string, value: string)

  datatype Entry = Entry(gap: string, name: string, left: string, right: string, attrs: seq<Attr>, end: string)

  /** The text before a block, what stands between its marker and its brace, its
      entries, and what is left before the brace that closes it. */
  datatype Piece = Piece(lead: string, blank: string, entries: seq<Entry>, end: string)

  function Word(a: Attr): string {
    a.key + (a.left + ("=" + (a.right + ("\"" + (a.value + "\"")))))
  }

  function Attrs(attrs: seq<Attr>, end: string): string {
    if attrs == [] then end else attrs[0].gap + (Word(attrs[0]) + Attrs(attrs[1..], end))
  }

  function Body(e: Entry): string {
    Attrs(e.attrs, e.end)
  }

  function Head(e: Entry): string {
    e.name + (e.left + ("=" + e.right))
  }

  function Entries(entries: seq<Entry>, end: string): string {
    if entries == [] then end
    else entries[0].gap + (Head(entries[0]) + ("{" + (Body(entries[0]) + ("}" + Entries(entries[1..], end)))))
  }

  function Inner(p: Piece): string {
    Entries(p.entries, p.end)
  }

  function File(pieces: seq<Piece>, mark: string, tail: string): string {
    if pieces == [] then tail
    else
      pieces[0].lead
      + (mark + (pieces[0].blank + ("{" + (Inner(pieces[0]) + ("}" + File(pieces[1..], mark, tail))))))
  }

  // ----- what may be printed -----

  /** White space and commas: what may stand between attributes, and between
      entries. */
  ghost predicate Gap(s: string) {
    forall c :: c in s ==> IsReSpace(c) || c == ','
  }

  ghost predicate Blank(s: string) {
    forall c :: c in s ==> IsReSpace(c) && c != '\n'
  }

  ghost predicate IsName(s: string) {
    s != "" && forall c :: c in s ==> IsNameByte(c)
  }

  ghost predicate OneLine(s: string) {
    forall c :: c in s ==> c != '"' && c != '{' && c != '}' && c != '\n'
  }

  ghost predicate GoodAttr(a: Attr) {
    Gap(a.gap) && IsName(a.key) && Blank(a.left) && Blank(a.right) && OneLine(a.value)
  }

  ghost predicate GoodAttrs(attrs: seq<Attr>) {
    forall a :: a in attrs ==> GoodAttr(a)
  }

  ghost predicate GoodEntry(e: Entry) {
    Gap(e.gap) && IsName(e.name) && Blank(e.left) && Blank(e.right) && GoodAttrs(e.attrs) && Gap(e.end)
  }

  ghost predicate GoodEntries(entries: seq<Entry>) {
    forall e :: e in entries ==> GoodEntry(e)
  }

  /** The marker first stands where the piece's block is announced. */
  ghost predicate GoodPiece(p: Piece, mark: string) {
    FirstAt(p.lead + mark, mark, |p.lead|) && '{' !in p.blank && GoodEntries(p.entries) && Gap(p.end)
  }

  // ----- what the reader sees of it -----

  /** What follows the gap stands at the start of a line, white space aside: no
      comma since the last line break, or since the start when that counts as one. */
  predicate StartsLine(gap: string, lineStart: bool) {
    (lineStart && AllReSpace(gap)) || (gap != "" && StartsLine(gap[1..], gap[0] == '\n'))
  }

  /** The first value not empty under a key that stands at the start of a line. */
  function Seen(attrs: seq<Attr>, key: string, lineStart: bool): Option<string> {
    if attrs == [] then None
    else if StartsLine(attrs[0].gap, lineStart) && attrs[0].key == key && attrs[0].value != "" then Some(attrs[0].value)
    else Seen(attrs[1..], key, false)
  }

  function PinSeen(e: Entry): Pin {
    Pin(ValueOf(Seen(e.attrs, "source", true)), ValueOf(Seen(e.attrs, "version", true)))
  }

  /** The entries a block is read as: those at the start of a line, the place just
      after an entry that was read counting as one. */
  function EntriesSeen(entries: seq<Entry>, lineStart: bool): seq<Entry> {
    if entries == [] then []
    else if StartsLine(entries[0].gap, lineStart) then [entries[0]] + EntriesSeen(entries[1..], true)
    else EntriesSeen(entries[1..], false)
  }

  function PinsSeen(entries: seq<Entry>): seq<Pin> {
    if entries == [] then [] else PinsSeen(entries[..|entries| - 1]) + Named(PinSeen(entries[|entries| - 1]))
  }

  function FileSeen(pieces: seq<Piece>): seq<Pin> {
    if pieces == [] then []
    else FileSeen(pieces[..|pieces| - 1]) + PinsSeen(EntriesSeen(pieces[|pieces| - 1].entries, true))
  }

  // ----- what a search passes over -----

  /** A gap with a comma in it is not skipped. */
  lemma {:induction false} CommaStops(gap: string, t: string)
    requires Gap(gap) && !AllReSpace(gap)
    ensures var a := AfterSpace(gap + t); a != "" && a[0] == ','
  {
    assert (gap + t)[1..] == gap[1..] + t;
    assert gap[0] in gap;
    if gap[0] == ',' {
    } else {
      assert forall c :: c in gap[1..] ==> c in gap;
      CommaStops(gap[1..], t);
    }
  }

  lemma ByteAfterBlank(blank: string, c: char, t: string, d: char)
    requires Blank(blank) && !IsReSpace(c)
    ensures AfterByte(blank + ([c] + t), d) == if c == d then Some(t) else None
  {
    SpaceSkipped(blank, [c] + t);
    assert ([c] + t)[1..] == t;
  }

  /** No test of the reader passes at a comma. */
  ghost predicate StopsAtComma(test: string -> bool) {
    forall s: string :: s != "" && s[0] == ',' ==> !test(s)
  }

  lemma NoHeadAtComma()
    ensures StopsAtComma(IsHead)
  {
  }

  lemma NoKeyAtComma(key: string)
    requires IsName(key)
    ensures StopsAtComma(HasKey(key))
  {
    assert key[0] in key;
    forall s: string | s != "" && s[0] == ','
      ensures !HasKey(key)(s)
    {
      assert |key| <= |s| ==> s[..|key|][0] == ',';
    }
  }

  /** What a search over a gap and what follows comes to. */
  ghost predicate Scans(gap: string, rest: string, test: string -> bool, lineStart: bool, r: Option<nat>) {
    if StartsLine(gap, lineStart) && test(rest)
    then r.Some? && r.value <= |gap| && AfterSpace((gap + rest)[r.value..]) == rest
    else r == Later(|gap|, FindLine(rest, test, false))
  }

  lemma EmptyGapScanned(rest: string, test: string -> bool, lineStart: bool)
    requires rest != "" ==> !IsReSpace(rest[0])
    ensures Scans("", rest, test, lineStart, FindLine("" + rest, test, lineStart))
  {
    assert "" + rest == rest && rest[0..] == rest;
    SpaceSkipped("", rest);
  }

  lemma GapOneLonger(gap: string, rest: string, test: string -> bool, lineStart: bool, r: Option<nat>)
    requires gap != "" && !(lineStart && AllReSpace(gap) && test(rest))
    requires Scans(gap[1..], rest, test, gap[0] == '\n', r)
    ensures Scans(gap, rest, test, lineStart, Later(1, r))
  {
    assert gap + rest == [gap[0]] + (gap[1..] + rest);
    StartsLineTail(gap, lineStart);
    if r.Some? && r.value <= |gap| - 1 { assert (gap + rest)[r.value + 1..] == (gap[1..] + rest)[r.value..]; }
  }

  /** A gap is passed over, unless what follows it starts a line and passes the
      test; then the place found is in the gap. */
  lemma {:induction false} GapScanned(gap: string, rest: string, test: string -> bool, lineStart: bool)
    requires Gap(gap) && (rest != "" ==> !IsReSpace(rest[0])) && StopsAtComma(test)
    ensures Scans(gap, rest, test, lineStart, FindLine(gap + rest, test, lineStart))
  {
    if gap == "" {
      EmptyGapScanned(rest, test, lineStart);
    } else {
      var s := gap + rest;
      assert s[1..] == gap[1..] + rest && s[0] == gap[0] && s[0..] == s;
      assert forall c :: c in gap[1..] ==> c in gap;
      GapScanned(gap[1..], rest, test, gap[0] == '\n');
      if AllReSpace(gap) { SpaceSkipped(gap, rest); } else { CommaStops(gap, rest); }
      if !(lineStart && AllReSpace(gap) && test(rest)) {
        GapOneLonger(gap, rest, test, lineStart, FindLine(s[1..], test, s[0] == '\n'));
      }
    }
  }

  lemma StartsLineTail(gap: string, lineStart: bool)
    requires gap != ""
    ensures StartsLine(gap, lineStart) <==> (lineStart && AllReSpace(gap)) || StartsLine(gap[1..], gap[0] == '\n')
  {
  }

  /** The middle of a line starts nothing. */
  lemma {:induction false} PlainScanned(t: string, rest: string, test: string -> bool)
    requires '\n' !in t
    ensures FindLine(t + rest, test, false) == Later(|t|, FindLine(rest, test, false))
  {
    if t == "" {
      assert t + rest == rest;
    } else {
      assert (t + rest)[1..] == t[1..] + rest;
      assert t[0] in t && forall c :: c in t[1..] ==> c in t;
      PlainScanned(t[1..], rest, test);
    }
  }

  // ----- one attribute -----

  function AfterKey(a: Attr, rest: string): string {
    a.left + (['='] + (a.right + (['"'] + (a.value + ['"'] + rest))))
  }

  lemma WordShape(a: Attr, rest: string)
    ensures Word(a) + rest == a.key + AfterKey(a, rest)
  {
    var quoted := "\"" + (a.value + "\"");
    assert quoted + rest == ['"'] + (a.value + ['"'] + rest);
    assert a.right + quoted + rest == a.right + (quoted + rest);
    assert "=" + (a.right + quoted) + rest == ['='] + (a.right + quoted + rest);
    assert a.left + ("=" + (a.right + quoted)) + rest == a.left + ("=" + (a.right + quoted) + rest);
  }

  lemma AfterKeyReads(a: Attr, rest: string)
    requires GoodAttr(a)
    ensures AfterKey(a, rest) != "" && !IsNameByte(AfterKey(a, rest)[0])
    ensures AfterByte(AfterKey(a, rest), '=') == Some(a.right + (['"'] + (a.value + ['"'] + rest)))
    ensures AfterByte(a.right + (['"'] + (a.value + ['"'] + rest)), '"') == Some(a.value + ['"'] + rest)
    ensures AfterByte(a.right + (['"'] + (a.value + ['"'] + rest)), '{') == None
    ensures CutBefore(a.value + ['"'] + rest, '"') == a.value
  {
    var quoted := a.value + ['"'] + rest;
    ByteAfterBlank(a.left, '=', a.right + (['"'] + quoted), '=');
    ByteAfterBlank(a.right, '"', quoted, '"');
    ByteAfterBlank(a.right, '"', quoted, '{');
    CutAtFirst(a.value, '"', rest);
    assert a.left != "" ==> a.left[0] in a.left;
  }

  /** A key is read only where it stands whole. */
  lemma KeyIsWhole(name: string, after: string, key: string, c: char)
    requires IsName(name) && IsName(key) && !IsNameByte(c) && !IsReSpace(c)
    requires after != "" && !IsNameByte(after[0])
    requires HasPrefix(name + after, key) && key != name
    ensures AfterByte((name + after)[|key|..], c).None?
  {
    var s := name + after;
    forall i | 0 <= i < |key| ensures s[i] == key[i] && IsNameByte(s[i]) {
      assert s[..|key|][i] == key[i] && key[i] in key;
    }
    assert s[|name|] == after[0] && s[..|name|] == name;
    assert s[..|key|] == key;
    assert |key| <= |name|;
    assert s[|key|..][0] == name[|key|] && name[|key|] in name;
  }

  lemma WordReads(a: Attr, rest: string, key: string)
    requires GoodAttr(a) && IsName(key)
    ensures AttributeOf(Word(a) + rest, key) == if a.key == key && a.value != "" then Some(a.value) else None
    ensures !IsHead(Word(a) + rest)
    ensures Word(a) + rest != "" && !IsReSpace((Word(a) + rest)[0])
  {
    var s, after := Word(a) + rest, AfterKey(a, rest);
    WordShape(a, rest);
    AfterKeyReads(a, rest);
    NameSkipped(a.key, after);
    assert a.key[0] in a.key && s[0] == a.key[0];
    if a.key == key {
      assert s[|key|..] == after;
    } else if HasPrefix(s, key) {
      KeyIsWhole(a.key, after, key, '=');
    }
  }

  lemma WordIsPlain(a: Attr)
    requires GoodAttr(a)
    ensures '\n' !in Word(a) && '{' !in Word(a) && '}' !in Word(a)
  {
    WordShape(a, "");
    var after := AfterKey(a, "");
    forall c | c in Word(a) + ""
      ensures c in a.key || c in a.left || c == '=' || c in a.right || c == '"' || c in a.value
    {
    }
    assert Word(a) + "" == Word(a);
  }

  // ----- the attributes of an entry -----

  /** What may follow an entry's attributes: nothing, or a byte that no name and
      no line starts with. */
  ghost predicate Closes(rest: string) {
    rest == "" || rest[0] == '}'
  }

  lemma NothingAtTheClose(rest: string, key: string)
    requires Closes(rest) && IsName(key)
    ensures !HasKey(key)(rest) && !IsHead(rest) && (rest != "" ==> !IsReSpace(rest[0]))
  {
    assert key[0] in key;
    assert |key| <= |rest| ==> rest[..|key|][0] == rest[0];
  }

  /** What stands at the place a search found, white space skipped. */
  function ValueAt(s: string, j: Option<nat>, value: string -> Option<string>): Option<string>
    requires j.Some? ==> j.value <= |s|
  {
    if j.None? then None else value(AfterSpace(s[j.value..]))
  }

  lemma ValueBeyond(a: string, b: string, j: Option<nat>, value: string -> Option<string>)
    requires j.Some? ==> j.value <= |b|
    ensures Later(|a|, j).Some? ==> Later(|a|, j).value <= |a + b|
    ensures ValueAt(a + b, Later(|a|, j), value) == ValueAt(b, j, value)
  {
    if j.Some? { assert (a + b)[|a| + j.value..] == b[j.value..]; }
  }

  function ValueUnder(key: string): string -> Option<string> {
    s => AttributeOf(s, key)
  }

  /** The value a search for a key comes to. */
  function ReadAt(s: string, key: string, lineStart: bool): Option<string> {
    ValueAt(s, FindLine(s, HasKey(key), lineStart), ValueUnder(key))
  }

  lemma GapRead(gap: string, rest: string, key: string, lineStart: bool)
    requires Gap(gap) && IsName(key) && (rest != "" ==> !IsReSpace(rest[0]))
    ensures ReadAt(gap + rest, key, lineStart)
         == if StartsLine(gap, lineStart) && HasKey(key)(rest) then AttributeOf(rest, key) else ReadAt(rest, key, false)
  {
    NoKeyAtComma(key);
    GapScanned(gap, rest, HasKey(key), lineStart);
    ValueBeyond(gap, rest, FindLine(rest, HasKey(key), false), ValueUnder(key));
  }

  lemma PlainRead(t: string, rest: string, key: string)
    requires '\n' !in t
    ensures ReadAt(t + rest, key, false) == ReadAt(rest, key, false)
  {
    PlainScanned(t, rest, HasKey(key));
    ValueBeyond(t, rest, FindLine(rest, HasKey(key), false), ValueUnder(key));
  }

  lemma OneAttrRead(a: Attr, later: string, key: string, lineStart: bool)
    requires GoodAttr(a) && IsName(key)
    ensures ReadAt(a.gap + (Word(a) + later), key, lineStart)
         == if StartsLine(a.gap, lineStart) && a.key == key && a.value != "" then Some(a.value)
            else ReadAt(later, key, false)
  {
    WordReads(a, later, key);
    WordIsPlain(a);
    GapRead(a.gap, Word(a) + later, key, lineStart);
    PlainRead(Word(a), later, key);
  }

  lemma EndRead(end: string, key: string, lineStart: bool)
    requires Gap(end) && IsName(key)
    ensures ReadAt(end, key, lineStart) == None
  {
    NothingAtTheClose("", key);
    GapRead(end, "", key, lineStart);
    assert end + "" == end;
  }

  /** The value read is the first one that starts a line under its key. */
  lemma {:induction false} AttrsRead(attrs: seq<Attr>, end: string, key: string, lineStart: bool)
    requires GoodAttrs(attrs) && Gap(end) && IsName(key)
    ensures ReadAt(Attrs(attrs, end), key, lineStart) == Seen(attrs, key, lineStart)
  {
    if attrs == [] {
      EndRead(end, key, lineStart);
    } else {
      assert attrs[0] in attrs && forall x :: x in attrs[1..] ==> x in attrs;
      AttrsRead(attrs[1..], end, key, false);
      OneAttrRead(attrs[0], Attrs(attrs[1..], end), key, lineStart);
    }
  }

  lemma KeysAreNames()
    ensures IsName("source") && IsName("version")
  {
  }

  /** An entry gives the pin its attributes show, in whatever layout. */
  lemma PinIsSeen(e: Entry)
    requires GoodEntry(e)
    ensures PinOf(Body(e)) == PinSeen(e)
  {
    KeysAreNames();
    AttrsRead(e.attrs, e.end, "source", true);
    AttrsRead(e.attrs, e.end, "version", true);
  }

  // ----- one entry -----

  lemma HeadShape(e: Entry, rest: string)
    ensures Head(e) + ("{" + rest) == e.name + (e.left + (['='] + (e.right + (['{'] + rest))))
  {
    assert "=" + e.right + (['{'] + rest) == ['='] + (e.right + (['{'] + rest));
    assert e.left + ("=" + e.right) + (['{'] + rest) == e.left + ("=" + e.right + (['{'] + rest));
  }

  lemma HeadReads(e: Entry, rest: string)
    requires GoodEntry(e)
    ensures var s := Head(e) + ("{" + rest); IsHead(s) && s != "" && !IsReSpace(s[0])
  {
    var after := e.left + (['='] + (e.right + (['{'] + rest)));
    HeadShape(e, rest);
    assert e.left != "" ==> e.left[0] in e.left;
    NameSkipped(e.name, after);
    ByteAfterBlank(e.left, '=', e.right + (['{'] + rest), '=');
    ByteAfterBlank(e.right, '{', rest, '{');
    assert e.name[0] in e.name;
  }

  lemma HeadIsPlain(e: Entry)
    requires GoodEntry(e)
    ensures '\n' !in Head(e) && '{' !in Head(e) && '}' !in Head(e)
  {
    forall c | c in Head(e) ensures c in e.name || c in e.left || c == '=' || c in e.right {}
  }

  ghost predicate Braceless(s: string) {
    '{' !in s && '}' !in s
  }

  lemma BracelessParts(a: string, b: string, c: string)
    requires Braceless(a) && Braceless(b) && Braceless(c)
    ensures Braceless(a + (b + c))
  {
  }

  lemma GapIsBraceless(gap: string, j: nat)
    requires Gap(gap) && j <= |gap|
    ensures Braceless(gap[j..])
  {
    assert forall c :: c in gap[j..] ==> c in gap;
  }

  lemma {:induction false} AttrsArePlain(attrs: seq<Attr>, end: string)
    requires GoodAttrs(attrs) && Gap(end)
    ensures Braceless(Attrs(attrs, end))
  {
    if attrs == [] {
      GapIsBraceless(end, 0);
      assert end[0..] == end;
    } else {
      var a := attrs[0];
      assert a in attrs && forall x :: x in attrs[1..] ==> x in attrs;
      AttrsArePlain(attrs[1..], end);
      WordIsPlain(a);
      GapIsBraceless(a.gap, 0);
      assert a.gap[0..] == a.gap;
      BracelessParts(a.gap, Word(a), Attrs(attrs[1..], end));
    }
  }

  lemma LaterTwice(a: nat, b: nat, r: Option<nat>)
    ensures Later(a, Later(b, r)) == Later(a + b, r)
  {
  }

  /** Where the next entry opens, from the middle of a line. */
  function NextHead(s: string): Option<nat> {
    FindLine(s, IsHead, false)
  }

  lemma OnePartMore(t: string, s: string, n: nat, rest: string)
    requires NextHead(t + s) == Later(|t|, NextHead(s)) && NextHead(s) == Later(n, NextHead(rest))
    ensures NextHead(t + s) == Later(|t| + n, NextHead(rest))
  {
  }

  lemma PlainPart(t: string, s: string, n: nat, rest: string)
    requires '\n' !in t && NextHead(s) == Later(n, NextHead(rest))
    ensures NextHead(t + s) == Later(|t| + n, NextHead(rest))
  {
    PlainScanned(t, s, IsHead);
    OnePartMore(t, s, n, rest);
  }

  lemma GapPart(gap: string, s: string, n: nat, rest: string)
    requires Gap(gap) && s != "" && !IsReSpace(s[0]) && !IsHead(s) && NextHead(s) == Later(n, NextHead(rest))
    ensures NextHead(gap + s) == Later(|gap| + n, NextHead(rest))
  {
    NoHeadAtComma();
    GapScanned(gap, s, IsHead, false);
    OnePartMore(gap, s, n, rest);
  }

  /** No attribute opens an entry. */
  lemma AttrHasNoHead(a: Attr, later: string, n: nat, rest: string)
    requires GoodAttr(a) && NextHead(later) == Later(n, NextHead(rest))
    ensures NextHead(a.gap + (Word(a) + later)) == Later(|a.gap| + (|Word(a)| + n), NextHead(rest))
  {
    KeysAreNames();
    WordReads(a, later, "source");
    WordIsPlain(a);
    PlainPart(Word(a), later, n, rest);
    GapPart(a.gap, Word(a) + later, |Word(a)| + n, rest);
  }

  lemma FirstAttrHasNoHead(a: Attr, later: string, rest: string)
    requires GoodAttr(a) && NextHead(later + rest) == Later(|later|, NextHead(rest))
    ensures var all := a.gap + (Word(a) + later); NextHead(all + rest) == Later(|all|, NextHead(rest))
  {
    AttrHasNoHead(a, later + rest, |later|, rest);
    Regrouped(a.gap, Word(a), later, rest);
  }

  lemma Regrouped(a: string, b: string, c: string, d: string)
    ensures a + (b + c) + d == a + (b + (c + d))
  {
  }

  lemma {:induction false} AttrsHaveNoHead(attrs: seq<Attr>, end: string, rest: string)
    requires GoodAttrs(attrs) && Gap(end) && rest != "" && rest[0] == '}'
    ensures NextHead(Attrs(attrs, end) + rest) == Later(|Attrs(attrs, end)|, NextHead(rest))
  {
    if attrs == [] {
      assert NextHead(rest) == Later(0, NextHead(rest));
      GapPart(end, rest, 0, rest);
    } else {
      var a, later := attrs[0], Attrs(attrs[1..], end);
      assert a in attrs && forall x :: x in attrs[1..] ==> x in attrs;
      AttrsHaveNoHead(attrs[1..], end, rest);
      FirstAttrHasNoHead(a, later, rest);
    }
  }

  /** An entry and what follows it. */
  function EntryThen(e: Entry, rest: string): string {
    e.gap + (Head(e) + ("{" + (Body(e) + ("}" + rest))))
  }

  function EntryLength(e: Entry): nat {
    |e.gap| + |Head(e)| + |Body(e)| + 2
  }

  /** The block of the entry that opens at `j`. */
  function EntryAt(s: string, j: Option<nat>, block: string -> Span): Option<Span> {
    if j.None? || j.value >= |s| then None
    else Some(Span(block(s[j.value..]).text, j.value + block(s[j.value..]).next))
  }

  /** The first entry at or after the start of `s`, which may be the middle of a
      line. */
  function EntryFrom(s: string, lineStart: bool): Option<Span> {
    EntryAt(s, FindLine(s, IsHead, lineStart), BlockOf)
  }

  lemma EntryFromStart(s: string)
    ensures EntryBlock(s) == EntryFrom(s, true)
  {
    HeadIsInside(s);
  }

  /** A balanced text between braces is the block. */
  lemma BlockAround(before: string, inner: string, rest: string)
    requires '{' !in before && Balanced(inner)
    ensures BlockOf(before + "{" + (inner + "}" + rest)) == Span(inner, |before| + |inner| + 2)
  {
    var after := inner + "}" + rest;
    BlockIsTheShortestBalancedSpan(before, after);
    assert after[..|inner|] == inner;
    assert after[..|inner| + 1] == inner + "}";
    EndDepthAppend(inner, "}", 1);
    assert StillOpen(after, |inner|);
    assert !StillOpen(after, |inner| + 1);
    var b := BlockOf(before + "{" + after);
    assert b.text == after[..|b.text|];
  }

  lemma {:induction false} PlainDepth(t: string, d: nat)
    requires d >= 1 && '{' !in t && '}' !in t
    ensures EndDepth(t, d) == Some(d)
  {
    if t == "" {
    } else {
      assert t[0] in t && forall c :: c in t[1..] ==> c in t;
      PlainDepth(t[1..], d);
    }
  }

  lemma BodyIsBalanced(e: Entry)
    requires GoodEntry(e)
    ensures Balanced(Body(e))
  {
    AttrsArePlain(e.attrs, e.end);
    PlainDepth(Body(e), 1);
  }

  lemma EntryShape(gap: string, head: string, body: string, rest: string, j: nat)
    requires j <= |gap|
    ensures var s := gap + (head + ("{" + (body + ("}" + rest))));
            j < |s| && s[j..] == (gap[j..] + head) + "{" + (body + "}" + rest)
  {
  }

  lemma EntryAtOf(s: string, j: nat, tail: string, b: Span)
    requires j < |s| && s[j..] == tail && BlockOf(tail) == b
    ensures EntryAt(s, Some(j), BlockOf) == Some(Span(b.text, j + b.next))
  {
  }

  lemma EntryIs(gap: string, head: string, body: string, rest: string, j: nat)
    requires j <= |gap| && '{' !in gap[j..] + head && Balanced(body)
    ensures EntryAt(gap + (head + ("{" + (body + ("}" + rest)))), Some(j), BlockOf)
         == Some(Span(body, |gap| + |head| + |body| + 2))
  {
    var before := gap[j..] + head;
    EntryShape(gap, head, body, rest, j);
    BlockAround(before, body, rest);
    EntryAtOf(gap + (head + ("{" + (body + ("}" + rest)))), j, before + "{" + (body + "}" + rest),
              Span(body, |before| + |body| + 2));
  }

  lemma EntryBlockAt(e: Entry, rest: string, j: nat)
    requires GoodEntry(e) && j <= |e.gap|
    ensures EntryAt(EntryThen(e, rest), Some(j), BlockOf) == Some(Span(Body(e), EntryLength(e)))
  {
    HeadIsPlain(e);
    GapIsBraceless(e.gap, j);
    BodyIsBalanced(e);
    EntryIs(e.gap, Head(e), Body(e), rest, j);
  }

  /** An entry at the start of a line is the block the search finds. */
  lemma EntryIsFound(e: Entry, rest: string, lineStart: bool)
    requires GoodEntry(e) && StartsLine(e.gap, lineStart)
    ensures EntryFrom(EntryThen(e, rest), lineStart) == Some(Span(Body(e), EntryLength(e)))
  {
    var after := Body(e) + ("}" + rest);
    HeadReads(e, after);
    NoHeadAtComma();
    GapScanned(e.gap, Head(e) + ("{" + after), IsHead, lineStart);
    EntryBlockAt(e, rest, FindLine(EntryThen(e, rest), IsHead, lineStart).value);
  }

  lemma BlockIsPassed(e: Entry, rest: string)
    requires GoodEntry(e)
    ensures NextHead(Head(e) + ("{" + (Body(e) + ("}" + rest)))) == Later(EntryLength(e) - |e.gap|, NextHead(rest))
  {
    var closed := "}" + rest;
    var body := Body(e) + closed;
    HeadIsPlain(e);
    assert NextHead(rest) == Later(0, NextHead(rest));
    PlainPart("}", rest, 0, rest);
    AttrsHaveNoHead(e.attrs, e.end, closed);
    OnePartMore(Body(e), closed, 1, rest);
    PlainPart("{", body, |Body(e)| + 1, rest);
    PlainPart(Head(e), "{" + body, |Body(e)| + 2, rest);
  }

  /** One in the middle of a line is passed over, braces and all. */
  lemma EntryIsMissed(e: Entry, rest: string, lineStart: bool)
    requires GoodEntry(e) && !StartsLine(e.gap, lineStart)
    ensures FindLine(EntryThen(e, rest), IsHead, lineStart) == Later(EntryLength(e), NextHead(rest))
  {
    var after := Body(e) + ("}" + rest);
    HeadReads(e, after);
    NoHeadAtComma();
    GapScanned(e.gap, Head(e) + ("{" + after), IsHead, lineStart);
    BlockIsPassed(e, rest);
    LaterTwice(|e.gap|, EntryLength(e) - |e.gap|, NextHead(rest));
  }

  // ----- the entries of a block -----

  function Bodies(entries: seq<Entry>): seq<string> {
    if entries == [] then [] else [Body(entries[0])] + Bodies(entries[1..])
  }

  /** What is cut off `s` when the first cut is given. */
  function CutGiven(s: string, c: Option<Span>, later: string -> seq<string>): seq<string> {
    if c.None? || c.value.next == 0 || c.value.next > |s| then []
    else [c.value.text] + later(s[c.value.next..])
  }

  function CutEntries(s: string): seq<string> {
    CutAll(s, EntryBlock)
  }

  /** And when the first search may begin in the middle of a line. */
  function CutFromHere(s: string, lineStart: bool): seq<string> {
    CutGiven(s, EntryFrom(s, lineStart), CutEntries)
  }

  function Shifted(n: nat, c: Option<Span>): Option<Span> {
    if c.None? then None else Some(Span(c.value.text, n + c.value.next))
  }

  lemma SameTail(s: string, n: nat, rest: string, j: nat)
    requires |s| == n + |rest| && s[n..] == rest && j <= |rest|
    ensures s[n + j..] == rest[j..]
  {
  }

  lemma EntryFurther(s: string, n: nat, rest: string, j: Option<nat>, block: string -> Span)
    requires |s| == n + |rest| && s[n..] == rest
    ensures EntryAt(s, Later(n, j), block) == Shifted(n, EntryAt(rest, j, block))
  {
    if j.Some? && j.value < |rest| { SameTail(s, n, rest, j.value); }
  }

  lemma EntryIsInside(s: string, j: Option<nat>)
    ensures var c := EntryAt(s, j, BlockOf); c.Some? ==> 0 < c.value.next <= |s|
  {
    if j.Some? && j.value < |s| { BlockIsCutFrom(s, j.value); }
  }

  lemma CutShifted(s: string, n: nat, rest: string, c: Option<Span>, later: string -> seq<string>)
    requires |s| == n + |rest| && s[n..] == rest
    requires c.Some? ==> 0 < c.value.next <= |rest|
    ensures CutGiven(s, Shifted(n, c), later) == CutGiven(rest, c, later)
  {
    if c.Some? { SameTail(s, n, rest, c.value.next); }
  }

  lemma CutFurther(s: string, n: nat, rest: string, j: Option<nat>)
    requires |s| == n + |rest| && s[n..] == rest
    ensures CutGiven(s, EntryAt(s, Later(n, j), BlockOf), CutEntries)
              == CutGiven(rest, EntryAt(rest, j, BlockOf), CutEntries)
  {
    EntryFurther(s, n, rest, j, BlockOf);
    EntryIsInside(rest, j);
    CutShifted(s, n, rest, EntryAt(rest, j, BlockOf), CutEntries);
  }

  lemma CutFromStart(s: string)
    ensures CutAll(s, EntryBlock) == CutFromHere(s, true)
  {
    EntryFromStart(s);
  }

  lemma EntryThenRest(e: Entry, rest: string)
    ensures |EntryThen(e, rest)| == EntryLength(e) + |rest|
    ensures EntryThen(e, rest)[EntryLength(e)..] == rest
  {
  }

  lemma FoundIsCut(e: Entry, rest: string, lineStart: bool)
    requires GoodEntry(e) && StartsLine(e.gap, lineStart)
    ensures CutFromHere(EntryThen(e, rest), lineStart) == [Body(e)] + CutFromHere(rest, true)
  {
    EntryIsFound(e, rest, lineStart);
    EntryThenRest(e, rest);
    CutFromStart(rest);
  }

  lemma MissedIsPassed(e: Entry, rest: string, lineStart: bool)
    requires GoodEntry(e) && !StartsLine(e.gap, lineStart)
    ensures CutFromHere(EntryThen(e, rest), lineStart) == CutFromHere(rest, false)
  {
    EntryIsMissed(e, rest, lineStart);
    EntryThenRest(e, rest);
    CutFurther(EntryThen(e, rest), EntryLength(e), rest, NextHead(rest));
  }

  /** The reader cuts the entries that start a line, and no other. */
  lemma {:induction false} EntriesAreCut(entries: seq<Entry>, end: string, lineStart: bool)
    requires GoodEntries(entries) && Gap(end)
    ensures CutFromHere(Entries(entries, end), lineStart) == Bodies(EntriesSeen(entries, lineStart))
  {
    if entries == [] {
      NoHeadAtComma();
      GapScanned(end, "", IsHead, lineStart);
      assert end + "" == end;
    } else {
      var e, rest := entries[0], Entries(entries[1..], end);
      assert e in entries && forall x :: x in entries[1..] ==> x in entries;
      if StartsLine(e.gap, lineStart) {
        EntriesAreCut(entries[1..], end, true);
        FoundIsCut(e, rest, lineStart);
        BodiesOneMore(e, EntriesSeen(entries[1..], true));
      } else {
        EntriesAreCut(entries[1..], end, false);
        MissedIsPassed(e, rest, lineStart);
      }
    }
  }

  lemma BodiesOneMore(e: Entry, seen: seq<Entry>)
    ensures Bodies([e] + seen) == [Body(e)] + Bodies(seen)
  {
    assert ([e] + seen)[1..] == seen;
  }

  lemma {:induction false} SeenAreGood(entries: seq<Entry>, lineStart: bool)
    requires GoodEntries(entries)
    ensures GoodEntries(EntriesSeen(entries, lineStart))
  {
    if entries == [] {
    } else {
      assert entries[0] in entries && forall x :: x in entries[1..] ==> x in entries;
      SeenAreGood(entries[1..], StartsLine(entries[0].gap, lineStart));
    }
  }

  lemma {:induction false} BodiesAt(entries: seq<Entry>, i: nat)
    ensures |Bodies(entries)| == |entries|
    ensures i < |entries| ==> Bodies(entries)[i] == Body(entries[i])
  {
    if entries == [] {
    } else {
      BodiesAt(entries[1..], if i == 0 then 0 else i - 1);
    }
  }

  ghost predicate Shows(body: string, e: Entry) {
    PinOf(body) == PinSeen(e)
  }

  lemma {:induction false} PinsOfBodies(bodies: seq<string>, entries: seq<Entry>)
    requires |bodies| == |entries|
    requires forall i :: 0 <= i < |entries| ==> Shows(bodies[i], entries[i])
    ensures EntryPins(bodies) == PinsSeen(entries)
  {
    if entries == [] {
    } else {
      var n := |entries| - 1;
      PinsOfBodies(bodies[..n], entries[..n]);
      assert Shows(bodies[n], entries[n]);
    }
  }

  lemma BodiesGive(entries: seq<Entry>)
    requires GoodEntries(entries)
    ensures EntryPins(Bodies(entries)) == PinsSeen(entries)
  {
    BodiesAt(entries, 0);
    forall i | 0 <= i < |entries|
      ensures Shows(Bodies(entries)[i], entries[i])
    {
      BodiesAt(entries, i);
      assert entries[i] in entries;
      PinIsSeen(entries[i]);
    }
    PinsOfBodies(Bodies(entries), entries);
  }

  /** A block, in whatever layout, gives the pins of the entries that start a
      line, each with the first source and the first version that do. */
  lemma BlockReads(entries: seq<Entry>, end: string)
    requires GoodEntries(entries) && Gap(end)
    ensures EntryPins(CutAll(Entries(entries, end), EntryBlock)) == PinsSeen(EntriesSeen(entries, true))
  {
    CutFromStart(Entries(entries, end));
    EntriesAreCut(entries, end, true);
    SeenAreGood(entries, true);
    BodiesGive(EntriesSeen(entries, true));
  }

  // ----- the file -----

  lemma BlockIsBalanced(e: Entry, rest: string)
    requires GoodEntry(e)
    ensures EndDepth(EntryThen(e, rest), 1) == EndDepth(rest, 1)
  {
    var closed := "}" + rest;
    HeadIsPlain(e);
    GapIsBraceless(e.gap, 0);
    assert e.gap[0..] == e.gap;
    AttrsArePlain(e.attrs, e.end);
    PlainDepth(e.gap, 1);
    PlainDepth(Head(e), 1);
    PlainDepth(Body(e), 2);
    assert closed[1..] == rest;
    EndDepthAppend(Body(e), closed, 2);
    assert ("{" + (Body(e) + closed))[1..] == Body(e) + closed;
    EndDepthAppend(Head(e), "{" + (Body(e) + closed), 1);
    EndDepthAppend(e.gap, Head(e) + ("{" + (Body(e) + closed)), 1);
  }

  lemma {:induction false} EntriesAreBalanced(entries: seq<Entry>, end: string)
    requires GoodEntries(entries) && Gap(end)
    ensures Balanced(Entries(entries, end))
  {
    if entries == [] {
      GapIsBraceless(end, 0);
      assert end[0..] == end;
      PlainDepth(end, 1);
    } else {
      assert entries[0] in entries && forall x :: x in entries[1..] ==> x in entries;
      EntriesAreBalanced(entries[1..], end);
      BlockIsBalanced(entries[0], Entries(entries[1..], end));
    }
  }

  /** How a file begins: the lead and the marker, then the block, then the rest. */
  ghost predicate Begins(s: string, lead: string, mark: string, blank: string, inner: string, rest: string) {
    && lead + mark <= s
    && s[|lead|..] == (mark + blank) + "{" + (inner + "}" + rest)
    && |s| == |lead| + |mark| + |blank| + |inner| + 2 + |rest|
  }

  lemma FileBegins(lead: string, mark: string, blank: string, inner: string, rest: string)
    ensures Begins(lead + (mark + (blank + ("{" + (inner + ("}" + rest))))), lead, mark, blank, inner, rest)
  {
  }

  lemma MarkFound(s: string, lead: string, mark: string)
    requires FirstAt(lead + mark, mark, |lead|) && lead + mark <= s
    ensures Index(s, mark) == |lead|
  {
    var n := |lead + mark|;
    assert s == (lead + mark) + s[n..];
    forall i | 0 <= i <= |lead|
      ensures OccursAt(s, mark, i) <==> OccursAt(lead + mark, mark, i)
    {
      OccursLeft(lead + mark, s[n..], mark, i);
    }
    FirstIsIndex(s, mark, |lead|);
  }

  lemma PieceIsMarked(p: Piece, mark: string, s: string)
    requires GoodPiece(p, mark) && p.lead + mark <= s
    ensures Index(s, mark) == |p.lead|
  {
    MarkFound(s, p.lead, mark);
  }

  lemma BlockAt(s: string, mark: string, at: nat, before: string, inner: string, rest: string)
    requires mark != "" && Index(s, mark) == at && '{' !in before && Balanced(inner)
    requires s[at..] == before + "{" + (inner + "}" + rest)
    ensures MarkedBlock(s, mark) == Some(Span(inner, at + |before| + |inner| + 2))
  {
    BlockAround(before, inner, rest);
  }

  lemma RestFollows(s: string, at: nat, before: string, inner: string, rest: string, next: nat)
    requires at <= |s| && s[at..] == before + "{" + (inner + "}" + rest) && next == at + |before| + |inner| + 2
    ensures at < next <= |s| && s[next..] == rest
  {
    assert s[next..] == s[at..][|before| + |inner| + 2..];
  }

  lemma MarkedCuts(s: string, mark: string, inner: string, next: nat, rest: string)
    requires mark != "" && MarkedBlock(s, mark) == Some(Span(inner, next)) && 0 < next <= |s| && s[next..] == rest
    ensures CutAll(s, Marked(mark)) == [inner] + CutAll(rest, Marked(mark))
  {
    FirstCut(s, Marked(mark), Span(inner, next));
  }

  /** A block announced at `at` is cut, and the search goes on after it. */
  lemma BlockIsCut(s: string, mark: string, at: nat, before: string, inner: string, rest: string)
    requires mark != "" && Index(s, mark) == at && '{' !in before && Balanced(inner)
    requires s[at..] == before + "{" + (inner + "}" + rest)
    ensures CutAll(s, Marked(mark)) == [inner] + CutAll(rest, Marked(mark))
  {
    var next := at + |before| + |inner| + 2;
    assert MarkedBlock(s, mark) == Some(Span(inner, next)) by {
      BlockAt(s, mark, at, before, inner, rest);
    }
    assert at < next <= |s| && s[next..] == rest by {
      RestFollows(s, at, before, inner, rest, next);
    }
    MarkedCuts(s, mark, inner, next, rest);
  }

  lemma FirstCut(s: string, cutter: string -> Option<Span>, c: Span)
    requires cutter(s) == Some(c) && 0 < c.next <= |s|
    ensures CutAll(s, cutter) == [c.text] + CutAll(s[c.next..], cutter)
  {
  }

  function Inners(pieces: seq<Piece>): seq<string> {
    if pieces == [] then [] else [Inner(pieces[0])] + Inners(pieces[1..])
  }

  lemma PieceReads(p: Piece, inner: string, mark: string, s: string, rest: string)
    requires GoodPiece(p, mark) && mark != "" && '{' !in mark && inner == Inner(p)
    requires Begins(s, p.lead, mark, p.blank, inner, rest)
    ensures CutAll(s, Marked(mark)) == [inner] + CutAll(rest, Marked(mark))
  {
    PieceIsMarked(p, mark, s);
    EntriesAreBalanced(p.entries, p.end);
    BlockIsCut(s, mark, |p.lead|, mark + p.blank, inner, rest);
  }

  lemma {:induction false} FileReads(pieces: seq<Piece>, mark: string, tail: string)
    requires mark != "" && '{' !in mark && !Contains(tail, mark)
    requires forall p :: p in pieces ==> GoodPiece(p, mark)
    ensures CutAll(File(pieces, mark, tail), Marked(mark)) == Inners(pieces)
  {
    if pieces == [] {
      IndexMeans(tail, mark);
    } else {
      var p, rest := pieces[0], File(pieces[1..], mark, tail);
      assert p in pieces && forall x :: x in pieces[1..] ==> x in pieces;
      FileReads(pieces[1..], mark, tail);
      FileBegins(p.lead, mark, p.blank, Inner(p), rest);
      PieceReads(p, Inner(p), mark, File(pieces, mark, tail), rest);
    }
  }

  lemma {:induction false} InnersAt(pieces: seq<Piece>, i: nat)
    ensures |Inners(pieces)| == |pieces|
    ensures i < |pieces| ==> Inners(pieces)[i] == Inner(pieces[i])
  {
    if pieces == [] {
    } else {
      InnersAt(pieces[1..], if i == 0 then 0 else i - 1);
    }
  }

  ghost predicate Gives(inner: string, p: Piece) {
    EntryPins(CutAll(inner, EntryBlock)) == PinsSeen(EntriesSeen(p.entries, true))
  }

  lemma {:induction false} PinsOfInners(inners: seq<string>, pieces: seq<Piece>)
    requires |inners| == |pieces|
    requires forall i :: 0 <= i < |pieces| ==> Gives(inners[i], pieces[i])
    ensures BlockPins(inners) == FileSeen(pieces)
  {
    if pieces == [] {
    } else {
      var n := |pieces| - 1;
      PinsOfInners(inners[..n], pieces[..n]);
      assert Gives(inners[n], pieces[n]);
    }
  }

  lemma InnersGive(pieces: seq<Piece>)
    requires forall p :: p in pieces ==> GoodEntries(p.entries) && Gap(p.end)
    ensures BlockPins(Inners(pieces)) == FileSeen(pieces)
  {
    InnersAt(pieces, 0);
    forall i | 0 <= i < |pieces|
      ensures Gives(Inners(pieces)[i], pieces[i])
    {
      InnersAt(pieces, i);
      assert pieces[i] in pieces;
      BlockReads(pieces[i].entries, pieces[i].end);
    }
    PinsOfInners(Inners(pieces), pieces);
  }

  /** What reading a printed file gives, in every layout: block by block, the
      entries that start a line, each with the first source and the first version
      that start one. */
  lemma ReadingAPrintedFile(pieces: seq<Piece>, mark: string, tail: string)
    requires mark != "" && '{' !in mark && !Contains(tail, mark)
    requires forall p :: p in pieces ==> GoodPiece(p, mark)
    ensures BlockPins(CutAll(File(pieces, mark, tail), Marked(mark))) == FileSeen(pieces)
  {
    FileReads(pieces, mark, tail);
    InnersGive(pieces);
  }

  /** Any text without the marker can stand before a block: the marker cannot
      begin inside such a text, because its last byte occurs in it once. */
  lemma LeadsWithoutTheMarker(lead: string)
    requires !Contains(lead, MARK)
    ensures FirstAt(lead + MARK, MARK, |lead|)
  {
    OccursRight(lead, MARK, MARK, |lead|);
    MarkerEnds();
    forall i | 0 <= i < |lead|
      ensures !OccursAt(lead + MARK, MARK, i)
    {
      if i + 18 <= |lead| {
        OccursLeft(lead, MARK, MARK, i);
      } else {
        assert (lead + MARK)[i + 17] == MARK[i + 17 - |lead|];
        LastByteFollows(lead + MARK, i);
      }
    }
  }

  lemma MarkerEnds()
    ensures |MARK| == 18 && MARK[17] == 's' && forall k :: 0 <= k < 17 ==> MARK[k] != 's'
  {
  }

  lemma LastByteFollows(s: string, i: nat)
    requires |MARK| == 18 && i + 17 < |s|
    ensures OccursAt(s, MARK, i) ==> s[i + 17] == MARK[17]
  {
    if OccursAt(s, MARK, i) { assert s[i..i + 18][17] == s[i + 17]; }
  }

  /** The same for the marker a Terraform file has and any text around the blocks
      that does not hold it, `required_version` included. */
  lemma TerraformRoundTrip(pieces: seq<Piece>, tail: string)
    requires !Contains(tail, MARK)
    requires forall p :: p in pieces ==>
               !Contains(p.lead, MARK) && '{' !in p.blank && GoodEntries(p.entries) && Gap(p.end)
    ensures BlockPins(CutAll(File(pieces, MARK, tail), Marked(MARK))) == FileSeen(pieces)
  {
    forall p | p in pieces
      ensures GoodPiece(p, MARK)
    {
      LeadsWithoutTheMarker(p.lead);
    }
    MarkerHasNoBrace();
    ReadingAPrintedFile(pieces, MARK, tail);
  }

  lemma MarkerHasNoBrace()
    ensures MARK != "" && '{' !in MARK
  {
  }

  // ----- when nothing is lost -----

  /** Every entry of a block is read exactly when each starts a line, the one
      before it counting as a line's end. */
  lemma {:induction false} EveryEntryIsSeenExactlyWhen(entries: seq<Entry>, lineStart: bool)
    ensures |EntriesSeen(entries, lineStart)| <= |entries|
    ensures EntriesSeen(entries, lineStart) == entries <==>
              forall i :: 0 <= i < |entries| ==> StartsLine(entries[i].gap, i > 0 || lineStart)
  {
    if entries == [] {
    } else {
      var later := entries[1..];
      assert entries == [entries[0]] + later;
      if StartsLine(entries[0].gap, lineStart) {
        EveryEntryIsSeenExactlyWhen(later, true);
        forall i | 0 < i < |entries| ensures entries[i] == later[i - 1] {}
        assert EntriesSeen(entries, lineStart)[1..] == EntriesSeen(later, true);
      } else {
        EveryEntryIsSeenExactlyWhen(later, false);
      }
    }
  }

  /** A key has a value exactly when one of its attributes that is not empty
      starts a line; only the first attribute may count on the brace for one. */
  lemma {:induction false} AKeyIsSeenExactlyWhen(attrs: seq<Attr>, key: string, lineStart: bool)
    ensures Seen(attrs, key, lineStart).Some? <==>
              exists i :: 0 <= i < |attrs| && attrs[i].key == key && attrs[i].value != ""
                  && StartsLine(attrs[i].gap, i == 0 && lineStart)
  {
    if attrs == [] {
    } else {
      var later := attrs[1..];
      AKeyIsSeenExactlyWhen(later, key, false);
      if i :|
        0 <= i < |later| && later[i].key == key && later[i].value != "" && StartsLine(later[i].gap, i == 0 && false)
      {
        assert attrs[i + 1] == later[i];
      }
      if i :|
        && 0 < i < |attrs| && attrs[i].key == key && attrs[i].value != ""
        && StartsLine(attrs[i].gap, i == 0 && lineStart)
      {
        assert later[i - 1] == attrs[i];
      }
    }
  }

  /** What an entry declares, its layout aside: the first value under a key. */
  function Declared(attrs: seq<Attr>, key: string): string {
    if attrs == [] then ""
    else if attrs[0].key == key && attrs[0].value != "" then attrs[0].value
    else Declared(attrs[1..], key)
  }

  function PinsDeclared(entries: seq<Entry>): seq<Pin> {
    if entries == [] then []
    else
      var attrs := entries[|entries| - 1].attrs;
      PinsDeclared(entries[..|entries| - 1]) + Named(Pin(Declared(attrs, "source"), Declared(attrs, "version")))
  }

  function FileDeclares(pieces: seq<Piece>): seq<Pin> {
    if pieces == [] then [] else FileDeclares(pieces[..|pieces| - 1]) + PinsDeclared(pieces[|pieces| - 1].entries)
  }

  /** Every attribute starts a line, the opening brace counting as a line's end. */
  ghost predicate AttrsOnLines(attrs: seq<Attr>, lineStart: bool) {
    forall i :: 0 <= i < |attrs| ==> StartsLine(attrs[i].gap, i == 0 && lineStart)
  }

  ghost predicate OnLines(entries: seq<Entry>) {
    forall e :: e in entries ==> StartsLine(e.gap, true) && AttrsOnLines(e.attrs, true)
  }

  lemma {:induction false} LinesShowEverything(attrs: seq<Attr>, key: string, lineStart: bool)
    requires AttrsOnLines(attrs, lineStart)
    ensures ValueOf(Seen(attrs, key, lineStart)) == Declared(attrs, key)
  {
    if attrs == [] {
    } else {
      forall i | 0 <= i < |attrs| - 1 ensures StartsLine(attrs[1..][i].gap, i == 0 && false) {
        assert attrs[1..][i] == attrs[i + 1];
      }
      LinesShowEverything(attrs[1..], key, false);
    }
  }

  lemma {:induction false} PinsShowEverything(entries: seq<Entry>)
    requires OnLines(entries)
    ensures PinsSeen(entries) == PinsDeclared(entries)
  {
    if entries == [] {
    } else {
      var n := |entries| - 1;
      assert entries[n] in entries && forall e :: e in entries[..n] ==> e in entries;
      PinsShowEverything(entries[..n]);
      LinesShowEverything(entries[n].attrs, "source", true);
      LinesShowEverything(entries[n].attrs, "version", true);
    }
  }

  lemma {:induction false} FileShowsEverything(pieces: seq<Piece>)
    requires forall p :: p in pieces ==> OnLines(p.entries)
    ensures FileSeen(pieces) == FileDeclares(pieces)
  {
    if pieces == [] {
    } else {
      var n := |pieces| - 1;
      assert pieces[n] in pieces && forall p :: p in pieces[..n] ==> p in pieces;
      FileShowsEverything(pieces[..n]);
      var entries := pieces[n].entries;
      forall i | 0 <= i < |entries| ensures StartsLine(entries[i].gap, i > 0 || true) { assert entries[i] in entries; }
      EveryEntryIsSeenExactlyWhen(entries, true);
      PinsShowEverything(entries);
    }
  }

  /** The round trip: with entries and attributes on lines of their own, blanks
      and text between blocks as they please, every entry of every block that
      declares a source is read back, in order, with the version it declares. */
  lemma ReadingUndoesPrinting(pieces: seq<Piece>, tail: string)
    requires !Contains(tail, MARK)
    requires forall p :: p in pieces ==>
               !Contains(p.lead, MARK) && '{' !in p.blank && GoodEntries(p.entries) && Gap(p.end)
    requires forall p :: p in pieces ==> OnLines(p.entries)
    ensures BlockPins(CutAll(File(pieces, MARK, tail), Marked(MARK))) == FileDeclares(pieces)
  {
    TerraformRoundTrip(pieces, tail);
    FileShowsEverything(pieces);
  }

  lemma SeenOfTwo(a: Attr, b: Attr, key: string)
    ensures Seen([a, b], key, true) ==
              if StartsLine(a.gap, true) && a.key == key && a.value != "" then Some(a.value)
              else if StartsLine(b.gap, false) && b.key == key && b.value != "" then Some(b.value)
              else None
  {
    assert [a, b][1..] == [b] && [b][1..] == [];
    assert Seen([b], key, false) ==
             if StartsLine(b.gap, false) && b.key == key && b.value != "" then Some(b.value) else None;
  }

  /** So an entry written on one line gives its source and loses its version. */
  lemma AnEntryOnOneLineLosesItsVersion(e: Entry, source: string, version: string)
    requires source != ""
    requires e.attrs == [Attr(" ", "source", " ", " ", source), Attr(", ", "version", " ", " ", version)]
    ensures PinSeen(e) == Pin(source, "")
  {
    assert ", "[1..] == " " && " "[1..] == "" && ',' in ", ";
    assert StartsLine(" ", true) && !StartsLine("", false) && !StartsLine(" ", false) && !StartsLine(", ", false);
    assert "source"[0] != "version"[0];
    SeenOfTwo(e.attrs[0], e.attrs[1], "source");
    SeenOfTwo(e.attrs[0], e.attrs[1], "version");
  }

  lemma SeenThen(a: Entry, b: Entry)
    requires StartsLine(a.gap, true)
    ensures EntriesSeen([a, b], true) == if StartsLine(b.gap, true) then [a, b] else [a]
  {
    assert [a, b][1..] == [b] && [b][1..] == [];
    assert EntriesSeen([b], true) == if StartsLine(b.gap, true) then [b] else [];
    assert [a] + [b] == [a, b] && [a] + [] == [a];
    assert EntriesSeen([a, b], true) == [a] + EntriesSeen([b], true);
  }

  /** And of two entries on one line the second is read when white space alone
      parts them, and lost when a comma does. */
  lemma ACommaHidesTheNextEntry(a: Entry, b: Entry)
    requires StartsLine(a.gap, true) && b.gap == " "
    ensures EntriesSeen([a, b], true) == [a, b]
    ensures EntriesSeen([a, b.(gap := ", ")], true) == [a]
  {
    assert ", "[1..] == " " && " "[1..] == "" && ',' in ", ";
    assert StartsLine(" ", true) && !StartsLine("", false) && !StartsLine(" ", false) && !StartsLine(", ", true);
    SeenThen(a, b);
    SeenThen(a, b.(gap := ", "));
  }
}
