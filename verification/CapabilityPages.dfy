/** The generated blocks of a page, as the claim reader finds them, and the claims of
    a page that no row of the matrix owns. */
module CapabilityPages {
  import opened Wrappers
  import opened Text
  import opened CapabilityClaims

  const OPENING := "<!-- "
  const START := ":start -->"
  const END := ":end -->"

  predicate IsLetter(c: char) { 'a' <= c <= 'z' }

  // ----- what a match is -----

  /** From `i` to `j`: the opening, letters, and the given tail. */
  ghost predicate Marker(doc: string, i: nat, j: nat, tail: string) {
    && i + 5 < j - |tail| && j <= |doc|
    && doc[i..i + 5] == OPENING
    && doc[j - |tail|..j] == tail
    && forall k :: i + 5 <= k < j - |tail| ==> IsLetter(doc[k])
  }

  /** A block: its start marker from `at` to `from`, its body from there to `to`, its
      end marker from there to `end`. */
  datatype Block = Block(at: nat, from: nat, to: nat, end: nat)

  ghost predicate IsBlock(doc: string, b: Block) {
    b.from <= b.to && Marker(doc, b.at, b.from, START) && Marker(doc, b.to, b.end, END)
  }

  /** The leftmost block from `start` on, and of those the one with the shortest
      body. */
  ghost predicate First(doc: string, start: nat, b: Block) {
    && IsBlock(doc, b) && start <= b.at
    && forall c :: IsBlock(doc, c) && start <= c.at ==>
         b.at <= c.at && (b.at == c.at ==> b.from == c.from && b.to <= c.to && (b.to == c.to ==> b.end == c.end))
  }

  /** The blocks a search that starts again after each one finds. */
  ghost predicate AreTheBlocks(doc: string, start: nat, blocks: seq<Block>)
    decreases |blocks|
  {
    if blocks == [] then forall c :: IsBlock(doc, c) ==> c.at < start
    else First(doc, start, blocks[0]) && AreTheBlocks(doc, blocks[0].end, blocks[1..])
  }

  // ----- finding them -----

  function PastLetters(doc: string, k: nat): (e: nat)
    requires k <= |doc|
    ensures k <= e <= |doc| && (forall i :: k <= i < e ==> IsLetter(doc[i])) && (e < |doc| ==> !IsLetter(doc[e]))
    decreases |doc| - k
  {
    if k < |doc| && IsLetter(doc[k]) then PastLetters(doc, k + 1) else k
  }

  function MarkerEnd(doc: string, i: nat, tail: string): (end: Option<nat>)
    ensures end.Some? ==> i + 5 + |tail| < end.value <= |doc|
  {
    if i + 5 > |doc| || doc[i..i + 5] != OPENING then None
    else
      var e := PastLetters(doc, i + 5);
      if i + 5 < e && e + |tail| <= |doc| && doc[e..e + |tail|] == tail then Some(e + |tail|) else None
  }

  /** A tail that no name runs into. */
  predicate IsTail(tail: string) {
    tail != "" && tail[0] == ':' && '<' !in tail
  }

  lemma MarkerEndMeans(doc: string, i: nat, j: nat, tail: string)
    requires IsTail(tail)
    ensures MarkerEnd(doc, i, tail) == Some(j) <==> Marker(doc, i, j, tail)
  {
    if Marker(doc, i, j, tail) {
      var e := PastLetters(doc, i + 5);
      assert doc[j - |tail|..j][0] == doc[j - |tail|];
      assert e == j - |tail|;
    }
  }

  function NextMarker(doc: string, from: nat, tail: string): (found: Option<(nat, nat)>)
    ensures found.Some? ==> from <= found.value.0 && found.value.0 + 5 + |tail| < found.value.1 <= |doc|
    decreases |doc| - from
  {
    var e := MarkerEnd(doc, from, tail);
    if e.Some? then Some((from, e.value))
    else if from >= |doc| then None
    else NextMarker(doc, from + 1, tail)
  }

  lemma {:induction false} NextMarkerIsFirst(doc: string, from: nat, tail: string)
    requires IsTail(tail)
    ensures var found := NextMarker(doc, from, tail);
            && (found.Some? ==> Marker(doc, found.value.0, found.value.1, tail))
            && (forall i: nat, j: nat :: from <= i && Marker(doc, i, j, tail) ==>
                  found.Some? && found.value.0 <= i && (found.value.0 == i ==> found.value.1 == j))
    decreases |doc| - from
  {
    forall j: nat
      ensures MarkerEnd(doc, from, tail) == Some(j) <==> Marker(doc, from, j, tail)
    {
      MarkerEndMeans(doc, from, j, tail);
    }
    if MarkerEnd(doc, from, tail).None? && from < |doc| {
      NextMarkerIsFirst(doc, from + 1, tail);
    }
  }

  /** The parts of a block lie in this order in the page. */
  predicate Lies(doc: string, b: Block) {
    b.at + 5 + |START| < b.from <= b.to < b.end <= |doc|
  }

  function NextBlock(doc: string, start: nat): (found: Option<Block>)
    ensures found.Some? ==> start <= found.value.at && Lies(doc, found.value)
  {
    var open := NextMarker(doc, start, START);
    if open.None? then None
    else
      var close := NextMarker(doc, open.value.1, END);
      if close.None? then None else Some(Block(open.value.0, open.value.1, close.value.0, close.value.1))
  }

  lemma Tails()
    ensures IsTail(START) && IsTail(END)
  {
  }

  /** A marker holds no '<' but its first byte, so that none begins inside another. */
  lemma NoneBeginsInside(doc: string, i: nat, j: nat, tail: string, k: nat)
    requires IsTail(tail) && Marker(doc, i, j, tail) && i < k < j
    ensures doc[k] != '<'
  {
    if k < i + 5 {
      assert doc[k] == doc[i..i + 5][k - i] == OPENING[k - i];
    } else if k < j - |tail| {
      assert IsLetter(doc[k]);
    } else {
      assert doc[k] == doc[j - |tail|..j][k - (j - |tail|)];
      assert doc[k] in tail;
    }
  }

  /** The end marker of any block that starts at `i` or later stands behind the start
      marker at `i`. */
  lemma EndsBehind(doc: string, i: nat, j: nat, c: Block)
    requires Marker(doc, i, j, START) && IsBlock(doc, c) && i <= c.at
    ensures j <= c.to
  {
    Tails();
    assert doc[c.to] == doc[c.to..c.to + 5][0] == '<';
    assert i < c.to;
    if c.to < j { NoneBeginsInside(doc, i, j, START, c.to); }
  }

  lemma NextBlockIsFirst(doc: string, start: nat)
    ensures var found := NextBlock(doc, start);
            if found.Some? then First(doc, start, found.value)
            else forall c :: IsBlock(doc, c) ==> c.at < start
  {
    Tails();
    NextMarkerIsFirst(doc, start, START);
    var open := NextMarker(doc, start, START);
    if open.Some? {
      NextMarkerIsFirst(doc, open.value.1, END);
      forall c | IsBlock(doc, c) && start <= c.at
        ensures open.value.1 <= c.to
      {
        EndsBehind(doc, open.value.0, open.value.1, c);
      }
    }
  }

  /** FindAllStringSubmatch of the block expression. */
  function Blocks(doc: string, start: nat): (blocks: seq<Block>)
    ensures forall b :: b in blocks ==> Lies(doc, b)
    decreases |doc| - start
  {
    var found := NextBlock(doc, start);
    if found.None? then [] else [found.value] + Blocks(doc, found.value.end)
  }

  /** What is found are the leftmost blocks, each with the shortest body, one after
      the other, and nothing else. */
  lemma {:induction false} BlocksAreTheBlocks(doc: string, start: nat)
    ensures AreTheBlocks(doc, start, Blocks(doc, start))
    decreases |doc| - start
  {
    NextBlockIsFirst(doc, start);
    var found := NextBlock(doc, start);
    if found.Some? {
      BlocksAreTheBlocks(doc, found.value.end);
      assert ([found.value] + Blocks(doc, found.value.end))[1..] == Blocks(doc, found.value.end);
    }
  }

  lemma EmptyExactlyWhenNone(doc: string, start: nat, blocks: seq<Block>)
    requires AreTheBlocks(doc, start, blocks)
    ensures blocks == [] <==> forall c :: IsBlock(doc, c) ==> c.at < start
  {
    assert blocks != [] ==> IsBlock(doc, blocks[0]) && start <= blocks[0].at;
  }

  /** And there is one such list. */
  lemma {:induction false} TheBlocksAreUnique(doc: string, start: nat, a: seq<Block>, b: seq<Block>)
    requires AreTheBlocks(doc, start, a) && AreTheBlocks(doc, start, b)
    ensures a == b
    decreases |a|
  {
    EmptyExactlyWhenNone(doc, start, a);
    EmptyExactlyWhenNone(doc, start, b);
    if a != [] {
      assert a[0] == b[0];
      TheBlocksAreUnique(doc, a[0].end, a[1..], b[1..]);
      assert a == [a[0]] + a[1..] && b == [b[0]] + b[1..];
    }
  }

  // ----- what a block looks like -----

  function NameOf(doc: string, b: Block): string
    requires Lies(doc, b)
  {
    doc[b.at + 5..b.from - |START|]
  }

  function BodyOf(doc: string, b: Block): string
    requires Lies(doc, b)
  {
    doc[b.from..b.to]
  }

  ghost predicate IsName(s: string) {
    s != "" && forall c :: c in s ==> 97 <= c as int <= 122
  }

  ghost function Written(name: string, tail: string): string {
    "<!-- " + name + tail
  }

  /** The page holds, behind `before`, the two markers with `body` between them. */
  ghost predicate IsWritten(doc: string, b: Block, before: string, name: string, body: string, word: string,
                            after: string)
  {
    && IsName(name) && IsName(word)
    && doc == before + Written(name, ":start -->") + body + Written(word, ":end -->") + after
    && b.at == |before| && b.from == b.at + |name| + 15
    && b.to == b.from + |body| && b.end == b.to + |word| + 13
  }

  lemma MarkerReads(doc: string, i: nat, j: nat, tail: string) returns (name: string)
    requires Marker(doc, i, j, tail)
    ensures IsName(name) && doc[i..j] == Written(name, tail)
    ensures j == i + 5 + |name| + |tail| && name == doc[i + 5..j - |tail|]
  {
    name := doc[i + 5..j - |tail|];
    assert doc[i..j] == doc[i..i + 5] + name + doc[j - |tail|..j];
    forall c | c in name
      ensures 97 <= c as int <= 122
    {
      var k :| 0 <= k < |name| && name[k] == c;
      assert IsLetter(doc[i + 5 + k]);
    }
  }

  lemma WrittenIsAMarker(before: string, name: string, tail: string, after: string)
    requires IsName(name)
    ensures var doc, i, j := before + Written(name, tail) + after, |before|, |before| + 5 + |name| + |tail|;
            Marker(doc, i, j, tail) && doc[i + 5..j - |tail|] == name
  {
    var doc, i := before + Written(name, tail) + after, |before|;
    assert doc[i..i + 5] == "<!-- ";
    assert doc[i + 5..i + 5 + |name|] == name;
    assert doc[i + 5 + |name|..i + 5 + |name| + |tail|] == tail;
    forall k | i + 5 <= k < i + 5 + |name|
      ensures IsLetter(doc[k])
    {
      assert doc[k] == name[k - i - 5] && name[k - i - 5] in name;
    }
  }

  lemma Assembles(doc: string, b: Block, name: string, word: string)
    requires Lies(doc, b) && IsName(name) && IsName(word)
    requires doc[b.at..b.from] == Written(name, ":start -->") && doc[b.to..b.end] == Written(word, ":end -->")
    ensures IsWritten(doc, b, doc[..b.at], name, doc[b.from..b.to], word, doc[b.end..])
  {
    assert doc == doc[..b.at] + doc[b.at..b.from] + doc[b.from..b.to] + doc[b.to..b.end] + doc[b.end..];
    assert |doc[b.at..b.from]| == |Written(name, ":start -->")| == |name| + 15;
    assert |doc[b.to..b.end]| == |Written(word, ":end -->")| == |word| + 13;
  }

  lemma BlockIsWritten(doc: string, b: Block) returns (word: string)
    requires IsBlock(doc, b)
    ensures IsWritten(doc, b, doc[..b.at], NameOf(doc, b), BodyOf(doc, b), word, doc[b.end..])
  {
    var name := MarkerReads(doc, b.at, b.from, START);
    word := MarkerReads(doc, b.to, b.end, END);
    Assembles(doc, b, name, word);
  }

  lemma WrittenStartsABlock(doc: string, before: string, name: string, rest: string)
    requires IsName(name) && doc == before + Written(name, START) + rest
    ensures var i := |before|;
            var j := i + |name| + 15;
            Marker(doc, i, j, START) && doc[i + 5..j - |START|] == name && doc[j..] == rest
  {
    WrittenIsAMarker(before, name, START, rest);
    assert |before + Written(name, START)| == |before| + |name| + 15;
  }

  lemma WrittenEndsABlock(doc: string, head: string, word: string, after: string)
    requires IsName(word) && doc == head + Written(word, END) + after
    ensures Marker(doc, |head|, |head| + |word| + 13, END)
  {
    WrittenIsAMarker(head, word, END, after);
  }

  lemma PartsLie(doc: string, before: string, first: string, body: string, last: string, after: string)
    requires doc == before + first + body + last + after
    ensures doc == before + first + (body + last + after)
    ensures var i := |before| + |first|; doc[i..i + |body|] == body
  {
  }

  lemma ItStarts(doc: string, b: Block, before: string, name: string, body: string, word: string, after: string)
    requires IsWritten(doc, b, before, name, body, word, after)
    ensures Marker(doc, b.at, b.from, START) && doc[b.at + 5..b.from - |START|] == name
  {
    var last := Written(word, END);
    PartsLie(doc, before, Written(name, START), body, last, after);
    WrittenStartsABlock(doc, before, name, body + last + after);
  }

  lemma ItEnds(doc: string, b: Block, before: string, name: string, body: string, word: string, after: string)
    requires IsWritten(doc, b, before, name, body, word, after)
    ensures Marker(doc, b.to, b.end, END)
  {
    WrittenEndsABlock(doc, before + Written(name, START) + body, word, after);
  }

  lemma WrittenIsABlock(doc: string, b: Block, before: string, name: string, body: string, word: string, after: string)
    requires IsWritten(doc, b, before, name, body, word, after)
    ensures IsBlock(doc, b) && NameOf(doc, b) == name && BodyOf(doc, b) == body
  {
    ItStarts(doc, b, before, name, body, word, after);
    ItEnds(doc, b, before, name, body, word, after);
    PartsLie(doc, before, Written(name, START), body, Written(word, END), after);
  }

  /** A block, its name and its body, as they are written: the two comments of a
      block hold nothing but small letters and the words `start` and `end`, and what
      stands between them is the body. */
  lemma BlockMeans(doc: string, b: Block, name: string, body: string)
    ensures IsBlock(doc, b) && NameOf(doc, b) == name && BodyOf(doc, b) == body
       <==> exists before, word, after :: IsWritten(doc, b, before, name, body, word, after)
  {
    if IsBlock(doc, b) && NameOf(doc, b) == name && BodyOf(doc, b) == body {
      var word := BlockIsWritten(doc, b);
    }
    if before, word, after :| IsWritten(doc, b, before, name, body, word, after) {
      WrittenIsABlock(doc, b, before, name, body, word, after);
    }
  }

  // ----- the claims of a page -----

  datatype Page = Missing | Unreadable | Read(doc: string)

  datatype PageProblem = CannotRead | Claim(block: string, problem: Problem)

  /** A claim made in one of these blocks, under its name. */
  ghost predicate ClaimedIn(doc: string, blocks: seq<Block>, q: PageProblem, matrix: Matrix, tokens: seq<string>,
                            providers: seq<string>)
    requires forall b :: b in blocks ==> Lies(doc, b)
  {
    && q.Claim? && IsProblem(q.problem, matrix, tokens, providers)
    && exists b ::
        b in blocks && q.block == NameOf(doc, b) && q.problem.unit in UnitsOfAll(SpansOf(LinesOfBlock(BodyOf(doc, b))))
  }

  /** unownedCapabilityClaims: a page that is not there claims nothing, one that
      cannot be read is a problem, and of any other each block is read. */
  method UnownedPageClaims(page: Page, matrix: Matrix, tokens: seq<string>, providers: seq<string>)
    returns (problems: seq<PageProblem>)
    ensures page.Missing? ==> problems == []
    ensures page.Unreadable? ==> problems == [CannotRead]
    ensures page.Read? ==>
              forall q :: q in problems <==> ClaimedIn(page.doc, Blocks(page.doc, 0), q, matrix, tokens, providers)
  {
    match page
    case Missing => problems := [];
    case Unreadable => problems := [CannotRead];
    case Read(doc) =>
      var blocks := Blocks(doc, 0);
      problems := [];
      for i := 0 to |blocks|
        invariant forall b :: b in blocks ==> Lies(doc, b)
        invariant forall b :: b in blocks[..i] ==> b in blocks
        invariant forall q :: q in problems <==> ClaimedIn(doc, blocks[..i], q, matrix, tokens, providers)
      {
        assert blocks[..i + 1] == blocks[..i] + [blocks[i]];
        var more := ClaimsOfBlock(doc, blocks[i], matrix, tokens, providers);
        problems := problems + more;
      }
      assert blocks[..|blocks|] == blocks;
  }

  method ClaimsOfBlock(doc: string, b: Block, matrix: Matrix, tokens: seq<string>, providers: seq<string>)
    returns (problems: seq<PageProblem>)
    requires Lies(doc, b)
    ensures forall q :: q in problems <==> ClaimedIn(doc, [b], q, matrix, tokens, providers)
  {
    var claims := UnownedClaims(BodyOf(doc, b), matrix, tokens, providers);
    problems := [];
    for i := 0 to |claims|
      invariant forall q :: q in problems <==> q.Claim? && q.block == NameOf(doc, b) && q.problem in claims[..i]
    {
      assert claims[..i + 1] == claims[..i] + [claims[i]];
      problems := problems + [Claim(NameOf(doc, b), claims[i])];
    }
    assert claims[..|claims|] == claims;
    assert forall c :: c in [b] <==> c == b;
  }
}
