/** The generated sections of a hand-written document: what lies between two
    markers is replaced, everything else is kept byte for byte. */
module Splicing {
  import Ordering
  import opened Wrappers
  import opened Text

  datatype Region = Region(start: string, end: string)

  datatype SpliceError = NoMarkers | OutOfOrder

  /** spliceSection: both searches are for the first occurrence in the whole
      document. */
  function SpliceSection(doc: string, r: Region, section: string): Result<string, SpliceError> {
    var start, end := Index(doc, r.start), Index(doc, r.end);
    if start < 0 || end < 0 then Err(NoMarkers)
    else if end < start then Err(OutOfOrder)
    else Ok(doc[..start + |r.start|] + "\n" + section + doc[end..])
  }

  /** Every outcome, for every document: refused without one of the markers or with
      the first end marker before the first start marker, and otherwise what stands
      through the start marker, a newline, the section, and what stands from the end
      marker on. */
  lemma SpliceMeans(doc: string, r: Region, section: string)
    ensures var spliced := SpliceSection(doc, r, section);
      && (spliced == Err(NoMarkers) <==> !Contains(doc, r.start) || !Contains(doc, r.end))
      && forall i, j :: FirstAt(doc, r.start, i) && FirstAt(doc, r.end, j) ==>
           spliced == if j < i then Err(OutOfOrder) else Ok(doc[..i + |r.start|] + "\n" + section + doc[j..])
  {
    IndexMeans(doc, r.start);
    IndexMeans(doc, r.end);
  }

  // ----- a document as what is kept and what is generated -----

  /** Kept and generated stretches in turn, starting and ending with a kept one. */
  function Weave(kept: seq<string>, bodies: seq<string>): string
    requires |kept| == |bodies| + 1
  {
    if bodies == [] then kept[0]
    else kept[0] + bodies[0] + Weave(kept[1..], bodies[1..])
  }

  /** Everything up to the body of region `k`, and everything from its end on. */
  function Left(kept: seq<string>, bodies: seq<string>, k: nat): string
    requires |kept| == |bodies| + 1 && k <= |bodies|
  {
    Weave(kept[..k + 1], bodies[..k])
  }

  function Right(kept: seq<string>, bodies: seq<string>, k: nat): string
    requires |kept| == |bodies| + 1 && k < |bodies|
  {
    Weave(kept[k + 1..], bodies[k + 1..])
  }

  lemma {:induction false} WeaveAt(kept: seq<string>, bodies: seq<string>, k: nat)
    requires |kept| == |bodies| + 1 && k < |bodies|
    ensures Weave(kept, bodies) == Left(kept, bodies, k) + bodies[k] + Right(kept, bodies, k)
  {
    if k == 0 {
      assert kept[..1][0] == kept[0] && bodies[..0] == [];
    } else {
      WeaveAt(kept[1..], bodies[1..], k - 1);
      assert kept[..k + 1][1..] == kept[1..][..k] && bodies[..k][1..] == bodies[1..][..k - 1];
      assert kept[1..][k..] == kept[k + 1..] && bodies[1..][k..] == bodies[k + 1..];
      BehindTheFirst(kept[0] + bodies[0], Left(kept[1..], bodies[1..], k - 1), bodies[k], Right(kept, bodies, k));
    }
  }

  lemma BehindTheFirst(a: string, b: string, c: string, d: string)
    ensures a + (b + c + d) == (a + b) + c + d
  {
    Ordering.Assoc(a, b + c, d);
    Ordering.Assoc(a, b, c);
  }

  /** The markers around region `k` fit in the kept stretches: regions are
      disjoint, markers included. */
  ghost predicate Disjoint(kept: seq<string>, regions: seq<Region>)
    requires |kept| == |regions| + 1
  {
    forall k :: 0 <= k <= |regions| ==> Room(regions, k) <= |kept[k]|
  }

  /** What the markers on either side of kept stretch `k` take of it. */
  function Room(regions: seq<Region>, k: nat): nat
    requires k <= |regions|
  {
    (if k > 0 then |regions[k - 1].end| else 0) + (if k < |regions| then |regions[k].start| else 0)
  }

  /** The regions, in the order of the document: each body stands between its two
      markers, and each marker occurs first where its region has it. */
  ghost predicate Placed(kept: seq<string>, bodies: seq<string>, regions: seq<Region>) {
    && |kept| == |bodies| + 1 == |regions| + 1
    && Disjoint(kept, regions)
    && PlacedUpTo(kept, bodies, regions, |regions|)
  }

  ghost predicate PlacedUpTo(kept: seq<string>, bodies: seq<string>, regions: seq<Region>, n: nat)
    requires |kept| == |bodies| + 1 == |regions| + 1 && n <= |regions|
  {
    n == 0 || (PlacedUpTo(kept, bodies, regions, n - 1)
               && MarkersAt(Weave(kept, bodies), regions[n - 1], |Left(kept, bodies, n - 1)|, |bodies[n - 1]|))
  }

  lemma {:induction false} PlacedHere(kept: seq<string>, bodies: seq<string>, regions: seq<Region>, n: nat, k: nat)
    requires |kept| == |bodies| + 1 == |regions| + 1 && k < n <= |regions|
    requires PlacedUpTo(kept, bodies, regions, n)
    ensures MarkersAt(Weave(kept, bodies), regions[k], |Left(kept, bodies, k)|, |bodies[k]|)
  {
    if k == n - 1 {
    } else {
      PlacedHere(kept, bodies, regions, n - 1, k);
    }
  }

  lemma {:induction false} PlacedEverywhere(kept: seq<string>, bodies: seq<string>, regions: seq<Region>, n: nat)
    requires |kept| == |bodies| + 1 == |regions| + 1 && n <= |regions|
    requires forall k :: 0 <= k < n ==> MarkersAt(Weave(kept, bodies), regions[k], |Left(kept, bodies, k)|, |bodies[k]|)
    ensures PlacedUpTo(kept, bodies, regions, n)
  {
    if n == 0 {
    } else {
      PlacedEverywhere(kept, bodies, regions, n - 1);
    }
  }

  /** The start marker ends at `at`, the end marker begins `length` later. */
  ghost predicate MarkersAt(doc: string, r: Region, at: nat, length: nat) {
    Index(doc, r.start) == at - |r.start| && Index(doc, r.end) == at + length
  }

  /** Empty, or its last line is ended. */
  predicate EndsItsLine(section: string) {
    section == "" || section[|section| - 1] == '\n'
  }

  predicate GoodMarker(m: string) {
    m != "" && '\n' !in m
  }

  ghost predicate GoodRegions(regions: seq<Region>) {
    forall k :: 0 <= k < |regions| ==> GoodMarker(regions[k].start) && GoodMarker(regions[k].end)
  }

  /** Ends with a newline, or is empty, and holds no marker. */
  ghost predicate GoodSection(section: string, regions: seq<Region>) {
    && EndsItsLine(section)
    && forall k :: 0 <= k < |regions| ==> Index(section, regions[k].start) == Index(section, regions[k].end) == -1
  }

  // ----- where a marker is found after a splice -----

  lemma NoNewlineInside(doc: string, m: string, q: int, i: int)
    requires OccursAt(doc, m, q) && '\n' !in m
    requires 0 <= i < |doc| && doc[i] == '\n'
    ensures !(q <= i < q + |m|)
  {
    assert forall j :: 0 <= j < |m| ==> doc[q..q + |m|][j] == m[j];
    assert forall j :: q <= j < q + |m| ==> doc[j] == m[j - q];
  }

  /** A marker holds no newline, so it cannot reach into a body that begins and
      ends with one. */
  lemma OccursOutside(l: string, section: string, r: string, m: string, q: nat)
    requires GoodMarker(m)
    requires EndsItsLine(section)
    requires !Contains(section, m)
    requires OccursAt(l + ("\n" + section) + r, m, q)
    ensures q + |m| <= |l| || |l| + 1 + |section| <= q
  {
    var doc := l + ("\n" + section) + r;
    var first, last := |l|, |l| + |section|;
    assert doc[first] == '\n' && doc[last] == '\n';
    NoNewlineInside(doc, m, q, first);
    NoNewlineInside(doc, m, q, last);
    if first < q && q + |m| <= last {
      assert doc[first + 1..last + 1] == section;
      assert doc[q..q + |m|] == section[q - first - 1..q - first - 1 + |m|];
      assert OccursAt(section, m, q - first - 1);
    }
  }

  /** Replacing a body moves the first occurrence of a marker found after it by
      the difference in length, and leaves one found before it where it was. */
  lemma FirstMoves(l: string, was: string, section: string, r: string, m: string, p: nat)
    requires GoodMarker(m)
    requires EndsItsLine(section)
    requires !Contains(section, m)
    requires FirstAt(l + was + r, m, p)
    ensures p + |m| <= |l| ==> FirstAt(l + ("\n" + section) + r, m, p)
    ensures |l| + |was| <= p ==> FirstAt(l + ("\n" + section) + r, m, p - |was| + 1 + |section|)
  {
    var body := "\n" + section;
    var after := l + body + r;
    SameOutside(l, was, body, r, m, p);
    forall q | 0 <= q && OccursAt(after, m, q)
      ensures p + |m| <= |l| ==> p <= q
      ensures |l| + |was| <= p ==> p - |was| + |body| <= q
    {
      OccursOutside(l, section, r, m, q);
      SameOutside(l, body, was, r, m, q);
    }
  }

  lemma IndexMoves(l: string, was: string, section: string, r: string, m: string, p: nat)
    requires GoodMarker(m)
    requires EndsItsLine(section)
    requires Index(section, m) == -1
    requires Index(l + was + r, m) == p
    ensures p + |m| <= |l| ==> Index(l + ("\n" + section) + r, m) == p
    ensures |l| + |was| <= p ==> Index(l + ("\n" + section) + r, m) == p - |was| + 1 + |section|
  {
    IndexMeans(section, m);
    IndexMeans(l + was + r, m);
    FirstMoves(l, was, section, r, m, p);
    if p + |m| <= |l| { FirstIsIndex(l + ("\n" + section) + r, m, p); }
    if |l| + |was| <= p { FirstIsIndex(l + ("\n" + section) + r, m, p - |was| + 1 + |section|); }
  }

  lemma SameOutside(l: string, a: string, b: string, r: string, m: string, q: nat)
    requires OccursAt(l + a + r, m, q)
    ensures q + |m| <= |l| ==> OccursAt(l + b + r, m, q)
    ensures |l| + |a| <= q ==> OccursAt(l + b + r, m, q - |a| + |b|)
  {
    if q + |m| <= |l| {
      assert (l + a + r)[q..q + |m|] == l[q..q + |m|] == (l + b + r)[q..q + |m|];
    }
    if |l| + |a| <= q {
      var i := q - |l| - |a|;
      assert (l + a + r)[q..q + |m|] == r[i..i + |m|] == (l + b + r)[q - |a| + |b|..q - |a| + |b| + |m|];
    }
  }

  lemma LeftMoves(kept: seq<string>, bodies: seq<string>, k: nat, body: string, j: nat)
    requires |kept| == |bodies| + 1 && k < |bodies| && j <= |bodies|
    ensures |Left(kept, bodies[k := body], j)| == |Left(kept, bodies, j)| + (if k < j then |body| - |bodies[k]| else 0)
    ensures j <= k ==> Left(kept, bodies[k := body], j) == Left(kept, bodies, j)
    ensures k < j ==> |Left(kept, bodies, k)| + |bodies[k]| <= |Left(kept, bodies, j)|
  {
    var changed := bodies[k := body];
    if j <= k {
      assert changed[..j] == bodies[..j];
    } else {
      var head := kept[..j + 1];
      WeaveAt(head, bodies[..j], k);
      WeaveAt(head, changed[..j], k);
      assert changed[..j][..k] == bodies[..j][..k] && changed[..j][k + 1..] == bodies[..j][k + 1..];
      assert head[..k + 1] == kept[..k + 1] && bodies[..j][..k] == bodies[..k];
    }
  }

  lemma RightStays(kept: seq<string>, bodies: seq<string>, k: nat, body: string)
    requires |kept| == |bodies| + 1 && k < |bodies|
    ensures Right(kept, bodies[k := body], k) == Right(kept, bodies, k)
  {
    assert bodies[k := body][k + 1..] == bodies[k + 1..];
  }

  lemma LeftStep(kept: seq<string>, bodies: seq<string>, k: nat)
    requires |kept| == |bodies| + 1 && k < |bodies|
    ensures |Left(kept, bodies, k + 1)| == |Left(kept, bodies, k)| + |bodies[k]| + |kept[k + 1]|
  {
    var head, some := kept[..k + 2], bodies[..k + 1];
    WeaveAt(head, some, k);
    assert head[..k + 1] == kept[..k + 1] && some[..k] == bodies[..k];
    assert head[k + 1..] == [kept[k + 1]] && some[k + 1..] == [];
  }

  lemma {:induction false} LeftOrder(kept: seq<string>, bodies: seq<string>, j: nat, k: nat)
    requires |kept| == |bodies| + 1 && j < k <= |bodies|
    ensures |Left(kept, bodies, j)| + |bodies[j]| + |kept[j + 1]| <= |Left(kept, bodies, k)|
  {
    LeftStep(kept, bodies, k - 1);
    if j == k - 1 {
    } else {
      LeftOrder(kept, bodies, j, k - 1);
    }
  }

  lemma LeftRoom(kept: seq<string>, bodies: seq<string>, j: nat)
    requires |kept| == |bodies| + 1 && j <= |bodies|
    ensures |Left(kept, bodies, j)| == (if j == 0 then 0 else |Left(kept, bodies, j - 1)| + |bodies[j - 1]|) + |kept[j]|
  {
    if j == 0 {
      assert Left(kept, bodies, 0) == kept[0];
    } else {
      LeftStep(kept, bodies, j - 1);
    }
  }

  /** Where the markers of region `j` stand, seen from the body of region `k`. */
  lemma SpansApart(kept: seq<string>, bodies: seq<string>, regions: seq<Region>, j: nat, k: nat)
    requires |kept| == |bodies| + 1 == |regions| + 1 && Disjoint(kept, regions)
    requires j < |regions| && k < |regions|
    ensures |regions[j].start| <= |Left(kept, bodies, j)|
    ensures j <= k ==> |Left(kept, bodies, j)| <= |Left(kept, bodies, k)|
    ensures j < k ==> |Left(kept, bodies, j)| + |bodies[j]| + |regions[j].end| <= |Left(kept, bodies, k)|
    ensures k < j ==> |Left(kept, bodies, k)| + |bodies[k]| <= |Left(kept, bodies, j)| - |regions[j].start|
  {
    LeftRoom(kept, bodies, j);
    assert Room(regions, j) <= |kept[j]| && Room(regions, j + 1) <= |kept[j + 1]|;
    if j < k { LeftOrder(kept, bodies, j, k); }
    if k < j - 1 { LeftOrder(kept, bodies, k, j - 1); }
  }

  // ----- one splice -----

  /** A marker of region `j`, first found at `p`, is first found where the new
      body leaves it. */
  lemma MarkerMoves(kept: seq<string>, bodies: seq<string>, k: nat, section: string, m: string, p: nat)
    requires |kept| == |bodies| + 1 && k < |bodies|
    requires GoodMarker(m) && EndsItsLine(section) && Index(section, m) == -1
    requires Index(Weave(kept, bodies), m) == p
    ensures p + |m| <= |Left(kept, bodies, k)| ==> Index(Weave(kept, bodies[k := "\n" + section]), m) == p
    ensures |Left(kept, bodies, k)| + |bodies[k]| <= p ==>
              Index(Weave(kept, bodies[k := "\n" + section]), m) == p - |bodies[k]| + 1 + |section|
  {
    var l, r, body := Left(kept, bodies, k), Right(kept, bodies, k), "\n" + section;
    WeaveAt(kept, bodies, k);
    WeaveAt(kept, bodies[k := body], k);
    LeftMoves(kept, bodies, k, body, k);
    RightStays(kept, bodies, k, body);
    IndexMoves(l, bodies[k], section, r, m, p);
  }

  lemma StartMoves(kept: seq<string>, bodies: seq<string>, regions: seq<Region>, k: nat, section: string, j: nat)
    requires GoodRegions(regions) && Placed(kept, bodies, regions)
    requires k < |regions| && j < |regions| && GoodSection(section, regions)
    ensures var changed := bodies[k := "\n" + section];
            Index(Weave(kept, changed), regions[j].start) == |Left(kept, changed, j)| - |regions[j].start|
  {
    LeftMoves(kept, bodies, k, "\n" + section, j);
    SpansApart(kept, bodies, regions, j, k);
    var p := |Left(kept, bodies, j)| - |regions[j].start|;
    PlacedHere(kept, bodies, regions, |regions|, j);
    MarkerMoves(kept, bodies, k, section, regions[j].start, p);
  }

  lemma EndMoves(kept: seq<string>, bodies: seq<string>, regions: seq<Region>, k: nat, section: string, j: nat)
    requires GoodRegions(regions) && Placed(kept, bodies, regions)
    requires k < |regions| && j < |regions| && GoodSection(section, regions)
    ensures var changed := bodies[k := "\n" + section];
            Index(Weave(kept, changed), regions[j].end) == |Left(kept, changed, j)| + |changed[j]|
  {
    LeftMoves(kept, bodies, k, "\n" + section, j);
    SpansApart(kept, bodies, regions, j, k);
    var p := |Left(kept, bodies, j)| + |bodies[j]|;
    PlacedHere(kept, bodies, regions, |regions|, j);
    MarkerMoves(kept, bodies, k, section, regions[j].end, p);
  }

  lemma SpliceFindsTheBody(doc: string, l: string, was: string, r: string, region: Region, section: string)
    requires doc == l + was + r && |region.start| <= |l|
    requires MarkersAt(doc, region, |l|, |was|)
    ensures SpliceSection(doc, region, section) == Ok(l + ("\n" + section) + r)
  {
    assert doc[..|l|] == l && doc[|l| + |was|..] == r;
    assert l + "\n" + section + r == l + ("\n" + section) + r;
  }

  /** Splicing a region replaces its body and nothing else, and every marker is
      still found where it belongs. */
  lemma SpliceReplacesOneBody(kept: seq<string>, bodies: seq<string>, regions: seq<Region>, k: nat, section: string)
    requires GoodRegions(regions) && Placed(kept, bodies, regions)
    requires k < |regions| && GoodSection(section, regions)
    ensures SpliceSection(Weave(kept, bodies), regions[k], section) == Ok(Weave(kept, bodies[k := "\n" + section]))
    ensures Placed(kept, bodies[k := "\n" + section], regions)
  {
    var l, r, body := Left(kept, bodies, k), Right(kept, bodies, k), "\n" + section;
    WeaveAt(kept, bodies, k);
    WeaveAt(kept, bodies[k := body], k);
    LeftMoves(kept, bodies, k, body, k);
    RightStays(kept, bodies, k, body);
    SpansApart(kept, bodies, regions, k, k);
    PlacedHere(kept, bodies, regions, |regions|, k);
    SpliceFindsTheBody(Weave(kept, bodies), l, bodies[k], r, regions[k], section);
    forall j | 0 <= j < |regions|
      ensures MarkersAt(Weave(kept, bodies[k := body]), regions[j], |Left(kept, bodies[k := body], j)|,
                        |bodies[k := body][j]|)
    {
      StartMoves(kept, bodies, regions, k, section, j);
      EndMoves(kept, bodies, regions, k, section, j);
    }
    PlacedEverywhere(kept, bodies[k := body], regions, |regions|);
  }

  // ----- many splices -----

  /** Splice the regions named, one after the other, each into what the previous
      one left. */
  function SpliceAll(doc: string, regions: seq<Region>, sections: seq<string>,
                     order: seq<nat>): Result<string, SpliceError>
    requires |sections| == |regions| && forall i :: 0 <= i < |order| ==> order[i] < |regions|
  {
    if order == [] then Ok(doc)
    else
      var n := |order| - 1;
      match SpliceAll(doc, regions, sections, order[..n])
      case Err(e) => Err(e)
      case Ok(d) => SpliceSection(d, regions[order[n]], sections[order[n]])
  }

  /** The bodies once those named have been generated. */
  ghost function Generated(bodies: seq<string>, sections: seq<string>, order: seq<nat>): seq<string>
    requires |bodies| == |sections|
  {
    seq(|bodies|, k requires 0 <= k < |bodies| => if k in order then "\n" + sections[k] else bodies[k])
  }

  ghost predicate GoodSections(sections: seq<string>, regions: seq<Region>) {
    |sections| == |regions| && forall k :: 0 <= k < |sections| ==> GoodSection(sections[k], regions)
  }

  lemma GenerateNone(bodies: seq<string>, sections: seq<string>)
    requires |bodies| == |sections|
    ensures Generated(bodies, sections, []) == bodies
  {
  }

  lemma GenerateOneMore(bodies: seq<string>, sections: seq<string>, order: seq<nat>, k: nat)
    requires |bodies| == |sections| && k < |bodies|
    ensures Generated(bodies, sections, order)[k := "\n" + sections[k]] == Generated(bodies, sections, order + [k])
  {
  }

  /** Only which regions are named matters, not in what order or how often. */
  lemma GenerateTheSame(bodies: seq<string>, sections: seq<string>, a: seq<nat>, b: seq<nat>)
    requires |bodies| == |sections|
    requires forall k :: k in a <==> k in b
    ensures Generated(bodies, sections, a) == Generated(bodies, sections, b)
  {
  }

  lemma GenerateAgain(bodies: seq<string>, sections: seq<string>, a: seq<nat>, b: seq<nat>)
    requires |bodies| == |sections|
    requires forall i :: 0 <= i < |b| ==> b[i] in a
    ensures Generated(Generated(bodies, sections, a), sections, b) == Generated(bodies, sections, a)
  {
    forall k | k in b ensures k in a {
      var i :| 0 <= i < |b| && b[i] == k;
    }
  }

  /** Splicing any list of regions, with any repetition, gives the document in
      which those bodies are the generated ones: nothing outside them has moved
      by a byte. */
  lemma {:induction false} SpliceAllGenerates(
    kept: seq<string>, bodies: seq<string>, regions: seq<Region>, sections: seq<string>, order: seq<nat>)
    requires GoodRegions(regions) && Placed(kept, bodies, regions) && GoodSections(sections, regions)
    requires forall i :: 0 <= i < |order| ==> order[i] < |regions|
    ensures SpliceAll(Weave(kept, bodies), regions, sections, order)
              == Ok(Weave(kept, Generated(bodies, sections, order)))
    ensures Placed(kept, Generated(bodies, sections, order), regions)
  {
    if order == [] {
      GenerateNone(bodies, sections);
    } else {
      var n := |order| - 1;
      SpliceAllGenerates(kept, bodies, regions, sections, order[..n]);
      OneMoreSplice(kept, bodies, regions, sections, order[..n], order[n]);
      OneMoreOf([], order, n);
      assert [] + order[..n] == order[..n] && [] + order[..n + 1] == order;
    }
  }

  lemma OneMoreOf(own: seq<nat>, helpers: seq<nat>, i: nat)
    requires i < |helpers|
    ensures own + helpers[..i] + [helpers[i]] == own + helpers[..i + 1]
  {
  }

  lemma OneMoreSplice(kept: seq<string>, bodies: seq<string>, regions: seq<Region>, sections: seq<string>,
                      order: seq<nat>, k: nat)
    requires GoodRegions(regions) && GoodSections(sections, regions) && k < |regions| == |bodies|
    requires Placed(kept, Generated(bodies, sections, order), regions)
    ensures SpliceSection(Weave(kept, Generated(bodies, sections, order)), regions[k], sections[k])
         == Ok(Weave(kept, Generated(bodies, sections, order + [k])))
    ensures Placed(kept, Generated(bodies, sections, order + [k]), regions)
  {
    SpliceReplacesOneBody(kept, Generated(bodies, sections, order), regions, k, sections[k]);
    GenerateOneMore(bodies, sections, order, k);
  }

  lemma SpliceAllIs(
    kept: seq<string>, bodies: seq<string>, regions: seq<Region>, sections: seq<string>, order: seq<nat>)
    requires GoodRegions(regions) && Placed(kept, bodies, regions) && GoodSections(sections, regions)
    requires forall i :: 0 <= i < |order| ==> order[i] < |regions|
    ensures SpliceAll(Weave(kept, bodies), regions, sections, order)
              == Ok(Weave(kept, Generated(bodies, sections, order)))
  {
    SpliceAllGenerates(kept, bodies, regions, sections, order);
  }

  lemma SpliceAllAgain(
    kept: seq<string>, bodies: seq<string>, regions: seq<Region>, sections: seq<string>, order: seq<nat>,
    again: seq<nat>)
    requires GoodRegions(regions) && Placed(kept, bodies, regions) && GoodSections(sections, regions)
    requires forall i :: 0 <= i < |order| ==> order[i] < |regions|
    requires forall i :: 0 <= i < |again| ==> again[i] < |regions|
    ensures SpliceAll(Weave(kept, Generated(bodies, sections, order)), regions, sections, again)
         == Ok(Weave(kept, Generated(Generated(bodies, sections, order), sections, again)))
  {
    SpliceAllGenerates(kept, bodies, regions, sections, order);
    SpliceAllIs(kept, Generated(bodies, sections, order), regions, sections, again);
  }

  /** Two lists naming the same regions give the same document, whatever their
      order. */
  lemma OrderDoesNotMatter(
    kept: seq<string>, bodies: seq<string>, regions: seq<Region>, sections: seq<string>, a: seq<nat>, b: seq<nat>)
    requires GoodRegions(regions) && Placed(kept, bodies, regions) && GoodSections(sections, regions)
    requires forall i :: 0 <= i < |a| ==> a[i] < |regions|
    requires forall i :: 0 <= i < |b| ==> b[i] < |regions|
    requires forall k :: k in a <==> k in b
    ensures SpliceAll(Weave(kept, bodies), regions, sections, a) == SpliceAll(Weave(kept, bodies), regions, sections, b)
    ensures SpliceAll(Weave(kept, bodies), regions, sections, a).Ok?
  {
    SpliceAllIs(kept, bodies, regions, sections, a);
    SpliceAllIs(kept, bodies, regions, sections, b);
    GenerateTheSame(bodies, sections, a, b);
  }

  /** Once every region is generated the document is a fixpoint: regenerating any
      of it, in any order, changes nothing, so every later check is clean. */
  lemma RegenerationReachesAFixpoint(
    kept: seq<string>, bodies: seq<string>, regions: seq<Region>, sections: seq<string>, order: seq<nat>,
    again: seq<nat>)
    requires GoodRegions(regions) && Placed(kept, bodies, regions) && GoodSections(sections, regions)
    requires forall i :: 0 <= i < |order| ==> order[i] < |regions|
    requires forall i :: 0 <= i < |again| ==> again[i] in order && again[i] < |regions|
    ensures var done := SpliceAll(Weave(kept, bodies), regions, sections, order);
            done.Ok? && SpliceAll(done.value, regions, sections, again) == done
  {
    SpliceAllIs(kept, bodies, regions, sections, order);
    SpliceAllAgain(kept, bodies, regions, sections, order, again);
    GenerateAgain(bodies, sections, order, again);
  }

  // ----- any document is woven -----

  /** The regions of a document, in order: where each start marker ends and where
      its end marker begins, every marker first found there, none overlapping. */
  ghost predicate RegionsOf(doc: string, regions: seq<Region>, from: seq<nat>, to: seq<nat>) {
    && |from| == |to| == |regions|
    && (forall k :: 0 <= k < |regions| ==> |regions[k].start| <= from[k] <= to[k] && to[k] + |regions[k].end| <= |doc|)
    && (forall k :: 0 <= k < |regions| - 1 ==> to[k] + |regions[k].end| <= from[k + 1] - |regions[k + 1].start|)
    && (forall k :: 0 <= k < |regions| ==> MarkersAt(doc, regions[k], from[k], to[k] - from[k]))
  }

  ghost function KeptOf(doc: string, regions: seq<Region>, from: seq<nat>, to: seq<nat>): seq<string>
    requires RegionsOf(doc, regions, from, to)
  {
    seq(|regions| + 1, k requires 0 <= k <= |regions| => KeptAt(doc, regions, from, to, k))
  }

  ghost function KeptAt(doc: string, regions: seq<Region>, from: seq<nat>, to: seq<nat>, k: nat): string
    requires RegionsOf(doc, regions, from, to) && k <= |regions|
  {
    doc[if k == 0 then 0 else to[k - 1]..if k == |regions| then |doc| else from[k]]
  }

  ghost function BodiesOf(doc: string, regions: seq<Region>, from: seq<nat>, to: seq<nat>): seq<string>
    requires RegionsOf(doc, regions, from, to)
  {
    seq(|regions|, k requires 0 <= k < |regions| => doc[from[k]..to[k]])
  }

  lemma {:induction false} WovenFrom(doc: string, regions: seq<Region>, from: seq<nat>, to: seq<nat>, k: nat)
    requires RegionsOf(doc, regions, from, to) && k <= |regions|
    ensures Weave(KeptOf(doc, regions, from, to)[k..], BodiesOf(doc, regions, from, to)[k..])
         == doc[if k == 0 then 0 else to[k - 1]..]
    decreases |regions| - k
  {
    var kept, bodies := KeptOf(doc, regions, from, to)[k..], BodiesOf(doc, regions, from, to)[k..];
    assert kept[0] == KeptAt(doc, regions, from, to, k);
    if k < |regions| {
      WovenFrom(doc, regions, from, to, k + 1);
      assert kept[1..] == KeptOf(doc, regions, from, to)[k + 1..];
      assert bodies[1..] == BodiesOf(doc, regions, from, to)[k + 1..];
      var at := if k == 0 then 0 else to[k - 1];
      CutInThree(doc, at, from[k], to[k]);
    }
  }

  lemma CutInThree(doc: string, at: nat, from: nat, to: nat)
    requires at <= from <= to <= |doc|
    ensures doc[at..] == doc[at..from] + doc[from..to] + doc[to..]
  {
  }

  lemma {:induction false} LeftReaches(doc: string, regions: seq<Region>, from: seq<nat>, to: seq<nat>, k: nat)
    requires RegionsOf(doc, regions, from, to) && k < |regions|
    ensures |Left(KeptOf(doc, regions, from, to), BodiesOf(doc, regions, from, to), k)| == from[k]
  {
    var kept, bodies := KeptOf(doc, regions, from, to), BodiesOf(doc, regions, from, to);
    if k == 0 {
      assert Left(kept, bodies, 0) == kept[0];
    } else {
      LeftReaches(doc, regions, from, to, k - 1);
      LeftStep(kept, bodies, k - 1);
    }
  }

  /** So the results above are about any document whose regions do not overlap. */
  lemma EveryDocumentIsWoven(doc: string, regions: seq<Region>, from: seq<nat>, to: seq<nat>)
    requires RegionsOf(doc, regions, from, to)
    ensures Weave(KeptOf(doc, regions, from, to), BodiesOf(doc, regions, from, to)) == doc
    ensures Placed(KeptOf(doc, regions, from, to), BodiesOf(doc, regions, from, to), regions)
  {
    WovenWhole(doc, regions, from, to);
    WovenMarkers(doc, regions, from, to, |regions|);
    WovenHasRoom(doc, regions, from, to);
  }

  lemma RoomAt(doc: string, regions: seq<Region>, from: seq<nat>, to: seq<nat>, k: nat)
    requires RegionsOf(doc, regions, from, to) && k <= |regions|
    ensures Room(regions, k) <= |KeptAt(doc, regions, from, to, k)|
  {
  }

  lemma WovenHasRoom(doc: string, regions: seq<Region>, from: seq<nat>, to: seq<nat>)
    requires RegionsOf(doc, regions, from, to)
    ensures Disjoint(KeptOf(doc, regions, from, to), regions)
  {
    var kept := KeptOf(doc, regions, from, to);
    forall k | 0 <= k <= |regions|
      ensures Room(regions, k) <= |kept[k]|
    {
      RoomAt(doc, regions, from, to, k);
    }
  }

  lemma WovenWhole(doc: string, regions: seq<Region>, from: seq<nat>, to: seq<nat>)
    requires RegionsOf(doc, regions, from, to)
    ensures Weave(KeptOf(doc, regions, from, to), BodiesOf(doc, regions, from, to)) == doc
  {
    var kept, bodies := KeptOf(doc, regions, from, to), BodiesOf(doc, regions, from, to);
    WovenFrom(doc, regions, from, to, 0);
    assert kept[0..] == kept && bodies[0..] == bodies;
  }

  lemma {:induction false} WovenMarkers(doc: string, regions: seq<Region>, from: seq<nat>, to: seq<nat>, n: nat)
    requires RegionsOf(doc, regions, from, to) && n <= |regions|
    ensures PlacedUpTo(KeptOf(doc, regions, from, to), BodiesOf(doc, regions, from, to), regions, n)
  {
    if n == 0 {
    } else {
      WovenMarkers(doc, regions, from, to, n - 1);
      WovenWhole(doc, regions, from, to);
      LeftReaches(doc, regions, from, to, n - 1);
    }
  }

  // ----- the write order -----

  class File {
    var text: string
    constructor (text: string)
      ensures this.text == text
    {
      this.text := text;
    }
  }

  /** `feint docs` on one file: the target's own sections are spliced into a copy
      taken first, the copy is written, and only then does each helper re-read
      the file and splice its section into what it finds. */
  method Regenerate(file: File, regions: seq<Region>, sections: seq<string>, own: seq<nat>, helpers: seq<nat>,
                    ghost kept: seq<string>, ghost bodies: seq<string>)
    requires GoodRegions(regions) && Placed(kept, bodies, regions) && GoodSections(sections, regions)
    requires forall i :: 0 <= i < |own| ==> own[i] < |regions|
    requires forall i :: 0 <= i < |helpers| ==> helpers[i] < |regions|
    requires file.text == Weave(kept, bodies)
    modifies file
    ensures file.text == Weave(kept, Generated(bodies, sections, own + helpers))
  {
    var updated := SpliceAll(file.text, regions, sections, own);
    SpliceAllGenerates(kept, bodies, regions, sections, own);
    if updated.value != file.text {
      file.text := updated.value;
    }
    assert own + helpers[..0] == own;
    for i := 0 to |helpers|
      invariant file.text == Weave(kept, Generated(bodies, sections, own + helpers[..i]))
      invariant Placed(kept, Generated(bodies, sections, own + helpers[..i]), regions)
    {
      OneMoreSplice(kept, bodies, regions, sections, own + helpers[..i], helpers[i]);
      OneMoreOf(own, helpers, i);
      file.text := SpliceSection(file.text, regions[helpers[i]], sections[helpers[i]]).value;
    }
    assert helpers[..|helpers|] == helpers;
  }

  /** Writing the copy last instead would put the helper's old section back: the
      two orders agree exactly when that section was already up to date. */
  lemma TheLastWriterWins(
    kept: seq<string>, bodies: seq<string>, regions: seq<Region>, sections: seq<string>, own: seq<nat>, helper: nat)
    requires GoodRegions(regions) && Placed(kept, bodies, regions) && GoodSections(sections, regions)
    requires forall i :: 0 <= i < |own| ==> own[i] < |regions|
    requires helper < |regions| && helper !in own
    ensures var copyLast := SpliceAll(Weave(kept, bodies), regions, sections, own);
            var copyFirst := SpliceAll(Weave(kept, bodies), regions, sections, own + [helper]);
            copyLast == copyFirst <==> bodies[helper] == "\n" + sections[helper]
  {
    SpliceAllIs(kept, bodies, regions, sections, own);
    SpliceAllIs(kept, bodies, regions, sections, own + [helper]);
    GenerateOneMore(bodies, sections, own, helper);
    WovenApart(kept, Generated(bodies, sections, own), helper, "\n" + sections[helper]);
  }

  /** Two documents that differ in one body are two documents. */
  lemma WovenApart(kept: seq<string>, bodies: seq<string>, k: nat, body: string)
    requires |kept| == |bodies| + 1 && k < |bodies|
    ensures Weave(kept, bodies) == Weave(kept, bodies[k := body]) <==> bodies[k] == body
  {
    WeaveAt(kept, bodies, k);
    WeaveAt(kept, bodies[k := body], k);
    LeftMoves(kept, bodies, k, body, k);
    RightStays(kept, bodies, k, body);
    Between(Left(kept, bodies, k), bodies[k], body, Right(kept, bodies, k));
  }

  lemma Between(l: string, a: string, b: string, r: string)
    ensures l + a + r == l + b + r <==> a == b
  {
    if l + a + r == l + b + r {
      assert |a| == |b|;
      assert (l + a + r)[|l|..|l| + |a|] == a && (l + b + r)[|l|..|l| + |b|] == b;
    }
  }
}
