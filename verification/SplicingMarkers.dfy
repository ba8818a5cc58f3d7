/** Sections that hold a marker: their own, or that of another region. */
module SplicingMarkers {
  import Ordering
  import opened Wrappers
  import opened Text
  import opened Splicing

  // ----- a section that holds its own marker -----

  /** What stands before the body: it ends with the start marker, first found
      there, and holds no end marker. */
  ghost predicate Opens(l: string, region: Region) {
    FirstAt(l, region.start, |l| - |region.start|) && !Contains(l, region.end)
  }

  lemma StartIsFirst(l: string, rest: string, m: string)
    requires |m| <= |l| && Index(l + rest, m) == |l| - |m|
    ensures FirstAt(l, m, |l| - |m|)
  {
    IndexMeans(l + rest, m);
    forall i | 0 <= i && i + |m| <= |l|
      ensures OccursAt(l + rest, m, i) <==> OccursAt(l, m, i)
    {
      OccursLeft(l, rest, m, i);
    }
  }

  lemma EndIsLater(l: string, rest: string, m: string)
    requires m != "" && Index(l + rest, m) >= |l|
    ensures !Contains(l, m)
  {
    IndexMeans(l + rest, m);
    forall i | OccursAt(l, m, i)
      ensures false
    {
      OccursLeft(l, rest, m, i);
    }
  }

  lemma StartsWith(before: string, r: string, m: string)
    requires Index(before + r, m) == |before|
    ensures HasPrefix(r, m)
  {
    IndexMeans(before + r, m);
    OccursRight(before, r, m, |before|);
  }

  /** A document cut at its markers. */
  lemma MarkersCut(l: string, was: string, r: string, region: Region)
    requires |region.start| <= |l| && MarkersAt(l + was + r, region, |l|, |was|) && GoodMarker(region.end)
    ensures Opens(l, region) && HasPrefix(r, region.end)
  {
    Ordering.Assoc(l, was, r);
    StartIsFirst(l, was + r, region.start);
    EndIsLater(l, was + r, region.end);
    StartsWith(l + was, r, region.end);
  }

  /** After any section, the end marker found is the first one of what follows
      the start marker's line. */
  lemma MarkersAfter(l: string, section: string, tail: string, region: Region)
    requires Opens(l, region) && HasPrefix(tail, region.end) && GoodMarker(region.end)
    ensures 0 <= Index(section + tail, region.end) <= |section|
    ensures MarkersAt(l + ("\n" + section) + tail, region, |l|, 1 + Index(section + tail, region.end))
  {
    var doc, rest, m := l + ("\n" + section) + tail, section + tail, region.end;
    OccursRight(section, tail, m, |section|);
    IndexMeans(rest, m);
    LinesApart(l, "\n", section, tail);
    EndFoundAfter(l, rest, m);
    FirstIsIndex((l + "\n") + rest, m, |l| + 1 + Index(rest, m));
    StartFoundBefore(l, "\n" + section + tail, region.start);
  }

  lemma LinesApart(l: string, newline: string, section: string, tail: string)
    ensures l + (newline + section) + tail == (l + newline) + (section + tail) == l + (newline + section + tail)
  {
    Ordering.Assoc(l, newline, section);
    Ordering.Assoc(l + newline, section, tail);
    Ordering.Assoc(l, newline + section, tail);
  }

  lemma EndFoundAfter(l: string, rest: string, m: string)
    requires GoodMarker(m) && !Contains(l, m) && Index(rest, m) >= 0
    ensures FirstAt((l + "\n") + rest, m, |l| + 1 + Index(rest, m))
  {
    var doc, e := (l + "\n") + rest, Index(rest, m);
    IndexMeans(rest, m);
    OccursRight(l + "\n", rest, m, |l| + 1 + e);
    forall j | 0 <= j < |l| + 1 + e && OccursAt(doc, m, j)
      ensures false
    {
      NoNewlineInside(doc, m, j, |l|);
      if j + |m| <= |l| {
        assert doc == l + ("\n" + rest);
        OccursLeft(l, "\n" + rest, m, j);
      } else {
        OccursRight(l + "\n", rest, m, j);
      }
    }
  }

  lemma StartFoundBefore(l: string, rest: string, m: string)
    requires FirstAt(l, m, |l| - |m|)
    ensures Index(l + rest, m) == |l| - |m|
  {
    forall j | 0 <= j <= |l| - |m|
      ensures OccursAt(l + rest, m, j) <==> OccursAt(l, m, j)
    {
      OccursLeft(l, rest, m, j);
    }
    FirstIsIndex(l + rest, m, |l| - |m|);
  }

  lemma CutAgain(l: string, newline: string, section: string, tail: string, e: nat)
    requires e <= |section|
    ensures l + (newline + section) + tail == l + (newline + (section + tail)[..e]) + (section + tail)[e..]
  {
    assert section + tail == (section + tail)[..e] + (section + tail)[e..];
    LinesApart(l, newline, section, tail);
    LinesApart(l, newline, (section + tail)[..e], (section + tail)[e..]);
  }

  lemma SpliceOver(l: string, section: string, tail: string, region: Region)
    requires Opens(l, region) && HasPrefix(tail, region.end) && GoodMarker(region.end)
    ensures var e := Index(section + tail, region.end);
            && 0 <= e <= |section|
            && SpliceSection(l + ("\n" + section) + tail, region, section)
                == Ok(l + ("\n" + section) + (section + tail)[e..])
            && HasPrefix((section + tail)[e..], region.end)
  {
    var rest, e := section + tail, Index(section + tail, region.end);
    MarkersAfter(l, section, tail, region);
    IndexMeans(rest, region.end);
    var was := "\n" + rest[..e];
    CutAgain(l, "\n", section, tail, e);
    SpliceFindsTheBody(l + was + rest[e..], l, was, rest[e..], region, section);
  }

  /** Any section at all, spliced twice into any document with the markers in
      order: the second splice succeeds, it changes nothing exactly when the end
      marker is not met before the section's end, and otherwise the document
      grows by what the section has from there on. */
  lemma SplicingTwice(l: string, was: string, r: string, region: Region, section: string)
    requires |region.start| <= |l| && MarkersAt(l + was + r, region, |l|, |was|) && GoodMarker(region.end)
    ensures var once := SpliceSection(l + was + r, region, section);
            var e := Index(section + r, region.end);
            && once.Ok?
            && 0 <= e <= |section|
            && var again := SpliceSection(once.value, region, section);
               && again.Ok?
               && (again == once <==> e == |section|)
               && |again.value| == |once.value| + |section| - e
  {
    SpliceFindsTheBody(l + was + r, l, was, r, region, section);
    MarkersCut(l, was, r, region);
    SpliceOver(l, section, r, region);
    var e := Index(section + r, region.end);
    if e == |section| { assert (section + r)[e..] == r; }
  }

  /** Where a search for `m` from the start of the section stops: inside it, or
      at its end. */
  function Cut(section: string, m: string): (e: nat)
    ensures e <= |section|
  {
    var i := Index(section, m);
    if i == -1 then |section| else i
  }

  /** A section that ends its last line keeps the end marker's text to one side,
      so where the search stops does not depend on what follows. */
  lemma CutIsTheSections(section: string, tail: string, m: string)
    requires GoodMarker(m) && EndsItsLine(section) && HasPrefix(tail, m)
    ensures Index(section + tail, m) == Cut(section, m)
  {
    var rest := section + tail;
    IndexMeans(section, m);
    OccursRight(section, tail, m, |section|);
    forall j | 0 <= j < |section| && OccursAt(rest, m, j)
      ensures OccursAt(section, m, j)
    {
      NoNewlineInside(rest, m, j, |section| - 1);
      OccursLeft(section, tail, m, j);
    }
    if Contains(section, m) { OccursLeft(section, tail, m, Index(section, m)); }
    FirstIsIndex(rest, m, Cut(section, m));
  }

  /** The same section written `n` times over. */
  function SpliceTimes(doc: string, region: Region, section: string, n: nat): Result<string, SpliceError> {
    if n == 0 then Ok(doc)
    else
      match SpliceTimes(doc, region, section, n - 1)
      case Err(e) => Err(e)
      case Ok(d) => SpliceSection(d, region, section)
  }

  /** One more write over a document written with the section. */
  lemma WrittenOnceMore(l: string, before: string, region: Region, section: string) returns (tail: string)
    requires Opens(l, region) && HasPrefix(before, region.end) && GoodMarker(region.end) && EndsItsLine(section)
    ensures SpliceSection(l + ("\n" + section) + before, region, section) == Ok(l + ("\n" + section) + tail)
    ensures HasPrefix(tail, region.end) && |tail| == |before| + (|section| - Cut(section, region.end))
  {
    SpliceOver(l, section, before, region);
    CutIsTheSections(section, before, region.end);
    tail := (section + before)[Cut(section, region.end)..];
  }

  lemma WrittenOnce(l: string, was: string, r: string, region: Region, section: string)
    requires |region.start| <= |l| && MarkersAt(l + was + r, region, |l|, |was|)
    ensures SpliceTimes(l + was + r, region, section, 1) == Ok(l + ("\n" + section) + r)
  {
    SpliceFindsTheBody(l + was + r, l, was, r, region, section);
    assert SpliceTimes(l + was + r, region, section, 0) == Ok(l + was + r);
  }

  /** After `n` writes, each but the first leaving `d` bytes more behind. */
  lemma {:induction false} WrittenTimes(
    l: string, was: string, r: string, region: Region, section: string, n: nat, d: nat)
    returns (tail: string)
    requires |region.start| <= |l| && MarkersAt(l + was + r, region, |l|, |was|) && GoodMarker(region.end)
    requires EndsItsLine(section) && d == |section| - Cut(section, region.end)
    requires n > 0
    ensures SpliceTimes(l + was + r, region, section, n) == Ok(l + ("\n" + section) + tail)
    ensures HasPrefix(tail, region.end)
    ensures |tail| == |r| + (n - 1) * d
  {
    MarkersCut(l, was, r, region);
    if n == 1 {
      WrittenOnce(l, was, r, region, section);
      tail := r;
    } else {
      var before := WrittenTimes(l, was, r, region, section, n - 1, d);
      tail := WrittenOnceMore(l, before, region, section);
      OnceMore(l + was + r, region, section, n, l + ("\n" + section) + before);
      OneMoreTime(n - 1, d);
    }
  }

  lemma OnceMore(doc: string, region: Region, section: string, n: nat, before: string)
    requires n > 0 && SpliceTimes(doc, region, section, n - 1) == Ok(before)
    ensures SpliceTimes(doc, region, section, n) == SpliceSection(before, region, section)
  {
  }

  lemma OneMoreTime(n: nat, d: nat)
    requires n > 0
    ensures n * d == (n - 1) * d + d
  {
  }

  /** So a section that ends its last line either settles at once or grows by the
      same amount each time it is written, for ever: it settles exactly when it
      does not hold its end marker. */
  lemma ASectionHoldingItsMarkerGrows(l: string, was: string, r: string, region: Region, section: string, n: nat)
    requires |region.start| <= |l| && MarkersAt(l + was + r, region, |l|, |was|) && GoodMarker(region.end)
    requires EndsItsLine(section)
    requires n > 0
    ensures var written := SpliceTimes(l + was + r, region, section, n);
            && written.Ok?
            && |written.value| == |l| + 1 + |section| + |r| + (n - 1) * (|section| - Cut(section, region.end))
    ensures Cut(section, region.end) == |section| <==> !Contains(section, region.end)
  {
    var tail := WrittenTimes(l, was, r, region, section, n, |section| - Cut(section, region.end));
    IndexMeans(section, region.end);
  }

  lemma OccursByte(s: string, m: string, j: int, i: int)
    requires OccursAt(s, m, j) && 0 <= i < |m|
    ensures s[j + i] == m[i]
  {
    assert s[j..j + |m|][i] == m[i];
  }

  /** Two markers that differ and hold one '<' each, at their start. */
  lemma EndComesSecond(region: Region, i: nat)
    requires GoodMarker(region.end) && region.end[0] == '<' && forall k :: 0 < k < |region.start| ==>
               region.start[k] != '<'
    requires i < |region.start| && i < |region.end| && region.start[i] != region.end[i]
    ensures MarkersAt(region.start + "" + region.end, region, |region.start|, 0)
  {
    var doc := region.start + "" + region.end;
    var n := |region.start|;
    assert doc == region.start + region.end;
    OccursLeft(region.start, region.end, region.start, 0);
    FirstIsIndex(doc, region.start, 0);
    OccursRight(region.start, region.end, region.end, n);
    forall j | 0 <= j < n && OccursAt(doc, region.end, j)
      ensures false
    {
      OccursByte(doc, region.end, j, if j > 0 then 0 else i);
    }
    FirstIsIndex(doc, region.end, n);
  }

  lemma CutAtOnce(m: string)
    requires m != ""
    ensures Cut(m + "\n", m) == 0
  {
    OccursLeft(m, "\n", m, 0);
    FirstIsIndex(m + "\n", m, 0);
  }

  /** A section that is its own end marker on a line, in a document that is its
      two markers, grows by that line each time. */
  lemma QuotingTheMarkerGrows(region: Region, n: nat)
    requires MarkersAt(region.start + "" + region.end, region, |region.start|, 0) && GoodMarker(region.end)
    requires n > 0
    ensures var written := SpliceTimes(region.start + "" + region.end, region, region.end + "\n", n);
            && written.Ok?
            && |written.value| == |region.start| + 2 + 2 * |region.end| + (n - 1) * (|region.end| + 1)
  {
    var section := region.end + "\n";
    CutAtOnce(region.end);
    assert |section| - Cut(section, region.end) == |region.end| + 1;
    ASectionHoldingItsMarkerGrows(region.start, "", region.end, region, section, n);
  }

  const PROMISE := Region("<!-- promise:start -->", "<!-- promise:end -->")

  lemma PromiseStartMarks()
    ensures PROMISE.start[0] == '<' && PROMISE.start[5] == 'p' && PROMISE.start[13] == 's' && |PROMISE.start| == 22
    ensures GoodMarker(PROMISE.start) && forall k :: 0 < k < |PROMISE.start| ==> PROMISE.start[k] != '<'
  {
  }

  lemma PromiseEndMarks()
    ensures PROMISE.end[0] == '<' && PROMISE.end[5] == 'p' && PROMISE.end[13] == 'e' && |PROMISE.end| == 20
    ensures GoodMarker(PROMISE.end) && forall k :: 0 < k < |PROMISE.end| ==> PROMISE.end[k] != '<'
  {
  }

  lemma PromiseMarkers()
    ensures MarkersAt(PROMISE.start + "" + PROMISE.end, PROMISE, |PROMISE.start|, 0) && GoodMarker(PROMISE.end)
    ensures |PROMISE.start| == 22 && |PROMISE.end| == 20
  {
    PromiseStartMarks();
    PromiseEndMarks();
    EndComesSecond(PROMISE, 13);
  }

  /** As the README's promise would, if it quoted its own end marker. */
  lemma APromiseQuotingItsMarker(n: nat)
    requires n > 0
    ensures var written := SpliceTimes(PROMISE.start + "" + PROMISE.end, PROMISE, PROMISE.end + "\n", n);
            written.Ok? && |written.value| == 64 + (n - 1) * 21
  {
    PromiseMarkers();
    QuotingTheMarkerGrows(PROMISE, n);
  }

  // ----- a section that holds another region's marker -----

  /** The first occurrence of `m` in a text that holds it before its last line ends
      does not depend on what follows. */
  lemma FoundInTheSection(section: string, tail: string, m: string)
    requires Contains(section, m)
    ensures Index(section + tail, m) == Index(section, m) >= 0
  {
    IndexMeans(section, m);
    var i := Index(section, m);
    OccursLeft(section, tail, m, i);
    forall j | 0 <= j < i
      ensures !OccursAt(section + tail, m, j)
    {
      OccursLeft(section, tail, m, j);
    }
    FirstIsIndex(section + tail, m, i);
  }

  lemma NotBefore(l: string, rest: string, m: string, p: int)
    requires Index(l + rest, m) == p && |l| < p + |m| && p >= 0
    ensures !Contains(l, m)
  {
    IndexMeans(l + rest, m);
    forall j | OccursAt(l, m, j)
      ensures false
    {
      OccursLeft(l, rest, m, j);
    }
  }

  /** A marker after the body is found, once the body is replaced, in the new
      section if that holds it, and else where it has moved to. */
  lemma MarkerBehind(l: string, was: string, section: string, r: string, m: string, p: int)
    requires GoodMarker(m) && EndsItsLine(section)
    requires Index(l + was + r, m) == p && |l| + |was| <= p
    ensures Index(l + ("\n" + section) + r, m) ==
              if Contains(section, m) then |l| + 1 + Index(section, m) else p - |was| + 1 + |section|
  {
    IndexMeans(section, m);
    if Contains(section, m) {
      Ordering.Assoc(l, was, r);
      NotBefore(l, was + r, m, p);
      FoundInTheSection(section, r, m);
      LinesApart(l, "\n", section, r);
      EndFoundAfter(l, section + r, m);
      FirstIsIndex((l + "\n") + (section + r), m, |l| + 1 + Index(section, m));
    } else {
      IndexMoves(l, was, section, r, m, p);
    }
  }

  /** A marker before the body is found where it was, whatever the section holds. */
  lemma MarkerBefore(l: string, was: string, section: string, r: string, m: string, p: int)
    requires Index(l + was + r, m) == p >= 0 && p + |m| <= |l|
    ensures Index(l + ("\n" + section) + r, m) == p
  {
    IndexMeans(l + was + r, m);
    Ordering.Assoc(l, was, r);
    Ordering.Assoc(l, "\n" + section, r);
    forall j | 0 <= j <= p
      ensures OccursAt(l + (("\n" + section) + r), m, j) <==> OccursAt(l + (was + r), m, j)
    {
      OccursLeft(l, was + r, m, j);
      OccursLeft(l, ("\n" + section) + r, m, j);
    }
    FirstIsIndex(l + (("\n" + section) + r), m, p);
  }

  /** Whether another region is still found after a splice: one that stands before
      always, one that stands after exactly when the section holds neither of its
      markers. */
  lemma AnotherRegionIsFoundExactlyWhen(
    l: string, was: string, section: string, r: string, other: Region, at: nat, length: nat)
    requires MarkersAt(l + was + r, other, at, length) && |other.start| <= at
    requires GoodMarker(other.start) && GoodMarker(other.end) && EndsItsLine(section)
    ensures at + length + |other.end| <= |l| ==> MarkersAt(l + ("\n" + section) + r, other, at, length)
    ensures |l| + |was| + |other.start| <= at ==>
              (MarkersAt(l + ("\n" + section) + r, other, at - |was| + 1 + |section|, length) <==>
               !Contains(section, other.start) && !Contains(section, other.end))
  {
    if at + length + |other.end| <= |l| {
      MarkerBefore(l, was, section, r, other.start, at - |other.start|);
      MarkerBefore(l, was, section, r, other.end, at + length);
    }
    if |l| + |was| + |other.start| <= at {
      MarkerBehind(l, was, section, r, other.start, at - |other.start|);
      MarkerBehind(l, was, section, r, other.end, at + length);
    }
  }

  /** What a splice does where the two markers are first found. */
  lemma SpliceAt(doc: string, region: Region, section: string, start: int, end: int)
    requires Index(doc, region.start) == start && Index(doc, region.end) == end
    ensures start < 0 || end < 0 ==> SpliceSection(doc, region, section) == Err(NoMarkers)
    ensures 0 <= end < start ==> SpliceSection(doc, region, section) == Err(OutOfOrder)
    ensures 0 <= start <= end ==>
              SpliceSection(doc, region, section) == Ok(doc[..start + |region.start|] + "\n" + section + doc[end..])
  {
  }

  lemma AnotherIsAt(l: string, was: string, section: string, r: string, other: Region, at: nat, length: nat)
    requires MarkersAt(l + was + r, other, at, length) && |l| + |was| + |other.start| <= at
    requires GoodMarker(other.start) && GoodMarker(other.end) && EndsItsLine(section)
    ensures var doc, s, e := l + ("\n" + section) + r, Index(section, other.start), Index(section, other.end);
            && at + length <= |l + was + r|
            && Index(doc, other.start) == (if s == -1 then at + 1 + |section| - |was| - |other.start| else |l| + 1 + s)
            && Index(doc, other.end) == (if e == -1 then at + length + 1 + |section| - |was| else |l| + 1 + e)
  {
    MarkerBehind(l, was, section, r, other.start, at - |other.start|);
    MarkerBehind(l, was, section, r, other.end, at + length);
    IndexMeans(section, other.start);
    IndexMeans(section, other.end);
  }

  /** What splicing that region comes to: its own body replaced when the section
      holds neither marker, an error when it holds the end marker and not the start
      marker before it, and otherwise a stretch that begins inside the section. */
  lemma SplicingAnotherRegion(
    l: string, was: string, section: string, r: string, other: Region, at: nat, length: nat, more: string)
    requires MarkersAt(l + was + r, other, at, length) && |l| + |was| + |other.start| <= at
    requires GoodMarker(other.start) && GoodMarker(other.end) && EndsItsLine(section)
    ensures var doc, s, e := l + ("\n" + section) + r, Index(section, other.start), Index(section, other.end);
            var next, shift := SpliceSection(doc, other, more), 1 + |section| - |was|;
            && at + length + shift <= |doc|
            && (s == e == -1 ==> next == Ok(doc[..at + shift] + "\n" + more + doc[at + length + shift..]))
            && (e != -1 && (s == -1 || e < s) <==> next == Err(OutOfOrder))
            && (s != -1 && e == -1 ==>
                next == Ok(doc[..|l| + 1 + s + |other.start|] + "\n" + more + doc[at + length + shift..]))
            && (s != -1 && s <= e ==> next == Ok(doc[..|l| + 1 + s + |other.start|] + "\n" + more + doc[|l| + 1 + e..]))
  {
    var doc := l + ("\n" + section) + r;
    AnotherIsAt(l, was, section, r, other, at, length);
    SpliceAt(doc, other, more, Index(doc, other.start), Index(doc, other.end));
  }

  /** Two regions on four lines, empty. */
  function TwoRegions(a: Region, b: Region): string {
    a.start + "\n" + (a.end + "\n" + (b.start + "\n" + b.end))
  }

  /** None of the four markers is part of another. */
  ghost predicate Distinct(a: Region, b: Region) {
    && GoodMarker(a.start) && GoodMarker(a.end) && GoodMarker(b.start) && GoodMarker(b.end)
    && !Contains(a.start, a.end) && !Contains(a.start, b.start) && !Contains(a.start, b.end)
    && !Contains(a.end, b.start) && !Contains(a.end, b.end) && !Contains(b.start, b.end)
    && !Contains(b.start, a.end) && !Contains(b.end, a.end)
  }

  lemma LineThenRest(line: string, rest: string, m: string)
    requires GoodMarker(m) && !Contains(line, m)
    ensures Index(line + "\n" + rest, m) == if Contains(rest, m) then |line| + 1 + Index(rest, m) else -1
  {
    IndexMeans(rest, m);
    if Contains(rest, m) {
      EndFoundAfter(line, rest, m);
      FirstIsIndex((line + "\n") + rest, m, |line| + 1 + Index(rest, m));
    } else {
      IndexMeans(line + "\n" + rest, m);
      forall j | OccursAt(line + "\n" + rest, m, j)
        ensures false
      {
        NoNewlineInside(line + "\n" + rest, m, j, |line|);
        if j + |m| <= |line| {
          Ordering.Assoc(line, "\n", rest);
          OccursLeft(line, "\n" + rest, m, j);
        } else {
          OccursRight(line + "\n", rest, m, j);
        }
      }
    }
  }

  lemma ItselfFirst(m: string, rest: string)
    ensures Index(m + rest, m) == 0 && Contains(m + rest, m)
  {
    OccursLeft(m, rest, m, 0);
    FirstIsIndex(m + rest, m, 0);
  }

  lemma ItselfOnALine(m: string, rest: string)
    ensures Index(m + "\n" + rest, m) == 0 && Contains(m + "\n" + rest, m) && Index(m, m) == 0 && Contains(m, m)
  {
    Ordering.Assoc(m, "\n", rest);
    ItselfFirst(m, "\n" + rest);
    ItselfFirst(m, "");
    assert m + "" == m;
  }

  lemma WhereTheTwoAre(a: Region, b: Region)
    requires Distinct(a, b)
    ensures MarkersAt(TwoRegions(a, b), a, |a.start|, 1)
    ensures MarkersAt(TwoRegions(a, b), b, |a.start| + |a.end| + |b.start| + 2, 1)
  {
    var third := b.start + "\n" + b.end;
    var second := a.end + "\n" + third;
    ItselfOnALine(a.start, second);
    ItselfOnALine(a.end, third);
    ItselfOnALine(b.start, b.end);
    ItselfOnALine(b.end, "");
    LineThenRest(a.start, second, a.end);
    LineThenRest(a.end, third, b.start);
    LineThenRest(a.start, second, b.start);
    LineThenRest(b.start, b.end, b.end);
    LineThenRest(a.end, third, b.end);
    LineThenRest(a.start, second, b.end);
    IndexMeans(second, b.start);
    IndexMeans(third, b.end);
    IndexMeans(second, b.end);
  }

  lemma BehindAnEndedText(more: string, line: string, m: string)
    requires GoodMarker(m) && EndsItsLine(more) && !Contains(more, m) && !Contains(line, m)
    ensures !Contains(more + line, m)
  {
    if more == "" {
      assert more + line == line;
    } else {
      var last := more[..|more| - 1];
      assert more == last + "\n";
      forall j | OccursAt(last, m, j) ensures false { OccursLeft(last, "\n", m, j); }
      LineThenRest(last, line, m);
      IndexMeans(more + line, m);
    }
  }

  lemma LostBehindLines(x: string, y: string, more: string, z: string, m: string)
    requires GoodMarker(m) && EndsItsLine(more) && !Contains(x, m) && !Contains(y, m) && !Contains(more, m)
               && !Contains(z, m)
    ensures Index(x + "\n" + (y + "\n" + (more + z)), m) == -1
  {
    BehindAnEndedText(more, z, m);
    LineThenRest(y, more + z, m);
    IndexMeans(y + "\n" + (more + z), m);
    LineThenRest(x, y + "\n" + (more + z), m);
  }

  /** The document once the first section has been written, cut at the markers the
      second region is then found by. */
  lemma QuotedDocument(a: Region, b: Region)
    ensures var section := b.start + "\n";
            var r := a.end + "\n" + (b.start + "\n" + b.end);
            var doc, cut, tail := a.start + ("\n" + section) + r, |a.start| + 1 + |b.start|,
                |a.start| + |a.end| + 2 * |b.start| + 4;
            && TwoRegions(a, b) == a.start + "\n" + r
            && |doc| == tail + |b.end| && doc[..cut] == a.start + "\n" + b.start && doc[tail..] == b.end
  {
    var section := b.start + "\n";
    var r := a.end + "\n" + (b.start + "\n" + b.end);
    var doc := a.start + ("\n" + section) + r;
    var head := a.start + "\n" + b.start;
    assert doc == head + ("\n" + r);
    assert doc == (a.start + ("\n" + section) + (a.end + "\n" + (b.start + "\n"))) + b.end;
  }

  /** The rest of the two regions, from the end of the first. */
  function BehindTheFirst(a: Region, b: Region): string {
    a.end + "\n" + (b.start + "\n" + b.end)
  }

  function Quoted(a: Region, b: Region): string {
    a.start + ("\n" + (b.start + "\n")) + BehindTheFirst(a, b)
  }

  lemma TheFirstIsWritten(a: Region, b: Region)
    requires Distinct(a, b)
    ensures SpliceSection(TwoRegions(a, b), a, b.start + "\n") == Ok(Quoted(a, b))
  {
    WhereTheTwoAre(a, b);
    SpliceFindsTheBody(TwoRegions(a, b), a.start, "\n", BehindTheFirst(a, b), a, b.start + "\n");
  }

  lemma HoldsOneMarker(b: Region)
    requires GoodMarker(b.end) && !Contains(b.start, b.end)
    ensures Index(b.start + "\n", b.start) == 0 && Index(b.start + "\n", b.end) == -1
  {
    ItselfFirst(b.start, "\n");
    LineThenRest(b.start, "", b.end);
    assert b.start + "\n" + "" == b.start + "\n";
    NothingInside(b.end);
  }

  lemma WhereTheQuotedAre(a: Region, b: Region)
    requires Distinct(a, b)
    ensures Index(Quoted(a, b), b.start) == |a.start| + 1
    ensures Index(Quoted(a, b), b.end) == |a.start| + |a.end| + 2 * |b.start| + 4
  {
    var section, r, at := b.start + "\n", BehindTheFirst(a, b), |a.start| + |a.end| + |b.start| + 2;
    WhereTheTwoAre(a, b);
    HoldsOneMarker(b);
    IndexMeans(section, b.start);
    IndexMeans(section, b.end);
    MarkerBehind(a.start, "\n", section, r, b.start, at - |b.start|);
    MarkerBehind(a.start, "\n", section, r, b.end, at + 1);
  }

  lemma TheSecondIsWritten(a: Region, b: Region, more: string)
    requires Distinct(a, b)
    ensures SpliceSection(Quoted(a, b), b, more) == Ok(a.start + "\n" + (b.start + "\n" + (more + b.end)))
  {
    WhereTheQuotedAre(a, b);
    QuotedDocument(a, b);
    JoinedUp(a.start, b.start, more, b.end);
  }

  /** A section that holds the start marker of a region further down: the next
      splice of that region succeeds and takes with it everything between, the
      first region's end marker included, and the first region cannot be written
      again. */
  lemma QuotingAnotherStartLosesTheEnd(a: Region, b: Region, more: string)
    requires Distinct(a, b) && EndsItsLine(more) && !Contains(more, a.end)
    ensures var once := SpliceSection(TwoRegions(a, b), a, b.start + "\n");
            && once.Ok?
            && var next := SpliceSection(once.value, b, more);
               && next == Ok(a.start + "\n" + (b.start + "\n" + (more + b.end)))
               && forall again :: SpliceSection(next.value, a, again) == Err(NoMarkers)
  {
    TheFirstIsWritten(a, b);
    TheSecondIsWritten(a, b, more);
    LostBehindLines(a.start, b.start, more, b.end, a.end);
  }

  lemma NothingInside(m: string)
    requires m != ""
    ensures !Contains("", m)
  {
  }

  lemma JoinedUp(x: string, y: string, more: string, z: string)
    ensures x + "\n" + y + "\n" + more + z == x + "\n" + (y + "\n" + (more + z))
  {
    Ordering.Assoc(x + "\n" + y + "\n", more, z);
    Ordering.Assoc(x + "\n", y, "\n");
    Ordering.Assoc(x + "\n", y + "\n", more + z);
  }

  const QUICKSTART := Region("<!-- quickstart:start -->", "<!-- quickstart:end -->")

  /** A text with one '<', at its start, does not hold a marker it differs from. */
  lemma NotInside(x: string, m: string, i: nat)
    requires i < |x| && i < |m| && x[i] != m[i]
    requires m[0] == '<' && forall k :: 0 < k < |x| ==> x[k] != '<'
    ensures !Contains(x, m)
  {
    forall j | OccursAt(x, m, j)
      ensures false
    {
      OccursByte(x, m, j, 0);
      OccursByte(x, m, j, i);
    }
  }

  lemma QuickstartStartMarks()
    ensures QUICKSTART.start[0] == '<' && QUICKSTART.start[5] == 'q' && QUICKSTART.start[16] == 's'
              && |QUICKSTART.start| == 25
    ensures GoodMarker(QUICKSTART.start) && forall k :: 0 < k < |QUICKSTART.start| ==> QUICKSTART.start[k] != '<'
  {
  }

  lemma QuickstartEndMarks()
    ensures QUICKSTART.end[0] == '<' && QUICKSTART.end[5] == 'q' && QUICKSTART.end[16] == 'e' && |QUICKSTART.end| == 23
    ensures GoodMarker(QUICKSTART.end) && forall k :: 0 < k < |QUICKSTART.end| ==> QUICKSTART.end[k] != '<'
  {
  }

  lemma TheyAreDistinct()
    ensures Distinct(PROMISE, QUICKSTART)
  {
    PromiseStartMarks();
    PromiseEndMarks();
    QuickstartStartMarks();
    QuickstartEndMarks();
    NotInside(PROMISE.start, PROMISE.end, 13);
    NotInside(PROMISE.start, QUICKSTART.start, 5);
    NotInside(PROMISE.start, QUICKSTART.end, 5);
    NotInside(PROMISE.end, QUICKSTART.start, 5);
    NotInside(PROMISE.end, QUICKSTART.end, 5);
    NotInside(QUICKSTART.start, QUICKSTART.end, 16);
    NotInside(QUICKSTART.start, PROMISE.end, 5);
    NotInside(QUICKSTART.end, PROMISE.end, 5);
  }

  /** As the README's promise would, if it quoted where its quickstart starts: the
      quickstart is then written over the promise's end, and the promise is lost. */
  lemma APromiseQuotingTheQuickstart(more: string)
    requires EndsItsLine(more) && !Contains(more, PROMISE.end)
    ensures var once := SpliceSection(TwoRegions(PROMISE, QUICKSTART), PROMISE, QUICKSTART.start + "\n");
            && once.Ok?
            && var next := SpliceSection(once.value, QUICKSTART, more);
               next.Ok? && forall again :: SpliceSection(next.value, PROMISE, again) == Err(NoMarkers)
  {
    TheyAreDistinct();
    QuotingAnotherStartLosesTheEnd(PROMISE, QUICKSTART, more);
  }
}
