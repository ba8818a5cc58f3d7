/** Which mounted route a concrete request reaches: the matching pattern with the
    fewest wildcards, and a tie refused rather than guessed at. */
module Routes {
  import opened Wrappers
  import opened Text

  datatype Route = Route(verb: string, path: string, operation: string)

  datatype Call = Call(verb: string, path: string)

  // ----- patterns -----

  /** strings.Trim of one byte. */
  function Trim(s: string, c: char): string
    decreases |s|
  {
    if s != "" && s[0] == c then Trim(s[1..], c)
    else if s != "" && s[|s| - 1] == c then Trim(s[..|s| - 1], c)
    else s
  }

  function Segments(path: string): seq<string> {
    Split(Trim(path, '/'), '/')
  }

  ghost predicate AllOf(s: string, c: char) {
    forall d :: d in s ==> d == c
  }

  lemma {:induction false} TrimOf(before: string, r: string, after: string, c: char)
    requires AllOf(before, c) && AllOf(after, c) && (r != "" ==> r[0] != c && r[|r| - 1] != c)
    ensures Trim(before + r + after, c) == r
    decreases |before| + |after|
  {
    var s := before + r + after;
    if before != "" {
      assert before[0] in before && forall d :: d in before[1..] ==> d in before;
      assert s[1..] == before[1..] + r + after;
      TrimOf(before[1..], r, after, c);
    } else if after != "" {
      var n := |after| - 1;
      assert after[n] in after && forall d :: d in after[..n] ==> d in after;
      if r == "" {
        assert after[0] in after && s == after[..1] + "" + after[1..];
        TrimOf(after[1..], "", "", c) by { assert forall d :: d in after[1..] ==> d in after; }
        assert s[1..] == after[1..] + "" + "";
      } else {
        assert s[0] == r[0] && s[..|s| - 1] == before + r + after[..n];
        TrimOf(before, r, after[..n], c);
      }
    } else {
      assert s == r;
    }
  }

  lemma JoinedEnds(segments: seq<string>)
    requires segments != [] && segments[0] != "" && segments[|segments| - 1] != ""
    ensures var s := Join(segments, "/"); s != "" && s[0] == segments[0][0]
    ensures EndsLike(Join(segments, "/"), segments[|segments| - 1])
  {
    JoinedEnd(segments);
  }

  ghost predicate EndsLike(s: string, last: string) {
    s != "" && last != "" && s[|s| - 1] == last[|last| - 1]
  }

  lemma {:induction false} JoinedEnd(segments: seq<string>)
    requires segments != [] && segments[|segments| - 1] != ""
    ensures EndsLike(Join(segments, "/"), segments[|segments| - 1])
  {
    if |segments| > 1 { JoinedEnd(segments[1..]); }
  }

  /** The segments of a path are what stands between its slashes, those at its two
      ends aside: any pieces without a slash, of which the first and the last are
      not empty, or one empty piece. */
  lemma SegmentsMean(before: string, segments: seq<string>, after: string)
    requires segments != [] && forall p :: p in segments ==> '/' !in p
    requires segments == [""] || (segments[0] != "" && segments[|segments| - 1] != "")
    requires AllOf(before, '/') && AllOf(after, '/')
    ensures Segments(before + Join(segments, "/") + after) == segments
  {
    if segments != [""] {
      JoinedEnds(segments);
      var first, last := segments[0], segments[|segments| - 1];
      assert first in segments && first[0] in first;
      assert last in segments && last[|last| - 1] in last;
    }
    TrimOf(before, Join(segments, "/"), after, '/');
    JoinSplits(segments, '/');
  }

  predicate IsWildcard(segment: string) {
    HasPrefix(segment, "{") && HasSuffix(segment, "}")
  }

  /** A wildcard is a name in braces. */
  lemma WildcardMeans(segment: string)
    ensures IsWildcard(segment) <==> exists name :: segment == ['{'] + name + ['}']
  {
    if IsWildcard(segment) {
      assert segment[..1][0] == '{' && segment[|segment| - 1..][0] == '}';
      assert segment == ['{'] + segment[1..|segment| - 1] + ['}'];
    }
    if name :| segment == ['{'] + name + ['}'] { assert segment[0] == '{' && segment[|segment| - 1] == '}'; }
  }

  /** A wildcard takes any one segment, anything else only itself. */
  predicate SegmentFits(pattern: string, segment: string) {
    IsWildcard(pattern) || pattern == segment
  }

  ghost predicate Fits(pattern: seq<string>, path: seq<string>) {
    |pattern| == |path| && forall i :: 0 <= i < |pattern| ==> SegmentFits(pattern[i], path[i])
  }

  function Wildcards(pattern: seq<string>): nat {
    if pattern == [] then 0
    else Wildcards(pattern[..|pattern| - 1]) + (if IsWildcard(pattern[|pattern| - 1]) then 1 else 0)
  }

  /** How many segments of the pattern are wildcards. */
  lemma {:induction false} WildcardsMean(pattern: seq<string>)
    ensures Wildcards(pattern) == |set i | 0 <= i < |pattern| && IsWildcard(pattern[i])|
  {
    var all := set i | 0 <= i < |pattern| && IsWildcard(pattern[i]);
    if pattern == [] {
      assert all == {};
    } else {
      var n := |pattern| - 1;
      WildcardsMean(pattern[..n]);
      var earlier := set i | 0 <= i < n && IsWildcard(pattern[..n][i]);
      assert all == if IsWildcard(pattern[n]) then earlier + {n} else earlier;
    }
  }

  method MatchPattern(pattern: string, path: string) returns (wildcards: nat, ok: bool)
    ensures ok <==> Fits(Segments(pattern), Segments(path))
    ensures wildcards == if ok then Wildcards(Segments(pattern)) else 0
  {
    var ps, cs := Segments(pattern), Segments(path);
    if |ps| != |cs| { return 0, false; }
    wildcards := 0;
    for i := 0 to |ps|
      invariant wildcards == Wildcards(ps[..i])
      invariant forall k :: 0 <= k < i ==> SegmentFits(ps[k], cs[k])
    {
      assert ps[..i + 1][..i] == ps[..i];
      if IsWildcard(ps[i]) {
        wildcards := wildcards + 1;
        continue;
      }
      if ps[i] != cs[i] {
        assert !SegmentFits(ps[i], cs[i]);
        return 0, false;
      }
    }
    assert ps[..|ps|] == ps;
    return wildcards, true;
  }

  // ----- counting wildcards orders patterns as the mux does -----

  /** `narrow` takes no path that `wide` does not. */
  ghost predicate Within(narrow: seq<string>, wide: seq<string>) {
    forall path: seq<string> :: Fits(narrow, path) ==> Fits(wide, path)
  }

  /** A path `narrow` takes, that no literal of `other` agrees with by accident. */
  ghost function Instance(narrow: seq<string>, other: seq<string>): (path: seq<string>)
    requires |narrow| == |other|
    ensures Fits(narrow, path)
    ensures forall i :: 0 <= i < |narrow| && IsWildcard(narrow[i]) ==> path[i] != other[i]
  {
    seq(|narrow|, i requires 0 <= i < |narrow| => if IsWildcard(narrow[i]) then other[i] + "x" else narrow[i])
  }

  /** Inclusion is a matter of single segments. */
  lemma WithinSegmentwise(narrow: seq<string>, wide: seq<string>)
    requires Within(narrow, wide)
    ensures |narrow| == |wide|
    ensures forall i :: 0 <= i < |narrow| ==> IsWildcard(wide[i]) || (!IsWildcard(narrow[i]) && wide[i] == narrow[i])
  {
    assert Fits(narrow, narrow);
    assert Fits(wide, narrow);
    var path := Instance(narrow, wide);
    assert Fits(wide, path);
    forall i | 0 <= i < |narrow|
      ensures IsWildcard(wide[i]) || (!IsWildcard(narrow[i]) && wide[i] == narrow[i])
    {
      assert SegmentFits(wide[i], path[i]);
    }
  }

  lemma {:induction false} FewerWildcards(narrow: seq<string>, wide: seq<string>)
    requires |narrow| == |wide|
    requires forall i :: 0 <= i < |narrow| && IsWildcard(narrow[i]) ==> IsWildcard(wide[i])
    ensures Wildcards(narrow) <= Wildcards(wide)
    ensures (exists i :: 0 <= i < |narrow| && IsWildcard(wide[i]) && !IsWildcard(narrow[i])) ==>
              Wildcards(narrow) < Wildcards(wide)
  {
    if narrow == [] {
    } else {
      var n := |narrow| - 1;
      FewerWildcards(narrow[..n], wide[..n]);
      if i :| 0 <= i < |narrow| && IsWildcard(wide[i]) && !IsWildcard(narrow[i]) {
        assert i < n ==> IsWildcard(wide[..n][i]) && !IsWildcard(narrow[..n][i]);
      }
    }
  }

  /** A pattern inside another has no more wildcards, and fewer when it leaves out
      a path the other takes: counting them is the mux's specificity. */
  lemma SpecificityIsTheCount(narrow: seq<string>, wide: seq<string>)
    requires Within(narrow, wide)
    ensures Wildcards(narrow) <= Wildcards(wide)
    ensures Wildcards(narrow) == Wildcards(wide) <==> Within(wide, narrow)
  {
    WithinSegmentwise(narrow, wide);
    FewerWildcards(narrow, wide);
    if Within(wide, narrow) {
      WithinSegmentwise(wide, narrow);
      FewerWildcards(wide, narrow);
    }
    if Wildcards(narrow) == Wildcards(wide) {
      forall path: seq<string> | Fits(wide, path)
        ensures Fits(narrow, path)
      {
        forall i | 0 <= i < |narrow|
          ensures SegmentFits(narrow[i], path[i])
        {
          assert SegmentFits(wide[i], path[i]);
        }
      }
    }
  }

  // ----- the answer -----

  ghost predicate Takes(r: Route, call: Call) {
    r.verb == call.verb && Fits(Segments(r.path), Segments(call.path))
  }

  function Weight(r: Route): nat {
    Wildcards(Segments(r.path))
  }

  ghost predicate TakesWith(r: Route, call: Call, w: int) {
    Takes(r, call) && Weight(r) == w
  }

  /** How many routes take the call with `w` wildcards. */
  ghost function Ties(routes: seq<Route>, call: Call, w: int): nat {
    if routes == [] then 0
    else Ties(routes[..|routes| - 1], call, w) + (if TakesWith(routes[|routes| - 1], call, w) then 1 else 0)
  }

  ghost predicate Least(routes: seq<Route>, call: Call, w: int) {
    && (exists r :: r in routes && TakesWith(r, call, w))
    && (forall r :: r in routes && Takes(r, call) ==> w <= Weight(r))
  }

  ghost predicate Unserved(routes: seq<Route>, call: Call) {
    forall r :: r in routes ==> !Takes(r, call)
  }

  /** The empty name when nothing takes the call; an error carrying the number of
      routes that tie for the fewest wildcards, when two or more do; and otherwise
      the operation of the one that has the fewest. */
  ghost predicate IsAnswer(routes: seq<Route>, call: Call, answer: Result<string, nat>) {
    if Unserved(routes, call) then answer == Ok("")
    else exists w :: Least(routes, call, w) && Settles(routes, call, w, answer)
  }

  ghost predicate Settles(routes: seq<Route>, call: Call, w: int, answer: Result<string, nat>) {
    if Ties(routes, call, w) > 1 then answer == Err(Ties(routes, call, w))
    else exists r :: r in routes && TakesWith(r, call, w) && answer == Ok(r.operation)
  }

  /** The empty name comes back for two reasons: no route takes the call, or the
      one route that takes it with the fewest wildcards has no operation. */
  lemma EmptyNameExactlyWhen(routes: seq<Route>, call: Call)
    ensures IsAnswer(routes, call, Ok(""))
       <==> || Unserved(routes, call)
            || exists w, r ::
                Least(routes, call, w) && Ties(routes, call, w) == 1 && r in routes && TakesWith(r, call, w)
                    && r.operation == ""
  {
    if !Unserved(routes, call) {
      forall w, r | r in routes && TakesWith(r, call, w)
        ensures Ties(routes, call, w) >= 1
      {
        TakenIsCounted(routes, call, w, r);
      }
    }
  }

  lemma {:induction false} TakenIsCounted(routes: seq<Route>, call: Call, w: int, r: Route)
    requires r in routes && TakesWith(r, call, w)
    ensures Ties(routes, call, w) >= 1
  {
    var n := |routes| - 1;
    if routes[n] == r {
    } else {
      assert routes == routes[..n] + [routes[n]];
      TakenIsCounted(routes[..n], call, w, r);
    }
  }

  /** operationForCall. */
  method OperationForCall(routes: seq<Route>, call: Call) returns (answer: Result<string, nat>)
    ensures IsAnswer(routes, call, answer)
  {
    var best, ties := "", 0;
    var bestWild: int := -1;
    ghost var winner: Option<Route> := None;
    for i := 0 to |routes|
      invariant Leads(routes[..i], call, winner, best, bestWild, ties)
    {
      var r := routes[i];
      OneMoreRoute(routes, i, call, winner, best, bestWild, ties);
      if r.verb != call.verb { continue; }
      var wild, ok := MatchPattern(r.path, call.path);
      if !ok { continue; }
      assert TakesWith(r, call, wild);
      if bestWild == -1 || wild < bestWild {
        best, bestWild, ties := r.operation, wild, 1;
        winner := Some(r);
      } else if wild == bestWild {
        ties := ties + 1;
      }
    }
    assert routes[..|routes|] == routes;
    if ties > 1 { return Err(ties); }
    return Ok(best);
  }

  /** What the loop knows of the routes behind it: the first of the least, and how
      many tie with it. */
  ghost predicate Leads(routes: seq<Route>, call: Call, winner: Option<Route>, best: string, bestWild: int, ties: nat) {
    if bestWild == -1 then best == "" && ties == 0 && Unserved(routes, call)
    else
      && Least(routes, call, bestWild) && ties == Ties(routes, call, bestWild)
      && winner.Some? && winner.value in routes && TakesWith(winner.value, call, bestWild)
      && best == winner.value.operation
  }

  lemma OneMoreRoute(routes: seq<Route>, i: nat, call: Call, winner: Option<Route>, best: string, bestWild: int,
                     ties: nat)
    requires i < |routes| && Leads(routes[..i], call, winner, best, bestWild, ties)
    ensures var r, wild := routes[i], Weight(routes[i]);
            if !Takes(r, call) then Leads(routes[..i + 1], call, winner, best, bestWild, ties)
            else if bestWild == -1 || wild < bestWild then Leads(routes[..i + 1], call, Some(r), r.operation, wild, 1)
            else Leads(routes[..i + 1], call, winner, best, bestWild, if wild == bestWild then ties + 1 else ties)
  {
    var r, wild := routes[i], Weight(routes[i]);
    assert routes[..i + 1] == routes[..i] + [r];
    TiesSnoc(routes[..i], r, call, bestWild);
    if Takes(r, call) {
      assert TakesWith(r, call, wild);
      NoTies(routes[..i], call, wild);
      TiesSnoc(routes[..i], r, call, wild);
    }
  }

  lemma TiesSnoc(routes: seq<Route>, r: Route, call: Call, w: int)
    ensures Ties(routes + [r], call, w) == Ties(routes, call, w) + (if TakesWith(r, call, w) then 1 else 0)
  {
    assert (routes + [r])[..|routes|] == routes;
  }

  lemma {:induction false} NoTies(routes: seq<Route>, call: Call, w: int)
    ensures Ties(routes, call, w) == 0 <==> forall r :: r in routes ==> !TakesWith(r, call, w)
  {
    if routes == [] {
    } else {
      var n := |routes| - 1;
      NoTies(routes[..n], call, w);
      assert routes == routes[..n] + [routes[n]];
    }
  }

  // ----- the answer is one, whatever the order -----

  lemma {:induction false} TiesWithout(routes: seq<Route>, i: nat, call: Call, w: int)
    requires i < |routes|
    ensures Ties(routes, call, w)
              == Ties(routes[..i] + routes[i + 1..], call, w) + (if TakesWith(routes[i], call, w) then 1 else 0)
  {
    var n := |routes| - 1;
    if i == n {
      assert routes[..i] + routes[i + 1..] == routes[..n];
    } else {
      TiesWithout(routes[..n], i, call, w);
      assert routes[..i] + routes[i + 1..] == (routes[..n][..i] + routes[..n][i + 1..]) + [routes[n]];
      TiesSnoc(routes[..n][..i] + routes[..n][i + 1..], routes[n], call, w);
    }
  }

  lemma PermutedWithout<T>(a: seq<T>, b: seq<T>, i: nat)
    requires a != [] && multiset(a) == multiset(b) && i < |b| && b[i] == a[|a| - 1]
    ensures multiset(a[..|a| - 1]) == multiset(b[..i] + b[i + 1..])
  {
    assert a == a[..|a| - 1] + [a[|a| - 1]];
    assert b == b[..i] + [b[i]] + b[i + 1..];
    assert multiset(b[..i] + b[i + 1..]) == multiset(b) - multiset{b[i]};
  }

  lemma {:induction false} TiesOfPermutation(a: seq<Route>, b: seq<Route>, call: Call, w: int)
    requires multiset(a) == multiset(b)
    ensures Ties(a, call, w) == Ties(b, call, w)
  {
    assert |a| == |multiset(a)| == |multiset(b)| == |b|;
    if a == [] {
    } else {
      var n := |a| - 1;
      assert a[n] in multiset(b);
      var i :| 0 <= i < |b| && b[i] == a[n];
      PermutedWithout(a, b, i);
      TiesOfPermutation(a[..n], b[..i] + b[i + 1..], call, w);
      TiesWithout(b, i, call, w);
    }
  }

  lemma TwoRoutesTie(routes: seq<Route>, call: Call, w: int, r: Route, q: Route)
    requires r in routes && q in routes && TakesWith(r, call, w) && TakesWith(q, call, w)
    requires r != q
    ensures Ties(routes, call, w) >= 2
  {
    var i :| 0 <= i < |routes| && routes[i] == r;
    var j :| 0 <= j < |routes| && routes[j] == q;
    var others := routes[..i] + routes[i + 1..];
    assert others[if j < i then j else j - 1] == q;
    TiesWithout(routes, i, call, w);
    NoTies(others, call, w);
  }

  lemma SettledAlike(a: seq<Route>, b: seq<Route>, call: Call, w: int, x: Result<string, nat>, y: Result<string, nat>)
    requires forall r :: r in a <==> r in b
    requires Ties(a, call, w) == Ties(b, call, w)
    requires Settles(a, call, w, x) && Settles(b, call, w, y)
    ensures x == y
  {
    if Ties(a, call, w) <= 1 {
      var r :| r in a && TakesWith(r, call, w) && x == Ok(r.operation);
      var q :| q in b && TakesWith(q, call, w) && y == Ok(q.operation);
      if r != q { TwoRoutesTie(a, call, w, r, q); }
    }
  }

  lemma LeastIsOne(a: seq<Route>, b: seq<Route>, call: Call, v: int, w: int)
    requires forall r :: r in a <==> r in b
    requires Least(a, call, v) && Least(b, call, w)
    ensures v == w
  {
  }

  /** Two listings of the same routes give the same answer: which route is
      mounted first never decides. */
  lemma AnswerIsUnique(a: seq<Route>, b: seq<Route>, call: Call, x: Result<string, nat>, y: Result<string, nat>)
    requires multiset(a) == multiset(b)
    requires IsAnswer(a, call, x) && IsAnswer(b, call, y)
    ensures x == y
  {
    forall r ensures r in a <==> r in b { assert r in a <==> r in multiset(a); assert r in b <==> r in multiset(b); }
    if !Unserved(a, call) {
      var v :| Least(a, call, v) && Settles(a, call, v, x);
      var w :| Least(b, call, w) && Settles(b, call, w, y);
      LeastIsOne(a, b, call, v, w);
      TiesOfPermutation(a, b, call, v);
      SettledAlike(a, b, call, v, x, y);
    }
  }

  /** The route that answers is inside every route it is comparable with: no
      mounted route that takes the call is strictly more specific. */
  lemma NothingMoreSpecificIsPassedOver(routes: seq<Route>, call: Call, w: int, winner: Route, other: Route)
    requires Least(routes, call, w) && winner in routes && TakesWith(winner, call, w)
    requires other in routes && Takes(other, call)
    requires Within(Segments(other.path), Segments(winner.path))
    ensures Within(Segments(winner.path), Segments(other.path))
    ensures other != winner ==> IsAnswer(routes, call, Err(Ties(routes, call, w))) && Ties(routes, call, w) >= 2
  {
    SpecificityIsTheCount(Segments(other.path), Segments(winner.path));
    if other != winner {
      TwoRoutesTie(routes, call, w, winner, other);
      assert Settles(routes, call, w, Err(Ties(routes, call, w)));
    }
  }
}
