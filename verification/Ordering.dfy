/** `sort.SliceStable` and `sort.Strings`, and why a sorted answer does not
    depend on the order a Go map was walked in. */
module Ordering {
  import Text

  lemma Assoc<T>(a: seq<T>, b: seq<T>, c: seq<T>)
    ensures a + b + c == a + (b + c)
  {
  }

  ghost predicate TotalPreorder<T(!new)>(le: (T, T) -> bool) {
    && (forall a, b :: le(a, b) || le(b, a))
    && (forall a, b, c :: le(a, b) && le(b, c) ==> le(a, c))
  }

  ghost predicate Sorted<T>(xs: seq<T>, le: (T, T) -> bool) {
    forall i, j :: 0 <= i < j < |xs| ==> le(xs[i], xs[j])
  }

  /** Stable insertion from the left: `x` goes before the first element it is
      not after, so among equals the one inserted last comes first. */
  function Insert<T>(x: T, xs: seq<T>, le: (T, T) -> bool): (r: seq<T>)
    ensures multiset(r) == multiset{x} + multiset(xs)
    ensures |r| == |xs| + 1
  {
    if xs == [] || le(x, xs[0]) then
      [x] + xs
    else
      assert xs == [xs[0]] + xs[1..];
      [xs[0]] + Insert(x, xs[1..], le)
  }

  function Sort<T>(xs: seq<T>, le: (T, T) -> bool): (r: seq<T>)
    ensures multiset(r) == multiset(xs)
    ensures |r| == |xs|
  {
    if xs == [] then [] else
      assert xs == [xs[0]] + xs[1..];
      Insert(xs[0], Sort(xs[1..], le), le)
  }

  lemma {:induction false} InsertSorted<T(!new)>(x: T, xs: seq<T>, le: (T, T) -> bool)
    requires TotalPreorder(le) && Sorted(xs, le)
    ensures Sorted(Insert(x, xs, le), le)
  {
    if xs == [] || le(x, xs[0]) {
      assert forall k :: 0 <= k < |xs| ==> le(x, xs[k]);
    } else {
      InsertSorted(x, xs[1..], le);
      var r := Insert(x, xs[1..], le);
      forall k | 0 <= k < |r|
        ensures le(xs[0], r[k])
      {
        assert r[k] in multiset(r);
        assert r[k] == x || r[k] in xs[1..];
      }
    }
  }

  lemma {:induction false} SortSorted<T(!new)>(xs: seq<T>, le: (T, T) -> bool)
    requires TotalPreorder(le)
    ensures Sorted(Sort(xs, le), le)
  {
    if xs == [] {
    } else {
      SortSorted(xs[1..], le);
      InsertSorted(xs[0], Sort(xs[1..], le), le);
    }
  }

  function Filter<T(!new)>(xs: seq<T>, p: T -> bool): (r: seq<T>)
    ensures forall x :: x in r <==> x in xs && p(x)
    ensures |r| <= |xs|
  {
    if xs == [] then [] else (if p(xs[0]) then [xs[0]] else []) + Filter(xs[1..], p)
  }

  lemma {:induction false} FilterAppend<T(!new)>(xs: seq<T>, ys: seq<T>, p: T -> bool)
    ensures Filter(xs + ys, p) == Filter(xs, p) + Filter(ys, p)
  {
    if xs == [] {
      assert xs + ys == ys;
    } else {
      assert (xs + ys)[1..] == xs[1..] + ys;
      FilterAppend(xs[1..], ys, p);
    }
  }

  function CountIf<T(!new)>(xs: seq<T>, p: T -> bool): nat {
    |Filter(xs, p)|
  }

  lemma {:induction false} InsertKeepsCount<T(!new)>(x: T, xs: seq<T>, le: (T, T) -> bool, p: T -> bool)
    ensures CountIf(Insert(x, xs, le), p) == CountIf([x], p) + CountIf(xs, p)
  {
    assert [x][1..] == [];
    if xs == [] || le(x, xs[0]) {
      FilterAppend([x], xs, p);
    } else {
      InsertKeepsCount(x, xs[1..], le, p);
      var r := [xs[0]] + Insert(x, xs[1..], le);
      assert r[1..] == Insert(x, xs[1..], le);
    }
  }

  lemma {:induction false} SortKeepsCount<T(!new)>(xs: seq<T>, le: (T, T) -> bool, p: T -> bool)
    ensures CountIf(Sort(xs, le), p) == CountIf(xs, p)
  {
    if xs == [] {
    } else {
      SortKeepsCount(xs[1..], le, p);
      InsertKeepsCount(xs[0], Sort(xs[1..], le), le, p);
      assert [xs[0]][1..] == [];
    }
  }

  /** Elements `le` cannot tell apart, both ways, of one class `p`. */
  ghost predicate OneClass<T(!new)>(p: T -> bool, le: (T, T) -> bool) {
    && (forall a, b :: p(a) && p(b) ==> le(a, b))
  }

  lemma {:induction false} InsertStable<T(!new)>(x: T, xs: seq<T>, le: (T, T) -> bool, p: T -> bool)
    requires OneClass(p, le)
    ensures Filter(Insert(x, xs, le), p) == (if p(x) then [x] else []) + Filter(xs, p)
  {
    if xs == [] || le(x, xs[0]) {
      if p(x) { FilterKeeps(x, xs, p); } else { FilterSkips(x, xs, p); }
    } else {
      InsertStable(x, xs[1..], le, p);
      StableStep(x, xs[0], Insert(x, xs[1..], le), xs[1..], p);
      assert xs == [xs[0]] + xs[1..];
    }
  }

  lemma StableStep<T(!new)>(x: T, head: T, inserted: seq<T>, tail: seq<T>, p: T -> bool)
    requires Filter(inserted, p) == (if p(x) then [x] else []) + Filter(tail, p)
    requires !(p(x) && p(head))
    ensures Filter([head] + inserted, p) == (if p(x) then [x] else []) + Filter([head] + tail, p)
  {
    if p(head) {
      FilterKeeps(head, inserted, p);
      FilterKeeps(head, tail, p);
    } else {
      FilterSkips(head, inserted, p);
      FilterSkips(head, tail, p);
    }
  }

  lemma FilterSkips<T(!new)>(x: T, xs: seq<T>, p: T -> bool)
    requires !p(x)
    ensures Filter([x] + xs, p) == Filter(xs, p)
  {
    assert ([x] + xs)[1..] == xs;
  }

  lemma FilterKeeps<T(!new)>(x: T, xs: seq<T>, p: T -> bool)
    requires p(x)
    ensures Filter([x] + xs, p) == [x] + Filter(xs, p)
  {
    assert ([x] + xs)[1..] == xs;
  }

  /** The sort is stable: it leaves the order inside every class of equals. */
  lemma {:induction false} SortStable<T(!new)>(xs: seq<T>, le: (T, T) -> bool, p: T -> bool)
    requires OneClass(p, le)
    ensures Filter(Sort(xs, le), p) == Filter(xs, p)
  {
    if xs == [] {
    } else {
      SortStable(xs[1..], le, p);
      InsertStable(xs[0], Sort(xs[1..], le), le, p);
    }
  }

  lemma TailMultiset<T>(xs: seq<T>)
    requires xs != []
    ensures multiset(xs[1..]) == multiset(xs) - multiset{xs[0]}
  {
    assert xs == [xs[0]] + xs[1..];
  }

  lemma SmallestFirst<T>(xs: seq<T>, ys: seq<T>, le: (T, T) -> bool)
    requires Sorted(xs, le) && xs != [] && multiset(xs) == multiset(ys) && ys != []
    ensures ys[0] == xs[0] || le(xs[0], ys[0])
  {
    assert ys[0] in multiset(xs);
    var i :| 0 <= i < |xs| && xs[i] == ys[0];
  }

  ghost predicate NoTies<T>(xs: seq<T>, le: (T, T) -> bool) {
    forall i, j :: 0 <= i < |xs| && 0 <= j < |xs| && le(xs[i], xs[j]) && le(xs[j], xs[i]) ==> xs[i] == xs[j]
  }

  /** Two sorted arrangements of one multiset are the same sequence, when no
      two of its elements tie. */
  lemma {:induction false} SortedIsUnique<T>(xs: seq<T>, ys: seq<T>, le: (T, T) -> bool)
    requires Sorted(xs, le) && Sorted(ys, le)
    requires multiset(xs) == multiset(ys)
    requires NoTies(xs, le)
    ensures xs == ys
  {
    assert |xs| == |multiset(xs)| == |multiset(ys)| == |ys|;
    if xs == [] {
    } else {
      SmallestFirst(xs, ys, le);
      SmallestFirst(ys, xs, le);
      assert ys[0] in multiset(xs);
      var i :| 0 <= i < |xs| && xs[i] == ys[0];
      assert xs[0] == ys[0];
      TailMultiset(xs);
      TailMultiset(ys);
      SortedIsUnique(xs[1..], ys[1..], le);
      assert xs == [xs[0]] + xs[1..] && ys == [ys[0]] + ys[1..];
    }
  }

  // ----- strings -----

  lemma StringsAreOrdered()
    ensures TotalPreorder(Text.Le)
    ensures forall a, b :: Text.Le(a, b) && Text.Le(b, a) ==> a == b
  {
    forall a, b ensures Text.Le(a, b) || Text.Le(b, a) { Text.LeTotal(a, b); }
    forall a, b, c | Text.Le(a, b) && Text.Le(b, c) ensures Text.Le(a, c) { Text.LeTransitive(a, b, c); }
    forall a, b | Text.Le(a, b) && Text.Le(b, a) ensures a == b { Text.LeAntisymmetric(a, b); }
  }

  ghost predicate Distinct<T>(xs: seq<T>) {
    forall i, j :: 0 <= i < j < |xs| ==> xs[i] != xs[j]
  }

  function Elements<T>(xs: seq<T>): set<T> {
    set x | x in xs
  }

  /** `xs` names every element of `s` once, in ascending order. */
  ghost predicate IsListing(xs: seq<string>, s: set<string>) {
    Sorted(xs, Text.Le) && Distinct(xs) && Elements(xs) == s
  }

  lemma {:induction false} DistinctMultiset<T>(xs: seq<T>)
    requires Distinct(xs)
    ensures multiset(xs) == multiset(Elements(xs))
  {
    if xs == [] {
    } else {
      DistinctMultiset(xs[1..]);
      assert xs == [xs[0]] + xs[1..];
      assert Elements(xs) == {xs[0]} + Elements(xs[1..]);
      assert xs[0] !in xs[1..];
    }
  }

  lemma TwiceInMultiset<T>(xs: seq<T>, i: nat, j: nat)
    requires i < j < |xs| && xs[i] == xs[j]
    ensures multiset(xs)[xs[i]] >= 2
  {
    assert xs == xs[..i] + [xs[i]] + xs[i + 1..j] + [xs[i]] + xs[j + 1..];
  }

  lemma {:induction false} MultisetDistinct<T>(xs: seq<T>, s: set<T>)
    requires multiset(xs) == multiset(s)
    ensures Distinct(xs) && Elements(xs) == s
  {
    forall i, j | 0 <= i < j < |xs|
      ensures xs[i] != xs[j]
    {
      if xs[i] == xs[j] { TwiceInMultiset(xs, i, j); }
    }
    forall x ensures x in Elements(xs) <==> x in s {
      assert x in xs <==> x in multiset(xs);
    }
  }

  /** There is one listing of a set, so a list collected in the order of a map
      walk and then sorted does not say which order that was. */
  lemma ListingIsUnique(xs: seq<string>, ys: seq<string>, s: set<string>)
    requires IsListing(xs, s) && IsListing(ys, s)
    ensures xs == ys
  {
    DistinctMultiset(xs);
    DistinctMultiset(ys);
    StringsAreOrdered();
    SortedIsUnique(xs, ys, Text.Le);
  }

  lemma SortIsListing(xs: seq<string>)
    requires Distinct(xs)
    ensures IsListing(Sort(xs, Text.Le), Elements(xs))
  {
    StringsAreOrdered();
    SortSorted(xs, Text.Le);
    DistinctMultiset(xs);
    MultisetDistinct(Sort(xs, Text.Le), Elements(xs));
  }
}
