/** A provider's groups split into the rows a table names and one residual: what
    is folded, what never is, and that no number is lost on the way. */
module Folding {
  import opened Ordering
  import Text

  datatype Counts = Counts(total: int, implemented: int, declined: int, unknown: int) {
    function Plus(c: Counts): Counts {
      Counts(total + c.total, implemented + c.implemented, declined + c.declined, unknown + c.unknown)
    }
  }

  datatype Group = Group(name: string, counts: Counts)

  const NOTHING := Counts(0, 0, 0, 0)

  function Sum(groups: seq<Group>): Counts {
    if groups == [] then NOTHING else Sum(groups[..|groups| - 1]).Plus(groups[|groups| - 1].counts)
  }

  /** At or above 2% of the surface, in integers. */
  predicate IsBlock(g: Group, total: int) {
    g.counts.total * 50 >= total
  }

  /** Two in a hundred, exactly. */
  lemma BlockMeans(g: Group, total: int)
    requires total > 0
    ensures IsBlock(g, total) <==> g.counts.total as real / total as real >= 0.02
  {
    var share := g.counts.total as real / total as real;
    assert share * total as real == g.counts.total as real;
    if share >= 0.02 { ScaleUp(0.02, share, total as real); }
    if share < 0.02 { ScaleUp(share, 0.02, total as real); }
  }

  lemma ScaleUp(a: real, b: real, c: real)
    requires a <= b && c > 0.0
    ensures a * c <= b * c
    ensures a < b ==> a * c < b * c
  {
  }

  /** Largest first, the name breaking ties. */
  predicate Before(a: Group, b: Group) {
    a.counts.total > b.counts.total || (a.counts.total == b.counts.total && Text.Le(a.name, b.name))
  }

  /** The groups on one side of the floor, in the order they came. */
  function Those(groups: seq<Group>, total: int, block: bool): seq<Group> {
    if groups == [] then []
    else
      var last := groups[|groups| - 1];
      Those(groups[..|groups| - 1], total, block) + (if IsBlock(last, total) == block then [last] else [])
  }

  function Blocks(groups: seq<Group>, total: int): seq<Group> {
    Those(groups, total, true)
  }

  function Smalls(groups: seq<Group>, total: int): seq<Group> {
    Those(groups, total, false)
  }

  /** The groups that get a row: the blocks, and a lone small one. */
  function Kept(groups: seq<Group>, total: int): seq<Group> {
    if |Smalls(groups, total)| == 1 then Blocks(groups, total) + Smalls(groups, total) else Blocks(groups, total)
  }

  /** A fold of the groups: the kept ones in order, and a residual that makes the
      four sums come out. */
  ghost predicate IsFold(groups: seq<Group>, total: int, named: seq<Group>, rest: Counts, folded: int) {
    && Sorted(named, Before)
    && multiset(named) == multiset(Kept(groups, total))
    && Sum(named).Plus(rest) == Sum(groups)
    && folded == |groups| - |named|
  }

  method FoldSmallGroups(groups: seq<Group>, total: int) returns (named: seq<Group>, rest: Counts, folded: int)
    ensures IsFold(groups, total, named, rest, folded)
    ensures folded != 1
  {
    named := [];
    var small: seq<Group> := [];
    for i := 0 to |groups|
      invariant named == Blocks(groups[..i], total) && small == Smalls(groups[..i], total)
    {
      assert groups[..i + 1][..i] == groups[..i];
      if groups[i].counts.total * 50 >= total {
        named := named + [groups[i]];
      } else {
        small := small + [groups[i]];
      }
    }
    assert groups[..|groups|] == groups;
    if |small| == 1 {
      named := named + small;
      small := [];
    }
    KeptIsAFold(groups, total);
    named := Sort(named, Before);
    rest := NOTHING;
    for i := 0 to |small|
      invariant rest == Sum(small[..i])
    {
      assert small[..i + 1][..i] == small[..i];
      rest := rest.Plus(small[i].counts);
    }
    assert small[..|small|] == small;
    folded := |small|;
  }

  /** What is left out of the rows. */
  function Residue(groups: seq<Group>, total: int): seq<Group> {
    if |Smalls(groups, total)| == 1 then [] else Smalls(groups, total)
  }

  lemma KeptIsAFold(groups: seq<Group>, total: int)
    ensures var residue := Residue(groups, total);
            IsFold(groups, total, Sort(Kept(groups, total), Before), Sum(residue), |residue|) && |residue| != 1
  {
    BeforeIsAnOrder();
    var kept := Kept(groups, total);
    SortSorted(kept, Before);
    SumOfPermutation(kept, Sort(kept, Before));
    SplitSums(groups, total);
    SumAppend(Blocks(groups, total), Smalls(groups, total));
    PlusLaws(Sum(kept), NOTHING, NOTHING);
  }

  // ----- sums -----

  lemma PlusLaws(a: Counts, b: Counts, c: Counts)
    ensures a.Plus(b).Plus(c) == a.Plus(b.Plus(c))
    ensures a.Plus(b) == b.Plus(a)
    ensures a.Plus(NOTHING) == a
  {
  }

  lemma MoveRight(a: Counts, b: Counts, c: Counts)
    ensures a.Plus(b).Plus(c) == a.Plus(c).Plus(b)
  {
  }

  lemma SumSnoc(groups: seq<Group>, g: Group)
    ensures Sum(groups + [g]) == Sum(groups).Plus(g.counts)
  {
    assert (groups + [g])[..|groups|] == groups;
  }

  lemma {:induction false} SumAppend(a: seq<Group>, b: seq<Group>)
    ensures Sum(a + b) == Sum(a).Plus(Sum(b))
  {
    if b == [] {
      assert a + b == a;
      PlusLaws(Sum(a), NOTHING, NOTHING);
    } else {
      var n := |b| - 1;
      SumAppend(a, b[..n]);
      SumAppendOne(a, b[..n], b[n]);
      Around(b, n);
      assert b[..n] + [b[n]] + b[n + 1..] == b[..n] + [b[n]];
    }
  }

  lemma SumAppendOne(a: seq<Group>, b: seq<Group>, g: Group)
    requires Sum(a + b) == Sum(a).Plus(Sum(b))
    ensures Sum(a + (b + [g])) == Sum(a).Plus(Sum(b + [g]))
  {
    Assoc(a, b, [g]);
    SumSnoc(a + b, g);
    SumSnoc(b, g);
    PlusLaws(Sum(a), Sum(b), g.counts);
  }

  lemma SumWithout(groups: seq<Group>, i: nat)
    requires i < |groups|
    ensures Sum(groups) == Sum(groups[..i] + groups[i + 1..]).Plus(groups[i].counts)
  {
    Around(groups, i);
    SumAround(groups[..i], groups[i], groups[i + 1..]);
  }

  lemma MultisetWithout(groups: seq<Group>, i: nat)
    requires i < |groups|
    ensures multiset(groups[..i] + groups[i + 1..]) == multiset(groups) - multiset{groups[i]}
  {
    Around(groups, i);
  }

  lemma Around<T>(xs: seq<T>, i: nat)
    requires i < |xs|
    ensures xs == xs[..i] + [xs[i]] + xs[i + 1..]
  {
  }

  lemma SumAround(before: seq<Group>, g: Group, after: seq<Group>)
    ensures Sum(before + [g] + after) == Sum(before + after).Plus(g.counts)
  {
    SumAppend(before, after);
    SumAppend(before + [g], after);
    SumSnoc(before, g);
    MoveRight(Sum(before), g.counts, Sum(after));
  }

  lemma {:induction false} SumOfPermutation(a: seq<Group>, b: seq<Group>)
    requires multiset(a) == multiset(b)
    ensures Sum(a) == Sum(b)
  {
    assert |a| == |multiset(a)| == |multiset(b)| == |b|;
    if a == [] {
    } else {
      var n := |a| - 1;
      assert a[n] in multiset(b);
      var i :| 0 <= i < |b| && b[i] == a[n];
      SumWithout(a, n);
      assert a[..n] + a[n + 1..] == a[..n];
      SumWithout(b, i);
      MultisetWithout(a, n);
      MultisetWithout(b, i);
      SumOfPermutation(a[..n], b[..i] + b[i + 1..]);
    }
  }

  lemma ThoseSnoc(groups: seq<Group>, g: Group, total: int, block: bool)
    ensures Those(groups + [g], total, block)
              == Those(groups, total, block) + (if IsBlock(g, total) == block then [g] else [])
  {
    assert (groups + [g])[..|groups|] == groups;
  }

  /** How often a group stands on its side of the floor: as often as it came. */
  lemma {:induction false} ThosePointwise(groups: seq<Group>, total: int, block: bool, g: Group)
    ensures multiset(Those(groups, total, block))[g] == if IsBlock(g, total) == block then multiset(groups)[g] else 0
  {
    if groups == [] {
    } else {
      var n := |groups| - 1;
      ThosePointwise(groups[..n], total, block, g);
      ThoseSnoc(groups[..n], groups[n], total, block);
      assert groups == groups[..n] + [groups[n]];
    }
  }

  lemma ThoseMembers(groups: seq<Group>, total: int, block: bool)
    ensures forall g :: g in Those(groups, total, block) <==> g in groups && IsBlock(g, total) == block
  {
    forall g
      ensures g in Those(groups, total, block) <==> g in groups && IsBlock(g, total) == block
    {
      ThosePointwise(groups, total, block, g);
      assert g in groups <==> g in multiset(groups);
      assert g in Those(groups, total, block) <==> g in multiset(Those(groups, total, block));
    }
  }

  lemma OneMoreSums(blocks: seq<Group>, smalls: seq<Group>, whole: seq<Group>, g: Group, block: bool)
    requires Sum(blocks).Plus(Sum(smalls)) == Sum(whole)
    ensures Sum(if block then blocks + [g] else blocks).Plus(Sum(if block then smalls else smalls + [g]))
         == Sum(whole + [g])
  {
    SumSnoc(whole, g);
    SumSnoc(if block then blocks else smalls, g);
    MoveRight(Sum(blocks), Sum(smalls), g.counts);
    PlusLaws(Sum(blocks), Sum(smalls), g.counts);
  }

  lemma {:induction false} SplitSums(groups: seq<Group>, total: int)
    ensures Sum(Blocks(groups, total)).Plus(Sum(Smalls(groups, total))) == Sum(groups)
    ensures |Blocks(groups, total)| + |Smalls(groups, total)| == |groups|
  {
    if groups == [] {
    } else {
      var n := |groups| - 1;
      SplitSums(groups[..n], total);
      ThoseSnoc(groups[..n], groups[n], total, true);
      ThoseSnoc(groups[..n], groups[n], total, false);
      var blocks, smalls := Blocks(groups[..n], total), Smalls(groups[..n], total);
      OneMoreSums(blocks, smalls, groups[..n], groups[n], IsBlock(groups[n], total));
      assert groups == groups[..n] + [groups[n]];
      assert blocks + [] == blocks && smalls + [] == smalls;
    }
  }

  lemma BeforeIsAnOrder()
    ensures TotalPreorder(Before)
  {
    StringsAreOrdered();
  }

  // ----- what a fold never does -----

  /** A group at or above the floor always has its row, and a folded one is
      below it and has company. */
  lemma ABlockIsNeverFolded(groups: seq<Group>, total: int, named: seq<Group>, rest: Counts, folded: int, g: Group)
    requires IsFold(groups, total, named, rest, folded)
    requires g in groups
    ensures IsBlock(g, total) ==> g in named
    ensures g !in named ==> !IsBlock(g, total) && folded >= 2
  {
    SplitSums(groups, total);
    assert |named| == |multiset(named)| == |Kept(groups, total)|;
    forall x ensures x in named <==> x in Kept(groups, total) {
      assert x in named <==> x in multiset(named);
      assert x in Kept(groups, total) <==> x in multiset(Kept(groups, total));
    }
    ThoseMembers(groups, total, true);
    ThoseMembers(groups, total, false);
    if !IsBlock(g, total) {
      assert g in Smalls(groups, total);
    }
  }

  lemma {:induction false} BlocksWeigh(blocks: seq<Group>, total: int)
    requires forall g :: g in blocks ==> IsBlock(g, total)
    ensures |blocks| * total <= 50 * Sum(blocks).total
  {
    if blocks == [] {
    } else {
      var n := |blocks| - 1;
      BlocksWeigh(blocks[..n], total);
      assert blocks[n] in blocks;
      assert |blocks| * total == n * total + total;
    }
  }

  lemma {:induction false} PositiveSum(groups: seq<Group>)
    requires forall g :: g in groups ==> g.counts.total > 0
    ensures Sum(groups).total >= |groups|
  {
    if groups == [] {
    } else {
      assert groups[|groups| - 1] in groups;
      PositiveSum(groups[..|groups| - 1]);
    }
  }

  /** A surface that is the sum of its groups is named in fifty rows at most. */
  lemma AtMostFiftyRows(groups: seq<Group>, total: int, named: seq<Group>, rest: Counts, folded: int)
    requires IsFold(groups, total, named, rest, folded)
    requires total > 0 && Sum(groups).total == total
    requires forall g :: g in groups ==> g.counts.total > 0
    ensures |named| <= 50
  {
    var blocks, smalls := Blocks(groups, total), Smalls(groups, total);
    SplitSums(groups, total);
    assert |named| == |multiset(named)| == |Kept(groups, total)|;
    ThoseMembers(groups, total, true);
    ThoseMembers(groups, total, false);
    BlocksWeigh(blocks, total);
    PositiveSum(smalls);
    FiftyAtMost(|blocks|, |smalls|, total, Sum(blocks).total, Sum(smalls).total);
  }

  lemma FiftyAtMost(blocks: nat, smalls: nat, total: int, big: int, small: int)
    requires total > 0 && big + small == total && small >= smalls && blocks * total <= 50 * big
    ensures blocks <= 50 && (smalls >= 1 ==> blocks < 50)
  {
    if blocks > 50 { MoreWeighsMore(blocks, 50, total); }
  }

  lemma MoreWeighsMore(a: int, b: int, t: int)
    requires a > b && t > 0
    ensures a * t > b * t
  {
    assert a * t == b * t + (a - b) * t;
  }

  // ----- one fold, whatever order the groups came in -----

  lemma KeptOfPermutation(a: seq<Group>, b: seq<Group>, total: int)
    requires multiset(a) == multiset(b)
    ensures multiset(Kept(a, total)) == multiset(Kept(b, total))
  {
    forall g
      ensures multiset(Blocks(a, total))[g] == multiset(Blocks(b, total))[g]
      ensures multiset(Smalls(a, total))[g] == multiset(Smalls(b, total))[g]
    {
      ThosePointwise(a, total, true, g);
      ThosePointwise(b, total, true, g);
      ThosePointwise(a, total, false, g);
      ThosePointwise(b, total, false, g);
    }
    assert multiset(Blocks(a, total)) == multiset(Blocks(b, total));
    assert multiset(Smalls(a, total)) == multiset(Smalls(b, total));
    assert |Smalls(a, total)| == |multiset(Smalls(a, total))| == |multiset(Smalls(b, total))| == |Smalls(b, total)|;
  }

  /** Groups told apart by name. */
  ghost predicate Named(groups: seq<Group>) {
    forall g, h :: g in groups && h in groups && g.name == h.name ==> g == h
  }

  lemma NamesBreakTies(groups: seq<Group>, named: seq<Group>)
    requires Named(groups)
    requires forall g :: g in named ==> g in groups
    ensures NoTies(named, Before)
  {
    forall i, j | 0 <= i < |named| && 0 <= j < |named| && Before(named[i], named[j]) && Before(named[j], named[i])
      ensures named[i] == named[j]
    {
      StringsAreOrdered();
      assert named[i] in named && named[j] in named;
    }
  }

  lemma KeptComeFromTheGroups(groups: seq<Group>, total: int, named: seq<Group>)
    requires multiset(named) == multiset(Kept(groups, total))
    ensures forall g :: g in named ==> g in groups
  {
    ThoseMembers(groups, total, true);
    ThoseMembers(groups, total, false);
    forall g | g in named ensures g in groups {
      assert g in multiset(named);
      assert g in multiset(Kept(groups, total));
      assert g in Kept(groups, total);
    }
  }

  /** The rows, their order, the residual and the number folded do not depend on
      the order the groups came in. */
  lemma OneFold(a: seq<Group>, b: seq<Group>, total: int,
                named: seq<Group>, rest: Counts, folded: int, named': seq<Group>, rest': Counts, folded': int)
    requires multiset(a) == multiset(b) && Named(a)
    requires IsFold(a, total, named, rest, folded) && IsFold(b, total, named', rest', folded')
    ensures named == named' && rest == rest' && folded == folded'
  {
    KeptOfPermutation(a, b, total);
    SumOfPermutation(a, b);
    assert |a| == |multiset(a)| == |multiset(b)| == |b|;
    KeptComeFromTheGroups(a, total, named);
    NamesBreakTies(a, named);
    SortedIsUnique(named, named', Before);
  }
}
