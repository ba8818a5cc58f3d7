/** The record counted per provider: `feint coverage --evidence`. */
module Tally {
  import opened Wrappers
  import opened Text
  import opened Ordering
  import opened Evidence

  /** n out of total as a whole percentage, rounded to nearest. */
  function PercentOf(n: nat, total: nat): nat {
    if total == 0 then 0 else (200 * n + total) / (2 * total)
  }

  lemma QuotientBounds(a: nat, d: nat)
    requires 0 < d
    ensures d * (a / d) <= a < d * (a / d) + d
  {
  }

  lemma MulLess(a: nat, b: nat, c: nat)
    requires a * b < a * c
    ensures b < c
  {
    if b >= c { MulMonotone(a, c, b); }
  }

  lemma MulMonotone(a: nat, b: nat, c: nat)
    requires b <= c
    ensures a * b <= a * c
  {
  }

  /** Within half a point of the true ratio, upwards when exactly between two
      points, never more than one hundred, and zero of nothing. */
  lemma PercentIsWithinHalfAPoint(n: nat, total: nat)
    ensures 0 < total ==> 200 * n - total < 2 * total * PercentOf(n, total) <= 200 * n + total
    ensures 0 < total && n <= total ==> PercentOf(n, total) <= 100
    ensures total == 0 ==> PercentOf(n, total) == 0
  {
    if total == 0 { return; }
    var d, q := 2 * total, PercentOf(n, total);
    QuotientBounds(200 * n + total, d);
    if n <= total {
      assert d * q < d * 101;
      MulLess(d, q, 101);
    }
  }

  // ----- who owns an operation -----

  datatype Pack = Pack(name: string, operations: seq<string>)

  predicate Declares(p: Pack, op: string) {
    op != "" && op in p.operations
  }

  /** Two packs of different names claim one operation. */
  ghost predicate Contested(packs: seq<Pack>) {
    exists i, j, op ::
        0 <= i < j < |packs| && packs[i].name != packs[j].name && Declares(packs[i], op) && Declares(packs[j], op)
  }

  function Names(packs: seq<Pack>): seq<string> {
    if packs == [] then [] else Names(packs[..|packs| - 1]) + [packs[|packs| - 1].name]
  }

  lemma {:induction false} NamesMeans(packs: seq<Pack>)
    ensures |Names(packs)| == |packs| && forall i :: 0 <= i < |packs| ==> Names(packs)[i] == packs[i].name
  {
    if packs == [] {
    } else {
      NamesMeans(packs[..|packs| - 1]);
    }
  }

  /** Every operation that is owned is owned by a provider of the list. */
  ghost predicate Mounted(owners: map<string, string>, providers: seq<string>) {
    forall op :: op in owners ==> owners[op] in providers
  }

  /** `owners` files every operation of the first `n` packs under the one pack
      that declares it, and no other operation. */
  ghost predicate FiledUpTo(owners: map<string, string>, packs: seq<Pack>, n: nat)
    requires n <= |packs|
  {
    && (forall j, op :: 0 <= j < n && Declares(packs[j], op) ==> op in owners && owners[op] == packs[j].name)
    && (forall op :: op in owners ==> exists j :: 0 <= j < n && Declares(packs[j], op) && owners[op] == packs[j].name)
  }

  lemma FiledIsUncontested(owners: map<string, string>, packs: seq<Pack>)
    requires FiledUpTo(owners, packs, |packs|)
    ensures !Contested(packs)
  {
    forall i, j, op | 0 <= i < j < |packs| && Declares(packs[i], op) && Declares(packs[j], op)
      ensures packs[i].name == packs[j].name
    {
      assert owners[op] == packs[i].name;
    }
  }

  ghost predicate IsClaimedTwice(packs: seq<Pack>, op: string) {
    exists i, j :: 0 <= i < |packs| && 0 <= j < |packs| && packs[i].name != packs[j].name
      && op in packs[i].operations && op in packs[j].operations
  }

  ghost predicate IsClaimedBy(packs: seq<Pack>, op: string, name: string) {
    exists j :: 0 <= j < |packs| && packs[j].name == name && op in packs[j].operations
  }

  lemma ContestedMeans(packs: seq<Pack>)
    ensures Contested(packs) <==> exists op :: op != "" && IsClaimedTwice(packs, op)
  {
    if op :| op != "" && IsClaimedTwice(packs, op) {
      var i, j :| 0 <= i < |packs| && 0 <= j < |packs| && packs[i].name != packs[j].name
        && op in packs[i].operations && op in packs[j].operations;
      assert Declares(packs[i], op) && Declares(packs[j], op);
      assert i < j || j < i;
    }
    if i, j, op :|
      0 <= i < j < |packs| && packs[i].name != packs[j].name && Declares(packs[i], op) && Declares(packs[j], op)
    {
      assert IsClaimedTwice(packs, op);
    }
  }

  /** Filed: under the name that claims it, and only if one does; the empty name of an
      operation is no operation. */
  lemma FiledMeans(owners: map<string, string>, packs: seq<Pack>, op: string, name: string)
    requires FiledUpTo(owners, packs, |packs|)
    ensures op in owners && owners[op] == name <==> op != "" && IsClaimedBy(packs, op, name)
  {
    if op in owners {
      var j :| 0 <= j < |packs| && Declares(packs[j], op) && owners[op] == packs[j].name;
      assert IsClaimedBy(packs, op, owners[op]);
    }
    if op != "" && IsClaimedBy(packs, op, name) {
      var j :| 0 <= j < |packs| && packs[j].name == name && op in packs[j].operations;
      assert Declares(packs[j], op);
    }
  }

  /** operationOwners: an operation claimed under two names is refused, never
      filed under one of them. */
  method OperationOwners(packs: seq<Pack>) returns (r: Result<(map<string, string>, seq<string>), string>)
    ensures r.Err? <==> Contested(packs)
    ensures r.Ok? ==> FiledUpTo(r.value.0, packs, |packs|)
    ensures r.Ok? ==> Sorted(r.value.1, Le) && multiset(r.value.1) == multiset(Names(packs))
    ensures r.Ok? ==> Mounted(r.value.0, r.value.1)
  {
    var owners: map<string, string> := map[];
    var providers: seq<string> := [];
    for i := 0 to |packs|
      invariant providers == Names(packs[..i])
      invariant FiledUpTo(owners, packs, i)
    {
      assert packs[..i + 1][..i] == packs[..i];
      providers := providers + [packs[i].name];
      var clash, next := FilePack(owners, packs, i);
      if clash.Some? { return Err(clash.value); }
      owners := next;
    }
    assert packs[..|packs|] == packs;
    FiledIsUncontested(owners, packs);
    var sorted := Sort(providers, Le);
    StringsAreOrdered();
    SortSorted(providers, Le);
    FiledIsMounted(owners, packs, sorted);
    r := Ok((owners, sorted));
  }

  lemma FiledIsMounted(owners: map<string, string>, packs: seq<Pack>, providers: seq<string>)
    requires FiledUpTo(owners, packs, |packs|) && multiset(providers) == multiset(Names(packs))
    ensures Mounted(owners, providers)
  {
    NamesMeans(packs);
    forall op | op in owners ensures owners[op] in providers {
      var j :| 0 <= j < |packs| && Declares(packs[j], op) && owners[op] == packs[j].name;
      assert Names(packs)[j] in multiset(providers);
    }
  }

  method FilePack(was: map<string, string>, packs: seq<Pack>, i: nat)
    returns (clash: Option<string>, owners: map<string, string>)
    requires i < |packs| && FiledUpTo(was, packs, i)
    ensures clash.Some? ==> Contested(packs)
    ensures clash.None? ==> FiledUpTo(owners, packs, i + 1)
  {
    owners := was;
    var p := packs[i];
    for k := 0 to |p.operations|
      invariant Filing(was, owners, p.name, p.operations[..k])
    {
      var op := p.operations[k];
      assert p.operations[..k + 1] == p.operations[..k] + [op];
      if op == "" { continue; }
      if op in owners && owners[op] != p.name {
        ClashIsContested(was, owners, packs, i, k);
        return Some(op), owners;
      }
      owners := owners[op := p.name];
    }
    assert p.operations[..|p.operations|] == p.operations;
    FiledOneMore(was, owners, packs, i);
    clash := None;
  }

  /** `owners` is `was` with these operations filed under `name`, none of which
      was filed under another. */
  ghost predicate Filing(was: map<string, string>, owners: map<string, string>, name: string, operations: seq<string>) {
    && (forall op :: op in owners <==> op in was || (op != "" && op in operations))
    && (forall op :: op in owners ==> owners[op] == if op in was then was[op] else name)
    && (forall op :: op != "" && op in operations ==> owners[op] == name)
  }

  lemma ClashIsContested(was: map<string, string>, owners: map<string, string>, packs: seq<Pack>, i: nat, k: nat)
    requires i < |packs| && FiledUpTo(was, packs, i) && k < |packs[i].operations|
    requires Filing(was, owners, packs[i].name, packs[i].operations[..k])
    requires var op := packs[i].operations[k]; op != "" && op in owners && owners[op] != packs[i].name
    ensures Contested(packs)
  {
    var op := packs[i].operations[k];
    assert op in was;
    assert Declares(packs[i], op);
  }

  lemma FiledOneMore(was: map<string, string>, owners: map<string, string>, packs: seq<Pack>, i: nat)
    requires i < |packs| && FiledUpTo(was, packs, i)
    requires Filing(was, owners, packs[i].name, packs[i].operations)
    ensures FiledUpTo(owners, packs, i + 1)
  {
    forall op | op in owners
      ensures exists j :: 0 <= j < i + 1 && Declares(packs[j], op) && owners[op] == packs[j].name
    {
      if op in was {
        var j :| 0 <= j < i && Declares(packs[j], op) && was[op] == packs[j].name;
      } else {
        assert Declares(packs[i], op);
      }
    }
  }

  /** The operations of the record one provider's pack mounts. */
  ghost function Owned(ops: map<string, Row>, owners: map<string, string>, p: string): set<string> {
    set op | op in ops && op in owners && owners[op] == p
  }

  ghost function Unclaimed(ops: map<string, Row>, owners: map<string, string>): set<string> {
    set op | op in ops && op !in owners
  }

  ghost function EarnedIn(x: Axis, population: set<string>, ops: map<string, Row>): set<string> {
    set op | op in population && op in ops && Earned(x, ops[op])
  }

  ghost function MissingIn(x: Axis, population: set<string>, ops: map<string, Row>): set<string> {
    set op | op in population && op in ops && !Earned(x, ops[op])
  }

  // ----- one row -----

  datatype AxisTally = AxisTally(axis: Axis, earned: nat, missing: nat, percent: nat)

  datatype QueueEntry = QueueEntry(operation: string, verdict: Option<Word>)

  datatype ProviderTally = ProviderTally(provider: string, served: nat, axes: seq<AxisTally>, queue: seq<QueueEntry>)

  datatype Table = Table(providers: seq<ProviderTally>, total: ProviderTally)

  /** What the record holds on a verdict axis, and nothing on a boolean one. */
  function VerdictOf(x: Axis, r: Row): Option<Word> {
    match x
    case Probed => Some(r.probed)
    case Contract => Some(r.contract)
    case Shape => Some(r.shape)
    case _ => None
  }

  ghost predicate IsQueue(queue: seq<QueueEntry>, x: Axis, population: set<string>, ops: map<string, Row>) {
    && Sorted(queue, QueueLe)
    && (forall i, j :: 0 <= i < j < |queue| ==> queue[i].operation != queue[j].operation)
    && (forall q :: q in queue <==>
        q.operation in MissingIn(x, population, ops) && q.verdict == VerdictOf(x, ops[q.operation]))
  }

  predicate QueueLe(a: QueueEntry, b: QueueEntry) { Le(a.operation, b.operation) }

  ghost predicate IsTally(row: ProviderTally, name: string, population: set<string>, ops: map<string, Row>,
                          named: Option<Axis>)
  {
    && row.provider == name
    && row.served == |population|
    && |row.axes| == |AXES|
    && (forall i :: 0 <= i < |AXES| ==>
          row.axes[i] == AxisTally(AXES[i], |EarnedIn(AXES[i], population, ops)|, |MissingIn(AXES[i], population, ops)|,
                                   PercentOf(|EarnedIn(AXES[i], population, ops)|, |population|)))
    && (if named.Some? then IsQueue(row.queue, named.value, population, ops) else row.queue == [])
  }

  lemma EarnedPlusMissing(x: Axis, population: set<string>, ops: map<string, Row>)
    requires population <= ops.Keys
    ensures |EarnedIn(x, population, ops)| + |MissingIn(x, population, ops)| == |population|
  {
    assert EarnedIn(x, population, ops) + MissingIn(x, population, ops) == population;
    assert EarnedIn(x, population, ops) !! MissingIn(x, population, ops);
  }

  // ----- one row over a list, repetitions and all -----

  /** What the record says of an operation: nothing, when it does not hold it. */
  function RowOf(ops: map<string, Row>, op: string): Row {
    if op in ops then ops[op] else Row(false, Other(""), Other(""), false, Other(""), false, false)
  }

  /** An operation the record does not hold has earned nothing, and its verdicts are
      empty; a verdict is printed on the three axes that have one. */
  lemma RowOfMeans(ops: map<string, Row>, op: string, x: Axis)
    ensures op in ops ==> RowOf(ops, op) == ops[op]
    ensures op !in ops ==> !Earned(x, RowOf(ops, op)) && VerdictOf(x, RowOf(ops, op)) in {None, Some(Other(""))}
    ensures VerdictOf(x, RowOf(ops, op)) == None <==> x in {Driven, Dataplane, Behaviour, Negative}
    ensures op in ops ==> VerdictOf(Probed, RowOf(ops, op)) == Some(ops[op].probed)
    ensures op in ops ==> VerdictOf(Contract, RowOf(ops, op)) == Some(ops[op].contract)
    ensures op in ops ==> VerdictOf(Shape, RowOf(ops, op)) == Some(ops[op].shape)
  {
  }

  /** Those of the list whose row has the axis earned. */
  function Earners(x: Axis, operations: seq<string>, ops: map<string, Row>): (r: seq<string>)
    ensures |r| <= |operations|
  {
    if operations == [] then []
    else
      var n := |operations| - 1;
      Earners(x, operations[..n], ops) + (if Earned(x, RowOf(ops, operations[n])) then [operations[n]] else [])
  }

  /** And those whose row has not, each with its verdict. */
  function Lacking(x: Axis, operations: seq<string>, ops: map<string, Row>): seq<QueueEntry> {
    if operations == [] then []
    else
      var n := |operations| - 1;
      var row := RowOf(ops, operations[n]);
      Lacking(x, operations[..n], ops) + (if Earned(x, row) then [] else [QueueEntry(operations[n], VerdictOf(x, row))])
  }

  predicate Within(operations: seq<string>, ops: map<string, Row>) {
    forall op :: op in operations ==> op in ops
  }

  function AxisOf(x: Axis, operations: seq<string>, ops: map<string, Row>): AxisTally {
    var earned := |Earners(x, operations, ops)|;
    AxisTally(x, earned, |operations| - earned, PercentOf(earned, |operations|))
  }

  ghost predicate IsRow(row: ProviderTally, name: string, operations: seq<string>, ops: map<string, Row>,
                        named: Option<Axis>)
  {
    && row.provider == name
    && row.served == |operations|
    && |row.axes| == |AXES|
    && (forall i :: 0 <= i < |AXES| ==> row.axes[i] == AxisOf(AXES[i], operations, ops))
    && (if named.Some?
        then Sorted(row.queue, QueueLe) && multiset(row.queue) == multiset(Lacking(named.value, operations, ops))
        else row.queue == [])
  }

  /** tallyOne, over any list. */
  method TallyOne(name: string, operations: seq<string>, ops: map<string, Row>, named: Option<Axis>)
    returns (row: ProviderTally)
    ensures IsRow(row, name, operations, ops, named)
    ensures Distinct(operations) && Within(operations, ops) ==> IsTally(row, name, Elements(operations), ops, named)
  {
    var axes: seq<AxisTally> := [];
    for i := 0 to |AXES|
      invariant |axes| == i
      invariant forall j :: 0 <= j < i ==> axes[j] == AxisOf(AXES[j], operations, ops)
    {
      var x := AXES[i];
      var earned := CountEarned(x, operations, ops);
      axes := axes + [AxisTally(x, earned, |operations| - earned, PercentOf(earned, |operations|))];
    }
    var queue: seq<QueueEntry> := [];
    if named.Some? {
      queue := Queue(named.value, operations, ops);
    }
    row := ProviderTally(name, |operations|, axes, queue);
    if Distinct(operations) && Within(operations, ops) { RowIsTally(row, name, operations, ops, named); }
  }

  method CountEarned(x: Axis, operations: seq<string>, ops: map<string, Row>) returns (earned: nat)
    ensures earned == |Earners(x, operations, ops)|
  {
    earned := 0;
    for i := 0 to |operations|
      invariant earned == |Earners(x, operations[..i], ops)|
    {
      assert operations[..i + 1][..i] == operations[..i];
      if Earned(x, RowOf(ops, operations[i])) {
        earned := earned + 1;
      }
    }
    assert operations[..|operations|] == operations;
  }

  method Queue(x: Axis, operations: seq<string>, ops: map<string, Row>) returns (queue: seq<QueueEntry>)
    ensures Sorted(queue, QueueLe) && multiset(queue) == multiset(Lacking(x, operations, ops))
  {
    queue := [];
    for i := 0 to |operations|
      invariant queue == Lacking(x, operations[..i], ops)
    {
      var op := operations[i];
      assert operations[..i + 1][..i] == operations[..i];
      var row := RowOf(ops, op);
      if Earned(x, row) { continue; }
      queue := queue + [QueueEntry(op, VerdictOf(x, row))];
    }
    assert operations[..|operations|] == operations;
    StringsAreOrdered();
    SortSorted(queue, QueueLe);
    queue := Sort(queue, QueueLe);
  }

  // ----- one row over a population -----

  lemma DistinctSize<T>(xs: seq<T>)
    requires Distinct(xs)
    ensures |Elements(xs)| == |xs|
  {
    DistinctMultiset(xs);
    assert |multiset(xs)| == |multiset(Elements(xs))|;
  }

  lemma LastApartOf(operations: seq<string>)
    requires operations != [] && Distinct(operations)
    ensures var n := |operations| - 1;
            && Distinct(operations[..n]) && operations[n] !in operations[..n]
            && Elements(operations) == Elements(operations[..n]) + {operations[n]}
  {
    var n := |operations| - 1;
    assert operations == operations[..n] + [operations[n]];
  }

  lemma EarnedOneMore(x: Axis, earlier: set<string>, op: string, ops: map<string, Row>)
    requires op in ops && op !in earlier
    ensures |EarnedIn(x, earlier + {op}, ops)| == |EarnedIn(x, earlier, ops)| + (if Earned(x, ops[op]) then 1 else 0)
  {
    if Earned(x, ops[op]) {
      assert EarnedIn(x, earlier + {op}, ops) == EarnedIn(x, earlier, ops) + {op};
    } else {
      assert EarnedIn(x, earlier + {op}, ops) == EarnedIn(x, earlier, ops);
    }
  }

  lemma {:induction false} EarnersAreEarned(x: Axis, operations: seq<string>, ops: map<string, Row>)
    requires Within(operations, ops) && Distinct(operations)
    ensures |Earners(x, operations, ops)| == |EarnedIn(x, Elements(operations), ops)|
  {
    if operations == [] {
      assert EarnedIn(x, Elements(operations), ops) == {};
    } else {
      var n := |operations| - 1;
      LastApartOf(operations);
      EarnersAreEarned(x, operations[..n], ops);
      EarnedOneMore(x, Elements(operations[..n]), operations[n], ops);
    }
  }

  /** The queue names each operation of the population that misses the axis, once,
      with its verdict. */
  ghost predicate ListsMissing(queue: seq<QueueEntry>, x: Axis, population: set<string>, ops: map<string, Row>) {
    && (forall i, j :: 0 <= i < j < |queue| ==> queue[i].operation != queue[j].operation)
    && (forall q :: q in queue <==>
        q.operation in MissingIn(x, population, ops) && q.verdict == VerdictOf(x, ops[q.operation]))
  }

  lemma EarnedIsNotListed(queue: seq<QueueEntry>, x: Axis, earlier: set<string>, op: string, ops: map<string, Row>)
    requires ListsMissing(queue, x, earlier, ops) && op in ops && Earned(x, ops[op])
    ensures ListsMissing(queue, x, earlier + {op}, ops)
  {
    assert MissingIn(x, earlier + {op}, ops) == MissingIn(x, earlier, ops);
  }

  lemma MissingIsListed(queue: seq<QueueEntry>, x: Axis, earlier: set<string>, op: string, ops: map<string, Row>)
    requires ListsMissing(queue, x, earlier, ops) && op in ops && op !in earlier && !Earned(x, ops[op])
    ensures ListsMissing(queue + [QueueEntry(op, VerdictOf(x, ops[op]))], x, earlier + {op}, ops)
  {
    var all := queue + [QueueEntry(op, VerdictOf(x, ops[op]))];
    assert MissingIn(x, earlier + {op}, ops) == MissingIn(x, earlier, ops) + {op};
    forall i, j | 0 <= i < j < |all|
      ensures all[i].operation != all[j].operation
    {
      assert all[i] in queue;
    }
  }

  lemma {:induction false} LackingAreMissing(x: Axis, operations: seq<string>, ops: map<string, Row>)
    requires Within(operations, ops) && Distinct(operations)
    ensures ListsMissing(Lacking(x, operations, ops), x, Elements(operations), ops)
  {
    if operations == [] {
    } else {
      var n := |operations| - 1;
      var earlier := Lacking(x, operations[..n], ops);
      LastApartOf(operations);
      LackingAreMissing(x, operations[..n], ops);
      if Earned(x, ops[operations[n]]) {
        EarnedIsNotListed(earlier, x, Elements(operations[..n]), operations[n], ops);
        assert earlier + [] == earlier;
      } else {
        MissingIsListed(earlier, x, Elements(operations[..n]), operations[n], ops);
      }
    }
  }

  /** Over a list without repetitions a row counts the population. */
  lemma RowIsTally(row: ProviderTally, name: string, operations: seq<string>, ops: map<string, Row>,
                   named: Option<Axis>)
    requires Distinct(operations) && Within(operations, ops) && IsRow(row, name, operations, ops, named)
    ensures IsTally(row, name, Elements(operations), ops, named)
  {
    DistinctSize(operations);
    forall i | 0 <= i < |AXES|
      ensures |Earners(AXES[i], operations, ops)| == |EarnedIn(AXES[i], Elements(operations), ops)|
      ensures |operations| - |EarnedIn(AXES[i], Elements(operations), ops)|
                == |MissingIn(AXES[i], Elements(operations), ops)|
    {
      EarnersAreEarned(AXES[i], operations, ops);
      EarnedPlusMissing(AXES[i], Elements(operations), ops);
    }
    if named.Some? {
      LackingAreMissing(named.value, operations, ops);
      SortedLackingIsQueue(row.queue, Lacking(named.value, operations, ops));
    }
  }

  lemma SortedLackingIsQueue(sorted: seq<QueueEntry>, queue: seq<QueueEntry>)
    requires forall a, b :: 0 <= a < b < |queue| ==> queue[a].operation != queue[b].operation
    requires multiset(sorted) == multiset(queue)
    ensures forall a, b :: 0 <= a < b < |sorted| ==> sorted[a].operation != sorted[b].operation
    ensures forall q :: q in sorted <==> q in queue
  {
    forall q ensures q in sorted <==> q in queue {
      assert q in sorted <==> q in multiset(sorted);
      assert q in queue <==> q in multiset(queue);
    }
    assert Distinct(queue);
    DistinctMultiset(queue);
    MultisetDistinct(sorted, Elements(queue));
    forall a, b | 0 <= a < b < |sorted|
      ensures sorted[a].operation != sorted[b].operation
    {
      assert sorted[a] in queue && sorted[b] in queue;
    }
  }

  // ----- the table -----

  datatype TallyError = NoSuchPack | NotServed(operations: seq<string>)

  /** The operations of the record, listed per owner, and those nobody claims. */
  method SplitByOwner(ops: map<string, Row>, owners: map<string, string>)
    returns (byProvider: map<string, seq<string>>, unclaimed: seq<string>)
    ensures forall p :: p in byProvider ==> Distinct(byProvider[p]) && Elements(byProvider[p]) == Owned(ops, owners, p)
    ensures forall p :: p !in byProvider ==> Owned(ops, owners, p) == {}
    ensures IsListing(unclaimed, Unclaimed(ops, owners))
  {
    byProvider, unclaimed := map[], [];
    var left := ops.Keys;
    while left != {}
      invariant left <= ops.Keys
      invariant SplitBut(byProvider, ops, owners, left)
      invariant Lists(unclaimed, Unclaimed(ops, owners) - left)
    {
      var name :| name in left;
      if name !in owners {
        UnclaimedOne(byProvider, unclaimed, ops, owners, left, name);
        unclaimed := unclaimed + [name];
      } else {
        var p := owners[name];
        var list := if p in byProvider then byProvider[p] else [];
        ClaimedOne(byProvider, unclaimed, ops, owners, left, name, list);
        byProvider := byProvider[p := list + [name]];
      }
      left := left - {name};
    }
    SortIsListing(unclaimed);
    unclaimed := Sort(unclaimed, Le);
  }

  ghost predicate Lists(xs: seq<string>, s: set<string>) {
    Distinct(xs) && Elements(xs) == s
  }

  /** Every operation but those left is listed under its owner. */
  ghost predicate SplitBut(byProvider: map<string, seq<string>>, ops: map<string, Row>, owners: map<string, string>,
                           left: set<string>)
  {
    && (forall p :: p in byProvider ==> Lists(byProvider[p], Owned(ops, owners, p) - left))
    && (forall p :: p !in byProvider ==> Owned(ops, owners, p) - left == {})
  }

  lemma ListedOneMore(xs: seq<string>, s: set<string>, x: string)
    requires Lists(xs, s) && x !in s
    ensures Lists(xs + [x], s + {x})
  {
    assert x !in Elements(xs);
  }

  lemma UnclaimedOne(byProvider: map<string, seq<string>>, unclaimed: seq<string>, ops: map<string, Row>,
                     owners: map<string, string>,
                     left: set<string>, name: string)
    requires name in left && name in ops && name !in owners
    requires SplitBut(byProvider, ops, owners, left) && Lists(unclaimed, Unclaimed(ops, owners) - left)
    ensures SplitBut(byProvider, ops, owners, left - {name})
    ensures Lists(unclaimed + [name], Unclaimed(ops, owners) - (left - {name}))
  {
    ListedOneMore(unclaimed, Unclaimed(ops, owners) - left, name);
    assert Unclaimed(ops, owners) - (left - {name}) == (Unclaimed(ops, owners) - left) + {name};
    forall p ensures Owned(ops, owners, p) - (left - {name}) == Owned(ops, owners, p) - left {}
  }

  lemma ClaimedOne(byProvider: map<string, seq<string>>, unclaimed: seq<string>, ops: map<string, Row>,
                   owners: map<string, string>,
                   left: set<string>, name: string, list: seq<string>)
    requires name in left && name in ops && name in owners
    requires SplitBut(byProvider, ops, owners, left) && Lists(unclaimed, Unclaimed(ops, owners) - left)
    requires list == if owners[name] in byProvider then byProvider[owners[name]] else []
    ensures SplitBut(byProvider[owners[name] := list + [name]], ops, owners, left - {name})
    ensures Lists(unclaimed, Unclaimed(ops, owners) - (left - {name}))
  {
    ListedOneMore(list, Owned(ops, owners, owners[name]) - left, name);
    assert Unclaimed(ops, owners) - (left - {name}) == Unclaimed(ops, owners) - left;
    forall p
      ensures Owned(ops, owners, p) - (left - {name})
           == (Owned(ops, owners, p) - left) + (if p == owners[name] then {name} else {})
    {
    }
  }

  // ----- the total, as the sum over the providers listed -----

  ghost function ServedBy(ops: map<string, Row>, owners: map<string, string>, providers: seq<string>): nat {
    if providers == [] then 0
    else ServedBy(ops, owners, providers[..|providers| - 1]) + |Owned(ops, owners, providers[|providers| - 1])|
  }

  ghost function EarnedBy(x: Axis, ops: map<string, Row>, owners: map<string, string>, providers: seq<string>): (n: nat)
    ensures n <= ServedBy(ops, owners, providers)
  {
    if providers == [] then 0
    else
      var mine := Owned(ops, owners, providers[|providers| - 1]);
      EarnedPlusMissing(x, mine, ops);
      EarnedBy(x, ops, owners, providers[..|providers| - 1]) + |EarnedIn(x, mine, ops)|
  }

  ghost function AxisTotal(x: Axis, ops: map<string, Row>, owners: map<string, string>,
                           providers: seq<string>): AxisTally
  {
    var earned, served := EarnedBy(x, ops, owners, providers), ServedBy(ops, owners, providers);
    AxisTally(x, earned, served - earned, PercentOf(earned, served))
  }

  ghost predicate IsTotal(total: ProviderTally, ops: map<string, Row>, owners: map<string, string>,
                          providers: seq<string>)
  {
    && total.provider == "all"
    && total.served == ServedBy(ops, owners, providers)
    && |total.axes| == |AXES|
    && (forall i :: 0 <= i < |AXES| ==> total.axes[i] == AxisTotal(AXES[i], ops, owners, providers))
    && total.queue == []
  }

  /** tallyEvidence. The rows are those asked for; the total is every pack, and
      carries no queue. */
  method TallyEvidence(ops: map<string, Row>, owners: map<string, string>, providers: seq<string>,
                       only: Option<string>, named: Option<Axis>) returns (r: Result<Table, TallyError>)
    ensures r == Err(NoSuchPack) <==> only.Some? && only.value !in providers
    ensures r.Err? && r.error.NotServed? ==>
              Unclaimed(ops, owners) != {} && IsListing(r.error.operations, Unclaimed(ops, owners))
    ensures r.Ok? ==> Unclaimed(ops, owners) == {}
    ensures r.Ok? ==> IsTotal(r.value.total, ops, owners, providers)
    ensures r.Ok? ==> AreRows(r.value.providers, Asked(providers, only), ops, owners, named)
    ensures r.Ok? && only == None ==> AreRows(r.value.providers, providers, ops, owners, named)
  {
    if only.Some? && only.value !in providers { return Err(NoSuchPack); }
    var byProvider, unclaimed := SplitByOwner(ops, owners);
    if |unclaimed| > 0 {
      assert unclaimed[0] in Elements(unclaimed);
      return Err(NotServed(unclaimed));
    }
    assert Elements(unclaimed) == {};
    var rows: seq<ProviderTally> := [];
    var everything: seq<string> := [];
    for i := 0 to |providers|
      invariant Gathered(everything, ops, owners, providers[..i])
      invariant AreRows(rows, Asked(providers[..i], only), ops, owners, named)
    {
      var p := providers[i];
      var mine := if p in byProvider then byProvider[p] else [];
      assert Distinct(mine) && Elements(mine) == Owned(ops, owners, p);
      assert providers[..i + 1][..i] == providers[..i];
      GatherOne(everything, mine, ops, owners, providers[..i + 1]);
      AskedOne(rows, providers[..i + 1], only, ops, owners, named);
      everything := everything + mine;
      if only.Some? && p != only.value { continue; }
      var row := TallyOne(p, mine, ops, named);
      rows := rows + [row];
    }
    assert providers[..|providers|] == providers;
    var total := TallyOne("all", everything, ops, None);
    GatheredIsTotal(total, everything, ops, owners, providers);
    AskedMeans(providers, only);
    r := Ok(Table(rows, total));
  }

  lemma GatheredIsTotal(total: ProviderTally, everything: seq<string>, ops: map<string, Row>,
                        owners: map<string, string>, providers: seq<string>)
    requires Gathered(everything, ops, owners, providers) && IsRow(total, "all", everything, ops, None)
    ensures IsTotal(total, ops, owners, providers)
  {
  }

  /** The rows asked for, of the providers seen so far. */
  function Asked(seen: seq<string>, only: Option<string>): seq<string> {
    if seen == [] then []
    else
      var n := |seen| - 1;
      Asked(seen[..n], only) + (if only.Some? && seen[n] != only.value then [] else [seen[n]])
  }

  lemma AskedOne(rows: seq<ProviderTally>, seen: seq<string>, only: Option<string>,
                 ops: map<string, Row>, owners: map<string, string>, named: Option<Axis>)
    requires seen != [] && AreRows(rows, Asked(seen[..|seen| - 1], only), ops, owners, named)
    ensures var p := seen[|seen| - 1];
            if only.Some? && p != only.value then AreRows(rows, Asked(seen, only), ops, owners, named)
            else forall row :: IsTally(row, p, Owned(ops, owners, p), ops, named) ==>
              AreRows(rows + [row], Asked(seen, only), ops, owners, named)
  {
    var earlier, p := Asked(seen[..|seen| - 1], only), seen[|seen| - 1];
    if !(only.Some? && p != only.value) {
      forall row, k | IsTally(row, p, Owned(ops, owners, p), ops, named) && 0 <= k <= |rows|
        ensures IsTally((rows + [row])[k], (earlier + [p])[k], Owned(ops, owners, (earlier + [p])[k]), ops, named)
      {
        if k < |rows| { assert (rows + [row])[k] == rows[k] && (earlier + [p])[k] == earlier[k]; }
      }
    }
  }

  /** Asking for no provider in particular asks for each of them. */
  lemma {:induction false} AskedMeans(providers: seq<string>, only: Option<string>)
    ensures only.None? ==> Asked(providers, only) == providers
    ensures forall p :: p in Asked(providers, only) <==> p in providers && (only.Some? ==> p == only.value)
  {
    if providers == [] {
    } else {
      var n := |providers| - 1;
      AskedMeans(providers[..n], only);
      assert providers == providers[..n] + [providers[n]];
    }
  }

  ghost predicate Gathered(everything: seq<string>, ops: map<string, Row>, owners: map<string, string>,
                           seen: seq<string>)
  {
    && |everything| == ServedBy(ops, owners, seen)
    && forall x: Axis :: |Earners(x, everything, ops)| == EarnedBy(x, ops, owners, seen)
  }

  lemma {:induction false} EarnersAppend(x: Axis, a: seq<string>, b: seq<string>, ops: map<string, Row>)
    ensures |Earners(x, a + b, ops)| == |Earners(x, a, ops)| + |Earners(x, b, ops)|
  {
    if b == [] {
      assert a + b == a;
    } else {
      var n := |b| - 1;
      assert (a + b)[..|a| + n] == a + b[..n];
      EarnersAppend(x, a, b[..n], ops);
    }
  }

  lemma GatherOne(everything: seq<string>, mine: seq<string>, ops: map<string, Row>, owners: map<string, string>,
                  seen: seq<string>)
    requires seen != [] && Gathered(everything, ops, owners, seen[..|seen| - 1])
    requires Distinct(mine) && Elements(mine) == Owned(ops, owners, seen[|seen| - 1])
    ensures Within(mine, ops) && Gathered(everything + mine, ops, owners, seen)
  {
    forall op | op in mine ensures op in ops { assert op in Elements(mine); }
    DistinctSize(mine);
    forall x: Axis
      ensures |Earners(x, everything + mine, ops)| == EarnedBy(x, ops, owners, seen)
    {
      EarnersAppend(x, everything, mine, ops);
      EarnersAreEarned(x, mine, ops);
    }
  }

  ghost predicate AreRows(rows: seq<ProviderTally>, providers: seq<string>, ops: map<string, Row>,
                          owners: map<string, string>, named: Option<Axis>)
  {
    && |rows| == |providers|
    && forall i :: 0 <= i < |rows| ==> IsTally(rows[i], providers[i], Owned(ops, owners, providers[i]), ops, named)
  }

  // ----- what the table adds up to -----

  function SumServed(rows: seq<ProviderTally>): nat {
    if rows == [] then 0 else SumServed(rows[..|rows| - 1]) + rows[|rows| - 1].served
  }

  function SumEarned(rows: seq<ProviderTally>, i: nat): nat
    requires forall r :: r in rows ==> i < |r.axes|
  {
    if rows == [] then 0 else SumEarned(rows[..|rows| - 1], i) + rows[|rows| - 1].axes[i].earned
  }

  function SumMissing(rows: seq<ProviderTally>, i: nat): nat
    requires forall r :: r in rows ==> i < |r.axes|
  {
    if rows == [] then 0 else SumMissing(rows[..|rows| - 1], i) + rows[|rows| - 1].axes[i].missing
  }

  /** What `RowsCountWhatIsServed` says of some rows. */
  ghost predicate RowsCount(rows: seq<ProviderTally>, i: nat, served: nat, earned: nat) {
    && (forall r :: r in rows ==> i < |r.axes| && r.axes[i].earned + r.axes[i].missing == r.served)
    && SumServed(rows) == served
    && SumEarned(rows, i) == earned
    && SumEarned(rows, i) + SumMissing(rows, i) == SumServed(rows)
  }

  lemma OneMoreRow(rows: seq<ProviderTally>, i: nat, served: nat, earned: nat, row: ProviderTally)
    requires RowsCount(rows, i, served, earned)
    requires i < |row.axes| && row.axes[i].earned + row.axes[i].missing == row.served
    ensures RowsCount(rows + [row], i, served + row.served, earned + row.axes[i].earned)
  {
    var all := rows + [row];
    assert all[..|rows|] == rows;
    forall r | r in all ensures r in rows || r == row {}
  }

  lemma RowHasTwoHalves(row: ProviderTally, p: string, population: set<string>, ops: map<string, Row>,
                        named: Option<Axis>, i: nat)
    requires i < |AXES| && population <= ops.Keys && IsTally(row, p, population, ops, named)
    ensures i < |row.axes| && row.axes[i].earned + row.axes[i].missing == row.served == |population|
    ensures row.axes[i].earned == |EarnedIn(AXES[i], population, ops)|
  {
    EarnedPlusMissing(AXES[i], population, ops);
  }

  lemma LastRow(rows: seq<ProviderTally>, providers: seq<string>, ops: map<string, Row>, owners: map<string, string>,
                named: Option<Axis>)
    requires rows != [] && AreRows(rows, providers, ops, owners, named)
    ensures var n := |rows| - 1;
            && AreRows(rows[..n], providers[..n], ops, owners, named)
            && IsTally(rows[n], providers[n], Owned(ops, owners, providers[n]), ops, named)
            && rows == rows[..n] + [rows[n]]
  {
  }

  lemma {:induction false} RowsCountWhatIsServed(
    rows: seq<ProviderTally>, providers: seq<string>, ops: map<string, Row>, owners: map<string, string>,
    named: Option<Axis>, i: nat)
    requires i < |AXES| && AreRows(rows, providers, ops, owners, named)
    ensures RowsCount(rows, i, ServedBy(ops, owners, providers), EarnedBy(AXES[i], ops, owners, providers))
  {
    if rows == [] {
    } else {
      var n := |rows| - 1;
      LastRow(rows, providers, ops, owners, named);
      RowsCountWhatIsServed(rows[..n], providers[..n], ops, owners, named, i);
      RowHasTwoHalves(rows[n], providers[n], Owned(ops, owners, providers[n]), ops, named, i);
      OneMoreRow(rows[..n], i, ServedBy(ops, owners, providers[..n]), EarnedBy(AXES[i], ops, owners, providers[..n]),
                 rows[n]);
    }
  }

  /** The rows of all packs add up to the total: what they serve, and axis by
      axis what they have earned and what they miss; and each row's two halves
      make up what it serves. */
  lemma RowsAddUpToTheTotal(
    table: Table, providers: seq<string>, ops: map<string, Row>, owners: map<string, string>, named: Option<Axis>,
    i: nat)
    requires i < |AXES|
    requires AreRows(table.providers, providers, ops, owners, named)
    requires IsTotal(table.total, ops, owners, providers)
    ensures forall r :: r in table.providers ==> i < |r.axes| && r.axes[i].earned + r.axes[i].missing == r.served
    ensures SumServed(table.providers) == table.total.served
    ensures SumEarned(table.providers, i) == table.total.axes[i].earned
    ensures SumMissing(table.providers, i) == table.total.axes[i].missing
  {
    RowsCountWhatIsServed(table.providers, providers, ops, owners, named, i);
  }

  // ----- when the total is the record -----

  ghost function Everything(ops: map<string, Row>, owners: map<string, string>, providers: seq<string>): set<string> {
    set op | op in ops && op in owners && owners[op] in providers
  }

  lemma SizeOfUnion(whole: set<string>, a: set<string>, b: set<string>)
    requires a !! b && whole == a + b
    ensures |whole| == |a| + |b|
  {
  }

  lemma OneMoreProvider(x: Axis, ops: map<string, Row>, owners: map<string, string>, earlier: seq<string>, p: string)
    requires p !in earlier
    ensures |Everything(ops, owners, earlier + [p])| == |Everything(ops, owners, earlier)| + |Owned(ops, owners, p)|
    ensures |EarnedIn(x, Everything(ops, owners, earlier + [p]), ops)|
         == |EarnedIn(x, Everything(ops, owners, earlier), ops)| + |EarnedIn(x, Owned(ops, owners, p), ops)|
  {
    var all, before, mine := Everything(ops, owners, earlier + [p]), Everything(ops, owners, earlier),
        Owned(ops, owners, p);
    assert all == before + mine && before !! mine;
    SizeOfUnion(all, before, mine);
    SizeOfUnion(EarnedIn(x, all, ops), EarnedIn(x, before, ops), EarnedIn(x, mine, ops));
  }

  lemma {:induction false} NobodyIsCountedTwice(x: Axis, ops: map<string, Row>, owners: map<string, string>,
                                                providers: seq<string>)
    requires Distinct(providers)
    ensures ServedBy(ops, owners, providers) == |Everything(ops, owners, providers)|
    ensures EarnedBy(x, ops, owners, providers) == |EarnedIn(x, Everything(ops, owners, providers), ops)|
  {
    if providers == [] {
      assert Everything(ops, owners, providers) == {} && EarnedIn(x, {}, ops) == {};
    } else {
      var n := |providers| - 1;
      NobodyIsCountedTwice(x, ops, owners, providers[..n]);
      LastApartOf(providers);
      OneMoreProvider(x, ops, owners, providers[..n], providers[n]);
      assert providers == providers[..n] + [providers[n]];
    }
  }

  /** When no pack is listed twice and every owner is listed, the total counts
      the whole record, each operation once. */
  lemma TheTotalIsTheRecord(total: ProviderTally, ops: map<string, Row>, owners: map<string, string>,
                            providers: seq<string>)
    requires Distinct(providers) && Mounted(owners, providers) && Unclaimed(ops, owners) == {}
    requires IsTotal(total, ops, owners, providers)
    ensures IsTally(total, "all", ops.Keys, ops, None)
    ensures forall p, q :: p != q ==> Owned(ops, owners, p) !! Owned(ops, owners, q)
  {
    assert forall op :: op in ops && op !in owners ==> op in Unclaimed(ops, owners);
    assert Everything(ops, owners, providers) == ops.Keys;
    forall i | 0 <= i < |AXES|
      ensures total.axes[i]
                == AxisTally(AXES[i], |EarnedIn(AXES[i], ops.Keys, ops)|, |MissingIn(AXES[i], ops.Keys, ops)|,
                                         PercentOf(|EarnedIn(AXES[i], ops.Keys, ops)|, |ops.Keys|))
    {
      NobodyIsCountedTwice(AXES[i], ops, owners, providers);
      EarnedPlusMissing(AXES[i], ops.Keys, ops);
    }
    NobodyIsCountedTwice(Driven, ops, owners, providers);
  }
}
