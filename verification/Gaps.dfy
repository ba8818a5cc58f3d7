/** The work queue behind the score: what each zero of the record is for. */
module Gaps {
  import opened Wrappers
  import opened Text
  import opened Ordering
  import opened Evidence
  import opened Tally

  /** Ordered as declared: violations first, what nothing can close last. */
  datatype GapKind = GapViolating | GapUnvalidated | GapUnrecorded | GapUndriven | GapUnproven | GapDeclared

  const KINDS: seq<GapKind> := [GapViolating, GapUnvalidated, GapUnrecorded, GapUndriven, GapUnproven, GapDeclared]

  function KindName(k: GapKind): string {
    match k
    case GapViolating => "violating"
    case GapUnvalidated => "unvalidated"
    case GapUnrecorded => "unrecorded"
    case GapUndriven => "undriven"
    case GapUnproven => "unproven"
    case GapDeclared => "declared"
  }

  function Position(k: GapKind): nat {
    match k
    case GapViolating => 0
    case GapUnvalidated => 1
    case GapUnrecorded => 2
    case GapUndriven => 3
    case GapUnproven => 4
    case GapDeclared => 5
  }

  function RankOf(name: string): nat {
    if name == "violating" then 0
    else if name == "unvalidated" then 1
    else if name == "unrecorded" then 2
    else if name == "undriven" then 3
    else if name == "unproven" then 4
    else if name == "declared" then 5
    else |KINDS|
  }

  lemma WordsDiffer(a: string, b: string, i: nat)
    requires i < |a| && i < |b| && a[i] != b[i]
    ensures a != b
  {
  }

  /** The six words of the queue from the one to be read first to the one nothing
      can close; any other word is read after all of them. */
  lemma RanksAre(name: string)
    ensures RankOf(name) == 0 <==> name == "violating"
    ensures RankOf(name) == 1 <==> name == "unvalidated"
    ensures RankOf(name) == 2 <==> name == "unrecorded"
    ensures RankOf(name) == 3 <==> name == "undriven"
    ensures RankOf(name) == 4 <==> name == "unproven"
    ensures RankOf(name) == 5 <==> name == "declared"
    ensures RankOf(name) <= 6
  {
    WordsDiffer("undriven", "unproven", 2);
    WordsDiffer("undriven", "declared", 0);
    WordsDiffer("unproven", "declared", 0);
    assert |"violating"| == 9 && |"unvalidated"| == 11 && |"unrecorded"| == 10;
    assert |"undriven"| == 8 && |"unproven"| == 8 && |"declared"| == 8;
  }

  lemma RankOfAKind(k: GapKind)
    ensures RankOf(KindName(k)) == Position(k)
  {
    RanksAre(KindName(k));
  }

  /** kindRank: the names are searched in the order of a map walk, and the order
      does not show. */
  method KindRank(name: string) returns (rank: nat)
    ensures rank == RankOf(name)
  {
    var left: set<GapKind> := set k | k in KINDS;
    forall k ensures k in left { assert k == KINDS[Position(k)]; }
    while left != {}
      invariant forall k :: k in left || KindName(k) != name
    {
      var k :| k in left;
      left := left - {k};
      if KindName(k) == name {
        RankOfAKind(k);
        return Position(k);
      }
    }
    assert KindName(GapViolating) != name && KindName(GapUnvalidated) != name && KindName(GapUnrecorded) != name;
    assert KindName(GapUndriven) != name && KindName(GapUnproven) != name && KindName(GapDeclared) != name;
    return |KINDS|;
  }

  // ----- classifying one zero -----

  datatype Earner = EarnedByAClient | EarnedByValidation | EarnedByARecording

  function EarnerOf(x: Axis): Earner {
    match x
    case Probed => EarnedByValidation
    case Contract => EarnedByValidation
    case Shape => EarnedByARecording
    case _ => EarnedByAClient
  }

  function ClassifyGap(r: Row, x: Axis, undriven: string, unearnable: string): (GapKind, string) {
    if VerdictOf(x, r) == Some(Violating) then (GapViolating, "")
    else if EarnerOf(x) == EarnedByAClient && !r.driven then
      if undriven != "" then (GapDeclared, undriven) else (GapUndriven, "")
    else if unearnable != "" then (GapDeclared, unearnable)
    else match EarnerOf(x)
      case EarnedByValidation => (GapUnvalidated, "")
      case EarnedByARecording => (GapUnrecorded, "")
      case EarnedByAClient => (GapUnproven, "")
  }

  /** A reason is printed exactly on the declared zeros. A route's client reason
      retires one only where a client alone could have earned the axis and none
      drove the operation; everywhere else the printed reason is the axis's own. */
  lemma ReasonsExplainOnlyWhatTheyAreAbout(r: Row, x: Axis, undriven: string, unearnable: string)
    ensures var (kind, why) := ClassifyGap(r, x, undriven, unearnable);
      && (why != "" <==> kind == GapDeclared)
      && (kind == GapDeclared ==>
            why == if x in {Driven, Dataplane, Behaviour, Negative} && !r.driven then undriven else unearnable)
      && (kind == GapUnproven ==> r.driven && x in {Dataplane, Behaviour, Negative, Driven})
  {
    assert x in {Driven, Dataplane, Behaviour, Negative} <==> EarnerOf(x) == EarnedByAClient;
  }

  /** On what the reader accepts, a zero is a defect exactly when it is a violated
      contract, and an undriven operation's `driven` axis is never unexplained. */
  lemma DefectsAreViolatedContracts(r: Row, x: Axis, undriven: string, unearnable: string)
    requires ValidRow(r) && !Earned(x, r)
    ensures ClassifyGap(r, x, undriven, unearnable).0 == GapViolating <==> x == Contract && r.contract == Violating
    ensures x == Driven ==> ClassifyGap(r, x, undriven, unearnable).0 in {GapDeclared, GapUndriven}
  {
  }

  /** What each kind says of the record, on the rows the reader accepts: an
      unvalidated zero was never held to a description, an unrecorded one never
      seen in a recording, an undriven one never reached and never explained. */
  lemma EachKindSaysWhatIsMissing(r: Row, x: Axis, undriven: string, unearnable: string)
    requires ValidRow(r) && !Earned(x, r)
    ensures var kind := ClassifyGap(r, x, undriven, unearnable).0;
      && (kind == GapUnvalidated <==>
            unearnable == "" && ((x == Probed && r.probed == NoProbe) || (x == Contract && r.contract == Unchecked)))
      && (kind == GapUnrecorded <==> unearnable == "" && x == Shape && r.shape in {Unobserved, Unknown})
      && (kind == GapUndriven <==> undriven == "" && !r.driven && x in {Driven, Dataplane, Behaviour, Negative})
      && (kind == GapUnproven <==> unearnable == "" && r.driven && x in {Dataplane, Behaviour, Negative})
  {
    assert EarnerOf(x) == EarnedByAClient <==> x in {Driven, Dataplane, Behaviour, Negative};
  }

  // ----- the queue -----

  datatype GapEntry = GapEntry(operation: string, axis: Axis, kind: string, verdict: Option<Word>, reason: string)

  datatype GapGroup = GapGroup(provider: string, axis: Axis, missing: nat, entries: seq<GapEntry>)

  /** What the routes declare: why no client reaches an operation, and why one of
      its axes cannot be earned. */
  datatype Declarations = Declarations(undriven: map<string, string>, unearnable: map<string, map<Axis, string>>)

  function UndrivenReason(d: Declarations, op: string): string {
    if op in d.undriven then d.undriven[op] else ""
  }

  function UnearnableReason(d: Declarations, op: string, x: Axis): string {
    if op in d.unearnable && x in d.unearnable[op] then d.unearnable[op][x] else ""
  }

  function EntryFor(op: string, r: Row, x: Axis, d: Declarations): GapEntry {
    var (kind, why) := ClassifyGap(r, x, UndrivenReason(d, op), UnearnableReason(d, op, x));
    GapEntry(op, x, KindName(kind), VerdictOf(x, r), why)
  }

  /** No reason is declared for `key`; an empty one counts as none. */
  predicate Unexplained(reasons: map<string, string>, key: string) {
    key in reasons ==> reasons[key] == ""
  }

  predicate Earnable(d: Declarations, op: string, x: Axis) {
    op in d.unearnable && x in d.unearnable[op] ==> d.unearnable[op][x] == ""
  }

  /** The words of an entry, on a row the reader accepts: which of the six is
      printed is told by the axis, the row and what the routes declare, and a reason
      is printed with the last of them alone. */
  lemma EntriesSayWhatIsMissing(op: string, r: Row, x: Axis, d: Declarations)
    requires ValidRow(r) && !Earned(x, r)
    ensures var e, client := EntryFor(op, r, x, d), x in {Driven, Dataplane, Behaviour, Negative};
      && e.operation == op && e.axis == x && e.verdict == VerdictOf(x, r)
      && (e.kind == "violating" <==> x == Contract && r.contract == Violating)
      && (e.kind == "unvalidated" <==>
            Earnable(d, op, x) && ((x == Probed && r.probed == NoProbe) || (x == Contract && r.contract == Unchecked)))
      && (e.kind == "unrecorded" <==> Earnable(d, op, x) && x == Shape)
      && (e.kind == "undriven" <==> client && !r.driven && Unexplained(d.undriven, op))
      && (e.kind == "unproven" <==> client && r.driven && Earnable(d, op, x))
      && (e.kind == "declared" <==> e.reason != "")
      && (e.reason != "" ==> if client && !r.driven then op in d.undriven && e.reason == d.undriven[op]
                             else op in d.unearnable && x in d.unearnable[op] && e.reason == d.unearnable[op][x])
  {
    var undriven, unearnable := UndrivenReason(d, op), UnearnableReason(d, op, x);
    var kind := ClassifyGap(r, x, undriven, unearnable).0;
    RanksAre(KindName(kind));
    EachKindSaysWhatIsMissing(r, x, undriven, unearnable);
    DefectsAreViolatedContracts(r, x, undriven, unearnable);
    ReasonsExplainOnlyWhatTheyAreAbout(r, x, undriven, unearnable);
  }

  predicate GapLe(a: GapEntry, b: GapEntry) {
    RankOf(a.kind) < RankOf(b.kind) || (RankOf(a.kind) == RankOf(b.kind) && Le(a.operation, b.operation))
  }

  lemma GapLeIsAnOrder()
    ensures TotalPreorder(GapLe)
  {
    StringsAreOrdered();
  }

  /** The group of one provider and one axis: its population's zeros, each once,
      classified, by kind then by name. */
  ghost predicate IsGroup(g: GapGroup, p: string, x: Axis, population: set<string>, ops: map<string, Row>,
                          d: Declarations)
  {
    && g.provider == p && g.axis == x
    && g.missing == |g.entries|
    && Sorted(g.entries, GapLe)
    && Distinct(g.entries)
    && (forall e :: e in g.entries <==>
        e.operation in MissingIn(x, population, ops) && e == EntryFor(e.operation, ops[e.operation], x, d))
  }

  method Group(p: string, x: Axis, operations: seq<string>, ops: map<string, Row>, d: Declarations)
    returns (g: GapGroup)
    requires Distinct(operations) && forall op :: op in operations ==> op in ops
    ensures IsGroup(g, p, x, Elements(operations), ops, d)
  {
    var entries: seq<GapEntry> := [];
    for i := 0 to |operations|
      invariant Distinct(entries)
      invariant forall e :: e in entries <==>
                  e.operation in operations[..i] && !Earned(x, ops[e.operation])
                      && e == EntryFor(e.operation, ops[e.operation], x, d)
    {
      var op := operations[i];
      assert operations[..i + 1] == operations[..i] + [op];
      if Earned(x, ops[op]) { continue; }
      assert op !in operations[..i];
      entries := entries + [EntryFor(op, ops[op], x, d)];
    }
    assert operations[..|operations|] == operations;
    GapLeIsAnOrder();
    SortSorted(entries, GapLe);
    DistinctMultiset(entries);
    var sorted := Sort(entries, GapLe);
    MultisetDistinct(sorted, Elements(entries));
    forall e ensures e in sorted <==> e in entries {
      assert e in sorted <==> e in Elements(sorted);
    }
    g := GapGroup(p, x, |sorted|, sorted);
  }

  /** There is one such group, whatever order the record was walked in. */
  lemma GroupIsUnique(g: GapGroup, h: GapGroup, p: string, x: Axis, population: set<string>, ops: map<string, Row>,
                      d: Declarations)
    requires IsGroup(g, p, x, population, ops, d) && IsGroup(h, p, x, population, ops, d)
    ensures g == h
  {
    DistinctMultiset(g.entries);
    DistinctMultiset(h.entries);
    assert Elements(g.entries) == Elements(h.entries);
    StringsAreOrdered();
    forall i, j | 0 <= i < |g.entries| && 0 <= j < |g.entries| && GapLe(g.entries[i], g.entries[j])
        && GapLe(g.entries[j], g.entries[i])
      ensures g.entries[i] == g.entries[j]
    {
      assert g.entries[i] in g.entries && g.entries[j] in g.entries;
    }
    SortedIsUnique(g.entries, h.entries, GapLe);
  }

  lemma {:induction false} GroupSize(g: GapGroup, p: string, x: Axis, population: set<string>, ops: map<string, Row>,
                                     d: Declarations)
    requires IsGroup(g, p, x, population, ops, d)
    ensures g.missing == |MissingIn(x, population, ops)|
    ensures (set e | e in g.entries :: e.operation) == MissingIn(x, population, ops)
  {
    var names := seq(|g.entries|, i requires 0 <= i < |g.entries| => g.entries[i].operation);
    forall i, j | 0 <= i < j < |names|
      ensures names[i] != names[j]
    {
      assert g.entries[i] in g.entries && g.entries[j] in g.entries;
    }
    DistinctSize(names);
    forall op ensures op in names <==> op in MissingIn(x, population, ops) {
      if op in MissingIn(x, population, ops) {
        var e := EntryFor(op, ops[op], x, d);
        assert e in g.entries;
        var i :| 0 <= i < |g.entries| && g.entries[i] == e;
        assert names[i] == op;
      }
      if op in names {
        var i :| 0 <= i < |names| && names[i] == op;
        assert g.entries[i] in g.entries;
      }
    }
    assert Elements(names) == MissingIn(x, population, ops);
    assert forall e :: e in g.entries ==> e.operation in MissingIn(x, population, ops);
    forall op | op in MissingIn(x, population, ops)
      ensures op in set e | e in g.entries :: e.operation
    {
      assert EntryFor(op, ops[op], x, d) in g.entries;
    }
  }

  /** The pairs, in the order they are asked for, that miss something. */
  ghost function MissingPairs(providers: seq<string>, axes: seq<Axis>, ops: map<string, Row>,
                              owners: map<string, string>): seq<(string, Axis)>
  {
    if providers == [] then []
    else
      var p := providers[|providers| - 1];
      MissingPairs(providers[..|providers| - 1], axes, ops, owners) + MissingAxes(p, axes, ops, owners)
  }

  ghost function MissingAxes(p: string, axes: seq<Axis>, ops: map<string, Row>,
                             owners: map<string, string>): seq<(string, Axis)>
  {
    if axes == [] then []
    else
      var x := axes[|axes| - 1];
      MissingAxes(p, axes[..|axes| - 1], ops, owners)
      + (if MissingIn(x, Owned(ops, owners, p), ops) == {} then [] else [(p, x)])
  }

  ghost predicate AreGroups(groups: seq<GapGroup>, pairs: seq<(string, Axis)>, ops: map<string, Row>,
                            owners: map<string, string>, d: Declarations)
  {
    && |groups| == |pairs|
    && forall i :: 0 <= i < |groups| ==>
        IsGroup(groups[i], pairs[i].0, pairs[i].1, Owned(ops, owners, pairs[i].0), ops, d)
  }

  function AxesAsked(only: Option<Axis>): seq<Axis> {
    if only.Some? then [only.value] else AXES
  }

  /** buildGaps, once the axis asked for is known to exist. An operation no pack
      claims is in no group. */
  method BuildGaps(ops: map<string, Row>, owners: map<string, string>, d: Declarations,
                   providers: seq<string>, only: Option<string>, onlyAxis: Option<Axis>) returns (groups: seq<GapGroup>)
    ensures AreGroups(groups, MissingPairs(Asked(providers, only), AxesAsked(onlyAxis), ops, owners), ops, owners, d)
  {
    var axes := AxesAsked(onlyAxis);
    var byProvider, _ := SplitByOwner(ops, owners);
    groups := [];
    for i := 0 to |providers|
      invariant AreGroups(groups, MissingPairs(Asked(providers[..i], only), axes, ops, owners), ops, owners, d)
    {
      var p := providers[i];
      assert providers[..i + 1][..i] == providers[..i];
      ghost var before := Asked(providers[..i], only);
      if only.Some? && p != only.value {
        assert Asked(providers[..i + 1], only) == before;
        continue;
      }
      assert Asked(providers[..i + 1], only) == before + [p];
      MissingPairsSnoc(before, p, axes, ops, owners);
      var mine := if p in byProvider then byProvider[p] else [];
      assert Elements(mine) == Owned(ops, owners, p);
      var more := GroupsOf(p, axes, mine, ops, owners, d);
      GroupsAppend(groups, MissingPairs(before, axes, ops, owners), more, MissingAxes(p, axes, ops, owners), ops,
                   owners, d);
      groups := groups + more;
    }
    assert providers[..|providers|] == providers;
  }

  lemma MissingPairsSnoc(before: seq<string>, p: string, axes: seq<Axis>, ops: map<string, Row>,
                         owners: map<string, string>)
    ensures MissingPairs(before + [p], axes, ops, owners)
              == MissingPairs(before, axes, ops, owners) + MissingAxes(p, axes, ops, owners)
  {
    assert (before + [p])[..|before|] == before;
  }

  lemma GroupsAppend(
    a: seq<GapGroup>, pa: seq<(string, Axis)>, b: seq<GapGroup>, pb: seq<(string, Axis)>,
    ops: map<string, Row>, owners: map<string, string>, d: Declarations)
    requires AreGroups(a, pa, ops, owners, d) && AreGroups(b, pb, ops, owners, d)
    ensures AreGroups(a + b, pa + pb, ops, owners, d)
  {
  }

  method GroupsOf(p: string, axes: seq<Axis>, mine: seq<string>, ops: map<string, Row>,
                  ghost owners: map<string, string>, d: Declarations)
    returns (groups: seq<GapGroup>)
    requires Distinct(mine) && Elements(mine) == Owned(ops, owners, p)
    ensures AreGroups(groups, MissingAxes(p, axes, ops, owners), ops, owners, d)
  {
    groups := [];
    forall op | op in mine ensures op in ops { assert op in Elements(mine); }
    for i := 0 to |axes|
      invariant AreGroups(groups, MissingAxes(p, axes[..i], ops, owners), ops, owners, d)
    {
      assert axes[..i + 1][..i] == axes[..i];
      var g := Group(p, axes[i], mine, ops, d);
      GroupSize(g, p, axes[i], Elements(mine), ops, d);
      if |g.entries| == 0 { continue; }
      groups := groups + [g];
    }
    assert axes[..|axes|] == axes;
  }

  // ----- the score and the queue -----

  /** The score and the queue are two readings of one record, whatever the queue
      was narrowed to: a group exists for a provider and an axis exactly when both
      were asked for and the row misses something there, and then the group holds
      as many entries as the row misses and the same operations the row's own
      queue would list. */
  lemma ScoreAndQueueAgree(
    row: ProviderTally, groups: seq<GapGroup>, providers: seq<string>, only: Option<string>, onlyAxis: Option<Axis>,
    p: string, i: nat,
    ops: map<string, Row>, owners: map<string, string>, d: Declarations, named: Option<Axis>)
    requires i < |AXES| && p in providers
    requires IsTally(row, p, Owned(ops, owners, p), ops, named)
    requires AreGroups(groups, MissingPairs(Asked(providers, only), AxesAsked(onlyAxis), ops, owners), ops, owners, d)
    ensures (exists g :: g in groups && g.provider == p && g.axis == AXES[i])
       <==> && (only.Some? ==> only.value == p)
            && (onlyAxis.Some? ==> onlyAxis.value == AXES[i])
            && row.axes[i].missing > 0
    ensures forall g :: g in groups && g.provider == p && g.axis == AXES[i] ==> GroupMatchesRow(g, row, i, named)
  {
    var x, pairs := AXES[i], MissingPairs(Asked(providers, only), AxesAsked(onlyAxis), ops, owners);
    AskedMeans(providers, only);
    PairsAreTheMissing(Asked(providers, only), AxesAsked(onlyAxis), ops, owners, p, x);
    if (p, x) in pairs {
      var k :| 0 <= k < |pairs| && pairs[k] == (p, x);
      assert groups[k] in groups;
    }
    forall g | g in groups && g.provider == p && g.axis == x
      ensures GroupMatchesRow(g, row, i, named) && (p, x) in pairs
    {
      var k :| 0 <= k < |groups| && groups[k] == g;
      assert pairs[k] == (p, x);
      GroupSize(g, p, x, Owned(ops, owners, p), ops, d);
      if named == Some(x) { QueueNames(row.queue, x, Owned(ops, owners, p), ops); }
    }
  }

  /** A group counts what the row misses on its axis, and lists what the row's
      queue lists when that is the axis the row was asked to queue. */
  ghost predicate GroupMatchesRow(g: GapGroup, row: ProviderTally, i: nat, named: Option<Axis>)
    requires i < |AXES|
  {
    && i < |row.axes|
    && g.missing == row.axes[i].missing == |g.entries|
    && (named == Some(AXES[i]) ==>
          && (set e | e in g.entries :: e.operation) == (set q | q in row.queue :: q.operation)
          && forall e, q :: e in g.entries && q in row.queue && e.operation == q.operation ==> e.verdict == q.verdict)
  }

  lemma QueueNames(queue: seq<QueueEntry>, x: Axis, population: set<string>, ops: map<string, Row>)
    requires IsQueue(queue, x, population, ops)
    ensures (set q | q in queue :: q.operation) == MissingIn(x, population, ops)
  {
    forall op | op in MissingIn(x, population, ops)
      ensures op in set q | q in queue :: q.operation
    {
      assert QueueEntry(op, VerdictOf(x, ops[op])) in queue;
    }
  }

  /** The pairs a queue covers are exactly the provider and axis pairs asked for
      that miss something. */
  lemma {:induction false} PairsAreTheMissing(providers: seq<string>, axes: seq<Axis>, ops: map<string, Row>,
                                              owners: map<string, string>, p: string, x: Axis)
    ensures (p, x) in MissingPairs(providers, axes, ops, owners)
       <==> p in providers && x in axes && MissingIn(x, Owned(ops, owners, p), ops) != {}
  {
    if providers == [] {
    } else {
      var n := |providers| - 1;
      PairsAreTheMissing(providers[..n], axes, ops, owners, p, x);
      AxesAreTheMissing(providers[n], axes, ops, owners, p, x);
      assert providers == providers[..n] + [providers[n]];
    }
  }

  lemma {:induction false} AxesAreTheMissing(owner: string, axes: seq<Axis>, ops: map<string, Row>,
                                             owners: map<string, string>, p: string, x: Axis)
    ensures (p, x) in MissingAxes(owner, axes, ops, owners)
       <==> p == owner && x in axes && MissingIn(x, Owned(ops, owners, p), ops) != {}
  {
    if axes == [] {
    } else {
      var n := |axes| - 1;
      AxesAreTheMissing(owner, axes[..n], ops, owners, p, x);
      assert axes == axes[..n] + [axes[n]];
    }
  }

  // ----- the order of the groups -----

  predicate Place(providers: seq<string>, axes: seq<Axis>, pair: (string, Axis), a: nat, b: nat) {
    a < |providers| && b < |axes| && pair == (providers[a], axes[b])
  }

  /** `u` is asked for before `v`: an earlier provider, or an earlier axis of the same. */
  ghost predicate AskedBefore(providers: seq<string>, axes: seq<Axis>, u: (string, Axis), v: (string, Axis)) {
    exists a, b, c, e ::
        Place(providers, axes, u, a, b) && Place(providers, axes, v, c, e) && (a < c || (a == c && b < e))
  }

  ghost predicate InOrder(providers: seq<string>, axes: seq<Axis>, pairs: seq<(string, Axis)>) {
    forall j, k :: 0 <= j < k < |pairs| ==> AskedBefore(providers, axes, pairs[j], pairs[k])
  }

  lemma InOrderAppend(providers: seq<string>, axes: seq<Axis>, earlier: seq<(string, Axis)>, more: seq<(string, Axis)>)
    requires InOrder(providers, axes, earlier) && InOrder(providers, axes, more)
    requires forall u, v :: u in earlier && v in more ==> AskedBefore(providers, axes, u, v)
    ensures InOrder(providers, axes, earlier + more)
  {
    var pairs := earlier + more;
    forall j, k | 0 <= j < k < |pairs|
      ensures AskedBefore(providers, axes, pairs[j], pairs[k])
    {
      if j < |earlier| <= k {
        assert pairs[j] in earlier && pairs[k] in more;
      }
    }
  }

  lemma {:induction false} AxesComeInOrder(providers: seq<string>, axes: seq<Axis>, n: nat, m: nat,
                                           ops: map<string, Row>, owners: map<string, string>)
    requires n < |providers| && m <= |axes|
    ensures InOrder(providers, axes, MissingAxes(providers[n], axes[..m], ops, owners))
  {
    if m == 0 {
    } else {
      var p, earlier := providers[n], MissingAxes(providers[n], axes[..m - 1], ops, owners);
      assert axes[..m][..m - 1] == axes[..m - 1];
      AxesComeInOrder(providers, axes, n, m - 1, ops, owners);
      forall u | u in earlier
        ensures AskedBefore(providers, axes, u, (p, axes[m - 1]))
      {
        AxesAreTheMissing(p, axes[..m - 1], ops, owners, u.0, u.1);
        var b :| 0 <= b < m - 1 && axes[..m - 1][b] == u.1;
        assert Place(providers, axes, u, n, b) && Place(providers, axes, (p, axes[m - 1]), n, m - 1);
      }
      InOrderAppend(providers, axes, earlier, [(p, axes[m - 1])]);
      assert earlier + [] == earlier;
    }
  }

  /** The groups come out in the order they were asked for. */
  lemma {:induction false} PairsComeInOrder(providers: seq<string>, axes: seq<Axis>, n: nat, ops: map<string, Row>,
                                            owners: map<string, string>)
    requires n <= |providers|
    ensures InOrder(providers, axes, MissingPairs(providers[..n], axes, ops, owners))
  {
    if n == 0 {
    } else {
      var p := providers[n - 1];
      var earlier, more := MissingPairs(providers[..n - 1], axes, ops, owners), MissingAxes(p, axes, ops, owners);
      assert providers[..n][..n - 1] == providers[..n - 1] && axes[..|axes|] == axes;
      PairsComeInOrder(providers, axes, n - 1, ops, owners);
      AxesComeInOrder(providers, axes, n - 1, |axes|, ops, owners);
      forall u, v | u in earlier && v in more
        ensures AskedBefore(providers, axes, u, v)
      {
        PairsAreTheMissing(providers[..n - 1], axes, ops, owners, u.0, u.1);
        AxesAreTheMissing(p, axes, ops, owners, v.0, v.1);
        var a :| 0 <= a < n - 1 && providers[..n - 1][a] == u.0;
        var b :| 0 <= b < |axes| && axes[b] == u.1;
        var e :| 0 <= e < |axes| && axes[e] == v.1;
        assert Place(providers, axes, u, a, b) && Place(providers, axes, v, n - 1, e);
      }
      InOrderAppend(providers, axes, earlier, more);
    }
  }
}
