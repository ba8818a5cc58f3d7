/** `feint corpus --check`: the committed corpora replayed at the emulator, the
    divergences excused by the acceptance list, and the exit code. */
module CorpusGate {
  import opened Wrappers
  import opened Ordering
  import opened Text
  import opened Replay

  /** The kind an entry spells: nothing but white space, a word no finding
      carries, or one of the kinds. */
  datatype Spelled = Blank | Unheard | Named(kind: Kind)

  /** One accepted divergence. `reasoned` says that its reason carries a decision,
      by the rule the packs' own declines face. */
  datatype Exception = Exception(file: string, operation: string, kind: Spelled, path: string, reasoned: bool,
                                 issue: string)

  /** One finding of one file, as the gate grades it. */
  datatype Item = Item(file: string, operation: string, finding: Finding)

  /** The segment rule shared with the packs' declines: a "*" stands for exactly
      one segment. */
  predicate PathMatches(want: string, got: string) {
    var w, g := Split(want, '.'), Split(got, '.');
    |w| == |g| && forall i :: 0 <= i < |w| ==> w[i] == "*" || w[i] == g[i]
  }

  predicate Matches(e: Exception, item: Item) {
    e.file == item.file && e.kind == Named(item.finding.kind) && e.operation == item.operation
        && PathMatches(e.path, item.finding.path)
  }

  /** The entry is about the item: its file, its operation and its kind, and a path
      with as many segments, each a star or the item's own. */
  ghost predicate IsAbout(e: Exception, item: Item) {
    && e.file == item.file && e.operation == item.operation
    && e.kind == Named(item.finding.kind)
    && |Split(e.path, '.')| == |Split(item.finding.path, '.')|
    && forall i :: 0 <= i < |Split(e.path, '.')| ==>
         Split(e.path, '.')[i] == ['*'] || Split(e.path, '.')[i] == Split(item.finding.path, '.')[i]
  }

  lemma MatchesMeans(e: Exception, item: Item)
    ensures Matches(e, item) <==> IsAbout(e, item)
  {
  }

  // ----- what is graded -----

  predicate IsGradable(f: Finding) {
    f.kind != KindExcused && f.kind != KindRedacted
  }

  function GradableOf(file: string, operation: string, fs: seq<Finding>): seq<Item> {
    if fs == [] then []
    else
      var f := fs[|fs| - 1];
      GradableOf(file, operation, fs[..|fs| - 1]) + (if IsGradable(f) then [Item(file, operation, f)] else [])
  }

  function GradableItems(file: string, results: seq<ReplayResult>): seq<Item> {
    if results == [] then []
    else
      var r := results[|results| - 1];
      GradableItems(file, results[..|results| - 1])
      + (if r.verdict == Divergent then GradableOf(file, r.operation, r.findings) else [])
  }

  /** A finding of a diverging result of a file that was replayed, neither excused by
      a pack nor erased by the recorder. */
  ghost predicate IsGraded(file: string, results: seq<ReplayResult>, item: Item) {
    exists r :: r in results && r.verdict == Divergent
      && item.file == file && item.operation == r.operation && item.finding in r.findings
      && item.finding.kind != KindExcused && item.finding.kind != KindRedacted
  }

  lemma {:induction false} GradableOfMeans(file: string, operation: string, fs: seq<Finding>, item: Item)
    ensures item in GradableOf(file, operation, fs) <==>
              && item.file == file && item.operation == operation && item.finding in fs
              && item.finding.kind != KindExcused && item.finding.kind != KindRedacted
  {
    if fs == [] {
    } else {
      GradableOfMeans(file, operation, fs[..|fs| - 1], item);
      assert fs == fs[..|fs| - 1] + [fs[|fs| - 1]];
    }
  }

  lemma {:induction false} GradableMeans(file: string, results: seq<ReplayResult>, item: Item)
    ensures item in GradableItems(file, results) <==> IsGraded(file, results, item)
  {
    if results == [] {
    } else {
      var n := |results| - 1;
      GradableMeans(file, results[..n], item);
      GradableOfMeans(file, results[n].operation, results[n].findings, item);
      assert results == results[..n] + [results[n]];
    }
  }

  // ----- who a finding is charged to -----

  /** `i` is the first entry that excuses the item. */
  ghost predicate ChargedTo(accepted: seq<Exception>, item: Item, i: int) {
    0 <= i < |accepted| && Matches(accepted[i], item) && forall j :: 0 <= j < i ==> !Matches(accepted[j], item)
  }

  ghost predicate Excused(accepted: seq<Exception>, item: Item) {
    exists e :: e in accepted && Matches(e, item)
  }

  method AcceptedBy(accepted: seq<Exception>, item: Item) returns (i: Option<nat>)
    ensures i.Some? ==> ChargedTo(accepted, item, i.value)
    ensures i.Some? <==> Excused(accepted, item)
    ensures i.Some? <==> exists e :: e in accepted && IsAbout(e, item)
    ensures i.Some? ==> i.value < |accepted| && IsAbout(accepted[i.value], item)
    ensures i.Some? ==> forall j :: 0 <= j < i.value ==> !IsAbout(accepted[j], item)
  {
    forall e | e in accepted ensures Matches(e, item) <==> IsAbout(e, item) { MatchesMeans(e, item); }
    for k := 0 to |accepted|
      invariant forall j :: 0 <= j < k ==> !Matches(accepted[j], item)
    {
      if Matches(accepted[k], item) { return Some(k); }
    }
    return None;
  }

  /** How many of the items entry `i` is charged with. */
  ghost function Charges(accepted: seq<Exception>, items: seq<Item>, i: nat): nat {
    if items == [] then 0
    else Charges(accepted, items[..|items| - 1], i) + (if ChargedTo(accepted, items[|items| - 1], i) then 1 else 0)
  }

  ghost function Unaccepted(accepted: seq<Exception>, items: seq<Item>): nat {
    if items == [] then 0
    else Unaccepted(accepted, items[..|items| - 1]) + (if Excused(accepted, items[|items| - 1]) then 0 else 1)
  }

  lemma Snoc(accepted: seq<Exception>, items: seq<Item>, item: Item)
    ensures Unaccepted(accepted, items + [item])
              == Unaccepted(accepted, items) + (if Excused(accepted, item) then 0 else 1)
    ensures forall i: nat ::
              Charges(accepted, items + [item], i)
                  == Charges(accepted, items, i) + (if ChargedTo(accepted, item, i) then 1 else 0)
  {
    assert (items + [item])[..|items|] == items;
  }

  lemma {:induction false} Append(accepted: seq<Exception>, a: seq<Item>, b: seq<Item>)
    ensures Unaccepted(accepted, a + b) == Unaccepted(accepted, a) + Unaccepted(accepted, b)
    ensures forall i: nat :: Charges(accepted, a + b, i) == Charges(accepted, a, i) + Charges(accepted, b, i)
  {
    if b == [] {
      assert a + b == a;
    } else {
      var n := |b| - 1;
      Append(accepted, a, b[..n]);
      assert a + b == (a + b[..n]) + [b[n]];
      Snoc(accepted, a + b[..n], b[n]);
      Snoc(accepted, b[..n], b[n]);
      assert b == b[..n] + [b[n]];
    }
  }

  /** The counter the reporting loop is handed a pointer to. */
  class Counter {
    var n: nat
    constructor () ensures n == 0 { n := 0; }
  }

  /** The counts have moved, from `was`, by what the items charge each entry. */
  ghost predicate MovedBy(used: seq<nat>, was: seq<nat>, accepted: seq<Exception>, items: seq<Item>) {
    && |used| == |was| == |accepted|
    && forall i :: 0 <= i < |used| ==> used[i] == was[i] + Charges(accepted, items, i)
  }

  lemma MovedFurther(used: seq<nat>, mid: seq<nat>, was: seq<nat>, accepted: seq<Exception>, a: seq<Item>, b: seq<Item>)
    requires MovedBy(mid, was, accepted, a) && MovedBy(used, mid, accepted, b)
    ensures MovedBy(used, was, accepted, a + b)
    ensures Unaccepted(accepted, a + b) == Unaccepted(accepted, a) + Unaccepted(accepted, b)
  {
    Append(accepted, a, b);
  }

  lemma MovedByOne(used: seq<nat>, accepted: seq<Exception>, item: Item, i: nat)
    requires |used| == |accepted| && ChargedTo(accepted, item, i)
    ensures MovedBy(used[i := used[i] + 1], used, accepted, [item])
  {
    forall j: nat
      ensures Charges(accepted, [item], j) == if ChargedTo(accepted, item, j) then 1 else 0
    {
      ChargesOfOne(accepted, item, j);
    }
    FirstIsOne(accepted, item, i);
  }

  lemma ChargesOfOne(accepted: seq<Exception>, item: Item, j: nat)
    ensures Charges(accepted, [item], j) == if ChargedTo(accepted, item, j) then 1 else 0
  {
    assert [item][..0] == [];
  }

  lemma NotMoved(used: seq<nat>, accepted: seq<Exception>, item: Item)
    requires |used| == |accepted|
    ensures MovedBy(used, used, accepted, [])
    ensures !Excused(accepted, item) ==> MovedBy(used, used, accepted, [item])
    ensures Unaccepted(accepted, [item]) == if Excused(accepted, item) then 0 else 1
  {
    Snoc(accepted, [], item);
    assert [] + [item] == [item];
    assert forall i :: 0 <= i < |accepted| && Matches(accepted[i], item) ==> Excused(accepted, item);
  }

  /** reportCorpusFile: the use counts are moved in place, entry by entry, and the
      excused total through its pointer; what comes back is what nothing excuses. */
  method ReportCorpusFile(file: string, results: seq<ReplayResult>, accepted: seq<Exception>, used: array<nat>,
                          excused: Counter)
    returns (unaccepted: nat)
    requires used.Length == |accepted|
    modifies used, excused
    ensures unaccepted == Unaccepted(accepted, GradableItems(file, results))
    ensures excused.n + unaccepted == old(excused.n) + |GradableItems(file, results)|
    ensures MovedBy(used[..], old(used[..]), accepted, GradableItems(file, results))
  {
    unaccepted := 0;
    ghost var was := used[..];
    for k := 0 to |results|
      invariant unaccepted == Unaccepted(accepted, GradableItems(file, results[..k]))
      invariant excused.n + unaccepted == old(excused.n) + |GradableItems(file, results[..k])|
      invariant MovedBy(used[..], was, accepted, GradableItems(file, results[..k]))
    {
      var r := results[k];
      assert results[..k + 1][..k] == results[..k];
      ghost var before, mid := GradableItems(file, results[..k]), used[..];
      if r.verdict != Divergent {
        assert GradableItems(file, results[..k + 1]) == before;
        continue;
      }
      var more := ReportResult(file, r, accepted, used, excused);
      MovedFurther(used[..], mid, was, accepted, before, GradableOf(file, r.operation, r.findings));
      unaccepted := unaccepted + more;
    }
    assert results[..|results|] == results;
  }

  method ReportResult(file: string, r: ReplayResult, accepted: seq<Exception>, used: array<nat>, excused: Counter)
    returns (unaccepted: nat)
    requires used.Length == |accepted|
    modifies used, excused
    ensures unaccepted == Unaccepted(accepted, GradableOf(file, r.operation, r.findings))
    ensures excused.n + unaccepted == old(excused.n) + |GradableOf(file, r.operation, r.findings)|
    ensures MovedBy(used[..], old(used[..]), accepted, GradableOf(file, r.operation, r.findings))
  {
    unaccepted := 0;
    ghost var was := used[..];
    for k := 0 to |r.findings|
      invariant unaccepted == Unaccepted(accepted, GradableOf(file, r.operation, r.findings[..k]))
      invariant excused.n + unaccepted == old(excused.n) + |GradableOf(file, r.operation, r.findings[..k])|
      invariant MovedBy(used[..], was, accepted, GradableOf(file, r.operation, r.findings[..k]))
    {
      var f := r.findings[k];
      assert r.findings[..k + 1][..k] == r.findings[..k];
      ghost var before, mid := GradableOf(file, r.operation, r.findings[..k]), used[..];
      if !IsGradable(f) {
        assert GradableOf(file, r.operation, r.findings[..k + 1]) == before;
        continue;
      }
      var item := Item(file, r.operation, f);
      NotMoved(mid, accepted, item);
      var entry := AcceptedBy(accepted, item);
      if entry.Some? {
        MovedByOne(mid, accepted, item, entry.value);
        used[entry.value] := used[entry.value] + 1;
        assert used[..] == mid[entry.value := mid[entry.value] + 1];
        excused.n := excused.n + 1;
      } else {
        unaccepted := unaccepted + 1;
      }
      MovedFurther(used[..], mid, was, accepted, before, [item]);
    }
    assert r.findings[..|r.findings|] == r.findings;
  }

  lemma FirstIsOne(accepted: seq<Exception>, item: Item, i: nat)
    requires ChargedTo(accepted, item, i)
    ensures forall j: nat :: ChargedTo(accepted, item, j) <==> j == i
  {
  }

  // ----- the gate -----

  /** What came of replaying one file: it could not be read or served, or it gave
      these results and ran this many declared comparisons of each kind. */
  datatype Outcome = NotReplayed | Replayed(results: seq<ReplayResult>, values: nat, orders: nat)

  datatype CorpusFile = CorpusFile(name: string, outcome: Outcome)

  /** When a corpus file was recorded, `dated` when the date can be read. */
  datatype Recording = Recording(file: string, dated: bool)

  /** The acceptance file. */
  datatype Acceptance = Acceptance(accepted: seq<Exception>, recorded: seq<Recording>)

  /** What the packs come to: whether they could be built, whether every invariant
      they declare is usable and declared once, how many of each kind there are,
      and whether a recorded provider's pack declares none. */
  datatype Setting = Setting(built: bool, usable: bool, declaredValues: nat, declaredOrders: nat, silentProvider: bool)

  /** An entry with no decision, no issue to retire it, or no kind. */
  predicate Unusable(e: Exception) {
    !e.reasoned || TrimSpace(e.issue) == "" || e.kind == Blank
  }

  ghost predicate WellRecorded(files: seq<CorpusFile>, recorded: seq<Recording>) {
    && (forall f :: f in files ==> exists r :: r in recorded && r.file == f.name)
    && (forall r :: r in recorded ==> r.dated && exists f :: f in files && r.file == f.name)
  }

  predicate IsCompared(r: ReplayResult) { r.verdict == Matched || r.verdict == Divergent }

  predicate ComparedSomething(results: seq<ReplayResult>) {
    exists r :: r in results && IsCompared(r)
  }

  predicate Measured(f: CorpusFile) {
    f.outcome.Replayed? && ComparedSomething(f.outcome.results)
  }

  ghost function AllItems(files: seq<CorpusFile>): seq<Item> {
    if files == [] then []
    else
      var f := files[|files| - 1];
      AllItems(files[..|files| - 1]) + (if f.outcome.Replayed? then GradableItems(f.name, f.outcome.results) else [])
  }

  ghost function AllValues(files: seq<CorpusFile>): nat {
    if files == [] then 0
    else
      AllValues(files[..|files| - 1])
      + (if files[|files| - 1].outcome.Replayed? then files[|files| - 1].outcome.values else 0)
  }

  ghost function AllOrders(files: seq<CorpusFile>): nat {
    if files == [] then 0
    else
      AllOrders(files[..|files| - 1])
      + (if files[|files| - 1].outcome.Replayed? then files[|files| - 1].outcome.orders else 0)
  }

  /** A kind of comparison the packs declare and no exchange ran. */
  predicate Unexercised(s: Setting, values: nat, orders: nat) {
    (s.declaredValues > 0 && values == 0) || (s.declaredOrders > 0 && orders == 0)
  }

  ghost predicate Stale(accepted: seq<Exception>, items: seq<Item>) {
    exists i :: 0 <= i < |accepted| && Charges(accepted, items, i) == 0
  }

  ghost predicate IsGradedIn(f: CorpusFile, item: Item) {
    f.outcome.Replayed? && IsGraded(f.name, f.outcome.results, item)
  }

  ghost predicate IsGradedAmong(files: seq<CorpusFile>, item: Item) {
    exists f :: f in files && IsGradedIn(f, item)
  }

  lemma {:induction false} AllItemsMean(files: seq<CorpusFile>, item: Item)
    ensures item in AllItems(files) <==> IsGradedAmong(files, item)
  {
    if files == [] {
    } else {
      var n := |files| - 1;
      var before, f := files[..n], files[n];
      AllItemsMean(before, item);
      assert files == before + [f];
      if f.outcome.Replayed? { GradableMeans(f.name, f.outcome.results, item); }
      assert item in AllItems(files) <==> item in AllItems(before) || IsGradedIn(f, item);
      assert f in files && forall g :: g in before ==> g in files;
    }
  }

  lemma {:induction false} NoneUnaccepted(accepted: seq<Exception>, items: seq<Item>)
    ensures Unaccepted(accepted, items) == 0 <==> forall item :: item in items ==> Excused(accepted, item)
  {
    if items == [] {
    } else {
      NoneUnaccepted(accepted, items[..|items| - 1]);
      assert items == items[..|items| - 1] + [items[|items| - 1]];
    }
  }

  /** Each graded finding of each file has an entry that is about it. */
  ghost predicate AllExcused(files: seq<CorpusFile>, accepted: seq<Exception>) {
    forall item :: IsGradedAmong(files, item) ==>
                     exists e :: e in accepted && IsAbout(e, item)
  }

  lemma ExcusedIsAbout(accepted: seq<Exception>, item: Item)
    ensures Excused(accepted, item) <==> exists e :: e in accepted && IsAbout(e, item)
  {
    forall e | e in accepted ensures Matches(e, item) <==> IsAbout(e, item) { MatchesMeans(e, item); }
  }

  lemma ExcusedMeans(files: seq<CorpusFile>, accepted: seq<Exception>)
    ensures Unaccepted(accepted, AllItems(files)) == 0 <==> AllExcused(files, accepted)
  {
    NoneUnaccepted(accepted, AllItems(files));
    forall item
      ensures item in AllItems(files) <==> IsGradedAmong(files, item)
      ensures Excused(accepted, item) <==> exists e :: e in accepted && IsAbout(e, item)
    {
      AllItemsMean(files, item);
      ExcusedIsAbout(accepted, item);
    }
  }

  /** Every guard of the gate: what it needs before its verdict means anything. */
  ghost predicate GuardsPass(s: Setting, files: seq<CorpusFile>, acc: Acceptance) {
    && (forall e :: e in acc.accepted ==> !Unusable(e))
    && files != []
    && WellRecorded(files, acc.recorded)
    && s.built && s.usable
    && (forall f :: f in files ==> Measured(f))
    && !Unexercised(s, AllValues(files), AllOrders(files))
    && !s.silentProvider
  }

  /** An entry is stale exactly when everything it would excuse is excused by an
      entry written before it. */
  lemma {:induction false} StaleExactlyWhenShadowed(accepted: seq<Exception>, items: seq<Item>, i: nat)
    requires i < |accepted|
    ensures Charges(accepted, items, i) == 0
       <==> forall item :: item in items && Matches(accepted[i], item) ==>
           exists j :: 0 <= j < i && Matches(accepted[j], item)
  {
    if items == [] {
    } else {
      var n := |items| - 1;
      StaleExactlyWhenShadowed(accepted, items[..n], i);
      assert items == items[..n] + [items[n]];
    }
  }

  /** Entry `i` is charged with nothing: whatever it is about, an entry before it is
      about too. */
  ghost predicate Idle(accepted: seq<Exception>, files: seq<CorpusFile>, i: int) {
    && 0 <= i < |accepted|
    && forall item :: IsGradedAmong(files, item) && IsAbout(accepted[i], item) ==>
         exists j :: 0 <= j < i && IsAbout(accepted[j], item)
  }

  lemma StaleMeans(files: seq<CorpusFile>, accepted: seq<Exception>)
    ensures Stale(accepted, AllItems(files)) <==> exists i :: Idle(accepted, files, i)
  {
    forall i | 0 <= i < |accepted|
      ensures Charges(accepted, AllItems(files), i) == 0 <==> Idle(accepted, files, i)
    {
      StaleExactlyWhenShadowed(accepted, AllItems(files), i);
      forall item
        ensures item in AllItems(files) <==> IsGradedAmong(files, item)
      {
        AllItemsMean(files, item);
      }
      forall e, item ensures Matches(e, item) <==> IsAbout(e, item) { MatchesMeans(e, item); }
    }
  }

  /** The entry carries a decision, a kind, and an issue that is not white space. */
  ghost predicate IsSettled(e: Exception) {
    e.reasoned && e.kind != Blank && exists c :: c in e.issue && !IsSpace(c)
  }

  /** The file was replayed and one of its answers was held to the recording. */
  ghost predicate HeldSomething(f: CorpusFile) {
    f.outcome.Replayed? && exists r :: r in f.outcome.results && r.verdict in {Matched, Divergent}
  }

  /** Every file has a recording entry, and every recording entry a file and a date. */
  ghost predicate AreOnRecord(files: seq<CorpusFile>, recorded: seq<Recording>) {
    && (forall f :: f in files ==> exists r :: r in recorded && r.file == f.name)
    && (forall r :: r in recorded ==> r.dated)
    && (forall r :: r in recorded ==> exists f :: f in files && f.name == r.file)
  }

  ghost predicate RanAValue(files: seq<CorpusFile>) {
    exists f :: f in files && f.outcome.Replayed? && f.outcome.values > 0
  }

  ghost predicate RanAnOrder(files: seq<CorpusFile>) {
    exists f :: f in files && f.outcome.Replayed? && f.outcome.orders > 0
  }

  /** What the gate needs before its verdict means anything, item by item. */
  ghost predicate IsReady(s: Setting, files: seq<CorpusFile>, acc: Acceptance) {
    && (forall e :: e in acc.accepted ==> IsSettled(e))
    && files != []
    && AreOnRecord(files, acc.recorded)
    && s.built && s.usable && !s.silentProvider
    && (forall f :: f in files ==> HeldSomething(f))
    && (s.declaredValues > 0 ==> RanAValue(files))
    && (s.declaredOrders > 0 ==> RanAnOrder(files))
  }

  lemma SettledMeans(e: Exception)
    ensures !Unusable(e) <==> IsSettled(e)
  {
    BlankIsSpace(e.issue);
  }

  lemma {:induction false} TotalsMean(files: seq<CorpusFile>)
    ensures AllValues(files) > 0 <==> RanAValue(files)
    ensures AllOrders(files) > 0 <==> RanAnOrder(files)
  {
    if files == [] {
    } else {
      var n := |files| - 1;
      assert files == files[..n] + [files[n]];
      assert forall f :: f in files <==> f in files[..n] || f == files[n];
      TotalsMean(files[..n]);
    }
  }

  lemma OnRecordMeans(files: seq<CorpusFile>, recorded: seq<Recording>)
    ensures WellRecorded(files, recorded) <==> AreOnRecord(files, recorded)
  {
  }

  lemma HeldMeans(f: CorpusFile)
    ensures Measured(f) <==> HeldSomething(f)
  {
  }

  lemma ReadyMeans(s: Setting, files: seq<CorpusFile>, acc: Acceptance)
    ensures GuardsPass(s, files, acc) <==> IsReady(s, files, acc)
  {
    forall e ensures !Unusable(e) <==> IsSettled(e) { SettledMeans(e); }
    forall f ensures Measured(f) <==> HeldSomething(f) { HeldMeans(f); }
    OnRecordMeans(files, acc.recorded);
    TotalsMean(files);
  }

  /** What the totals and the use counts come to after some files. */
  ghost predicate Totalled(files: seq<CorpusFile>, accepted: seq<Exception>, used: seq<nat>, divergent: nat,
                           values: nat, orders: nat)
  {
    && values == AllValues(files) && orders == AllOrders(files)
    && divergent == Unaccepted(accepted, AllItems(files))
    && MovedBy(used, seq(|accepted|, _ => 0), accepted, AllItems(files))
  }

  lemma NothingTotalled(accepted: seq<Exception>)
    ensures Totalled([], accepted, seq(|accepted|, _ => 0), 0, 0, 0)
  {
  }

  lemma OneMoreFile(files: seq<CorpusFile>, f: CorpusFile, accepted: seq<Exception>, was: seq<nat>, used: seq<nat>,
                    divergent: nat, more: nat, values: nat, orders: nat)
    requires Totalled(files, accepted, was, divergent, values, orders) && f.outcome.Replayed?
    requires more == Unaccepted(accepted, GradableItems(f.name, f.outcome.results))
    requires MovedBy(used, was, accepted, GradableItems(f.name, f.outcome.results))
    ensures Totalled(files + [f], accepted, used, divergent + more, values + f.outcome.values,
                     orders + f.outcome.orders)
  {
    assert (files + [f])[..|files|] == files;
    MovedFurther(used, was, seq(|accepted|, _ => 0), accepted, AllItems(files),
                 GradableItems(f.name, f.outcome.results));
  }

  /** The loop over the files: it stops at the first that measured nothing. */
  method ReplayAll(files: seq<CorpusFile>, accepted: seq<Exception>)
    returns (measured: bool, used: array<nat>, divergent: nat, values: nat, orders: nat)
    ensures fresh(used) && used.Length == |accepted|
    ensures measured <==> forall f :: f in files ==> Measured(f)
    ensures measured ==> values == AllValues(files) && orders == AllOrders(files)
    ensures measured ==> divergent == Unaccepted(accepted, AllItems(files))
    ensures measured ==> forall i :: 0 <= i < used.Length ==> used[i] == Charges(accepted, AllItems(files), i)
  {
    used := new nat[|accepted|](_ => 0);
    var excused := new Counter();
    measured, divergent, values, orders := true, 0, 0, 0;
    assert used[..] == seq(|accepted|, _ => 0);
    NothingTotalled(accepted);
    for k := 0 to |files|
      invariant fresh(excused)
      invariant forall j :: 0 <= j < k ==> Measured(files[j])
      invariant Totalled(files[..k], accepted, used[..], divergent, values, orders)
    {
      var f := files[k];
      if f.outcome.NotReplayed? || !ComparedSomething(f.outcome.results) {
        assert f in files && !Measured(f);
        measured := false;
        return;
      }
      ghost var was := used[..];
      var more := ReportCorpusFile(f.name, f.outcome.results, accepted, used, excused);
      OneMoreFile(files[..k], f, accepted, was, used[..], divergent, more, values, orders);
      assert files[..k + 1] == files[..k] + [f];
      values := values + f.outcome.values;
      orders := orders + f.outcome.orders;
      divergent := divergent + more;
    }
    assert files[..|files|] == files;
    forall i | 0 <= i < used.Length ensures used[i] == Charges(accepted, AllItems(files), i) {
      assert used[..][i] == used[i];
    }
  }

  /** unusableCorpusExceptions, as the number of entries refused. */
  method CountUnusable(accepted: seq<Exception>) returns (bad: nat)
    ensures bad == 0 <==> forall e :: e in accepted ==> !Unusable(e)
  {
    bad := 0;
    for i := 0 to |accepted|
      invariant bad == 0 <==> forall j :: 0 <= j < i ==> !Unusable(accepted[j])
    {
      if Unusable(accepted[i]) { bad := bad + 1; }
    }
    if exists e :: e in accepted && Unusable(e) {
      var e :| e in accepted && Unusable(e);
      var j :| 0 <= j < |accepted| && accepted[j] == e;
    }
  }

  /** checkCorpusRecordings: both directions are counted, and the dates. */
  method CheckRecordings(files: seq<CorpusFile>, recorded: seq<Recording>) returns (sound: bool)
    ensures sound <==> WellRecorded(files, recorded)
  {
    var known, present := set r | r in recorded :: r.file, set f | f in files :: f.name;
    var bad := 0;
    for i := 0 to |files|
      invariant bad >= 0
      invariant bad == 0 <==> forall j :: 0 <= j < i ==> files[j].name in known
    {
      if files[i].name !in known { bad := bad + 1; }
    }
    assert bad == 0 <==> forall f :: f in files ==> f.name in known;
    for i := 0 to |recorded|
      invariant bad >= 0
      invariant bad == 0 <==>
                  (forall f :: f in files ==> f.name in known)
                  && (forall j :: 0 <= j < i ==> recorded[j].file in present && recorded[j].dated)
    {
      if recorded[i].file !in present { bad := bad + 1; }
      if !recorded[i].dated { bad := bad + 1; }
    }
    assert (forall j :: 0 <= j < |recorded| ==> recorded[j].file in present && recorded[j].dated)
      <==> (forall r :: r in recorded ==> r.file in present && r.dated);
    sound := bad == 0;
  }

  /** The entries no finding was charged to. */
  method CountStale(used: array<nat>) returns (stale: nat)
    ensures stale == 0 <==> forall i :: 0 <= i < used.Length ==> used[i] != 0
  {
    stale := 0;
    for i := 0 to used.Length
      invariant stale == 0 <==> forall j :: 0 <= j < i ==> used[j] != 0
    {
      if used[i] == 0 { stale := stale + 1; }
    }
  }

  /** What the gate asks for, in the fields of what it reads: its guards, that no
      entry is idle, and that an entry is about each finding. */
  lemma GateMeans(s: Setting, files: seq<CorpusFile>, acc: Acceptance)
    ensures GuardsPass(s, files, acc) <==> IsReady(s, files, acc)
    ensures Stale(acc.accepted, AllItems(files)) <==> exists i :: Idle(acc.accepted, files, i)
    ensures Unaccepted(acc.accepted, AllItems(files)) == 0 <==> AllExcused(files, acc.accepted)
  {
    ReadyMeans(s, files, acc);
    StaleMeans(files, acc.accepted);
    ExcusedMeans(files, acc.accepted);
  }

  /** checkCorpus, on what could be read of the acceptance file and of the corpus
      directory. Green exactly when both were read, every guard passes, no entry
      of the acceptance list went unused and nothing diverges that none of them
      excuses; drift exactly when only the last fails. */
  method CheckCorpus(s: Setting, acceptance: Option<Acceptance>, directory: Option<seq<CorpusFile>>) returns (code: int)
    ensures code == 1 <==>
              || acceptance == None || directory == None
              || !GuardsPass(s, directory.value, acceptance.value)
              || Stale(acceptance.value.accepted, AllItems(directory.value))
    ensures code == 0 <==>
              code != 1 && Unaccepted(acceptance.value.accepted, AllItems(directory.value)) == 0
    ensures code == 2 <==>
              code != 1 && Unaccepted(acceptance.value.accepted, AllItems(directory.value)) > 0
    ensures code == 0 <==> code != 1 && AllExcused(directory.value, acceptance.value.accepted)
  {
    if acceptance.Some? && directory.Some? { ExcusedMeans(directory.value, acceptance.value.accepted); }
    if acceptance == None { return EXIT_ERROR; }
    var accepted := acceptance.value.accepted;
    var bad := CountUnusable(accepted);
    if bad > 0 { return EXIT_ERROR; }
    if directory == None { return EXIT_ERROR; }
    var files := directory.value;
    if |files| == 0 { return EXIT_ERROR; }
    var sound := CheckRecordings(files, acceptance.value.recorded);
    if !sound { return EXIT_ERROR; }
    if !s.built { return EXIT_ERROR; }
    if !s.usable { return EXIT_ERROR; }
    var measured, used, divergent, values, orders := ReplayAll(files, accepted);
    if !measured { return EXIT_ERROR; }
    if Unexercised(s, values, orders) { return EXIT_ERROR; }
    if s.silentProvider { return EXIT_ERROR; }
    var stale := CountStale(used);
    if stale > 0 { return EXIT_ERROR; }
    if divergent > 0 { return EXIT_DRIFT; }
    return EXIT_OK;
  }

  // ----- the arithmetic is exact -----

  ghost function TotalCharges(accepted: seq<Exception>, items: seq<Item>, n: nat): nat {
    if n == 0 then 0 else TotalCharges(accepted, items, n - 1) + Charges(accepted, items, n - 1)
  }

  /** Every gradable finding is either unaccepted or charged to one entry. */
  lemma {:induction false} NothingIsLost(accepted: seq<Exception>, items: seq<Item>)
    ensures TotalCharges(accepted, items, |accepted|) + Unaccepted(accepted, items) == |items|
  {
    if items == [] {
      NoCharges(accepted, |accepted|);
    } else {
      var n := |items| - 1;
      NothingIsLost(accepted, items[..n]);
      OneMoreCharge(accepted, items, |accepted|);
      if Excused(accepted, items[n]) {
        var entry := FirstExcusing(accepted, items[n]);
        assert ChargedBelow(accepted, items[n], |accepted|);
      }
    }
  }

  lemma {:induction false} NoCharges(accepted: seq<Exception>, n: nat)
    ensures TotalCharges(accepted, [], n) == 0
  {
    if n == 0 {
    } else {
      NoCharges(accepted, n - 1);
    }
  }

  ghost predicate ChargedBelow(accepted: seq<Exception>, item: Item, n: nat) {
    exists i :: 0 <= i < n && ChargedTo(accepted, item, i)
  }

  lemma {:induction false} OneMoreCharge(accepted: seq<Exception>, items: seq<Item>, n: nat)
    requires items != [] && n <= |accepted|
    ensures TotalCharges(accepted, items, n) == TotalCharges(accepted, items[..|items| - 1], n)
              + (if ChargedBelow(accepted, items[|items| - 1], n) then 1 else 0)
  {
    var last := items[|items| - 1];
    if n == 0 {
    } else {
      OneMoreCharge(accepted, items, n - 1);
      if ChargedTo(accepted, last, n - 1) {
        FirstIsOne(accepted, last, n - 1);
      }
    }
  }

  lemma {:induction false} FirstExcusing(accepted: seq<Exception>, item: Item) returns (i: nat)
    requires Excused(accepted, item)
    ensures ChargedTo(accepted, item, i)
  {
    if Matches(accepted[0], item) {
      i := 0;
    } else {
      var rest := accepted[1..];
      var e :| e in accepted && Matches(e, item);
      assert e in rest;
      var k := FirstExcusing(rest, item);
      i := k + 1;
      forall j | 0 <= j < i ensures !Matches(accepted[j], item) {
        if j > 0 { assert accepted[j] == rest[j - 1]; }
      }
    }
  }

  /** How much goes unaccepted does not depend on the order of the list, nor on
      an entry being written twice. */
  lemma {:induction false} OrderDoesNotChangeTheVerdict(a: seq<Exception>, b: seq<Exception>, items: seq<Item>)
    requires forall e :: e in a <==> e in b
    ensures Unaccepted(a, items) == Unaccepted(b, items)
  {
    if items == [] {
    } else {
      OrderDoesNotChangeTheVerdict(a, b, items[..|items| - 1]);
    }
  }

  /** So a list naming one divergence twice never passes. */
  lemma ADuplicateIsAlwaysStale(accepted: seq<Exception>, items: seq<Item>, i: nat, j: nat)
    requires i < j < |accepted| && accepted[i] == accepted[j]
    ensures Stale(accepted, items)
  {
    StaleExactlyWhenShadowed(accepted, items, j);
  }

  // ----- when the order of the list can matter -----

  /** Entry `i` excuses something that no other entry excuses. */
  ghost predicate HasItsOwn(accepted: seq<Exception>, items: seq<Item>, i: nat)
    requires i < |accepted|
  {
    exists item :: item in items && Matches(accepted[i], item) && OnlyThisMatches(accepted, item, i)
  }

  ghost predicate OnlyThisMatches(accepted: seq<Exception>, item: Item, i: nat) {
    forall j :: 0 <= j < |accepted| && j != i ==> !Matches(accepted[j], item)
  }

  /** An item one entry alone matches is matched by one entry alone wherever the
      entries are put. */
  lemma OwnItemsMove(a: seq<Exception>, b: seq<Exception>, item: Item, i: nat, k: nat)
    requires multiset(a) == multiset(b) && i < |a| && k < |b| && a[i] == b[k]
    requires Matches(a[i], item) && OnlyThisMatches(a, item, i)
    ensures OnlyThisMatches(b, item, k)
  {
    forall j | 0 <= j < |b| && j != k
      ensures !Matches(b[j], item)
    {
      assert b[j] in multiset(a);
      var m :| 0 <= m < |a| && a[m] == b[j];
      OwnMeansOnce(a, item, i);
      if m == i {
        if j < k { TwiceInMultiset(b, j, k); } else { TwiceInMultiset(b, k, j); }
      }
    }
  }

  lemma OwnMeansOnce(a: seq<Exception>, item: Item, i: nat)
    requires i < |a| && Matches(a[i], item) && OnlyThisMatches(a, item, i)
    ensures multiset(a)[a[i]] == 1
  {
    assert a[i] in multiset(a);
    if multiset(a)[a[i]] >= 2 {
      var j := AnotherOf(a, a[i], i);
    }
  }

  lemma AnotherOf<T>(xs: seq<T>, x: T, i: nat) returns (j: nat)
    requires i < |xs| && xs[i] == x && multiset(xs)[x] >= 2
    ensures j < |xs| && j != i && xs[j] == x
  {
    var rest := xs[..i] + xs[i + 1..];
    assert xs == xs[..i] + [xs[i]] + xs[i + 1..];
    assert x in multiset(rest);
    var k :| 0 <= k < |rest| && rest[k] == x;
    j := if k < i then k else k + 1;
  }

  function MovedLast(accepted: seq<Exception>, i: nat): seq<Exception>
    requires i < |accepted|
  {
    accepted[..i] + accepted[i + 1..] + [accepted[i]]
  }

  lemma MovedLastIsTheSame(accepted: seq<Exception>, i: nat)
    requires i < |accepted|
    ensures multiset(MovedLast(accepted, i)) == multiset(accepted)
  {
    assert accepted == accepted[..i] + [accepted[i]] + accepted[i + 1..];
  }

  lemma WithoutItsOwnIsStaleLast(accepted: seq<Exception>, items: seq<Item>, i: nat)
    requires i < |accepted| && !HasItsOwn(accepted, items, i)
    ensures Stale(MovedLast(accepted, i), items)
  {
    var moved, last := MovedLast(accepted, i), |accepted| - 1;
    forall item | item in items && Matches(moved[last], item)
      ensures exists j :: 0 <= j < last && Matches(moved[j], item)
    {
      assert !OnlyThisMatches(accepted, item, i);
      var j :| 0 <= j < |accepted| && j != i && Matches(accepted[j], item);
      assert moved[if j < i then j else j - 1] == accepted[j];
    }
    StaleExactlyWhenShadowed(moved, items, last);
  }

  /** The order the list is written in cannot fail the gate exactly when each
      entry excuses something that no other entry excuses. */
  lemma NoOrderIsStaleExactlyWhen(accepted: seq<Exception>, items: seq<Item>)
    ensures (forall b :: multiset(b) == multiset(accepted) ==> !Stale(b, items))
       <==> (forall i :: 0 <= i < |accepted| ==> HasItsOwn(accepted, items, i))
  {
    if i :| 0 <= i < |accepted| && !HasItsOwn(accepted, items, i) {
      MovedLastIsTheSame(accepted, i);
      WithoutItsOwnIsStaleLast(accepted, items, i);
    } else {
      forall b, k | multiset(b) == multiset(accepted) && 0 <= k < |b|
        ensures Charges(b, items, k) != 0
      {
        assert b[k] in multiset(accepted);
        var i :| 0 <= i < |accepted| && accepted[i] == b[k];
        assert HasItsOwn(accepted, items, i);
        var item :| item in items && Matches(accepted[i], item) && OnlyThisMatches(accepted, item, i);
        OwnItemsMove(accepted, b, item, i, k);
        StaleExactlyWhenShadowed(b, items, k);
      }
    }
  }

  lemma OneSegment(want: string, got: string)
    requires '.' !in want && '.' !in got
    ensures PathMatches(want, got) <==> want == "*" || want == got
  {
    SplitOfPiece(want, '.');
    SplitOfPiece(got, '.');
    assert Split(want, '.')[0] == want && Split(got, '.')[0] == got;
  }

  /** Two entries, the second of which excuses nothing of its own: written first
      it is in use, written last it is stale. */
  lemma ShadowedWhenLast(broad: Exception, narrow: Exception, a: Item, b: Item)
    requires Matches(broad, a) && Matches(broad, b) && Matches(narrow, a) && !Matches(narrow, b)
    ensures !Stale([narrow, broad], [a, b])
    ensures Stale([broad, narrow], [a, b])
  {
    var items, narrowFirst, broadFirst := [a, b], [narrow, broad], [broad, narrow];
    assert items[0] == a && items[1] == b;
    StaleExactlyWhenShadowed(narrowFirst, items, 0);
    StaleExactlyWhenShadowed(narrowFirst, items, 1);
    StaleExactlyWhenShadowed(broadFirst, items, 1);
    assert forall item :: item in items && Matches(narrow, item) ==> Matches(broadFirst[0], item);
    assert Charges(broadFirst, items, 1) == 0;
  }

  /** Staleness does depend on the order: a broad entry written first can leave a
      narrow one with nothing, and written last leave both in use. */
  lemma OrderDecidesStaleness(file: string, operation: string, issue: string)
    ensures exists broad, narrow, items :: !Stale([narrow, broad], items) && Stale([broad, narrow], items)
  {
    var broad := Exception(file, operation, Named(KindAbsent), "*", true, issue);
    var narrow := broad.(path := "a");
    var a, b := Item(file, operation, Finding(KindAbsent, "a", "", "")),
        Item(file, operation, Finding(KindAbsent, "b", "", ""));
    OneSegment("*", "a");
    OneSegment("*", "b");
    OneSegment("a", "a");
    OneSegment("a", "b");
    assert "a"[0] != "b"[0] && "a"[0] != "*"[0];
    ShadowedWhenLast(broad, narrow, a, b);
  }
}
