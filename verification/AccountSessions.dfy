/** What a run and its clean-up leave of the account, at every endpoint. */
module AccountSessions {
  import opened Wrappers
  import opened Text
  import opened Ordering
  import opened Json
  import opened AccountGuard
  import opened AccountSafety
  import opened Wire

  /** The account at the endpoint: what each identifier stands for. */
  type Account = map<string, string>

  ghost predicate Same(before: Account, after: Account, id: string)
    requires id in before
  {
    id in after && after[id] == before[id]
  }

  ghost predicate Keeps(before: Account, after: Account, touched: set<string>) {
    forall id :: id in before && id !in touched ==> Same(before, after, id)
  }

  /** What a path names to whoever serves it: each segment of the path received as
      it stands, and what stands before a colon in it. Nothing here asks what the
      guard recognises, and a request that cannot be built names nothing. */
  ghost function Named(path: string): set<string> {
    if Received(path).None? then {} else NamesOf(Received(path).value)
  }

  ghost function NamesOf(path: string): set<string> {
    Elements(Split(path, '/')) + PathTexts(path)
  }

  // ----- sessions -----

  ghost predicate ChangeSent(sh: Shapes, dryRun: bool, steps: seq<Step>, k: int) {
    Sent(sh, dryRun, steps, k) && !Reads(steps[k].a.verb)
  }

  /** An endpoint that changes only what a request names. Creating is adding; a
      read or a request never sent changes nothing. */
  ghost predicate Effects(sh: Shapes, dryRun: bool, steps: seq<Step>, accounts: seq<Account>)
    requires |accounts| == |steps| + 1
  {
    forall k :: 0 <= k < |steps| ==>
      if ChangeSent(sh, dryRun, steps, k)
      then Keeps(accounts[k], accounts[k + 1], Named(steps[k].a.path))
      else accounts[k + 1] == accounts[k]
  }

  /** The destroying walk at the same endpoint: `walk[i]` is the account once
      the entries from `i` up have been deleted. */
  ghost predicate WalkEffects(ledger: seq<CreatedObject>, walk: seq<Account>)
    requires |walk| == |ledger| + 1
  {
    forall i :: 0 <= i < |ledger| ==> Keeps(walk[i + 1], walk[i], Named(ledger[i].Url()))
  }

  ghost function Ledger(sh: Shapes, dryRun: bool, steps: seq<Step>): seq<CreatedObject> {
    StateAfter(sh, dryRun, steps).created
  }

  /** The accounts of a run that began at `initial`, then those of its clean-up. */
  ghost predicate Session(
    sh: Shapes, dryRun: bool, steps: seq<Step>, initial: Account, accounts: seq<Account>, walk: seq<Account>)
  {
    && |accounts| == |steps| + 1
    && |walk| == |Ledger(sh, dryRun, steps)| + 1
    && accounts[0] == initial
    && walk[|walk| - 1] == accounts[|steps|]
    && Effects(sh, dryRun, steps, accounts)
    && WalkEffects(Ledger(sh, dryRun, steps), walk)
  }

  /** Neither a change that was sent nor a URL of the ledger names `id`. */
  ghost predicate Unnamed(sh: Shapes, dryRun: bool, steps: seq<Step>, id: string) {
    && (forall k :: ChangeSent(sh, dryRun, steps, k) ==> id !in Named(steps[k].a.path))
    && (forall o :: o in Ledger(sh, dryRun, steps) ==> id !in Named(o.Url()))
  }

  lemma {:induction false} SurvivesTheRun(
    sh: Shapes, dryRun: bool, steps: seq<Step>, accounts: seq<Account>, id: string, k: nat)
    requires |accounts| == |steps| + 1 && k <= |steps|
    requires Effects(sh, dryRun, steps, accounts)
    requires forall j :: ChangeSent(sh, dryRun, steps, j) ==> id !in Named(steps[j].a.path)
    requires id in accounts[0]
    ensures Same(accounts[0], accounts[k], id)
  {
    if k == 0 {
    } else {
      SurvivesTheRun(sh, dryRun, steps, accounts, id, k - 1);
    }
  }

  lemma {:induction false} SurvivesTheWalk(ledger: seq<CreatedObject>, walk: seq<Account>, id: string, i: nat)
    requires |walk| == |ledger| + 1 && i <= |ledger|
    requires WalkEffects(ledger, walk)
    requires forall o :: o in ledger ==> id !in Named(o.Url())
    requires id in walk[|ledger|]
    ensures Same(walk[|ledger|], walk[i], id)
    decreases |ledger| - i
  {
    if i == |ledger| {
    } else {
      SurvivesTheWalk(ledger, walk, id, i + 1);
      assert ledger[i] in ledger;
    }
  }

  /** The account `a` up to `k`, the account `b` after it. */
  function Switched(a: Account, b: Account, k: int, n: nat): (accounts: seq<Account>)
    ensures |accounts| == n && forall i :: 0 <= i < n ==> accounts[i] == if i <= k then a else b
  {
    seq(n, i => if i <= k then a else b)
  }

  lemma KeepsItself(account: Account, touched: set<string>)
    ensures Keeps(account, account, touched)
  {
  }

  lemma KeepsTheRest(account: Account, id: string, touched: set<string>)
    requires id in touched
    ensures Keeps(account, account - {id}, touched)
  {
  }

  lemma SwitchedByARun(sh: Shapes, dryRun: bool, steps: seq<Step>, a: Account, b: Account, k: int)
    requires k < |steps|
    requires 0 <= k ==> ChangeSent(sh, dryRun, steps, k) && Keeps(a, b, Named(steps[k].a.path))
    ensures Effects(sh, dryRun, steps, Switched(a, b, k, |steps| + 1))
  {
    var accounts := Switched(a, b, k, |steps| + 1);
    forall j | 0 <= j < |steps|
      ensures if ChangeSent(sh, dryRun, steps, j)
              then Keeps(accounts[j], accounts[j + 1], Named(steps[j].a.path))
              else accounts[j + 1] == accounts[j]
    {
      if j != k { KeepsItself(accounts[j], Named(steps[j].a.path)); }
    }
  }

  lemma SwitchedByAWalk(ledger: seq<CreatedObject>, a: Account, b: Account, n: int)
    requires n < |ledger|
    requires 0 <= n ==> Keeps(b, a, Named(ledger[n].Url()))
    ensures WalkEffects(ledger, Switched(a, b, n, |ledger| + 1))
  {
    var walk := Switched(a, b, n, |ledger| + 1);
    forall i | 0 <= i < |ledger|
      ensures Keeps(walk[i + 1], walk[i], Named(ledger[i].Url()))
    {
      if i != n { KeepsItself(walk[i], Named(ledger[i].Url())); }
    }
  }

  /** An endpoint at which `id` goes at the change `k`. */
  lemma LostInTheRun(sh: Shapes, dryRun: bool, steps: seq<Step>, initial: Account, id: string, k: nat)
    returns (accounts: seq<Account>, walk: seq<Account>)
    requires ChangeSent(sh, dryRun, steps, k) && id in Named(steps[k].a.path)
    ensures Session(sh, dryRun, steps, initial, accounts, walk) && id !in walk[0]
  {
    var without := initial - {id};
    KeepsTheRest(initial, id, Named(steps[k].a.path));
    SwitchedByARun(sh, dryRun, steps, initial, without, k);
    SwitchedByAWalk(Ledger(sh, dryRun, steps), without, without, -1);
    accounts := Switched(initial, without, k, |steps| + 1);
    walk := Switched(without, without, -1, |Ledger(sh, dryRun, steps)| + 1);
  }

  /** An endpoint at which `id` goes when entry `n` of the ledger is deleted. */
  lemma LostInTheWalk(sh: Shapes, dryRun: bool, steps: seq<Step>, initial: Account, id: string, n: nat)
    returns (accounts: seq<Account>, walk: seq<Account>)
    requires n < |Ledger(sh, dryRun, steps)| && id in Named(Ledger(sh, dryRun, steps)[n].Url())
    ensures Session(sh, dryRun, steps, initial, accounts, walk) && id !in walk[0]
  {
    var ledger, without := Ledger(sh, dryRun, steps), initial - {id};
    KeepsTheRest(initial, id, Named(ledger[n].Url()));
    SwitchedByARun(sh, dryRun, steps, initial, initial, -1);
    SwitchedByAWalk(ledger, without, initial, n);
    accounts := Switched(initial, initial, -1, |steps| + 1);
    walk := Switched(without, initial, n, |ledger| + 1);
  }

  /** What the guard is worth to one object, at all endpoints: the object is
      there unchanged after the run and its clean-up exactly when neither ever
      named it. */
  lemma SurvivesExactlyWhenUnnamed(sh: Shapes, dryRun: bool, steps: seq<Step>, initial: Account, id: string)
    requires id in initial
    ensures (forall accounts, walk :: Session(sh, dryRun, steps, initial, accounts, walk) ==>
             Same(initial, walk[0], id))
       <==> Unnamed(sh, dryRun, steps, id)
  {
    var ledger := Ledger(sh, dryRun, steps);
    if Unnamed(sh, dryRun, steps, id) {
      forall accounts, walk | Session(sh, dryRun, steps, initial, accounts, walk)
        ensures Same(initial, walk[0], id)
      {
        SurvivesTheRun(sh, dryRun, steps, accounts, id, |steps|);
        SurvivesTheWalk(ledger, walk, id, 0);
      }
    } else if k :| ChangeSent(sh, dryRun, steps, k) && id in Named(steps[k].a.path) {
      var accounts, walk := LostInTheRun(sh, dryRun, steps, initial, id, k);
    } else {
      var n :| 0 <= n < |ledger| && id in Named(ledger[n].Url());
      var accounts, walk := LostInTheWalk(sh, dryRun, steps, initial, id, n);
    }
  }

  /** And to the account: every endpoint gives it back whole exactly when no
      change that was sent, and no URL of the ledger, names an object of it. */
  lemma TheAccountSurvivesExactlyWhenUnnamed(sh: Shapes, dryRun: bool, steps: seq<Step>, initial: Account)
    ensures (forall accounts, walk :: Session(sh, dryRun, steps, initial, accounts, walk) ==>
             Keeps(initial, walk[0], {}))
       <==> (forall id :: id in initial ==> Unnamed(sh, dryRun, steps, id))
  {
    forall id | id in initial
      ensures (forall accounts, walk :: Session(sh, dryRun, steps, initial, accounts, walk) ==>
               Same(initial, walk[0], id))
         <==> Unnamed(sh, dryRun, steps, id)
    {
      SurvivesExactlyWhenUnnamed(sh, dryRun, steps, initial, id);
    }
  }

  // ----- what the clean-up names -----

  lemma {:induction false} LedgerWasSent(sh: Shapes, dryRun: bool, steps: seq<Step>, o: CreatedObject)
    requires o in Ledger(sh, dryRun, steps)
    ensures sh.identifier(o.id)
    ensures exists k :: ChangeSent(sh, dryRun, steps, k) && steps[k].a.path == o.collection
  {
    if steps == [] {
    } else {
      var n := |steps| - 1;
      var before := steps[..n];
      if o in Ledger(sh, dryRun, before) {
        LedgerWasSent(sh, dryRun, before, o);
        var k :| ChangeSent(sh, dryRun, before, k) && before[k].a.path == o.collection;
        assert before[..k] == steps[..k];
        assert ChangeSent(sh, dryRun, steps, k);
      } else {
        LedgerIdsAreIdentifiers(sh, dryRun, steps);
        assert ChangeSent(sh, dryRun, steps, n);
      }
    }
  }

  lemma NamesAcross(path: string, id: string)
    requires '/' !in id
    ensures NamesOf(path + ['/'] + id) == NamesOf(path) + {id, SegmentId(id)}
  {
    var left, all := Split(path, '/'), Split(path + ['/'] + id, '/');
    SplitAcross(path, '/', id);
    SplitOfPiece(id, '/');
    assert all == left + [id] && all[|left|] == id;
    forall segment ensures segment in all <==> segment in left || segment == id {}
  }

  /** The URL of an entry names what its collection named, and the object itself
      unless the collection's path was ended before it. */
  lemma UrlNames(sh: Shapes, o: CreatedObject)
    requires SaneShapes(sh) && sh.identifier(o.id)
    ensures Named(o.Url()) ==
              if Received(o.collection).None? || '#' in o.collection || '?' in o.collection then Named(o.collection)
              else Named(o.collection) + {o.id, SegmentId(o.id)}
  {
    assert o.Url() == o.collection + ['/'] + o.id;
    ReceivedWithMore(o.collection, o.id);
    if Received(o.collection).Some? { NamesAcross(Received(o.collection).value, o.id); }
  }

  // ----- what the guard sees of a path -----

  /** Every identifier without a colon that the path names is one the guard reads. */
  ghost predicate InSight(sh: Shapes, path: string) {
    forall id :: id in Named(path) && sh.identifier(id) && ':' !in id ==> id in Addressed(sh, path)
  }

  /** A path the parser takes as it stands is in sight. */
  lemma PlainIsInSight(sh: Shapes, path: string)
    requires Plain(path)
    ensures InSight(sh, path)
  {
    PlainIsReceived(path);
    forall id | id in Named(path) && sh.identifier(id) && ':' !in id
      ensures id in Addressed(sh, path)
    {
      if id in Split(path, '/') { assert SegmentId(id) == id; }
    }
  }

  ghost predicate AllInSight(sh: Shapes, dryRun: bool, steps: seq<Step>) {
    forall k :: ChangeSent(sh, dryRun, steps, k) ==> InSight(sh, steps[k].a.path)
  }

  // ----- which objects are safe -----

  /** Nothing this run was answered is `id`. */
  ghost predicate NeverAnswered(sh: Shapes, dryRun: bool, steps: seq<Step>, id: string) {
    forall j :: !CreateAnswered(sh, dryRun, steps, j, id)
  }

  /** An object whose identifier holds no colon is named by no run that sent only
      paths in sight and was not answered that identifier. */
  lemma ColonFreeIdentifiersAreUnnamed(sh: Shapes, dryRun: bool, steps: seq<Step>, id: string)
    requires SaneShapes(sh) && sh.identifier(id) && ':' !in id
    requires AllInSight(sh, dryRun, steps) && NeverAnswered(sh, dryRun, steps, id)
    ensures Unnamed(sh, dryRun, steps, id)
  {
    forall k | ChangeSent(sh, dryRun, steps, k)
      ensures id !in Named(steps[k].a.path)
    {
      ChangesAddressOnlyThisRunsObjects(sh, dryRun, steps, k);
      assert id !in Addressed(sh, steps[k].a.path);
    }
    forall o | o in Ledger(sh, dryRun, steps)
      ensures id !in Named(o.Url())
    {
      EntriesAreAnswered(sh, dryRun, steps, o);
      assert o.id != id;
      LedgerNamesNoOther(sh, dryRun, steps, o, id);
    }
  }

  lemma EntriesAreAnswered(sh: Shapes, dryRun: bool, steps: seq<Step>, o: CreatedObject)
    requires o in Ledger(sh, dryRun, steps)
    ensures exists j :: CreateAnswered(sh, dryRun, steps, j, o.id)
  {
    LedgerIsOwned(sh, dryRun, steps);
    OwnedIsWhatCreatesAnswered(sh, dryRun, steps, o.id);
  }

  /** The clean-up names no object but its own that the run did not name. */
  lemma LedgerNamesNoOther(sh: Shapes, dryRun: bool, steps: seq<Step>, o: CreatedObject, id: string)
    requires SaneShapes(sh) && o in Ledger(sh, dryRun, steps)
    requires sh.identifier(id) && ':' !in id && id != o.id
    requires forall k :: ChangeSent(sh, dryRun, steps, k) ==> id !in Named(steps[k].a.path)
    ensures id !in Named(o.Url())
  {
    LedgerWasSent(sh, dryRun, steps, o);
    UrlNames(sh, o);
    assert ':' !in o.id ==> SegmentId(o.id) == o.id;
  }

  /** A successful create names under "id" nothing the account already held. */
  ghost predicate AnswersFresh(sh: Shapes, dryRun: bool, steps: seq<Step>, initial: Account) {
    forall id :: id in initial ==> NeverAnswered(sh, dryRun, steps, id)
  }

  /** Whatever the answers and the moment the run stopped, at any endpoint whose
      creates answer fresh identifiers, and for every recording whose paths are in
      sight (plain paths are): every object the account held at the start under an
      identifier without a colon is there, unchanged, after the run and its
      clean-up. */
  lemma SessionLeavesTheAccountAlone(
    sh: Shapes, dryRun: bool, steps: seq<Step>, initial: Account, accounts: seq<Account>, walk: seq<Account>)
    requires SaneShapes(sh)
    requires AnswersFresh(sh, dryRun, steps, initial) && AllInSight(sh, dryRun, steps)
    requires Session(sh, dryRun, steps, initial, accounts, walk)
    ensures forall id :: id in initial && sh.identifier(id) && ':' !in id ==>
              Same(initial, accounts[|steps|], id) && Same(initial, walk[0], id)
  {
    forall id | id in initial && sh.identifier(id) && ':' !in id
      ensures Same(initial, accounts[|steps|], id) && Same(initial, walk[0], id)
    {
      ColonFreeIdentifiersAreUnnamed(sh, dryRun, steps, id);
      SurvivesTheRun(sh, dryRun, steps, accounts, id, |steps|);
      SurvivesTheWalk(Ledger(sh, dryRun, steps), walk, id, 0);
    }
  }
}
