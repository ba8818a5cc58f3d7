/** The backwards walk over the ledger at a cloud that refuses to delete what
    something else depends on: when it leaves nothing behind. */
module Cleanup {
  import opened Wrappers
  import opened Text
  import opened Json
  import opened AccountGuard
  import opened AccountSafety
  import opened AccountSessions

  /** `needs(x, u)` says that the object `x` depends on the object `u`. */
  ghost predicate Needed(account: Account, needs: (string, string) -> bool, u: string) {
    exists x :: x in account && needs(x, u)
  }

  /** The URL of the entry, as it is received, names the entry's object. */
  ghost predicate Reaches(o: CreatedObject) {
    o.id in Named(o.Url())
  }

  ghost predicate ReachFrom(ledger: seq<CreatedObject>, n: nat) {
    forall i :: n <= i < |ledger| ==> Reaches(ledger[i])
  }

  ghost function Delete(account: Account, needs: (string, string) -> bool, o: CreatedObject): Account {
    if Reaches(o) && !Needed(account, needs, o.id) then account - {o.id} else account
  }

  /** The account once the entries from `n` up have been deleted, newest first. */
  ghost function AccountAt(account: Account, needs: (string, string) -> bool, ledger: seq<CreatedObject>,
                           n: nat): Account
    requires n <= |ledger|
    decreases |ledger| - n
  {
    if n == |ledger| then account
    else Delete(AccountAt(account, needs, ledger, n + 1), needs, ledger[n])
  }

  /** How the reads come back: not at all, or, of an object that is gone, with 404
      or with 410. */
  datatype Reply = Silent | NotFound | NoLonger

  /** What the read after each DELETE answers; a URL that does not reach its object
      is answered for the collection, which is there. */
  ghost function Proofs(account: Account, needs: (string, string) -> bool, ledger: seq<CreatedObject>,
                        reply: nat -> Reply): seq<Option<int>>
  {
    seq(|ledger|, i requires 0 <= i < |ledger| =>
      if reply(i) == Silent then None
      else if !Reaches(ledger[i]) || ledger[i].id in AccountAt(account, needs, ledger, i) then Some(200)
      else if reply(i) == NotFound then Some(404) else Some(410))
  }

  ghost predicate EachReadComesBack(ledger: seq<CreatedObject>, reply: nat -> Reply) {
    forall i: nat :: i < |ledger| ==> reply(i) != Silent
  }

  /** Whatever depends on entry `i` of the ledger, from `n` up, is a later entry;
      an entry the run itself deleted is of no account. */
  ghost predicate OnlyLaterDepend(account: Account, needs: (string, string) -> bool, ledger: seq<CreatedObject>,
                                  n: nat)
  {
    forall i, x :: n <= i < |ledger| && ledger[i].id in account && x in account && needs(x, ledger[i].id) ==>
      exists j :: i < j < |ledger| && x == ledger[j].id
  }

  ghost function Ids(ledger: seq<CreatedObject>, n: nat): set<string> {
    set j | n <= j < |ledger| :: ledger[j].id
  }

  /** An entry is a leftover exactly when one of its proving reads was answered
      neither 404 nor 410, not at all included. */
  lemma {:induction false} LeftoversAreTheUnproved(ledger: seq<CreatedObject>, proofs: seq<Option<int>>,
                                                   o: CreatedObject)
    requires |proofs| == |ledger|
    ensures o in Leftovers(ledger, proofs) <==>
              exists i :: 0 <= i < |ledger| && ledger[i] == o && proofs[i] != Some(404) && proofs[i] != Some(410)
  {
    if ledger == [] {
    } else {
      var n := |ledger| - 1;
      var before, earlier := ledger[..n], proofs[..n];
      LeftoversAreTheUnproved(before, earlier, o);
      if i :| 0 <= i < n && before[i] == o && !Gone(earlier[i]) {
        assert ledger[i] == o && !Gone(proofs[i]);
      }
      if i :| 0 <= i < |ledger| && ledger[i] == o && !Gone(proofs[i]) && i != n {
        assert before[i] == o && !Gone(earlier[i]);
      }
    }
  }

  lemma NoneLeftIsAllProved(ledger: seq<CreatedObject>, proofs: seq<Option<int>>)
    requires |proofs| == |ledger|
    ensures Leftovers(ledger, proofs) == [] <==> forall i :: 0 <= i < |ledger| ==> Gone(proofs[i])
  {
    forall i | 0 <= i < |ledger| && !Gone(proofs[i])
      ensures ledger[i] in Leftovers(ledger, proofs)
    {
      LeftoversAreTheUnproved(ledger, proofs, ledger[i]);
    }
    if Leftovers(ledger, proofs) != [] {
      LeftoversAreTheUnproved(ledger, proofs, Leftovers(ledger, proofs)[0]);
    }
  }

  /** With the later entries gone, entry `n` is refused exactly when something
      other than a later entry depends on it. */
  lemma RefusedExactlyWhenNeeded(account: Account, needs: (string, string) -> bool, ledger: seq<CreatedObject>, n: nat)
    requires n < |ledger| && ledger[n].id in account
    requires OnlyLaterDepend(account, needs, ledger, n + 1)
    ensures Needed(account - Ids(ledger, n + 1), needs, ledger[n].id) <==> !OnlyLaterDepend(account, needs, ledger, n)
    ensures Needed(account - Ids(ledger, n + 1), needs, ledger[n].id) ==> ledger[n].id !in Ids(ledger, n + 1)
  {
    var here, u := account - Ids(ledger, n + 1), ledger[n].id;
    forall x | x in account && needs(x, u)
      ensures x !in here <==> exists j :: n < j < |ledger| && x == ledger[j].id
    {
    }
    if x :| x in here && needs(x, u) {
      assert x in account;
      forall j | n < j < |ledger|
        ensures u != ledger[j].id
      {
        if u == ledger[j].id { assert false; }
      }
    }
  }

  /** Entries from `n` up were gone when they were read. */
  ghost predicate GoneFrom(account: Account, needs: (string, string) -> bool, ledger: seq<CreatedObject>, n: nat) {
    forall i :: n <= i < |ledger| ==> Reaches(ledger[i]) && ledger[i].id !in AccountAt(account, needs, ledger, i)
  }

  /** Each entry from `n` up is reached, and only later ones depend on it. */
  ghost predicate CanGo(account: Account, needs: (string, string) -> bool, ledger: seq<CreatedObject>, n: nat) {
    ReachFrom(ledger, n) && OnlyLaterDepend(account, needs, ledger, n)
  }

  lemma GoneOneMore(account: Account, needs: (string, string) -> bool, ledger: seq<CreatedObject>, n: nat)
    requires n < |ledger|
    ensures GoneFrom(account, needs, ledger, n) <==>
              GoneFrom(account, needs, ledger, n + 1) && Reaches(ledger[n])
                  && ledger[n].id !in AccountAt(account, needs, ledger, n)
    ensures CanGo(account, needs, ledger, n) ==> CanGo(account, needs, ledger, n + 1) && Reaches(ledger[n])
  {
  }

  /** Down to `n` the walk has met no refusal exactly when it reached the entries it
      met and only later ones depend on them, and then those are all that is gone. */
  ghost predicate WalkedTo(account: Account, needs: (string, string) -> bool, ledger: seq<CreatedObject>, n: nat)
    requires n <= |ledger|
  {
    && (GoneFrom(account, needs, ledger, n) <==> CanGo(account, needs, ledger, n))
    && (CanGo(account, needs, ledger, n) ==>
          AccountAt(account, needs, ledger, n) == account - Ids(ledger, n))
  }

  lemma WalkBegins(account: Account, needs: (string, string) -> bool, ledger: seq<CreatedObject>)
    ensures WalkedTo(account, needs, ledger, |ledger|)
  {
    assert Ids(ledger, |ledger|) == {} && account - {} == account;
  }

  lemma WalkOneDown(account: Account, needs: (string, string) -> bool, ledger: seq<CreatedObject>, n: nat)
    requires n < |ledger|
    requires WalkedTo(account, needs, ledger, n + 1)
    ensures WalkedTo(account, needs, ledger, n)
  {
    GoneOneMore(account, needs, ledger, n);
    if CanGo(account, needs, ledger, n + 1) && Reaches(ledger[n]) {
      ReachOneMore(ledger, n);
      OneMoreDeleted(account, needs, ledger, n);
    }
  }

  lemma {:induction false} WalkDownTo(account: Account, needs: (string, string) -> bool, ledger: seq<CreatedObject>,
                                      n: nat)
    requires n <= |ledger|
    ensures WalkedTo(account, needs, ledger, n)
    decreases |ledger| - n
  {
    if n == |ledger| {
      WalkBegins(account, needs, ledger);
    } else {
      WalkDownTo(account, needs, ledger, n + 1);
      WalkOneDown(account, needs, ledger, n);
    }
  }

  lemma ReachOneMore(ledger: seq<CreatedObject>, n: nat)
    requires n < |ledger| && ReachFrom(ledger, n + 1) && Reaches(ledger[n])
    ensures ReachFrom(ledger, n)
  {
  }

  lemma OneMoreId(ledger: seq<CreatedObject>, n: nat)
    requires n < |ledger|
    ensures Ids(ledger, n) == Ids(ledger, n + 1) + {ledger[n].id}
  {
  }

  lemma WithoutOneMore(account: Account, ids: set<string>, id: string)
    ensures account - ids - {id} == account - (ids + {id})
  {
  }

  /** One entry further down, every later one gone. */
  lemma OneMoreDeleted(account: Account, needs: (string, string) -> bool, ledger: seq<CreatedObject>, n: nat)
    requires n < |ledger| && Reaches(ledger[n])
    requires OnlyLaterDepend(account, needs, ledger, n + 1)
    requires AccountAt(account, needs, ledger, n + 1) == account - Ids(ledger, n + 1)
    ensures ledger[n].id !in AccountAt(account, needs, ledger, n) <==> OnlyLaterDepend(account, needs, ledger, n)
    ensures OnlyLaterDepend(account, needs, ledger, n) ==>
              AccountAt(account, needs, ledger, n) == account - Ids(ledger, n)
  {
    var here, id := account - Ids(ledger, n + 1), ledger[n].id;
    OneMoreId(ledger, n);
    WithoutOneMore(account, Ids(ledger, n + 1), id);
    if id in account {
      RefusedExactlyWhenNeeded(account, needs, ledger, n);
    } else {
      NothingToDelete(account, needs, ledger, n);
    }
  }

  /** An entry the run itself deleted is gone whether its DELETE is refused or not. */
  lemma NothingToDelete(account: Account, needs: (string, string) -> bool, ledger: seq<CreatedObject>, n: nat)
    requires n < |ledger| && ledger[n].id !in account
    requires OnlyLaterDepend(account, needs, ledger, n + 1)
    ensures OnlyLaterDepend(account, needs, ledger, n)
    ensures var here := account - Ids(ledger, n + 1);
            ledger[n].id !in here && Delete(here, needs, ledger[n]) == here == here - {ledger[n].id}
  {
    DeletesNothing(account - Ids(ledger, n + 1), needs, ledger[n]);
  }

  lemma DeletesNothing(here: Account, needs: (string, string) -> bool, o: CreatedObject)
    requires o.id !in here
    ensures Delete(here, needs, o) == here == here - {o.id}
  {
  }

  /** The walk leaves nothing behind exactly when each entry's URL reaches its
      object and, in the account it starts from, whatever depends on an object of
      the ledger was created after it, and no read is lost; and then what is left
      is the account without the ledger. */
  lemma NothingIsLeftExactlyWhenOnlyLaterObjectsDepend(
    account: Account, needs: (string, string) -> bool, ledger: seq<CreatedObject>, reply: nat -> Reply)
    ensures Leftovers(ledger, Proofs(account, needs, ledger, reply)) == [] <==>
              CanGo(account, needs, ledger, 0) && EachReadComesBack(ledger, reply)
    ensures CanGo(account, needs, ledger, 0) ==>
              AccountAt(account, needs, ledger, 0) == account - Ids(ledger, 0)
  {
    WalkDownTo(account, needs, ledger, 0);
    var proofs := Proofs(account, needs, ledger, reply);
    NoneLeftIsAllProved(ledger, proofs);
    forall i: nat | i < |ledger|
      ensures Gone(proofs[i]) <==>
                reply(i) != Silent && Reaches(ledger[i]) && ledger[i].id !in AccountAt(account, needs, ledger, i)
    {
    }
  }

  // ----- the account a run reached -----

  /** Step `k` of a run that is not a dry one puts an entry called `id` in the ledger. */
  ghost predicate Records(sh: Shapes, steps: seq<Step>, k: int, id: string) {
    && Sent(sh, false, steps, k)
    && Creates(steps[k].a.verb)
    && steps[k].answer.Some?
    && Succeeded(steps[k].answer.value.status)
    && ObjectId(sh.identifier, steps[k].answer.value.body) == Some(id)
  }

  ghost predicate HeldBefore(accounts: seq<Account>, k: int, u: string)
    requires k < |accounts|
  {
    exists j :: 0 <= j <= k && u in accounts[j]
  }

  /** An object that appears has an identifier no earlier account held, and
      nothing depends on it yet. */
  ghost predicate AddsInOrder(accounts: seq<Account>, needs: (string, string) -> bool, k: nat)
    requires k + 1 < |accounts|
  {
    forall u :: u in accounts[k + 1] && u !in accounts[k] ==>
      !HeldBefore(accounts, k, u) && !Needed(accounts[k + 1], needs, u)
  }

  /** A cloud that mints in order, and whose create has added its object once it
      answers the identifier. */
  ghost predicate MintsInOrder(sh: Shapes, steps: seq<Step>, accounts: seq<Account>, needs: (string, string) -> bool)
    requires |accounts| == |steps| + 1
  {
    && (forall k :: 0 <= k < |steps| ==> AddsInOrder(accounts, needs, k))
    && (forall k, id :: Records(sh, steps, k, id) ==> id in accounts[k + 1] && id !in accounts[k])
  }

  /** What a later entry's object may depend on: earlier entries, what was there,
      and what the ledger does not know of. */
  ghost predicate InOrder(initial: Account, account: Account, needs: (string, string) -> bool,
                          ledger: seq<CreatedObject>)
  {
    forall i, x :: 0 <= i < |ledger| && x in account && needs(x, ledger[i].id) ==>
      || (exists j :: i < j < |ledger| && x == ledger[j].id)
      || (x !in initial && x !in Ids(ledger, 0))
  }

  lemma LedgerGrows(sh: Shapes, steps: seq<Step>, k: nat) returns (added: seq<CreatedObject>)
    requires k < |steps|
    ensures Ledger(sh, false, steps[..k + 1]) == Ledger(sh, false, steps[..k]) + added
    ensures |added| <= 1
    ensures added != [] ==> Records(sh, steps, k, added[0].id)
  {
    assert steps[..k + 1] == steps[..k] + [steps[k]];
    StateSnoc(sh, false, steps[..k], steps[k]);
    OwnershipGrows(sh, false, steps[..k], 0);
    var was, now := Ledger(sh, false, steps[..k]), Ledger(sh, false, steps[..k + 1]);
    added := now[|was|..];
  }

  /** After `k` steps: everything in the ledger was added by the run, and nothing
      depends on it but later entries and strays. */
  ghost predicate OrderlyAt(accounts: seq<Account>, needs: (string, string) -> bool, k: nat, ledger: seq<CreatedObject>)
    requires k < |accounts|
  {
    && (forall u :: u in Ids(ledger, 0) ==> HeldBefore(accounts, k, u) && u !in accounts[0])
    && InOrder(accounts[0], accounts[k], needs, ledger)
  }

  lemma NothingAddedStaysOrderly(accounts: seq<Account>, needs: (string, string) -> bool, k: nat,
                                 ledger: seq<CreatedObject>)
    requires k + 1 < |accounts| && AddsInOrder(accounts, needs, k)
    requires OrderlyAt(accounts, needs, k, ledger)
    ensures OrderlyAt(accounts, needs, k + 1, ledger)
  {
    forall u | HeldBefore(accounts, k, u)
      ensures HeldBefore(accounts, k + 1, u)
    {
      var j :| 0 <= j <= k && u in accounts[j];
    }
    forall i, x | 0 <= i < |ledger| && x in accounts[k + 1] && needs(x, ledger[i].id)
      ensures (exists j :: i < j < |ledger| && x == ledger[j].id) || (x !in accounts[0] && x !in Ids(ledger, 0))
    {
      if x !in accounts[k] {
        assert !HeldBefore(accounts, k, x);
      }
    }
  }

  lemma OneAddedStaysOrderly(
    accounts: seq<Account>, needs: (string, string) -> bool, k: nat, ledger: seq<CreatedObject>, o: CreatedObject)
    requires k + 1 < |accounts| && AddsInOrder(accounts, needs, k)
    requires OrderlyAt(accounts, needs, k + 1, ledger)
    requires o.id in accounts[k + 1] && o.id !in accounts[k]
    ensures OrderlyAt(accounts, needs, k + 1, ledger + [o])
  {
    var all := ledger + [o];
    assert Ids(all, 0) == Ids(ledger, 0) + {o.id} by {
      assert all[|ledger|] == o;
      forall j | 0 <= j < |ledger| ensures all[j] == ledger[j] {}
    }
    assert !HeldBefore(accounts, k, o.id) && !Needed(accounts[k + 1], needs, o.id);
    forall i, x | 0 <= i < |all| && x in accounts[k + 1] && needs(x, all[i].id)
      ensures (exists j :: i < j < |all| && x == all[j].id) || (x !in accounts[0] && x !in Ids(all, 0))
    {
      if i < |ledger| {
        if j :| i < j < |ledger| && x == ledger[j].id {
          assert all[j] == ledger[j];
        } else if x == o.id {
          assert all[|ledger|].id == x;
        }
      }
    }
  }

  lemma OneStepStaysOrderly(
    sh: Shapes, steps: seq<Step>, accounts: seq<Account>, needs: (string, string) -> bool, k: nat,
    ledger: seq<CreatedObject>,
    added: seq<CreatedObject>)
    requires |accounts| == |steps| + 1 && k < |steps|
    requires MintsInOrder(sh, steps, accounts, needs)
    requires OrderlyAt(accounts, needs, k, ledger)
    requires |added| <= 1 && (added != [] ==> Records(sh, steps, k, added[0].id))
    ensures OrderlyAt(accounts, needs, k + 1, ledger + added)
  {
    NothingAddedStaysOrderly(accounts, needs, k, ledger);
    if added == [] {
      assert ledger + added == ledger;
    } else {
      assert added == [added[0]];
      OneAddedStaysOrderly(accounts, needs, k, ledger, added[0]);
    }
  }

  lemma {:induction false} RunsAreOrderly(
    sh: Shapes, steps: seq<Step>, accounts: seq<Account>, needs: (string, string) -> bool, k: nat)
    requires |accounts| == |steps| + 1 && k <= |steps|
    requires MintsInOrder(sh, steps, accounts, needs)
    ensures OrderlyAt(accounts, needs, k, Ledger(sh, false, steps[..k]))
  {
    if k == 0 {
    } else {
      RunsAreOrderly(sh, steps, accounts, needs, k - 1);
      var added := LedgerGrows(sh, steps, k - 1);
      OneStepStaysOrderly(sh, steps, accounts, needs, k - 1, Ledger(sh, false, steps[..k - 1]), added);
    }
  }

  lemma {:induction false} OnlyTheLedgerGoes(account: Account, needs: (string, string) -> bool,
                                             ledger: seq<CreatedObject>, n: nat, x: string)
    requires n <= |ledger| && x in account && x !in Ids(ledger, n)
    ensures x in AccountAt(account, needs, ledger, n)
    decreases |ledger| - n
  {
    if n == |ledger| {
    } else {
      assert Ids(ledger, n + 1) <= Ids(ledger, n) && ledger[n].id in Ids(ledger, n);
      OnlyTheLedgerGoes(account, needs, ledger, n + 1, x);
    }
  }

  /** The accounts of the walk, as a session lists them. */
  ghost function WalkOf(account: Account, needs: (string, string) -> bool,
                        ledger: seq<CreatedObject>): (walk: seq<Account>)
    ensures |walk| == |ledger| + 1 && walk[|ledger|] == account
    ensures forall i :: 0 <= i <= |ledger| ==> walk[i] == AccountAt(account, needs, ledger, i)
  {
    seq(|ledger| + 1, i requires 0 <= i <= |ledger| => AccountAt(account, needs, ledger, i))
  }

  lemma DeletingKeeps(account: Account, needs: (string, string) -> bool, o: CreatedObject)
    ensures Keeps(account, Delete(account, needs, o), Named(o.Url()))
  {
  }

  lemma WalkTouchesTheLedger(account: Account, needs: (string, string) -> bool, ledger: seq<CreatedObject>)
    ensures WalkEffects(ledger, WalkOf(account, needs, ledger))
  {
    forall i | 0 <= i < |ledger|
      ensures Keeps(AccountAt(account, needs, ledger, i + 1), AccountAt(account, needs, ledger, i),
                    Named(ledger[i].Url()))
    {
      DeletingKeeps(AccountAt(account, needs, ledger, i + 1), needs, ledger[i]);
    }
  }

  /** The walk at such a cloud is the second half of a session. */
  lemma TheWalkIsASession(
    sh: Shapes, steps: seq<Step>, accounts: seq<Account>, needs: (string, string) -> bool)
    requires |accounts| == |steps| + 1 && Effects(sh, false, steps, accounts)
    ensures Session(sh, false, steps, accounts[0], accounts, WalkOf(accounts[|steps|], needs, Ledger(sh, false, steps)))
  {
    WalkTouchesTheLedger(accounts[|steps|], needs, Ledger(sh, false, steps));
  }

  /** The walk from `last` proves everything gone and leaves `initial`. */
  ghost predicate EndsAs(initial: Account, last: Account, needs: (string, string) -> bool, ledger: seq<CreatedObject>,
                         reply: nat -> Reply)
  {
    Leftovers(ledger, Proofs(last, needs, ledger, reply)) == [] && AccountAt(last, needs, ledger, 0) == initial
  }

  lemma OrderlyDepends(initial: Account, last: Account, needs: (string, string) -> bool, ledger: seq<CreatedObject>)
    requires InOrder(initial, last, needs, ledger) && last.Keys <= initial.Keys + Ids(ledger, 0)
    ensures OnlyLaterDepend(last, needs, ledger, 0)
  {
  }

  lemma WithoutTheLedger(initial: Account, last: Account, ids: set<string>)
    requires ids !! initial.Keys && Keeps(initial, last, {})
    ensures last.Keys <= initial.Keys + ids <==> last - ids == initial
  {
    if last.Keys <= initial.Keys + ids {
      assert last - ids == initial;
    } else {
      var x :| x in last && x !in initial && x !in ids;
      assert x in last - ids;
    }
  }

  lemma OrderlyEndsAsItBegan(initial: Account, last: Account, needs: (string, string) -> bool,
                             ledger: seq<CreatedObject>, reply: nat -> Reply)
    requires InOrder(initial, last, needs, ledger) && Ids(ledger, 0) !! initial.Keys && Keeps(initial, last, {})
    ensures EndsAs(initial, last, needs, ledger, reply) <==>
              ReachFrom(ledger, 0) && EachReadComesBack(ledger, reply) && last.Keys <= initial.Keys + Ids(ledger, 0)
  {
    NothingIsLeftExactlyWhenOnlyLaterObjectsDepend(last, needs, ledger, reply);
    WithoutTheLedger(initial, last, Ids(ledger, 0));
    if last.Keys <= initial.Keys + Ids(ledger, 0) {
      OrderlyDepends(initial, last, needs, ledger);
    }
  }

  /** A whole session at a cloud that mints in order and refuses to delete what
      is needed, in which nothing that was there is named: the clean-up proves
      everything gone and the account ends as it began exactly when the run added
      nothing but what its ledger holds, each URL of the ledger reaches its object
      and no read is lost. */
  lemma SessionEndsAsItBeganExactlyWhen(
    sh: Shapes, steps: seq<Step>, accounts: seq<Account>, needs: (string, string) -> bool, reply: nat -> Reply)
    requires |accounts| == |steps| + 1
    requires Effects(sh, false, steps, accounts) && MintsInOrder(sh, steps, accounts, needs)
    requires forall id :: id in accounts[0] ==> Unnamed(sh, false, steps, id)
    ensures var ledger, last := Ledger(sh, false, steps), accounts[|steps|];
            EndsAs(accounts[0], last, needs, ledger, reply) <==>
              && ReachFrom(ledger, 0) && EachReadComesBack(ledger, reply)
              && last.Keys <= accounts[0].Keys + Ids(ledger, 0)
  {
    var ledger, last := Ledger(sh, false, steps), accounts[|steps|];
    assert steps[..|steps|] == steps;
    RunsAreOrderly(sh, steps, accounts, needs, |steps|);
    forall id | id in accounts[0]
      ensures Same(accounts[0], last, id)
    {
      SurvivesTheRun(sh, false, steps, accounts, id, |steps|);
    }
    OrderlyEndsAsItBegan(accounts[0], last, needs, ledger, reply);
  }
}
