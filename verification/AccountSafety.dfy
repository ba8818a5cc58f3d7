/** Whole runs of the account guard, at any endpoint: what a run may address,
    and what the account looks like when it is over. */
module AccountSafety {
  import opened Wrappers
  import opened Text
  import opened Ordering
  import opened Json
  import opened AccountGuard
  import opened Wire

  /** One attempt the guard was asked about, with what came back: `None` when it was
      turned down, or sent and never answered. */
  datatype Step = Step(a: Attempt, answer: Option<Answer>)

  ghost function Advance(sh: Shapes, st: GuardState, s: Step): GuardState {
    if Decide(sh, st, s.a) == Allow && s.answer.Some? then Learn(sh, st, s.a, s.answer.value) else st
  }

  /** The state a run reaches, the record of invented values left aside: no
      decision and no lesson looks at it. */
  ghost function StateAfter(sh: Shapes, dryRun: bool, steps: seq<Step>): GuardState {
    if steps == [] then Fresh(dryRun)
    else Advance(sh, StateAfter(sh, dryRun, steps[..|steps| - 1]), steps[|steps| - 1])
  }

  ghost predicate Sent(sh: Shapes, dryRun: bool, steps: seq<Step>, k: int) {
    0 <= k < |steps| && Decide(sh, StateAfter(sh, dryRun, steps[..k]), steps[k].a) == Allow
  }

  /** Step `j` was sent and is a create the endpoint answered with success,
      carrying `id`. */
  ghost predicate CreateAnswered(sh: Shapes, dryRun: bool, steps: seq<Step>, j: int, id: string) {
    && Sent(sh, dryRun, steps, j)
    && steps[j].answer.Some?
    && Teaches(sh, steps[j].a, steps[j].answer.value, id)
  }

  // ----- the imperative loop is a run -----

  ghost function Core(st: GuardState): GuardState {
    st.(synthetic := map[])
  }

  /** The invented values of the last attempt numbered `n` that carried any. */
  ghost function Invented(sh: Shapes, steps: seq<Step>, n: int): set<string> {
    if steps == [] then {}
    else
      var a := steps[|steps| - 1].a;
      if a.seqNo == n && SyntheticIn(sh, a) != {} then SyntheticIn(sh, a)
      else Invented(sh, steps[..|steps| - 1], n)
  }

  /** What the guard recorded of the requests it was shown: an entry exactly for
      those carrying an invented value, listing all of them in order. */
  ghost predicate RecordsInvented(sh: Shapes, steps: seq<Step>, synthetic: map<int, seq<string>>) {
    && (forall n :: n in synthetic <==> Invented(sh, steps, n) != {})
    && (forall n :: n in synthetic ==> IsListing(synthetic[n], Invented(sh, steps, n)))
  }

  /** A replay numbers its requests apart, and then an entry is about one. */
  lemma {:induction false} InventedIsTheRequestsOwn(sh: Shapes, steps: seq<Step>, k: nat)
    requires k < |steps|
    requires forall i, j :: 0 <= i < j < |steps| ==> steps[i].a.seqNo != steps[j].a.seqNo
    ensures Invented(sh, steps, steps[k].a.seqNo) == SyntheticIn(sh, steps[k].a)
  {
    if k < |steps| - 1 {
      InventedIsTheRequestsOwn(sh, steps[..|steps| - 1], k);
    } else {
      NobodyElsesNumber(sh, steps[..k], steps[k].a.seqNo);
    }
  }

  lemma {:induction false} NobodyElsesNumber(sh: Shapes, steps: seq<Step>, n: int)
    requires forall i :: 0 <= i < |steps| ==> steps[i].a.seqNo != n
    ensures Invented(sh, steps, n) == {}
  {
    if steps == [] {
    } else {
      NobodyElsesNumber(sh, steps[..|steps| - 1], n);
    }
  }

  lemma StateSnoc(sh: Shapes, dryRun: bool, steps: seq<Step>, s: Step)
    ensures StateAfter(sh, dryRun, steps + [s]) == Advance(sh, StateAfter(sh, dryRun, steps), s)
  {
    assert (steps + [s])[..|steps|] == steps;
  }

  lemma SentSnoc(sh: Shapes, dryRun: bool, steps: seq<Step>, s: Step)
    ensures forall k :: k < |steps| ==> Sent(sh, dryRun, steps + [s], k) == Sent(sh, dryRun, steps, k)
    ensures Sent(sh, dryRun, steps + [s], |steps|) == (Decide(sh, StateAfter(sh, dryRun, steps), s.a) == Allow)
  {
    assert (steps + [s])[..|steps|] == steps;
    forall k | 0 <= k < |steps|
      ensures Sent(sh, dryRun, steps + [s], k) == Sent(sh, dryRun, steps, k)
    {
      assert (steps + [s])[..k] == steps[..k];
    }
  }

  lemma InventedSnoc(sh: Shapes, steps: seq<Step>, s: Step, n: int)
    ensures Invented(sh, steps + [s], n)
         == if s.a.seqNo == n && SyntheticIn(sh, s.a) != {} then SyntheticIn(sh, s.a) else Invented(sh, steps, n)
  {
    assert (steps + [s])[..|steps|] == steps;
  }

  lemma CoreIsEnough(sh: Shapes, st: GuardState, a: Attempt, noted: GuardState)
    requires Noted(sh, st, a, noted)
    ensures Core(noted) == Core(st)
    ensures Decide(sh, Core(st), a) == Decide(sh, st, a)
    ensures forall answer :: Core(Learn(sh, noted, a, answer)) == Learn(sh, Core(st), a, answer)
  {
  }

  /** The guard stands where the run of `steps` says, with its record of them. */
  ghost predicate OnTrack(sh: Shapes, dryRun: bool, st: GuardState, steps: seq<Step>) {
    Core(st) == StateAfter(sh, dryRun, steps) && RecordsInvented(sh, steps, st.synthetic)
  }

  lemma OneMoreStep(sh: Shapes, dryRun: bool, st: GuardState, steps: seq<Step>, s: Step, noted: GuardState)
    requires OnTrack(sh, dryRun, st, steps) && Noted(sh, st, s.a, noted)
    ensures var sent := Decide(sh, st, s.a) == Allow;
            OnTrack(sh, dryRun, if sent
                    && s.answer.Some? then Learn(sh, noted, s.a, s.answer.value) else noted, steps + [s])
  {
    CoreIsEnough(sh, st, s.a, noted);
    StateSnoc(sh, dryRun, steps, s);
    OneMoreRecord(sh, st, steps, s, noted);
  }

  lemma OneMoreRecord(sh: Shapes, st: GuardState, steps: seq<Step>, s: Step, noted: GuardState)
    requires RecordsInvented(sh, steps, st.synthetic) && Noted(sh, st, s.a, noted)
    ensures RecordsInvented(sh, steps + [s], noted.synthetic)
  {
    forall n: int
      ensures Invented(sh, steps + [s], n)
           == if s.a.seqNo == n && SyntheticIn(sh, s.a) != {} then SyntheticIn(sh, s.a) else Invented(sh, steps, n)
    {
      InventedSnoc(sh, steps, s, n);
    }
  }

  /** What one exchange comes to. Nothing is asked when the recording holds no
      answer for it or no route serves it, and a request that cannot be built ends
      the run; otherwise the guard lets the request out or turns it down. */
  datatype Fate = NotRecorded | Unbuilt | NotServed | TurnedDown(why: Decision) | LetOut

  /** What a recording says to send next: the attempt exchange `i` makes once its
      path, query and body are rebound by what was sent and answered so far, none
      when the recording holds no answer for it; and whether a route serves it. */
  datatype Recording = Recording(next: (nat, seq<Step>) -> Option<Attempt>, served: Attempt -> bool)

  /** What keeps exchange `n` from being asked about, when something does. */
  function Unasked(rec: Recording, n: nat, before: seq<Step>): Option<Fate> {
    var attempt := rec.next(n, before);
    if attempt == None then Some(NotRecorded)
    else if Received(attempt.value.path) == None then Some(Unbuilt)
    else if !rec.served(attempt.value) then Some(NotServed)
    else None
  }

  function Judged(d: Decision): Fate {
    if d == Allow then LetOut else TurnedDown(d)
  }

  /** The step of an attempt that was asked about: the answer is kept when it was
      let out. */
  function StepOf(a: Attempt, d: Decision, answer: Option<Answer>): Step {
    Step(a, if d == Allow then answer else None)
  }

  ghost function FateOf(sh: Shapes, dryRun: bool, rec: Recording, n: nat, before: seq<Step>): Fate {
    if Unasked(rec, n, before).Some? then Unasked(rec, n, before).value
    else Judged(Decide(sh, StateAfter(sh, dryRun, before), rec.next(n, before).value))
  }

  /** `before` and the step exchange `n` adds to it, if it is asked about. */
  ghost function ShownNext(sh: Shapes, dryRun: bool, rec: Recording, n: nat, before: seq<Step>,
                           answer: Option<Answer>): seq<Step>
  {
    if Unasked(rec, n, before).Some? then before
    else
      var a := rec.next(n, before).value;
      before + [StepOf(a, Decide(sh, StateAfter(sh, dryRun, before), a), answer)]
  }

  /** What the guard has been shown after the first `n` exchanges. */
  ghost function Shown(sh: Shapes, dryRun: bool, rec: Recording, answers: seq<Option<Answer>>, n: nat): seq<Step>
    requires n <= |answers|
  {
    if n == 0 then []
    else ShownNext(sh, dryRun, rec, n - 1, Shown(sh, dryRun, rec, answers, n - 1), answers[n - 1])
  }

  ghost function FateAt(sh: Shapes, dryRun: bool, rec: Recording, answers: seq<Option<Answer>>, n: nat): Fate
    requires n <= |answers|
  {
    FateOf(sh, dryRun, rec, n, Shown(sh, dryRun, rec, answers, n))
  }

  /** `fate` is what exchange `n` came to, and the run went on after it. */
  ghost predicate MetAt(sh: Shapes, dryRun: bool, rec: Recording, answers: seq<Option<Answer>>, n: nat, fate: Fate)
    requires n < |answers|
  {
    && fate == FateAt(sh, dryRun, rec, answers, n)
    && fate != Unbuilt
    && (fate == LetOut ==> answers[n].Some?)
  }

  ghost predicate Met(sh: Shapes, dryRun: bool, rec: Recording, answers: seq<Option<Answer>>, fates: seq<Fate>) {
    || fates == []
    || (&& |fates| <= |answers|
        && Met(sh, dryRun, rec, answers, fates[..|fates| - 1])
        && MetAt(sh, dryRun, rec, answers, |fates| - 1, fates[|fates| - 1]))
  }

  lemma {:induction false} MetEach(sh: Shapes, dryRun: bool, rec: Recording, answers: seq<Option<Answer>>,
                                   fates: seq<Fate>, i: nat)
    requires Met(sh, dryRun, rec, answers, fates) && i < |fates|
    ensures |fates| <= |answers| && MetAt(sh, dryRun, rec, answers, i, fates[i])
  {
    if i == |fates| - 1 {
    } else {
      MetEach(sh, dryRun, rec, answers, fates[..|fates| - 1], i);
    }
  }

  /** The exchanges so far met these fates, and the guard was shown these steps. */
  ghost predicate Along(sh: Shapes, dryRun: bool, rec: Recording, answers: seq<Option<Answer>>, fates: seq<Fate>,
                        steps: seq<Step>)
  {
    Met(sh, dryRun, rec, answers, fates) && steps == Shown(sh, dryRun, rec, answers, |fates|)
  }

  lemma MetOneMore(sh: Shapes, dryRun: bool, rec: Recording, answers: seq<Option<Answer>>, fates: seq<Fate>, fate: Fate)
    requires Met(sh, dryRun, rec, answers, fates) && |fates| < |answers|
    requires MetAt(sh, dryRun, rec, answers, |fates|, fate)
    ensures Met(sh, dryRun, rec, answers, fates + [fate])
  {
    assert (fates + [fate])[..|fates|] == fates;
  }

  /** The exchange at which a run ends: its request could not be built, or was let
      out and never answered. */
  predicate Stops(fate: Fate, answer: Option<Answer>) {
    fate == Unbuilt || (fate == LetOut && answer == None)
  }

  /** A whole run: what each exchange it got to came to, and why it went no further. */
  ghost predicate Ran(sh: Shapes, dryRun: bool, rec: Recording, answers: seq<Option<Answer>>, fates: seq<Fate>,
                      steps: seq<Step>, aborted: bool)
  {
    && Met(sh, dryRun, rec, answers, fates)
    && (if aborted
        then |fates| < |answers| && Stops(FateAt(sh, dryRun, rec, answers, |fates|), answers[|fates|])
        else |fates| == |answers|)
    && steps == Shown(sh, dryRun, rec, answers, if aborted then |fates| + 1 else |fates|)
  }

  /** The request of exchange `i` can be built, and is answered if it is let out. */
  ghost predicate GoesOnAt(sh: Shapes, dryRun: bool, rec: Recording, answers: seq<Option<Answer>>, i: int) {
    0 <= i < |answers| ==>
      var fate := FateAt(sh, dryRun, rec, answers, i);
      fate != Unbuilt && (fate == LetOut ==> answers[i].Some?)
  }

  lemma MetGoesOn(sh: Shapes, dryRun: bool, rec: Recording, answers: seq<Option<Answer>>, i: nat, fate: Fate)
    requires i < |answers| && MetAt(sh, dryRun, rec, answers, i, fate)
    ensures GoesOnAt(sh, dryRun, rec, answers, i)
  {
  }

  lemma StopIsNotGoingOn(sh: Shapes, dryRun: bool, rec: Recording, answers: seq<Option<Answer>>, i: nat)
    requires i < |answers| && Stops(FateAt(sh, dryRun, rec, answers, i), answers[i])
    ensures !GoesOnAt(sh, dryRun, rec, answers, i)
  {
  }

  /** A run takes up every exchange if and only if each request can be built and each
      one let out is answered. */
  lemma RunsToTheEndExactlyWhen(sh: Shapes, dryRun: bool, rec: Recording, answers: seq<Option<Answer>>,
                                fates: seq<Fate>, steps: seq<Step>, aborted: bool)
    requires Ran(sh, dryRun, rec, answers, fates, steps, aborted)
    ensures !aborted <==> forall i :: GoesOnAt(sh, dryRun, rec, answers, i)
  {
    if aborted {
      StopIsNotGoingOn(sh, dryRun, rec, answers, |fates|);
    } else {
      forall i
        ensures GoesOnAt(sh, dryRun, rec, answers, i)
      {
        if 0 <= i < |answers| {
          MetEach(sh, dryRun, rec, answers, fates, i);
          MetGoesOn(sh, dryRun, rec, answers, i, fates[i]);
        }
      }
    }
  }

  lemma NextIsMet(sh: Shapes, dryRun: bool, rec: Recording, answers: seq<Option<Answer>>, n: nat, steps: seq<Step>,
                  fate: Fate)
    requires n < |answers| && steps == Shown(sh, dryRun, rec, answers, n)
    requires fate == FateOf(sh, dryRun, rec, n, steps) && !Stops(fate, answers[n])
    ensures MetAt(sh, dryRun, rec, answers, n, fate)
  {
  }

  lemma NextIsShown(sh: Shapes, dryRun: bool, rec: Recording, answers: seq<Option<Answer>>, n: nat, steps: seq<Step>)
    requires n < |answers| && steps == Shown(sh, dryRun, rec, answers, n)
    ensures ShownNext(sh, dryRun, rec, n, steps, answers[n]) == Shown(sh, dryRun, rec, answers, n + 1)
  {
  }

  lemma GoesOn(sh: Shapes, dryRun: bool, rec: Recording, answers: seq<Option<Answer>>, fates: seq<Fate>,
               steps: seq<Step>,
               fate: Fate, now: seq<Step>)
    requires Along(sh, dryRun, rec, answers, fates, steps) && |fates| < |answers|
    requires fate == FateOf(sh, dryRun, rec, |fates|, steps)
               && now == ShownNext(sh, dryRun, rec, |fates|, steps, answers[|fates|])
    requires !Stops(fate, answers[|fates|])
    ensures Along(sh, dryRun, rec, answers, fates + [fate], now)
  {
    NextIsMet(sh, dryRun, rec, answers, |fates|, steps, fate);
    NextIsShown(sh, dryRun, rec, answers, |fates|, steps);
    MetOneMore(sh, dryRun, rec, answers, fates, fate);
    assert |fates + [fate]| == |fates| + 1;
  }

  lemma EndsHere(sh: Shapes, dryRun: bool, rec: Recording, answers: seq<Option<Answer>>, fates: seq<Fate>,
                 steps: seq<Step>,
                 fate: Fate, now: seq<Step>)
    requires Along(sh, dryRun, rec, answers, fates, steps) && |fates| < |answers|
    requires fate == FateOf(sh, dryRun, rec, |fates|, steps)
               && now == ShownNext(sh, dryRun, rec, |fates|, steps, answers[|fates|])
    requires Stops(fate, answers[|fates|])
    ensures Ran(sh, dryRun, rec, answers, fates, now, true)
  {
    NextIsShown(sh, dryRun, rec, answers, |fates|, steps);
  }

  lemma AlongToTheEnd(sh: Shapes, dryRun: bool, rec: Recording, answers: seq<Option<Answer>>, fates: seq<Fate>,
                      steps: seq<Step>)
    requires Along(sh, dryRun, rec, answers, fates, steps) && |fates| == |answers|
    ensures Ran(sh, dryRun, rec, answers, fates, steps, false)
  {
  }

  /** One request, asked before and, if it was let out and answered, learnt from. */
  method Ask(g: Guard, ghost steps: seq<Step>, a: Attempt, answer: Option<Answer>) returns (decision: Decision, s: Step)
    requires OnTrack(g.shapes, g.dryRun, g.State(), steps)
    modifies g
    ensures decision == Decide(g.shapes, StateAfter(g.shapes, g.dryRun, steps), a)
    ensures s == StepOf(a, decision, answer)
    ensures OnTrack(g.shapes, g.dryRun, g.State(), steps + [s])
  {
    ghost var was := g.State();
    decision := g.Before(a);
    CoreIsEnough(g.shapes, was, a, g.State());
    s := StepOf(a, decision, answer);
    OneMoreStep(g.shapes, g.dryRun, was, steps, s, g.State());
    if decision == Allow && answer != None {
      g.After(a, answer.value);
    }
  }

  /** One exchange: rebind, build, find the route, ask, send, hand the answer over. */
  method ReplayOne(g: Guard, rec: Recording, n: nat, steps: seq<Step>, answer: Option<Answer>)
    returns (fate: Fate, now: seq<Step>)
    requires OnTrack(g.shapes, g.dryRun, g.State(), steps)
    modifies g
    ensures fate == FateOf(g.shapes, g.dryRun, rec, n, steps)
    ensures now == ShownNext(g.shapes, g.dryRun, rec, n, steps, answer)
    ensures OnTrack(g.shapes, g.dryRun, g.State(), now)
  {
    var early := Unasked(rec, n, steps);
    if early.Some? { return early.value, steps; }
    var decision, s := Ask(g, steps, rec.next(n, steps).value, answer);
    fate, now := Judged(decision), steps + [s];
  }

  /** The replay loop. An exchange with nothing to ask and a refused request are
      passed over; a request that cannot be built, or whose answer never comes,
      ends the run, and that exchange has no result. */
  method Replay(g: Guard, rec: Recording, answers: seq<Option<Answer>>)
    returns (steps: seq<Step>, fates: seq<Fate>, aborted: bool)
    requires g.State() == Fresh(g.dryRun)
    modifies g
    ensures Ran(g.shapes, g.dryRun, rec, answers, fates, steps, aborted)
    ensures OnTrack(g.shapes, g.dryRun, g.State(), steps)
  {
    steps, fates, aborted := [], [], false;
    while |fates| < |answers|
      invariant |fates| <= |answers|
      invariant Along(g.shapes, g.dryRun, rec, answers, fates, steps)
      invariant OnTrack(g.shapes, g.dryRun, g.State(), steps)
    {
      var answer := answers[|fates|];
      var fate, now := ReplayOne(g, rec, |fates|, steps, answer);
      if Stops(fate, answer) {
        EndsHere(g.shapes, g.dryRun, rec, answers, fates, steps, fate, now);
        return now, fates, true;
      }
      GoesOn(g.shapes, g.dryRun, rec, answers, fates, steps, fate, now);
      steps, fates := now, fates + [fate];
    }
    AlongToTheEnd(g.shapes, g.dryRun, rec, answers, fates, steps);
  }

  // ----- ownership -----

  /** Ownership is exactly what earlier successful creates of this run answered. */
  lemma {:induction false} OwnedIsWhatCreatesAnswered(sh: Shapes, dryRun: bool, steps: seq<Step>, id: string)
    ensures id in StateAfter(sh, dryRun, steps).owned
       <==> exists j :: CreateAnswered(sh, dryRun, steps, j, id)
  {
    if steps == [] {
    } else {
      var n := |steps| - 1;
      var before := steps[..n];
      OwnedIsWhatCreatesAnswered(sh, dryRun, before, id);
      if steps[n].answer.Some? { LearnMeans(sh, StateAfter(sh, dryRun, before), steps[n].a, steps[n].answer.value); }
      forall j | 0 <= j < n
        ensures CreateAnswered(sh, dryRun, before, j, id) <==> CreateAnswered(sh, dryRun, steps, j, id)
      {
        assert before[..j] == steps[..j];
      }
      if id in StateAfter(sh, dryRun, before).owned {
        var j :| CreateAnswered(sh, dryRun, before, j, id);
        assert CreateAnswered(sh, dryRun, steps, j, id);
      } else if id in StateAfter(sh, dryRun, steps).owned {
        assert CreateAnswered(sh, dryRun, steps, n, id);
      }
    }
  }

  lemma {:induction false} OwnershipGrows(sh: Shapes, dryRun: bool, steps: seq<Step>, k: nat)
    requires k <= |steps|
    ensures StateAfter(sh, dryRun, steps[..k]).owned <= StateAfter(sh, dryRun, steps).owned
    ensures StateAfter(sh, dryRun, steps).dryRun == dryRun
    decreases |steps|
  {
    if k == |steps| {
      assert steps[..k] == steps;
      if steps != [] { OwnershipGrows(sh, dryRun, steps[..k - 1], 0); }
    } else {
      var before := steps[..|steps| - 1];
      assert before[..k] == steps[..k];
      OwnershipGrows(sh, dryRun, before, k);
    }
  }

  /** Main safety result. A request that changes state and was let out is a
      DELETE or PATCH naming at least one identifier or a POST or PUT on the free
      list, the run is not a dry one, and each identifier its path names came in
      the answer of an earlier successful create of this very run. */
  lemma ChangesAddressOnlyThisRunsObjects(sh: Shapes, dryRun: bool, steps: seq<Step>, k: nat)
    requires Sent(sh, dryRun, steps, k) && !Reads(steps[k].a.verb)
    ensures !dryRun
    ensures forall id :: id in Addressed(sh, steps[k].a.path) ==>
              exists j :: j < k && CreateAnswered(sh, dryRun, steps, j, id)
    ensures steps[k].a.verb.DELETE? || steps[k].a.verb.PATCH? ==> Addressed(sh, steps[k].a.path) != {}
    ensures !steps[k].a.verb.DELETE? && !steps[k].a.verb.PATCH? ==>
              Creates(steps[k].a.verb) && steps[k].a.operation in FREE_TO_CREATE
  {
    var before := steps[..k];
    assert before == before[..|before|];
    OwnershipGrows(sh, dryRun, before, 0);
    forall id | id in Addressed(sh, steps[k].a.path)
      ensures exists j :: j < k && CreateAnswered(sh, dryRun, steps, j, id)
    {
      assert id in StateAfter(sh, dryRun, before).owned;
      OwnedIsWhatCreatesAnswered(sh, dryRun, before, id);
      var j :| CreateAnswered(sh, dryRun, before, j, id);
      assert before[..j] == steps[..j];
      assert CreateAnswered(sh, dryRun, steps, j, id);
    }
  }

  /** Every GET and HEAD the guard is shown goes out, in a dry run as in any other. */
  lemma ReadsAlwaysGoOut(sh: Shapes, dryRun: bool, steps: seq<Step>, k: nat)
    requires k < |steps| && (steps[k].a.verb == GET || steps[k].a.verb == HEAD)
    ensures Sent(sh, dryRun, steps, k)
  {
    DecideMeans(sh, StateAfter(sh, dryRun, steps[..k]), steps[k].a);
  }

  /** What goes out, over whole runs, with no word of the guard's own: a read always;
      in a run that is not dry, a DELETE or PATCH that names something or a POST or
      PUT on the free list, when everything its path names was answered by an
      earlier create. */
  lemma SentExactlyWhen(sh: Shapes, dryRun: bool, steps: seq<Step>, k: nat)
    requires k < |steps|
    ensures var a := steps[k].a;
            var answered := forall segment ::
                segment in Split(a.path, '/') && sh.identifier(CutBefore(segment, ':')) ==>
                              exists j :: j < k && CreateAnswered(sh, dryRun, steps, j, CutBefore(segment, ':'));
            Sent(sh, dryRun, steps, k) <==>
              || a.verb == GET || a.verb == HEAD
              || (!dryRun && answered && (a.verb == DELETE || a.verb == PATCH) && NamesSomething(sh, a.path))
              || (!dryRun && answered && (a.verb == POST || a.verb == PUT) && CostsNothing(a.operation))
  {
    var before, a := steps[..k], steps[k].a;
    DecideMeans(sh, StateAfter(sh, dryRun, before), a);
    assert before == before[..|before|];
    OwnershipGrows(sh, dryRun, before, 0);
    forall id
      ensures id in StateAfter(sh, dryRun, before).owned <==>
                exists j :: j < k && CreateAnswered(sh, dryRun, steps, j, id)
    {
      OwnedBefore(sh, dryRun, steps, k, id);
    }
  }

  lemma OwnedBefore(sh: Shapes, dryRun: bool, steps: seq<Step>, k: nat, id: string)
    requires k <= |steps|
    ensures id in StateAfter(sh, dryRun, steps[..k]).owned <==>
              exists j :: j < k && CreateAnswered(sh, dryRun, steps, j, id)
  {
    var before := steps[..k];
    OwnedIsWhatCreatesAnswered(sh, dryRun, before, id);
    forall j | 0 <= j < k
      ensures CreateAnswered(sh, dryRun, before, j, id) <==> CreateAnswered(sh, dryRun, steps, j, id)
    {
      assert before[..j] == steps[..j];
    }
    if id in StateAfter(sh, dryRun, before).owned {
      var j :| CreateAnswered(sh, dryRun, before, j, id);
      assert CreateAnswered(sh, dryRun, steps, j, id);
    }
  }

  /** A dry run sends reads only, owns nothing and has nothing to destroy. */
  lemma {:induction false} DryRunChangesNothing(sh: Shapes, steps: seq<Step>)
    ensures StateAfter(sh, true, steps) == Fresh(true)
    ensures forall k :: Sent(sh, true, steps, k) ==> Reads(steps[k].a.verb)
  {
    if steps == [] {
    } else {
      var before := steps[..|steps| - 1];
      DryRunChangesNothing(sh, before);
      forall k | Sent(sh, true, steps, k)
        ensures Reads(steps[k].a.verb)
      {
        if k < |before| {
          assert before[..k] == steps[..k];
          assert Sent(sh, true, before, k);
        }
      }
    }
  }

  // ----- the ledger -----

  /** Everything an entry's DELETE will address is this run's. */
  ghost predicate LedgerOwned(sh: Shapes, st: GuardState) {
    forall o :: o in st.created ==> o.id in st.owned && Addressed(sh, o.collection) <= st.owned
  }

  lemma {:induction false} LedgerIsOwned(sh: Shapes, dryRun: bool, steps: seq<Step>)
    ensures LedgerOwned(sh, StateAfter(sh, dryRun, steps))
  {
    if steps == [] {
    } else {
      var n := |steps| - 1;
      LedgerIsOwned(sh, dryRun, steps[..n]);
      var st := StateAfter(sh, dryRun, steps[..n]);
      if Decide(sh, st, steps[n].a) == Allow && steps[n].answer.Some? {
        ObjectIdIsMinted(sh.identifier, steps[n].answer.value.body);
      }
    }
  }

  /** A byte that no parsing of a path takes for anything but itself. */
  predicate IsNameByte(c: char) {
    c != '/' && c != '#' && c != '?' && c != '%' && !IsControl(c) && c as nat < 256
  }

  /** What is known of the imported recogniser: an identifier is a text of name
      bytes, not empty, and one holding a colon (an IPv6 address) has no
      identifier before it. */
  ghost predicate SaneShapes(sh: Shapes) {
    forall s :: sh.identifier(s) ==>
      && s != ""
      && (forall c :: c in s ==> IsNameByte(c))
      && (':' in s ==> !sh.identifier(CutBefore(s, ':')))
  }

  /** The URL of an entry names what its collection names, and its own
      identifier unless that one holds a colon. */
  lemma UrlAddresses(sh: Shapes, o: CreatedObject)
    requires SaneShapes(sh) && sh.identifier(o.id)
    ensures Addressed(sh, o.Url()) == Addressed(sh, o.collection) + (if ':' in o.id then {} else {o.id})
  {
    var left, right := Split(o.collection, '/'), Split(o.id, '/');
    assert o.Url() == o.collection + ['/'] + o.id;
    SplitAcross(o.collection, '/', o.id);
    SplitOfPiece(o.id, '/');
    assert right == [o.id];
    var all := Split(o.Url(), '/');
    assert all == left + right;
    forall id ensures id in Addressed(sh, o.Url()) <==>
        id in Addressed(sh, o.collection) + (if ':' in o.id then {} else {o.id}) {
      if id in Addressed(sh, o.Url()) {
        var segment :| segment in all && sh.identifier(SegmentId(segment)) && id == SegmentId(segment);
        assert segment in left || segment == o.id;
      }
      if id in Addressed(sh, o.collection) {
        var segment :| segment in left && sh.identifier(SegmentId(segment)) && id == SegmentId(segment);
        assert segment in all;
      }
      if ':' !in o.id {
        assert SegmentId(o.id) == o.id && all[|left|] == o.id;
      }
    }
  }

  lemma {:induction false} LedgerIdsAreIdentifiers(sh: Shapes, dryRun: bool, steps: seq<Step>)
    ensures forall o :: o in StateAfter(sh, dryRun, steps).created ==> sh.identifier(o.id)
  {
    if steps == [] {
    } else {
      LedgerIdsAreIdentifiers(sh, dryRun, steps[..|steps| - 1]);
    }
  }

  /** The destroying walk bypasses the guard and obeys its rule all the same:
      each URL it deletes addresses this run's objects and no other. */
  lemma DestructionAddressesOnlyThisRunsObjects(sh: Shapes, dryRun: bool, steps: seq<Step>)
    requires SaneShapes(sh)
    ensures var st := StateAfter(sh, dryRun, steps);
            forall o :: o in st.created ==> Addressed(sh, o.Url()) + {o.id} <= st.owned
  {
    LedgerIsOwned(sh, dryRun, steps);
    LedgerIdsAreIdentifiers(sh, dryRun, steps);
    forall o | o in StateAfter(sh, dryRun, steps).created
      ensures Addressed(sh, o.Url()) + {o.id} <= StateAfter(sh, dryRun, steps).owned
    {
      UrlAddresses(sh, o);
    }
  }
}
