/** A whole replay at the cloud: the split, the run under the guard, the results it
    comes to and the lines that are published of them. */
module CloudReplay {
  import opened Wrappers
  import opened Text
  import opened Ordering
  import opened Json
  import opened AccountGuard
  import opened AccountSafety
  import opened Wire
  import opened Replay
  import opened CloudGrading

  /** What the replay is given: how exchange `i` of a recording is rebound and
      renamed after what went before it, which routes are mounted, what comparing an
      answer with the recorded one finds, and how a refusal is worded. */
  datatype Setting = Setting(
    rebind: (seq<Exchange>, nat, seq<Step>) -> Attempt,
    served: Attempt -> bool,
    compare: (seq<Exchange>, nat, seq<Step>, Answer) -> seq<Finding>,
    wording: Decision -> string)

  function AttemptAt(sent: seq<Exchange>, setting: Setting, i: nat, before: seq<Step>): Option<Attempt> {
    if i < |sent| && sent[i].answered
    then Some(setting.rebind(sent, i, before).(seqNo := i + 1, verb := sent[i].verb))
    else None
  }

  function RecordingOf(sent: seq<Exchange>, setting: Setting): Recording {
    Recording((i: nat, before: seq<Step>) => AttemptAt(sent, setting, i, before), setting.served)
  }

  // ----- results -----

  predicate Differs(findings: seq<Finding>) {
    exists f :: f in findings && f.kind != KindExcused && f.kind != KindRedacted
  }

  /** The result of an exchange that did not end the run. */
  function ResultOf(sent: seq<Exchange>, setting: Setting, i: nat, before: seq<Step>, fate: Fate,
                    answer: Option<Answer>): ReplayResult
    requires !Stops(fate, answer)
  {
    match fate
    case NotRecorded => ReplayResult(i + 1, "", Skipped, [], 0, "")
    case NotServed => ReplayResult(i + 1, "", Unserved, [], 0, "")
    case TurnedDown(why) =>
      ReplayResult(i + 1, OperationAt(sent, setting, i, before), Refused, [], 0, setting.wording(why))
    case LetOut =>
      var findings := setting.compare(sent, i, before, answer.value);
      ReplayResult(i + 1, OperationAt(sent, setting, i, before), if Differs(findings) then Divergent else Matched,
                   findings, answer.value.status, "")
  }

  function OperationAt(sent: seq<Exchange>, setting: Setting, i: nat, before: seq<Step>): string {
    var a := AttemptAt(sent, setting, i, before);
    if a.Some? then a.value.operation else ""
  }

  /** What exchange `i` comes to after the steps before it, by what the file holds of
      it, where its path can be sent, what is mounted, and what the guard says of
      the request as it is rebound: the first of these that is against it. */
  lemma FatesMean(sh: Shapes, dryRun: bool, sent: seq<Exchange>, setting: Setting, i: nat, before: seq<Step>)
    requires i < |sent|
    ensures var fate := FateOf(sh, dryRun, RecordingOf(sent, setting), i, before);
            var a := setting.rebind(sent, i, before).(seqNo := i + 1, verb := sent[i].verb);
            var says := Decide(sh, StateAfter(sh, dryRun, before), a);
      && (fate == NotRecorded <==> !sent[i].answered)
      && (fate == Unbuilt <==> sent[i].answered && Received(a.path) == None)
      && (fate == NotServed <==> sent[i].answered && Received(a.path).Some? && !setting.served(a))
      && (fate == LetOut <==> sent[i].answered && Received(a.path).Some? && setting.served(a) && says == Allow)
      && (fate.TurnedDown? <==> sent[i].answered && Received(a.path).Some? && setting.served(a) && says != Allow)
      && (fate.TurnedDown? ==> fate.why == says)
      && (sent[i].answered ==> OperationAt(sent, setting, i, before) == setting.rebind(sent, i, before).operation)
  {
  }

  /** What the report says about one exchange, by what it came to. */
  ghost predicate SaysOf(line: CloudFinding, sent: seq<Exchange>, setting: Setting, i: nat, before: seq<Step>,
                         fate: Fate,
                         answer: Option<Answer>, invented: seq<string>)
    requires i < |sent| && !Stops(fate, answer)
  {
    && line.seqNo == i + 1 && line.instrument == invented
    && match fate
       case NotRecorded => line.operation == "" && line.outcome == CloudGrading.Instrument
           && line.detail == NothingRecorded
       case NotServed => false
       case TurnedDown(why) =>
         line.operation == OperationAt(sent, setting, i, before) && line.outcome == Unmeasured
         && line.detail == GuardRefused(setting.wording(why))
       case LetOut =>
         var got, found := answer.value.status, setting.compare(sent, i, before, answer.value);
         line.operation == OperationAt(sent, setting, i, before)
         && if IsAboutTheCaller(sent[i].status, got) then
              line.outcome == Unmeasured && line.detail == AboutTheCaller(sent[i].status, got)
            else
              && (exists f :: f in found && f.kind != KindExcused && f.kind != KindRedacted)
              && line.outcome == (if invented == [] then Moved else CloudGrading.Instrument)
              && exists f :: f in found && f.kind != KindRedacted && line.detail == Difference(f)
  }

  /** The lines of an exchange are the ones that say so, whatever became of it. */
  lemma LinesOfAFate(sent: seq<Exchange>, setting: Setting, i: nat, before: seq<Step>, fate: Fate,
                     answer: Option<Answer>, invented: seq<string>, line: CloudFinding)
    requires i < |sent| && !Stops(fate, answer)
    ensures line in Lines(ResultOf(sent, setting, i, before, fate, answer), sent[i].status, invented)
       <==> SaysOf(line, sent, setting, i, before, fate, answer, invented)
  {
    LinesMean(ResultOf(sent, setting, i, before, fate, answer), sent[i].status, invented, line);
  }

  /** What the guard had been shown when exchange `i` came up. */
  ghost function ShownTo(sh: Shapes, dryRun: bool, sent: seq<Exchange>, setting: Setting, answers: seq<Option<Answer>>,
                         i: nat): seq<Step>
    requires i <= |answers|
  {
    Shown(sh, dryRun, RecordingOf(sent, setting), answers, i)
  }

  ghost predicate MetSoFar(sh: Shapes, dryRun: bool, sent: seq<Exchange>, setting: Setting,
                           answers: seq<Option<Answer>>, fates: seq<Fate>)
  {
    Met(sh, dryRun, RecordingOf(sent, setting), answers, fates)
  }

  lemma MetLast(sh: Shapes, dryRun: bool, sent: seq<Exchange>, setting: Setting, answers: seq<Option<Answer>>,
                fates: seq<Fate>, i: nat)
    requires MetSoFar(sh, dryRun, sent, setting, answers, fates) && i < |fates|
    ensures |fates| <= |answers| && !Stops(fates[i], answers[i])
    ensures fates[i] == FateAt(sh, dryRun, RecordingOf(sent, setting), answers, i)
  {
    MetEach(sh, dryRun, RecordingOf(sent, setting), answers, fates, i);
  }

  ghost function ItsResult(sh: Shapes, dryRun: bool, sent: seq<Exchange>, setting: Setting,
                           answers: seq<Option<Answer>>, i: nat, fate: Fate): ReplayResult
    requires i < |answers| && !Stops(fate, answers[i])
  {
    ResultOf(sent, setting, i, ShownTo(sh, dryRun, sent, setting, answers, i), fate, answers[i])
  }

  /** No exchange of these ended its run. */
  ghost predicate WentOn(answers: seq<Option<Answer>>, fates: seq<Fate>) {
    |fates| <= |answers| && forall i :: 0 <= i < |fates| ==> !Stops(fates[i], answers[i])
  }

  lemma MetWentOn(sh: Shapes, dryRun: bool, sent: seq<Exchange>, setting: Setting, answers: seq<Option<Answer>>,
                  fates: seq<Fate>)
    requires MetSoFar(sh, dryRun, sent, setting, answers, fates)
    ensures WentOn(answers, fates)
  {
    forall i | 0 <= i < |fates|
      ensures |fates| <= |answers| && !Stops(fates[i], answers[i])
    {
      MetLast(sh, dryRun, sent, setting, answers, fates, i);
    }
  }

  /** The results of a run that met these fates. */
  ghost function Results(sh: Shapes, dryRun: bool, sent: seq<Exchange>, setting: Setting, answers: seq<Option<Answer>>,
                         fates: seq<Fate>): (results: seq<ReplayResult>)
    requires WentOn(answers, fates)
    ensures |results| == |fates|
  {
    seq(|fates|, i requires 0 <= i < |fates| => ItsResult(sh, dryRun, sent, setting, answers, i, fates[i]))
  }

  predicate Asked(fate: Fate) {
    fate.TurnedDown? || fate.LetOut?
  }

  ghost predicate Follows(now: seq<Step>, next: seq<Step>, more: bool) {
    |next| == (if more then |now| + 1 else |now|) && now <= next
  }

  lemma ShownOneMore(sh: Shapes, dryRun: bool, rec: Recording, answers: seq<Option<Answer>>, i: nat)
    requires i < |answers|
    ensures Follows(Shown(sh, dryRun, rec, answers, i), Shown(sh, dryRun, rec, answers, i + 1),
                    Asked(FateAt(sh, dryRun, rec, answers, i)))
  {
  }

  /** The step an exchange adds is the attempt it makes. */
  lemma ItIsAddedLast(sh: Shapes, dryRun: bool, rec: Recording, answers: seq<Option<Answer>>, i: nat)
    requires i < |answers| && Asked(FateAt(sh, dryRun, rec, answers, i))
    ensures var now, next := Shown(sh, dryRun, rec, answers, i), Shown(sh, dryRun, rec, answers, i + 1);
            |next| == |now| + 1 && rec.next(i, now).Some? && next[|now|].a == rec.next(i, now).value
  {
  }

  lemma {:induction false} ShownGrows(sh: Shapes, dryRun: bool, rec: Recording, answers: seq<Option<Answer>>, i: nat,
                                      n: nat)
    requires i <= n <= |answers|
    ensures Shown(sh, dryRun, rec, answers, i) <= Shown(sh, dryRun, rec, answers, n)
    decreases n - i
  {
    if i < n {
      ShownGrows(sh, dryRun, rec, answers, i, n - 1);
      ShownOneMore(sh, dryRun, rec, answers, n - 1);
    }
  }

  /** The results of the first `i` exchanges, and the `k` steps the guard was shown
      for them. */
  ghost predicate CollectedTo(
    sh: Shapes, dryRun: bool, sent: seq<Exchange>, setting: Setting, answers: seq<Option<Answer>>, fates: seq<Fate>,
    steps: seq<Step>, i: nat, k: nat, results: seq<ReplayResult>)
  {
    && i <= |fates| && k <= |steps|
    && WentOn(answers, fates)
    && steps[..k] == ShownTo(sh, dryRun, sent, setting, answers, i)
    && results == Results(sh, dryRun, sent, setting, answers, fates)[..i]
  }

  lemma CollectOneMore(
    sh: Shapes, dryRun: bool, sent: seq<Exchange>, setting: Setting, answers: seq<Option<Answer>>, fates: seq<Fate>,
    steps: seq<Step>, i: nat, k: nat, results: seq<ReplayResult>)
    requires MetSoFar(sh, dryRun, sent, setting, answers, fates) && i < |fates| <= |answers|
    requires steps == ShownTo(sh, dryRun, sent, setting, answers, |fates|)
    requires CollectedTo(sh, dryRun, sent, setting, answers, fates, steps, i, k, results)
               && !Stops(fates[i], answers[i])
    ensures CollectedTo(sh, dryRun, sent, setting, answers, fates, steps, i + 1, if Asked(fates[i]) then k + 1 else k,
                        results + [ResultOf(sent, setting, i, steps[..k], fates[i], answers[i])])
  {
    MetLast(sh, dryRun, sent, setting, answers, fates, i);
    OneMoreShown(sh, dryRun, RecordingOf(sent, setting), answers, steps, i, |fates|, k);
    OneMoreResult(sh, dryRun, sent, setting, answers, fates, i);
  }

  lemma PrefixFollows(steps: seq<Step>, k: nat, now: seq<Step>, next: seq<Step>, more: bool)
    requires k <= |steps| && steps[..k] == now && Follows(now, next, more) && next <= steps
    ensures |next| == (if more then k + 1 else k) && steps[..|next|] == next
  {
  }

  lemma OneMoreShown(sh: Shapes, dryRun: bool, rec: Recording, answers: seq<Option<Answer>>, steps: seq<Step>, i: nat,
                     n: nat, k: nat)
    requires i < n <= |answers| && k <= |steps|
    requires steps == Shown(sh, dryRun, rec, answers, n) && steps[..k] == Shown(sh, dryRun, rec, answers, i)
    ensures var next := if Asked(FateAt(sh, dryRun, rec, answers, i)) then k + 1 else k;
            next <= |steps| && steps[..next] == Shown(sh, dryRun, rec, answers, i + 1)
  {
    ShownOneMore(sh, dryRun, rec, answers, i);
    ShownGrows(sh, dryRun, rec, answers, i + 1, n);
    PrefixFollows(steps, k, Shown(sh, dryRun, rec, answers, i), Shown(sh, dryRun, rec, answers, i + 1),
                  Asked(FateAt(sh, dryRun, rec, answers, i)));
  }

  lemma OneMoreResult(sh: Shapes, dryRun: bool, sent: seq<Exchange>, setting: Setting, answers: seq<Option<Answer>>,
                      fates: seq<Fate>, i: nat)
    requires WentOn(answers, fates) && i < |fates|
    ensures var all := Results(sh, dryRun, sent, setting, answers, fates);
            all[..i + 1] == all[..i] + [ItsResult(sh, dryRun, sent, setting, answers, i, fates[i])]
  {
    var all := Results(sh, dryRun, sent, setting, answers, fates);
    assert all[..i + 1] == all[..i] + [all[i]];
  }

  /** Each exchange's result, made of what the guard had been shown before it. */
  method Collect(
    ghost sh: Shapes, ghost dryRun: bool, sent: seq<Exchange>, setting: Setting, answers: seq<Option<Answer>>,
    fates: seq<Fate>, steps: seq<Step>)
    returns (results: seq<ReplayResult>)
    requires MetSoFar(sh, dryRun, sent, setting, answers, fates) && |fates| == |answers|
    requires steps == ShownTo(sh, dryRun, sent, setting, answers, |fates|)
    ensures WentOn(answers, fates)
    ensures results == Results(sh, dryRun, sent, setting, answers, fates)
  {
    results := [];
    var k := 0;
    MetWentOn(sh, dryRun, sent, setting, answers, fates);
    for i := 0 to |fates|
      invariant CollectedTo(sh, dryRun, sent, setting, answers, fates, steps, i, k, results)
    {
      MetLast(sh, dryRun, sent, setting, answers, fates, i);
      CollectOneMore(sh, dryRun, sent, setting, answers, fates, steps, i, k, results);
      results := results + [ResultOf(sent, setting, i, steps[..k], fates[i], answers[i])];
      if Asked(fates[i]) { k := k + 1; }
    }
  }

  // ----- numbers -----

  ghost predicate NumberedUpTo(steps: seq<Step>, n: nat) {
    && (forall k :: 0 <= k < |steps| ==> 1 <= steps[k].a.seqNo <= n)
    && (forall j, k :: 0 <= j < k < |steps| ==> steps[j].a.seqNo < steps[k].a.seqNo)
  }

  ghost predicate NumbersItself(rec: Recording) {
    forall i: nat, before: seq<Step> :: rec.next(i, before).Some? ==> rec.next(i, before).value.seqNo == i + 1
  }

  lemma OneMoreNumber(now: seq<Step>, next: seq<Step>, n: nat, more: bool)
    requires n > 0 && NumberedUpTo(now, n - 1) && Follows(now, next, more) && (more ==> next[|now|].a.seqNo == n)
    ensures NumberedUpTo(next, n)
  {
    forall k | 0 <= k < |now| ensures next[k] == now[k] {}
  }

  lemma NextIsNumbered(sh: Shapes, dryRun: bool, rec: Recording, answers: seq<Option<Answer>>, i: nat)
    requires NumbersItself(rec) && i < |answers|
    ensures var now, next := Shown(sh, dryRun, rec, answers, i), Shown(sh, dryRun, rec, answers, i + 1);
            Asked(FateAt(sh, dryRun, rec, answers, i)) ==> |now| < |next| && next[|now|].a.seqNo == i + 1
  {
    if Asked(FateAt(sh, dryRun, rec, answers, i)) { ItIsAddedLast(sh, dryRun, rec, answers, i); }
  }

  /** Each request shown to the guard carries the number of its exchange, and no
      two carry one. */
  lemma {:induction false} ShownAreNumbered(sh: Shapes, dryRun: bool, rec: Recording, answers: seq<Option<Answer>>,
                                            n: nat)
    requires NumbersItself(rec) && n <= |answers|
    ensures NumberedUpTo(Shown(sh, dryRun, rec, answers, n), n)
  {
    if n == 0 {
    } else {
      ShownAreNumbered(sh, dryRun, rec, answers, n - 1);
      ShownOneMore(sh, dryRun, rec, answers, n - 1);
      NextIsNumbered(sh, dryRun, rec, answers, n - 1);
      OneMoreNumber(Shown(sh, dryRun, rec, answers, n - 1), Shown(sh, dryRun, rec, answers, n), n,
                    Asked(FateAt(sh, dryRun, rec, answers, n - 1)));
    }
  }

  /** An exchange let out is among what the guard was shown, under its number. */
  lemma ItsStep(sh: Shapes, dryRun: bool, rec: Recording, answers: seq<Option<Answer>>, i: nat) returns (k: nat)
    requires i < |answers| && Asked(FateAt(sh, dryRun, rec, answers, i))
    ensures var all, before := Shown(sh, dryRun, rec, answers, |answers|), Shown(sh, dryRun, rec, answers, i);
            rec.next(i, before).Some? && k < |all| && all[k].a == rec.next(i, before).value
  {
    ItIsAddedLast(sh, dryRun, rec, answers, i);
    ShownGrows(sh, dryRun, rec, answers, i + 1, |answers|);
    k := |Shown(sh, dryRun, rec, answers, i)|;
  }

  // ----- what is published -----

  /** Which line says of exchange `i` that the cloud moved: it was let out with
      nothing invented in it, was answered as one answers a request about the
      resource, and the line is a difference that comparing the answer found. */
  ghost predicate MovedBy(sh: Shapes, dryRun: bool, sent: seq<Exchange>, setting: Setting, answers: seq<Option<Answer>>,
                          i: int, line: CloudFinding)
  {
    && 0 <= i < |answers| == |sent|
    && FateAt(sh, dryRun, RecordingOf(sent, setting), answers, i) == LetOut && answers[i].Some?
    && var before := ShownTo(sh, dryRun, sent, setting, answers, i);
       && AttemptAt(sent, setting, i, before).Some?
       && MovedLine(sh, sent[i], i + 1, AttemptAt(sent, setting, i, before).value, answers[i].value,
                    setting.compare(sent, i, before, answers[i].value), line)
  }

  ghost predicate MovedLine(sh: Shapes, x: Exchange, number: int, a: Attempt, answer: Answer, found: seq<Finding>,
                            line: CloudFinding)
  {
    && (forall s :: !Invents(sh, a, s))
    && !(x.status < 400
         && (answer.status == 401 || answer.status == 403 || answer.status == 429 || answer.status >= 500))
    && (exists f :: f in found && f.kind != KindExcused && f.kind != KindRedacted)
    && exists f ::
        f in found && f.kind != KindRedacted && line == CloudFinding(number, a.operation, Moved, Difference(f), [])
  }

  /** In particular, none of a request whose path holds an invented segment. */
  lemma NoMoveOverAnInventedSegment(
    sh: Shapes, dryRun: bool, sent: seq<Exchange>, setting: Setting, answers: seq<Option<Answer>>, i: nat,
    segment: string, line: CloudFinding)
    requires MovedBy(sh, dryRun, sent, setting, answers, i, line)
    requires var path := AttemptAt(sent, setting, i, ShownTo(sh, dryRun, sent, setting, answers, i)).value.path;
             segment in Split(path, '/')
    ensures CutBefore(segment, ':') == "" || !sh.synthetic(CutBefore(segment, ':'))
  {
    var a := AttemptAt(sent, setting, i, ShownTo(sh, dryRun, sent, setting, answers, i)).value;
    assert StandsInPath(a.path, CutBefore(segment, ':'));
    assert !Invents(sh, a, CutBefore(segment, ':'));
  }

  lemma NothingInvented(sh: Shapes, a: Attempt)
    ensures SyntheticIn(sh, a) == {} <==> forall s :: !Invents(sh, a, s)
  {
    forall s ensures s in SyntheticIn(sh, a) <==> Invents(sh, a, s) { SyntheticMeans(sh, a, s); }
  }

  lemma MovedLinesOfAResult(r: ReplayResult, recorded: int, invented: seq<string>, line: CloudFinding)
    ensures line in Lines(r, recorded, invented) && line.outcome == Moved <==>
              && r.verdict == Divergent && invented == [] && !NotAboutTheResource(recorded, r.status)
              && exists f :: f in r.findings && f.kind != KindRedacted
                          && line == CloudFinding(r.seqNo, r.operation, Moved, Difference(f), [])
  {
    LineComesFromDifference(r, invented, r.findings, line);
  }

  ghost predicate LineOf(r: ReplayResult, sent: seq<Exchange>, synthetic: map<int, seq<string>>, line: CloudFinding) {
    line in Lines(r, RecordedStatus(sent, r.seqNo), InventedAt(synthetic, r.seqNo))
  }

  ghost predicate LineOfOneOf(results: seq<ReplayResult>, sent: seq<Exchange>, synthetic: map<int, seq<string>>,
                              line: CloudFinding)
  {
    exists i :: 0 <= i < |results| && LineOf(results[i], sent, synthetic, line)
  }

  lemma LineOfTheLast(before: seq<ReplayResult>, r: ReplayResult, sent: seq<Exchange>, synthetic: map<int, seq<string>>,
                      line: CloudFinding)
    ensures LineOfOneOf(before + [r], sent, synthetic, line)
       <==> LineOfOneOf(before, sent, synthetic, line) || LineOf(r, sent, synthetic, line)
  {
    var all := before + [r];
    assert all[|before|] == r;
    forall i | 0 <= i < |before| ensures all[i] == before[i] {}
  }

  lemma {:induction false} LineOfSomeResult(results: seq<ReplayResult>, sent: seq<Exchange>,
                                            synthetic: map<int, seq<string>>, line: CloudFinding)
    ensures line in AllLines(results, sent, synthetic) <==> LineOfOneOf(results, sent, synthetic, line)
  {
    if results == [] {
    } else {
      var n := |results| - 1;
      LineOfSomeResult(results[..n], sent, synthetic, line);
      assert results == results[..n] + [results[n]];
      LineOfTheLast(results[..n], results[n], sent, synthetic, line);
    }
  }

  lemma MovedLinesOfOne(sh: Shapes, x: Exchange, a: Attempt, answer: Answer, found: seq<Finding>, r: ReplayResult,
                        invented: seq<string>, line: CloudFinding)
    requires r == ReplayResult(r.seqNo, a.operation, if Differs(found) then Divergent else Matched, found,
                               answer.status, "")
    requires invented == [] <==> SyntheticIn(sh, a) == {}
    ensures line in Lines(r, x.status, invented) && line.outcome == Moved <==>
              MovedLine(sh, x, r.seqNo, a, answer, found, line)
  {
    NothingInvented(sh, a);
    MovedLinesOfAResult(r, x.status, invented, line);
  }

  lemma OnlyAnswersMove(sent: seq<Exchange>, setting: Setting, i: nat, before: seq<Step>, fate: Fate,
                        answer: Option<Answer>,
                        recorded: int, invented: seq<string>, line: CloudFinding)
    requires !Stops(fate, answer) && fate != LetOut
    ensures var r := ResultOf(sent, setting, i, before, fate, answer);
            r.seqNo == i + 1 && !(line in Lines(r, recorded, invented) && line.outcome == Moved)
  {
    MovedLinesOfAResult(ResultOf(sent, setting, i, before, fate, answer), recorded, invented, line);
  }

  lemma LineOfANumber(r: ReplayResult, sent: seq<Exchange>, synthetic: map<int, seq<string>>, i: nat,
                      line: CloudFinding)
    requires r.seqNo == i + 1 && i < |sent|
    ensures LineOf(r, sent, synthetic, line) <==> line in Lines(r, sent[i].status, InventedAt(synthetic, i + 1))
  {
  }

  lemma ResultOfTheAnswered(sent: seq<Exchange>, setting: Setting, i: nat, before: seq<Step>, answer: Answer,
                            a: Attempt, found: seq<Finding>)
    requires AttemptAt(sent, setting, i, before) == Some(a) && found == setting.compare(sent, i, before, answer)
    ensures ResultOf(sent, setting, i, before, LetOut, Some(answer))
         == ReplayResult(i + 1, a.operation, if Differs(found) then Divergent else Matched, found, answer.status, "")
  {
  }

  /** The line of an exchange let out, whatever the guard was shown before it. */
  lemma ResultMoves(
    sh: Shapes, sent: seq<Exchange>, setting: Setting, i: nat, before: seq<Step>, answer: Answer,
    synthetic: map<int, seq<string>>, line: CloudFinding)
    requires i < |sent|
    requires var a := AttemptAt(sent, setting, i, before);
             a.Some? && (InventedAt(synthetic, i + 1) == [] <==> SyntheticIn(sh, a.value) == {})
    ensures LineOf(ResultOf(sent, setting, i, before, LetOut, Some(answer)), sent, synthetic, line)
              && line.outcome == Moved <==>
              MovedLine(sh, sent[i], i + 1, AttemptAt(sent, setting, i, before).value, answer,
                        setting.compare(sent, i, before, answer), line)
  {
    var a, found := AttemptAt(sent, setting, i, before).value, setting.compare(sent, i, before, answer);
    var r := ReplayResult(i + 1, a.operation, if Differs(found) then Divergent else Matched, found, answer.status, "");
    ResultOfTheAnswered(sent, setting, i, before, answer, a, found);
    LineOfANumber(r, sent, synthetic, i, line);
    MovedLinesOfOne(sh, sent[i], a, answer, found, r, InventedAt(synthetic, i + 1), line);
  }

  lemma LetOutMoves(
    sh: Shapes, dryRun: bool, sent: seq<Exchange>, setting: Setting, answers: seq<Option<Answer>>,
    synthetic: map<int, seq<string>>, i: nat, line: CloudFinding)
    requires RecordsInvented(sh, ShownTo(sh, dryRun, sent, setting, answers, |answers|), synthetic)
    requires i < |answers| == |sent| && FateAt(sh, dryRun, RecordingOf(sent, setting), answers, i) == LetOut
               && answers[i].Some?
    ensures LineOf(ItsResult(sh, dryRun, sent, setting, answers, i, LetOut), sent, synthetic, line)
              && line.outcome == Moved <==>
              MovedBy(sh, dryRun, sent, setting, answers, i, line)
  {
    var before := ShownTo(sh, dryRun, sent, setting, answers, i);
    InventedIsItsOwn(sh, dryRun, sent, setting, RecordingOf(sent, setting), answers, synthetic, i, before);
    ResultMoves(sh, sent, setting, i, before, answers[i].value, synthetic, line);
  }

  /** A published line says "moved" of a result exactly when it is the line of its
      exchange that does. */
  lemma MovedLinesOf(
    sh: Shapes, dryRun: bool, sent: seq<Exchange>, setting: Setting, answers: seq<Option<Answer>>,
    synthetic: map<int, seq<string>>, i: nat, fate: Fate, line: CloudFinding)
    requires RecordsInvented(sh, ShownTo(sh, dryRun, sent, setting, answers, |answers|), synthetic)
    requires i < |answers| == |sent| && fate == FateAt(sh, dryRun, RecordingOf(sent, setting), answers, i)
               && !Stops(fate, answers[i])
    ensures LineOf(ItsResult(sh, dryRun, sent, setting, answers, i, fate), sent, synthetic, line)
              && line.outcome == Moved <==>
              MovedBy(sh, dryRun, sent, setting, answers, i, line)
  {
    if fate == LetOut {
      LetOutMoves(sh, dryRun, sent, setting, answers, synthetic, i, line);
    } else {
      OnlyAnswersMove(sent, setting, i, ShownTo(sh, dryRun, sent, setting, answers, i), fate, answers[i],
                      RecordedStatus(sent, i + 1), InventedAt(synthetic, i + 1), line);
    }
  }

  lemma InventedUnderItsNumber(sh: Shapes, steps: seq<Step>, n: nat, synthetic: map<int, seq<string>>, k: nat)
    requires RecordsInvented(sh, steps, synthetic) && NumberedUpTo(steps, n) && k < |steps|
    ensures InventedAt(synthetic, steps[k].a.seqNo) == [] <==> SyntheticIn(sh, steps[k].a) == {}
  {
    MovedMeansNothingInvented(sh, steps, synthetic, k, ReplayResult(steps[k].a.seqNo, "", Skipped, [], 0, ""), 0);
  }

  lemma InventedOfTheAsked(sh: Shapes, dryRun: bool, rec: Recording, answers: seq<Option<Answer>>,
                           synthetic: map<int, seq<string>>, i: nat)
    requires NumbersItself(rec)
    requires RecordsInvented(sh, Shown(sh, dryRun, rec, answers, |answers|), synthetic)
    requires i < |answers| && Asked(FateAt(sh, dryRun, rec, answers, i))
    ensures var a := rec.next(i, Shown(sh, dryRun, rec, answers, i));
            a.Some? && (InventedAt(synthetic, a.value.seqNo) == [] <==> SyntheticIn(sh, a.value) == {})
  {
    var k := ItsStep(sh, dryRun, rec, answers, i);
    ShownAreNumbered(sh, dryRun, rec, answers, |answers|);
    InventedUnderItsNumber(sh, Shown(sh, dryRun, rec, answers, |answers|), |answers|, synthetic, k);
  }

  lemma ARecordingNumbersItself(sent: seq<Exchange>, setting: Setting)
    ensures NumbersItself(RecordingOf(sent, setting))
  {
  }

  lemma TheAttemptIsNext(sent: seq<Exchange>, setting: Setting, i: nat, before: seq<Step>, a: Option<Attempt>)
    requires a == RecordingOf(sent, setting).next(i, before)
    ensures a == AttemptAt(sent, setting, i, before) && (a.Some? ==> a.value.seqNo == i + 1)
  {
  }

  lemma InventedIsItsOwn(
    sh: Shapes, dryRun: bool, sent: seq<Exchange>, setting: Setting, rec: Recording, answers: seq<Option<Answer>>,
    synthetic: map<int, seq<string>>, i: nat, before: seq<Step>)
    requires rec == RecordingOf(sent, setting)
    requires RecordsInvented(sh, Shown(sh, dryRun, rec, answers, |answers|), synthetic)
    requires i < |answers| && Asked(FateAt(sh, dryRun, rec, answers, i)) && before == Shown(sh, dryRun, rec, answers, i)
    ensures var a := AttemptAt(sent, setting, i, before);
            a.Some? && (InventedAt(synthetic, i + 1) == [] <==> SyntheticIn(sh, a.value) == {})
  {
    assert NumbersItself(rec) by { ARecordingNumbersItself(sent, setting); }
    InventedOfTheAsked(sh, dryRun, rec, answers, synthetic, i);
    TheAttemptIsNext(sent, setting, i, before, rec.next(i, before));
  }

  lemma MovesOf(
    sh: Shapes, dryRun: bool, sent: seq<Exchange>, setting: Setting, answers: seq<Option<Answer>>, fates: seq<Fate>,
    synthetic: map<int, seq<string>>, i: nat, line: CloudFinding)
    requires MetSoFar(sh, dryRun, sent, setting, answers, fates) && |fates| == |answers| == |sent|
               && WentOn(answers, fates)
    requires RecordsInvented(sh, ShownTo(sh, dryRun, sent, setting, answers, |answers|), synthetic)
    requires i < |answers|
    ensures LineOf(Results(sh, dryRun, sent, setting, answers, fates)[i], sent, synthetic, line)
              && line.outcome == Moved <==>
              MovedBy(sh, dryRun, sent, setting, answers, i, line)
  {
    MetLast(sh, dryRun, sent, setting, answers, fates, i);
    ResultAt(sh, dryRun, sent, setting, answers, fates, i);
    MovedLinesOf(sh, dryRun, sent, setting, answers, synthetic, i, fates[i], line);
  }

  lemma ResultAt(sh: Shapes, dryRun: bool, sent: seq<Exchange>, setting: Setting, answers: seq<Option<Answer>>,
                 fates: seq<Fate>, i: nat)
    requires WentOn(answers, fates) && i < |fates|
    ensures Results(sh, dryRun, sent, setting, answers, fates)[i]
              == ItsResult(sh, dryRun, sent, setting, answers, i, fates[i])
  {
  }

  /** What the published lines say has moved, over the whole run: exactly the
      differences found in what came back for requests that were let out with
      nothing invented in them, and not about the caller. */
  lemma PublishedMovesAre(
    sh: Shapes, dryRun: bool, sent: seq<Exchange>, setting: Setting, answers: seq<Option<Answer>>, fates: seq<Fate>,
    synthetic: map<int, seq<string>>, line: CloudFinding)
    requires MetSoFar(sh, dryRun, sent, setting, answers, fates) && |fates| == |answers| == |sent|
               && WentOn(answers, fates)
    requires RecordsInvented(sh, ShownTo(sh, dryRun, sent, setting, answers, |answers|), synthetic)
    ensures line in AllLines(Results(sh, dryRun, sent, setting, answers, fates), sent, synthetic)
              && line.outcome == Moved
       <==> exists i :: MovedBy(sh, dryRun, sent, setting, answers, i, line)
  {
    var results := Results(sh, dryRun, sent, setting, answers, fates);
    LineOfSomeResult(results, sent, synthetic, line);
    forall i | 0 <= i < |results|
      ensures LineOf(results[i], sent, synthetic, line) && line.outcome == Moved <==>
                MovedBy(sh, dryRun, sent, setting, answers, i, line)
    {
      MovesOf(sh, dryRun, sent, setting, answers, fates, synthetic, i, line);
    }
  }

  // ----- the command -----

  /** The published lines: those of the exchanges refused by shape and those of
      the results, sorted. */
  ghost predicate Publishes(findings: seq<CloudFinding>, exs: seq<Exchange>, results: seq<ReplayResult>,
                            sent: seq<Exchange>, synthetic: map<int, seq<string>>)
  {
    exists refused: seq<Unreplayable> ::
      && AreRefused(refused, exs, Positions(exs, false), Obstacle)
      && findings == Sort(RefusedLines(refused) + AllLines(results, sent, synthetic), SeqLe)
  }

  /** The lines that say "moved" are those of the exchanges that moved. */
  ghost predicate TellsWhatMoved(
    findings: seq<CloudFinding>, sh: Shapes, dryRun: bool, sent: seq<Exchange>, setting: Setting,
    answers: seq<Option<Answer>>)
  {
    forall line :: line in findings && line.outcome == Moved <==>
                     exists i :: MovedBy(sh, dryRun, sent, setting, answers, i, line)
  }

  lemma SortKeepsMembers(fs: seq<CloudFinding>, line: CloudFinding)
    ensures line in Sort(fs, SeqLe) <==> line in fs
  {
    assert line in multiset(Sort(fs, SeqLe)) <==> line in multiset(fs);
  }

  /** No line of an exchange refused by shape says "moved". */
  lemma PublishedTellsWhatMoved(
    refused: seq<Unreplayable>, sh: Shapes, dryRun: bool, sent: seq<Exchange>, setting: Setting,
    answers: seq<Option<Answer>>,
    fates: seq<Fate>, synthetic: map<int, seq<string>>)
    requires MetSoFar(sh, dryRun, sent, setting, answers, fates) && |fates| == |answers| == |sent|
               && WentOn(answers, fates)
    requires RecordsInvented(sh, ShownTo(sh, dryRun, sent, setting, answers, |answers|), synthetic)
    ensures var graded := AllLines(Results(sh, dryRun, sent, setting, answers, fates), sent, synthetic);
            TellsWhatMoved(Sort(RefusedLines(refused) + graded, SeqLe), sh, dryRun, sent, setting, answers)
  {
    var graded := AllLines(Results(sh, dryRun, sent, setting, answers, fates), sent, synthetic);
    forall line
      ensures line in Sort(RefusedLines(refused) + graded, SeqLe) && line.outcome == Moved <==>
                exists i :: MovedBy(sh, dryRun, sent, setting, answers, i, line)
    {
      SortKeepsMembers(RefusedLines(refused) + graded, line);
      PublishedMovesAre(sh, dryRun, sent, setting, answers, fates, synthetic, line);
    }
  }

  /** What the endpoint answers to the `n` exchanges sent, if it does. */
  function Answered(answer: nat -> Option<Answer>, n: nat): (answers: seq<Option<Answer>>)
    ensures |answers| == n
  {
    seq(n, i requires 0 <= i < n => answer(i))
  }

  /** What the read after the DELETE of each of `n` entries answers. */
  function Proved(proof: nat -> Option<int>, n: nat): (proofs: seq<Option<int>>)
    ensures |proofs| == n
  {
    seq(n, i requires 0 <= i < n => proof(i))
  }

  /** The split, with what it refused already reported. */
  method SplitAndReport(exs: seq<Exchange>)
    returns (sent: seq<Exchange>, report: Report, ghost refused: seq<Unreplayable>)
    ensures AreSent(sent, exs, Positions(exs, true)) && AreRefused(refused, exs, Positions(exs, false), Obstacle)
    ensures fresh(report) && report.Balanced() && report.findings == RefusedLines(refused)
  {
    var shapeRefused;
    sent, shapeRefused := SplitReplayable(exs);
    refused := shapeRefused;
    report := new Report();
    report.AddRefusedByShape(shapeRefused);
  }

  /** The run under the guard, graded when it was not cut short. */
  method RunAndGrade(report: Report, g: Guard, sent: seq<Exchange>, setting: Setting, answers: seq<Option<Answer>>)
    returns (steps: seq<Step>, fates: seq<Fate>, completed: bool)
    requires report.Balanced() && g.State() == Fresh(g.dryRun) && |answers| == |sent|
    modifies report, g
    ensures report.Balanced()
    ensures OnTrack(g.shapes, g.dryRun, g.State(), steps)
    ensures Ran(g.shapes, g.dryRun, RecordingOf(sent, setting), answers, fates, steps, !completed)
    ensures MetSoFar(g.shapes, g.dryRun, sent, setting, answers, fates) && WentOn(answers, fates)
    ensures completed ==>
              var results := Results(g.shapes, g.dryRun, sent, setting, answers, fates);
              report.findings == Sort(old(report.findings) + AllLines(results, sent, g.synthetic), SeqLe)
  {
    var aborted;
    steps, fates, aborted := AccountSafety.Replay(g, RecordingOf(sent, setting), answers);
    completed := !aborted;
    MetWentOn(g.shapes, g.dryRun, sent, setting, answers, fates);
    if completed {
      var results := Collect(g.shapes, g.dryRun, sent, setting, answers, fates, steps);
      report.Grade(results, sent, g.synthetic);
    }
  }

  /** replayCorpusAtCloud from the split on: the lines refused by shape, the run
      under the guard, the grading of its results when it was not cut short, and
      the walk over the ledger whatever happened. `proof(i)` is what the read after
      the DELETE of entry `i` answers. */
  method ReplayAtCloud(exs: seq<Exchange>, shapes: Shapes, dryRun: bool, setting: Setting,
                       answer: nat -> Option<Answer>,
                       proof: nat -> Option<int>, markStale: bool, markFailed: bool)
    returns (code: int, report: Report, g: Guard, sent: seq<Exchange>, steps: seq<Step>, fates: seq<Fate>,
             completed: bool,
             leftovers: seq<CreatedObject>)
    ensures fresh(report) && fresh(g) && g.shapes == shapes && g.dryRun == dryRun && report.Balanced()
    ensures AreSent(sent, exs, Positions(exs, true))
    ensures OnTrack(shapes, dryRun, g.State(), steps)
    ensures leftovers == Leftovers(g.created, Proved(proof, |g.created|))
    ensures code == 0 <==>
              completed && !Says(report.findings, Moved) && !Says(report.findings, Unmeasured) && leftovers == []
    ensures code == 2 <==>
              completed && Says(report.findings, Moved) && !Says(report.findings, Unmeasured) && leftovers == []
              && !(markStale && markFailed)
    ensures code in {0, 1, 2}
    ensures sent == [] ==> !completed && steps == []
    ensures sent != [] ==>
              Ran(shapes, dryRun, RecordingOf(sent, setting), Answered(answer, |sent|), fates, steps, !completed)
    ensures completed ==>
              && WentOn(Answered(answer, |sent|), fates)
              && Publishes(report.findings, exs,
                           Results(shapes, dryRun, sent, setting, Answered(answer, |sent|), fates), sent, g.synthetic)
              && TellsWhatMoved(report.findings, shapes, dryRun, sent, setting, Answered(answer, |sent|))
  {
    ghost var refused;
    sent, report, refused := SplitAndReport(exs);
    g := new Guard(shapes, dryRun);
    steps, fates, completed, leftovers := [], [], false, [];
    if |sent| > 0 {
      var answers := Answered(answer, |sent|);
      steps, fates, completed := RunAndGrade(report, g, sent, setting, answers);
      if completed {
        PublishedTellsWhatMoved(refused, shapes, dryRun, sent, setting, answers, fates, g.synthetic);
      }
      var proved, traffic;
      proved, leftovers, traffic := g.Destroy(Proved(proof, |g.created|));
    }
    code := ExitCode(report, completed, markStale, markFailed, leftovers);
  }
}
