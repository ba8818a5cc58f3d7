/** The recording split into what can be reissued and what cannot, and the
    replay's results turned into the three outcomes that are never summed. */
module CloudGrading {
  import opened Wrappers
  import opened Text
  import opened Ordering
  import opened Json
  import opened AccountGuard
  import opened AccountSafety
  import opened Replay

  /** One line of a recording; `answered` says that it holds an answer. */
  datatype Exchange = Exchange(verb: Verb, path: string, query: string, request: Option<Value>, answered: bool,
                               status: int)

  const TOKEN := "redacted-"
  const PLACEHOLDER := "REDACTED"

  // ----- what cannot be reissued -----

  datatype Why = BlankedPath | BlankedQuery | RedactedRequest

  predicate BlankedSegment(path: string) {
    exists segment :: segment in Split(path, '/') && HasPrefix(segment, TOKEN)
  }

  predicate BlankedValue(query: string) {
    exists pair :: pair in Split(query, '&') && '=' in pair && HasPrefix(CutAfter(pair, '='), TOKEN)
  }

  predicate IsLowerHex(c: char) {
    '0' <= c <= '9' || 'a' <= c <= 'f'
  }

  /** The bare word, or the word, a dash, and at least one lower-case hex digit
      and nothing else. */
  predicate IsPlaceholder(s: string) {
    HasPrefix(s, PLACEHOLDER) &&
    var rest := s[|PLACEHOLDER|..];
    rest == "" || (|rest| > 1 && rest[0] == '-' && forall c :: c in rest[1..] ==> IsLowerHex(c))
  }

  ghost predicate Redacted(x: Exchange) {
    || Contains(x.path, PLACEHOLDER)
    || Contains(x.query, PLACEHOLDER)
    || (x.request.Some? && exists s :: s in StringsIn(x.request.value) && IsPlaceholder(s))
  }

  ghost function Obstacle(x: Exchange): Option<Why> {
    if BlankedSegment(x.path) then Some(BlankedPath)
    else if BlankedValue(x.query) then Some(BlankedQuery)
    else if Redacted(x) then Some(RedactedRequest)
    else None
  }

  /** One piece of the path begins with the token of a redaction. */
  ghost predicate PathIsBlanked(path: string) {
    exists segment :: segment in Split(path, '/') && "redacted-" <= segment
  }

  /** One pair of the query gives its key a value that begins with that token. */
  ghost predicate QueryIsBlanked(query: string) {
    exists key, rest :: '=' !in key && key + "=" + ("redacted-" + rest) in Split(query, '&')
  }

  /** The recorder's mark, bare or numbered in hexadecimal. */
  ghost predicate IsMark(s: string) {
    || s == "REDACTED"
    || exists digits :: digits != "" && s == "REDACTED-" + digits && forall c :: c in digits ==> c in "0123456789abcdef"
  }

  /** The recorder's mark is in the path or the query, or is a text of the body. */
  ghost predicate IsMarked(x: Exchange) {
    || (exists before, after :: x.path == before + "REDACTED" + after)
    || (exists before, after :: x.query == before + "REDACTED" + after)
    || (x.request.Some? && exists at, s :: SitsAt(x.request.value, at, s) && IsMark(s))
  }

  lemma PathBlanks(path: string)
    ensures BlankedSegment(path) <==> PathIsBlanked(path)
  {
    if segment :| segment in Split(path, '/') && HasPrefix(segment, TOKEN) {
      assert "redacted-" <= segment;
    }
    if segment :| segment in Split(path, '/') && "redacted-" <= segment {
      assert HasPrefix(segment, TOKEN);
    }
  }

  lemma QueryBlanks(query: string)
    ensures BlankedValue(query) <==> QueryIsBlanked(query)
  {
    if pair :| pair in Split(query, '&') && '=' in pair && HasPrefix(CutAfter(pair, '='), TOKEN) {
      var key, value := CutBefore(pair, '='), CutAfter(pair, '=');
      PrefixMeans(value, "redacted-");
      var rest :| value == "redacted-" + rest;
      assert pair == key + "=" + ("redacted-" + rest);
    }
    if key, rest :| '=' !in key && key + "=" + ("redacted-" + rest) in Split(query, '&') {
      CutAtFirst(key, '=', "redacted-" + rest);
      var pair := key + "=" + ("redacted-" + rest);
      assert pair[|key|] == '=';
      PrefixMeans(CutAfter(pair, '='), "redacted-");
    }
  }

  lemma HexDigits(c: char)
    ensures IsLowerHex(c) <==> c in "0123456789abcdef"
  {
    var i := c as int;
    if IsLowerHex(c) {
      assert c == "0123456789abcdef"[if i <= 57 then i - 48 else i - 87];
    }
  }

  lemma Placeholders(s: string)
    ensures IsPlaceholder(s) <==> IsMark(s)
  {
    forall c ensures IsLowerHex(c) <==> c in "0123456789abcdef" { HexDigits(c); }
    if IsPlaceholder(s) && s != "REDACTED" {
      var rest := s[8..];
      assert s == s[..8] + rest && rest == "-" + rest[1..];
      assert s == "REDACTED-" + rest[1..];
    }
    if digits :| digits != "" && s == "REDACTED-" + digits && forall c :: c in digits ==> c in "0123456789abcdef" {
      assert s[..8] == "REDACTED" && s[8..] == "-" + digits && s[8..][1..] == digits;
    }
  }

  lemma MarksMean(x: Exchange)
    ensures Redacted(x) <==> IsMarked(x)
  {
    ContainsMeans(x.path, PLACEHOLDER);
    ContainsMeans(x.query, PLACEHOLDER);
    if x.request.Some? {
      forall s ensures IsPlaceholder(s) <==> IsMark(s) { Placeholders(s); }
      forall s ensures s in StringsIn(x.request.value) <==> exists at :: SitsAt(x.request.value, at, s) {
        StringsAreReached(x.request.value, s);
      }
    }
  }

  /** Why an exchange cannot be reissued, and which reason is given when there are
      several: a blanked path before a blanked query, either before the recorder's
      own mark. */
  lemma ObstacleMeans(x: Exchange)
    ensures Obstacle(x) == Some(BlankedPath) <==> PathIsBlanked(x.path)
    ensures Obstacle(x) == Some(BlankedQuery) <==> !PathIsBlanked(x.path) && QueryIsBlanked(x.query)
    ensures Obstacle(x) == Some(RedactedRequest) <==>
              !PathIsBlanked(x.path) && !QueryIsBlanked(x.query) && IsMarked(x)
  {
    PathBlanks(x.path);
    QueryBlanks(x.query);
    MarksMean(x);
  }

  method FindObstacle(x: Exchange) returns (why: Option<Why>)
    ensures why == Obstacle(x)
  {
    if BlankedSegment(x.path) { return Some(BlankedPath); }
    if BlankedValue(x.query) { return Some(BlankedQuery); }
    IndexMeans(x.path, PLACEHOLDER);
    IndexMeans(x.query, PLACEHOLDER);
    if Index(x.path, PLACEHOLDER) != -1 || Index(x.query, PLACEHOLDER) != -1 { return Some(RedactedRequest); }
    if x.request.None? { return None; }
    var found := false;
    var visited := WalkStrings(x.request.value);
    for i := 0 to |visited|
      invariant found <==> exists s :: s in visited[..i] && IsPlaceholder(s)
    {
      assert visited[..i + 1] == visited[..i] + [visited[i]];
      if IsPlaceholder(visited[i]) { found := true; }
    }
    assert visited[..|visited|] == visited;
    assert forall s :: s in visited <==> s in Elements(visited);
    return if found then Some(RedactedRequest) else None;
  }

  datatype Unreplayable = Unreplayable(seqNo: int, why: Why)

  /** The positions, in the order of the file, of the exchanges that can be
      reissued (`sendable`) or of those that cannot. */
  ghost function Positions(exs: seq<Exchange>, sendable: bool): seq<nat> {
    if exs == [] then []
    else
      var n := |exs| - 1;
      Positions(exs[..n], sendable) + (if Obstacle(exs[n]).None? == sendable then [n] else [])
  }

  ghost predicate Ascending(ps: seq<nat>) {
    forall i, j :: 0 <= i < j < |ps| ==> ps[i] < ps[j]
  }

  lemma {:induction false} PositionsAreWhere(exs: seq<Exchange>, sendable: bool)
    ensures Ascending(Positions(exs, sendable))
    ensures forall i :: i in Positions(exs, sendable) <==> 0 <= i < |exs| && Obstacle(exs[i]).None? == sendable
  {
    if exs == [] {
    } else {
      var n := |exs| - 1;
      PositionsAreWhere(exs[..n], sendable);
      var ps := Positions(exs[..n], sendable);
      forall j | 0 <= j < |ps| ensures ps[j] < n {
        assert ps[j] in ps;
      }
    }
  }

  /** Every exchange is in one of the two lists, once, and each list is in the
      order of the file. */
  lemma {:induction false} PositionsPartitionTheFile(exs: seq<Exchange>)
    ensures forall sendable :: Ascending(Positions(exs, sendable))
    ensures forall i, sendable :: i in Positions(exs, sendable) <==>
              0 <= i < |exs| && Obstacle(exs[i]).None? == sendable
    ensures |Positions(exs, true)| + |Positions(exs, false)| == |exs|
  {
    PositionsAreWhere(exs, true);
    PositionsAreWhere(exs, false);
    if exs == [] {
    } else {
      PositionsPartitionTheFile(exs[..|exs| - 1]);
    }
  }

  ghost predicate AreSent(send: seq<Exchange>, exs: seq<Exchange>, at: seq<nat>) {
    && |send| == |at|
    && forall k :: 0 <= k < |send| ==> at[k] < |exs| && send[k] == exs[at[k]]
  }

  ghost predicate AreRefused(refused: seq<Unreplayable>, exs: seq<Exchange>, at: seq<nat>,
                             obstacle: Exchange -> Option<Why>)
  {
    && |refused| == |at|
    && forall k :: 0 <= k < |refused| ==>
         at[k] < |exs| && refused[k].seqNo == at[k] + 1 && Some(refused[k].why) == obstacle(exs[at[k]])
  }

  lemma OneMorePosition(exs: seq<Exchange>, i: nat, sendable: bool)
    requires i < |exs|
    ensures Positions(exs[..i + 1], sendable)
         == Positions(exs[..i], sendable) + (if Obstacle(exs[i]).None? == sendable then [i] else [])
  {
    assert exs[..i + 1][..i] == exs[..i];
  }

  lemma OneMoreSent(send: seq<Exchange>, exs: seq<Exchange>, at: seq<nat>, i: nat)
    requires i < |exs| && AreSent(send, exs, at)
    ensures AreSent(send + [exs[i]], exs, at + [i])
  {
  }

  lemma OneMoreRefused(refused: seq<Unreplayable>, exs: seq<Exchange>, at: seq<nat>, obstacle: Exchange -> Option<Why>,
                       i: nat, why: Why)
    requires i < |exs| && AreRefused(refused, exs, at, obstacle) && obstacle(exs[i]) == Some(why)
    ensures AreRefused(refused + [Unreplayable(i + 1, why)], exs, at + [i], obstacle)
  {
  }

  /** The first `n` exchanges are split, and these are where each went. */
  ghost predicate SplitAt(exs: seq<Exchange>, n: nat, send: seq<Exchange>, sentAt: seq<nat>, refused: seq<Unreplayable>,
                          refusedAt: seq<nat>)
    requires n <= |exs|
  {
    && sentAt == Positions(exs[..n], true) && AreSent(send, exs, sentAt)
    && refusedAt == Positions(exs[..n], false) && AreRefused(refused, exs, refusedAt, Obstacle)
  }

  lemma SentOneMore(exs: seq<Exchange>, i: nat, send: seq<Exchange>, sentAt: seq<nat>, refused: seq<Unreplayable>,
                    refusedAt: seq<nat>)
    requires i < |exs| && SplitAt(exs, i, send, sentAt, refused, refusedAt) && Obstacle(exs[i]) == None
    ensures SplitAt(exs, i + 1, send + [exs[i]], sentAt + [i], refused, refusedAt)
  {
    OneMorePosition(exs, i, true);
    OneMorePosition(exs, i, false);
    OneMoreSent(send, exs, sentAt, i);
  }

  lemma RefusedOneMore(exs: seq<Exchange>, i: nat, send: seq<Exchange>, sentAt: seq<nat>, refused: seq<Unreplayable>,
                       refusedAt: seq<nat>, why: Why)
    requires i < |exs| && SplitAt(exs, i, send, sentAt, refused, refusedAt) && Obstacle(exs[i]) == Some(why)
    ensures SplitAt(exs, i + 1, send, sentAt, refused + [Unreplayable(i + 1, why)], refusedAt + [i])
  {
    OneMorePosition(exs, i, true);
    OneMorePosition(exs, i, false);
    OneMoreRefused(refused, exs, refusedAt, Obstacle, i, why);
  }

  /** splitReplayable. A refused exchange is numbered by its line in the file. */
  method SplitReplayable(exs: seq<Exchange>) returns (send: seq<Exchange>, refused: seq<Unreplayable>)
    ensures |send| + |refused| == |exs|
    ensures AreSent(send, exs, Positions(exs, true))
    ensures AreRefused(refused, exs, Positions(exs, false), Obstacle)
  {
    send, refused := [], [];
    ghost var sentAt: seq<nat>, refusedAt: seq<nat> := [], [];
    for i := 0 to |exs|
      invariant |send| + |refused| == i
      invariant SplitAt(exs, i, send, sentAt, refused, refusedAt)
    {
      var why := FindObstacle(exs[i]);
      match why
      case Some(w) =>
        RefusedOneMore(exs, i, send, sentAt, refused, refusedAt, w);
        refusedAt := refusedAt + [i];
        refused := refused + [Unreplayable(i + 1, w)];
      case None =>
        SentOneMore(exs, i, send, sentAt, refused, refusedAt);
        sentAt := sentAt + [i];
        send := send + [exs[i]];
    }
    assert exs[..|exs|] == exs;
  }

  lemma {:induction false} PrefixPositions(exs: seq<Exchange>, n: nat)
    requires n <= |exs|
    ensures Positions(exs[..n], true) <= Positions(exs, true)
    decreases |exs|
  {
    if n < |exs| {
      assert exs[..|exs| - 1][..n] == exs[..n];
      PrefixPositions(exs[..|exs| - 1], n);
    } else {
      assert exs[..n] == exs;
    }
  }

  lemma {:induction false} AscendingSkips(ps: seq<nat>, k: nat)
    requires Ascending(ps) && k < |ps|
    ensures ps[k] >= k
  {
    if k == 0 {
    } else {
      AscendingSkips(ps, k - 1);
    }
  }

  /** A replayed finding is numbered by its place among the exchanges sent. That
      is its line in the file exactly when no exchange up to it was refused. */
  lemma NumberingsAgreeUntilTheFirstRefusal(exs: seq<Exchange>, k: nat)
    requires k < |Positions(exs, true)|
    ensures Positions(exs, true)[k] == k <==> k < |exs| && forall i :: 0 <= i <= k ==> Obstacle(exs[i]).None?
  {
    PositionsPartitionTheFile(exs);
    var ps := Positions(exs, true);
    assert ps[k] in ps;
    if ps[k] == k {
      forall i | 0 <= i <= k
        ensures Obstacle(exs[i]).None?
      {
        AscendingIsDense(ps, k, i);
      }
    }
    if k < |exs| && forall i :: 0 <= i <= k ==> Obstacle(exs[i]).None? {
      FirstOnes(exs, k + 1);
      PrefixPositions(exs, k + 1);
    }
  }

  lemma {:induction false} AscendingIsDense(ps: seq<nat>, k: nat, i: nat)
    requires Ascending(ps) && i <= k < |ps| && ps[k] == k
    ensures ps[i] == i
    decreases k
  {
    if i == k {
    } else {
      AscendingSkips(ps, k - 1);
      AscendingIsDense(ps, k - 1, i);
    }
  }

  lemma {:induction false} FirstOnes(exs: seq<Exchange>, n: nat)
    requires n <= |exs| && forall i :: 0 <= i < n ==> Obstacle(exs[i]).None?
    ensures |Positions(exs[..n], true)| == n
    ensures forall i :: 0 <= i < n ==> Positions(exs[..n], true)[i] == i
  {
    if n == 0 {
    } else {
      assert exs[..n][..n - 1] == exs[..n - 1];
      FirstOnes(exs, n - 1);
    }
  }

  // ----- grading -----

  datatype Outcome = Moved | Instrument | Unmeasured

  datatype Detail =
    | CannotBeReissued(why: Why)
    | GuardRefused(text: string)
    | NothingRecorded
    | AboutTheCaller(recorded: int, got: int)
    | Difference(f: Finding)

  datatype CloudFinding = CloudFinding(
    seqNo: int, operation: string, outcome: Outcome, detail: Detail, instrument: seq<string>)

  predicate NotAboutTheResource(recorded: int, got: int) {
    recorded < 400 && got != 0 && (got in {401, 403, 429} || got >= 500)
  }

  function RecordedStatus(sent: seq<Exchange>, seqNo: int): int {
    if 0 <= seqNo - 1 < |sent| then sent[seqNo - 1].status else 0
  }

  function InventedAt(synthetic: map<int, seq<string>>, seqNo: int): seq<string> {
    if seqNo in synthetic then synthetic[seqNo] else []
  }

  /** The one place a result goes. */
  datatype Lane = LaneUnserved | LaneUnmeasured | LaneSkipped | LaneCompared

  function LaneOf(r: ReplayResult, recorded: int): Lane {
    match r.verdict
    case Unserved => LaneUnserved
    case Refused => LaneUnmeasured
    case Skipped => LaneSkipped
    case _ => if NotAboutTheResource(recorded, r.status) then LaneUnmeasured else LaneCompared
  }

  function DifferenceLines(r: ReplayResult, invented: seq<string>, fs: seq<Finding>): seq<CloudFinding> {
    if fs == [] then []
    else
      var rest := DifferenceLines(r, invented, fs[..|fs| - 1]);
      var f := fs[|fs| - 1];
      if f.kind == KindRedacted then rest
      else rest + [CloudFinding(r.seqNo, r.operation, if |invented| > 0 then Instrument else Moved, Difference(f),
                                invented)]
  }

  /** The lines one result adds to the report. */
  function Lines(r: ReplayResult, recorded: int, invented: seq<string>): seq<CloudFinding> {
    match LaneOf(r, recorded)
    case LaneUnserved => []
    case LaneUnmeasured =>
      [CloudFinding(r.seqNo, r.operation, Unmeasured,
                    if r.verdict == Refused then GuardRefused(r.refused) else AboutTheCaller(recorded, r.status),
                        invented)]
    case LaneSkipped => [CloudFinding(r.seqNo, r.operation, Instrument, NothingRecorded, invented)]
    case LaneCompared => if r.verdict == Matched then [] else DifferenceLines(r, invented, r.findings)
  }

  function AllLines(results: seq<ReplayResult>, sent: seq<Exchange>,
                    synthetic: map<int, seq<string>>): seq<CloudFinding>
  {
    if results == [] then []
    else
      var r := results[|results| - 1];
      AllLines(results[..|results| - 1], sent, synthetic)
      + Lines(r, RecordedStatus(sent, r.seqNo), InventedAt(synthetic, r.seqNo))
  }

  lemma StepLines(was: seq<CloudFinding>, results: seq<ReplayResult>, i: nat, sent: seq<Exchange>,
                  synthetic: map<int, seq<string>>)
    requires i < |results|
    ensures was + AllLines(results[..i + 1], sent, synthetic)
         == was + AllLines(results[..i], sent, synthetic)
            + Lines(results[i], RecordedStatus(sent, results[i].seqNo), InventedAt(synthetic, results[i].seqNo))
    ensures var mine := LaneOf(results[i], RecordedStatus(sent, results[i].seqNo));
            forall lane :: InLane(results[..i + 1], sent, lane)
                == InLane(results[..i], sent, lane) + (if mine == lane then 1 else 0)
  {
    assert results[..i + 1][..i] == results[..i];
  }

  function InLane(results: seq<ReplayResult>, sent: seq<Exchange>, lane: Lane): nat {
    if results == [] then 0
    else
      var r := results[|results| - 1];
      InLane(results[..|results| - 1], sent, lane) + (if LaneOf(r, RecordedStatus(sent, r.seqNo)) == lane then 1 else 0)
  }

  function CountOutcome(fs: seq<CloudFinding>, o: Outcome): nat {
    if fs == [] then 0
    else CountOutcome(fs[..|fs| - 1], o) + (if fs[|fs| - 1].outcome == o then 1 else 0)
  }

  lemma CountOutcomeSnoc(fs: seq<CloudFinding>, f: CloudFinding)
    ensures forall o :: CountOutcome(fs + [f], o) == CountOutcome(fs, o) + (if f.outcome == o then 1 else 0)
  {
    assert (fs + [f])[..|fs|] == fs;
  }

  lemma {:induction false} CountOutcomeIsCountIf(fs: seq<CloudFinding>, o: Outcome)
    ensures CountOutcome(fs, o) == CountIf(fs, (f: CloudFinding) => f.outcome == o)
  {
    if fs == [] {
    } else {
      var n := |fs| - 1;
      CountOutcomeIsCountIf(fs[..n], o);
      assert fs == fs[..n] + [fs[n]];
      FilterAppend(fs[..n], [fs[n]], (f: CloudFinding) => f.outcome == o);
      assert [fs[n]][1..] == [];
    }
  }

  lemma SortKeepsOutcomes(fs: seq<CloudFinding>)
    ensures forall o :: CountOutcome(Sort(fs, SeqLe), o) == CountOutcome(fs, o)
  {
    forall o ensures CountOutcome(Sort(fs, SeqLe), o) == CountOutcome(fs, o) {
      SortKeepsCount(fs, SeqLe, (f: CloudFinding) => f.outcome == o);
      CountOutcomeIsCountIf(fs, o);
      CountOutcomeIsCountIf(Sort(fs, SeqLe), o);
    }
  }

  predicate SeqLe(a: CloudFinding, b: CloudFinding) { a.seqNo <= b.seqNo }

  /** The line of each exchange refused by shape: a defect of the recording. */
  function RefusedLines(refused: seq<Unreplayable>): (lines: seq<CloudFinding>)
    ensures |lines| == |refused|
    ensures forall k :: 0 <= k < |lines| ==>
              lines[k] == CloudFinding(refused[k].seqNo, "", Instrument, CannotBeReissued(refused[k].why), [])
  {
    if refused == [] then []
    else
      var u := refused[|refused| - 1];
      RefusedLines(refused[..|refused| - 1]) + [CloudFinding(u.seqNo, "", Instrument, CannotBeReissued(u.why), [])]
  }

  /** The published report: what it counts, and the lines it prints. */
  class Report {
    var compared: nat
    var moved: nat
    var instrument: nat
    var unmeasured: nat
    var unserved: nat
    var findings: seq<CloudFinding>

    /** The counters are the counts of the lines, outcome by outcome. */
    ghost predicate Balanced()
      reads this
    {
      && moved == CountOutcome(findings, Moved)
      && instrument == CountOutcome(findings, Instrument)
      && unmeasured == CountOutcome(findings, Unmeasured)
      && |findings| == moved + instrument + unmeasured
    }

    constructor ()
      ensures Balanced() && findings == [] && compared == unserved == 0
    {
      compared, moved, instrument, unmeasured, unserved, findings := 0, 0, 0, 0, 0, [];
    }

    method Add(line: CloudFinding)
      requires Balanced()
      modifies this`findings, this`moved, this`instrument, this`unmeasured
      ensures Balanced() && findings == old(findings) + [line]
    {
      CountOutcomeSnoc(findings, line);
      findings := findings + [line];
      match line.outcome
      case Moved => moved := moved + 1;
      case Instrument => instrument := instrument + 1;
      case Unmeasured => unmeasured := unmeasured + 1;
    }

    /** The exchanges refused by shape go in first, as defects of the recording. */
    method AddRefusedByShape(refused: seq<Unreplayable>)
      requires Balanced()
      modifies this`findings, this`moved, this`instrument, this`unmeasured
      ensures Balanced()
      ensures findings == old(findings) + RefusedLines(refused)
    {
      ghost var was := findings;
      for i := 0 to |refused|
        invariant Balanced()
        invariant findings == was + RefusedLines(refused[..i])
      {
        assert refused[..i + 1][..i] == refused[..i];
        Add(CloudFinding(refused[i].seqNo, "", Instrument, CannotBeReissued(refused[i].why), []));
      }
      assert refused[..|refused|] == refused;
    }

    /** gradeCloudRun. The counters move with the lines, the lines are those of
        the results on top of what was there, and the whole is sorted by number
        without disturbing lines of one number. */
    method Grade(results: seq<ReplayResult>, sent: seq<Exchange>, synthetic: map<int, seq<string>>)
      requires Balanced()
      modifies this
      ensures Balanced()
      ensures findings == Sort(old(findings) + AllLines(results, sent, synthetic), SeqLe)
      ensures compared == old(compared) + InLane(results, sent, LaneCompared)
      ensures unserved == old(unserved) + InLane(results, sent, LaneUnserved)
    {
      ghost var was := findings;
      for i := 0 to |results|
        invariant Balanced()
        invariant findings == was + AllLines(results[..i], sent, synthetic)
        invariant compared == old(compared) + InLane(results[..i], sent, LaneCompared)
        invariant unserved == old(unserved) + InLane(results[..i], sent, LaneUnserved)
      {
        StepLines(was, results, i, sent, synthetic);
        var r := results[i];
        GradeOne(r, RecordedStatus(sent, r.seqNo), InventedAt(synthetic, r.seqNo));
      }
      assert results[..|results|] == results;
      SortKeepsOutcomes(findings);
      findings := Sort(findings, SeqLe);
    }

    method GradeOne(r: ReplayResult, recorded: int, invented: seq<string>)
      requires Balanced()
      modifies this
      ensures Balanced()
      ensures findings == old(findings) + Lines(r, recorded, invented)
      ensures compared == old(compared) + (if LaneOf(r, recorded) == LaneCompared then 1 else 0)
      ensures unserved == old(unserved) + (if LaneOf(r, recorded) == LaneUnserved then 1 else 0)
    {
      if r.verdict == Unserved {
        unserved := unserved + 1;
      } else if r.verdict == Refused {
        Add(CloudFinding(r.seqNo, r.operation, Unmeasured, GuardRefused(r.refused), invented));
      } else if r.verdict == Skipped {
        Add(CloudFinding(r.seqNo, r.operation, Instrument, NothingRecorded, invented));
      } else if NotAboutTheResource(recorded, r.status) {
        Add(CloudFinding(r.seqNo, r.operation, Unmeasured, AboutTheCaller(recorded, r.status), invented));
      } else if r.verdict == Matched {
        compared := compared + 1;
      } else {
        compared := compared + 1;
        GradeDifferences(r, invented);
      }
    }

    method GradeDifferences(r: ReplayResult, invented: seq<string>)
      requires Balanced()
      modifies this`findings, this`moved, this`instrument, this`unmeasured
      ensures Balanced()
      ensures findings == old(findings) + DifferenceLines(r, invented, r.findings)
    {
      ghost var was := findings;
      for i := 0 to |r.findings|
        invariant Balanced()
        invariant findings == was + DifferenceLines(r, invented, r.findings[..i])
      {
        assert r.findings[..i + 1][..i] == r.findings[..i];
        var f := r.findings[i];
        if f.kind == KindRedacted { continue; }
        Add(CloudFinding(r.seqNo, r.operation, if |invented| > 0 then Instrument else Moved, Difference(f), invented));
      }
      assert r.findings[..|r.findings|] == r.findings;
    }
  }

  function Numbered(fs: seq<CloudFinding>, n: int): seq<CloudFinding> {
    Filter(fs, (f: CloudFinding) => f.seqNo == n)
  }

  /** The published lines come out by number, and lines of one number in the
      order they were written. */
  lemma PublishedInOrder(fs: seq<CloudFinding>)
    ensures Sorted(Sort(fs, SeqLe), SeqLe)
    ensures forall n :: Numbered(Sort(fs, SeqLe), n) == Numbered(fs, n)
  {
    SortSorted(fs, SeqLe);
    forall n ensures Numbered(Sort(fs, SeqLe), n) == Numbered(fs, n) {
      SortStable(fs, SeqLe, (f: CloudFinding) => f.seqNo == n);
    }
  }

  // ----- what the outcomes mean -----

  lemma {:induction false} LanesPartitionTheRun(results: seq<ReplayResult>, sent: seq<Exchange>)
    ensures InLane(results, sent, LaneUnserved) + InLane(results, sent, LaneUnmeasured)
          + InLane(results, sent, LaneSkipped) + InLane(results, sent, LaneCompared) == |results|
  {
    if results == [] {
    } else {
      LanesPartitionTheRun(results[..|results| - 1], sent);
    }
  }

  lemma {:induction false} LineComesFromDifference(r: ReplayResult, invented: seq<string>, fs: seq<Finding>,
                                                   line: CloudFinding)
    ensures line in DifferenceLines(r, invented, fs)
       <==> exists f :: f in fs && f.kind != KindRedacted
                     && line == CloudFinding(r.seqNo, r.operation, if |invented| > 0 then Instrument else Moved,
                                             Difference(f), invented)
  {
    if fs == [] {
    } else {
      LineComesFromDifference(r, invented, fs[..|fs| - 1], line);
      assert fs == fs[..|fs| - 1] + [fs[|fs| - 1]];
    }
  }

  /** An answer about who asked: refused, forbidden, too many, or the server's own
      failure, to a request the recording saw succeed. */
  ghost predicate IsAboutTheCaller(recorded: int, got: int) {
    recorded < 400 && (got == 401 || got == 403 || got == 429 || got >= 500)
  }

  /** What a line says, by the result it is for. */
  ghost predicate Reports(line: CloudFinding, r: ReplayResult, recorded: int, invented: seq<string>) {
    && line.seqNo == r.seqNo && line.operation == r.operation && line.instrument == invented
    && match r.verdict
       case Unserved => false
       case Refused => line.outcome == Unmeasured && line.detail == GuardRefused(r.refused)
       case Skipped => line.outcome == Instrument && line.detail == NothingRecorded
       case Matched =>
         IsAboutTheCaller(recorded, r.status) && line.outcome == Unmeasured
         && line.detail == AboutTheCaller(recorded, r.status)
       case Divergent =>
         if IsAboutTheCaller(recorded, r.status) then
           line.outcome == Unmeasured && line.detail == AboutTheCaller(recorded, r.status)
         else
           line.outcome == (if invented == [] then Moved else Instrument)
           && exists f :: f in r.findings && f.kind != KindRedacted && line.detail == Difference(f)
  }

  /** The lines a result adds, each for each of its causes, and the lane it is
      counted in: the caller's trouble is told apart from the resource's for
      every status. */
  lemma LinesMean(r: ReplayResult, recorded: int, invented: seq<string>, line: CloudFinding)
    ensures line in Lines(r, recorded, invented) <==> Reports(line, r, recorded, invented)
    ensures LaneOf(r, recorded) == LaneUnserved <==> r.verdict == Unserved
    ensures LaneOf(r, recorded) == LaneSkipped <==> r.verdict == Skipped
    ensures LaneOf(r, recorded) == LaneUnmeasured <==>
              r.verdict == Refused || (r.verdict in {Matched, Divergent} && IsAboutTheCaller(recorded, r.status))
  {
    LineComesFromDifference(r, invented, r.findings, line);
  }

  /** The lines of one result come in the order of its findings, one for each whose
      recorded type was not erased. */
  lemma {:induction false} DifferencesInOrder(r: ReplayResult, invented: seq<string>, fs: seq<Finding>)
    ensures var lines, kept := DifferenceLines(r, invented, fs), Filter(fs, (f: Finding) => f.kind != KindRedacted);
            |lines| == |kept| && forall k :: 0 <= k < |kept| ==> lines[k].detail == Difference(kept[k])
  {
    if fs == [] {
    } else {
      var n := |fs| - 1;
      DifferencesInOrder(r, invented, fs[..n]);
      assert fs == fs[..n] + [fs[n]];
      FilterAppend(fs[..n], [fs[n]], (f: Finding) => f.kind != KindRedacted);
      assert [fs[n]][1..] == [];
    }
  }

  ghost function Places(results: seq<ReplayResult>, sent: seq<Exchange>, lane: Lane): set<int> {
    set i | 0 <= i < |results| && LaneOf(results[i], RecordedStatus(sent, results[i].seqNo)) == lane
  }

  lemma OneMorePlace(results: seq<ReplayResult>, r: ReplayResult, sent: seq<Exchange>, lane: Lane)
    ensures Places(results + [r], sent, lane)
         == Places(results, sent, lane)
            + (if LaneOf(r, RecordedStatus(sent, r.seqNo)) == lane then {|results|} else {})
  {
  }

  /** A lane's count is the number of results in it. */
  lemma {:induction false} InLaneCounts(results: seq<ReplayResult>, sent: seq<Exchange>, lane: Lane)
    ensures InLane(results, sent, lane) == |Places(results, sent, lane)|
  {
    if results == [] {
    } else {
      var n := |results| - 1;
      InLaneCounts(results[..n], sent, lane);
      OneMorePlace(results[..n], results[n], sent, lane);
      assert results == results[..n] + [results[n]];
      assert n !in Places(results[..n], sent, lane);
    }
  }

  /** When a line says the cloud moved: exactly when the result is a divergence,
      its request carried nothing invented, the answer is not about the caller,
      and the difference is one whose recorded type was not erased. */
  lemma MovedExactlyWhen(r: ReplayResult, recorded: int, invented: seq<string>, f: Finding)
    ensures (exists line ::
             line in Lines(r, recorded, invented) && line.outcome == Moved && line.detail == Difference(f))
       <==> r.verdict == Divergent && invented == [] && !NotAboutTheResource(recorded, r.status)
            && f in r.findings && f.kind != KindRedacted
    ensures forall line :: line in Lines(r, recorded, invented) && line.outcome == Moved ==> line.detail.Difference?
  {
    forall line ensures line in DifferenceLines(r, invented, r.findings)
       <==> exists g :: g in r.findings && g.kind != KindRedacted
                     && line == CloudFinding(r.seqNo, r.operation, if |invented| > 0 then Instrument else Moved,
                                             Difference(g), invented) {
      LineComesFromDifference(r, invented, r.findings, line);
    }
    if r.verdict == Divergent && invented == [] && !NotAboutTheResource(recorded, r.status) && f in r.findings
        && f.kind != KindRedacted {
      assert CloudFinding(r.seqNo, r.operation, Moved, Difference(f), invented) in Lines(r, recorded, invented);
    }
  }

  /** An answer about the caller to a request the recording saw succeed is one
      line, never a change of the cloud and never the recording's fault. */
  lemma CallerAnswersAreNeverMoved(r: ReplayResult, recorded: int, invented: seq<string>)
    requires r.verdict == Matched || r.verdict == Divergent
    requires recorded < 400 && (r.status == 401 || r.status == 403 || r.status == 429 || r.status >= 500)
    ensures Lines(r, recorded, invented)
              == [CloudFinding(r.seqNo, r.operation, Unmeasured, AboutTheCaller(recorded, r.status), invented)]
  {
  }

  /** The report's word and the guard's record agree: of a request the guard was
      shown, no line says "moved" when the request carried an invented value. */
  lemma MovedMeansNothingInvented(
    sh: Shapes, steps: seq<AccountSafety.Step>, synthetic: map<int, seq<string>>, k: nat, r: ReplayResult,
    recorded: int)
    requires RecordsInvented(sh, steps, synthetic)
    requires forall i, j :: 0 <= i < j < |steps| ==> steps[i].a.seqNo != steps[j].a.seqNo
    requires k < |steps| && steps[k].a.seqNo == r.seqNo
    ensures InventedAt(synthetic, r.seqNo) == [] <==> SyntheticIn(sh, steps[k].a) == {}
    ensures forall line :: line in Lines(r, recorded, InventedAt(synthetic, r.seqNo)) && line.outcome == Moved ==>
              SyntheticIn(sh, steps[k].a) == {}
  {
    InventedIsTheRequestsOwn(sh, steps, k);
    var invented := InventedAt(synthetic, r.seqNo);
    if r.seqNo in synthetic {
      assert Elements(invented) == SyntheticIn(sh, steps[k].a);
      assert invented != [];
    }
    forall line | line in Lines(r, recorded, invented) && line.outcome == Moved
      ensures invented == []
    {
      LineComesFromDifference(r, invented, r.findings, line);
    }
  }

  // ----- the exit code -----

  ghost predicate Says(findings: seq<CloudFinding>, o: Outcome) {
    exists line :: line in findings && line.outcome == o
  }

  lemma {:induction false} CountedIsSaid(fs: seq<CloudFinding>, o: Outcome)
    ensures CountOutcome(fs, o) > 0 <==> Says(fs, o)
  {
    if fs == [] {
    } else {
      var n := |fs| - 1;
      CountedIsSaid(fs[..n], o);
      assert fs == fs[..n] + [fs[n]];
      if Says(fs[..n], o) {
        var line :| line in fs[..n] && line.outcome == o;
        assert line in fs;
      }
      if fs[n].outcome == o { assert fs[n] in fs; }
    }
  }

  /** What `replayCorpusAtCloud` returns once a session can be held, the deferred
      walk having the last word. */
  method ExitCode(report: Report, completed: bool, markStale: bool, markFailed: bool, leftovers: seq<CreatedObject>)
    returns (code: int)
    requires report.Balanced()
    ensures code == 0 <==>
              completed && !Says(report.findings, Moved) && !Says(report.findings, Unmeasured) && leftovers == []
    ensures code == 2 <==>
              completed && Says(report.findings, Moved) && !Says(report.findings, Unmeasured) && leftovers == []
              && !(markStale && markFailed)
    ensures code in {0, 1, 2}
  {
    CountedIsSaid(report.findings, Moved);
    CountedIsSaid(report.findings, Unmeasured);
    if !completed {
      code := EXIT_ERROR;
    } else if markStale && report.moved > 0 && markFailed {
      code := EXIT_ERROR;
    } else if report.unmeasured > 0 {
      code := EXIT_ERROR;
    } else if report.moved > 0 {
      code := EXIT_DRIFT;
    } else {
      code := EXIT_OK;
    }
    if |leftovers| > 0 { code := EXIT_ERROR; }
  }
}
