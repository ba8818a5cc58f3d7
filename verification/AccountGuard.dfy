/** The guard that stands between a recorded sequence and a real account: what
    it lets out, what it learns from an answer, and what it destroys at the
    end. Each method is tied to a function of the guard's state; the runs in
    AccountSafety are runs of those functions. */
module AccountGuard {
  import opened Wrappers
  import opened Text
  import opened Ordering
  import opened Json

  datatype Verb = GET | HEAD | POST | PUT | PATCH | DELETE | OtherVerb(name: string)

  /** One request as it will actually go out, after rebinding. */
  datatype Attempt = Attempt(seqNo: int, operation: string, verb: Verb, path: string, query: string, body: Value)

  datatype Answer = Answer(status: int, body: Value)

  /** The recognisers of the packages beside this one: the shape of an
      identifier a cloud mints, and the values the sanitiser invents. */
  datatype Shapes = Shapes(identifier: string -> bool, synthetic: string -> bool)

  datatype CreatedObject = CreatedObject(collection: string, id: string, operation: string) {
    function Url(): string {
      collection + "/" + id
    }
  }

  datatype Decision =
    | Allow
    | RefuseDryRun
    | RefuseForeign
    | RefuseNamesNothing
    | RefuseBillable
    | RefuseNoRule

  const FREE_TO_CREATE: set<string> := {
    "vpc/v2/API.CreateVPC",
    "vpc/v2/API.CreatePrivateNetwork",
    "iam/v1alpha1/API.CreateSSHKey"
  }

  predicate Reads(v: Verb) { v.GET? || v.HEAD? }

  predicate Creates(v: Verb) { v.POST? || v.PUT? }

  predicate Succeeded(status: int) { 200 <= status < 300 }

  // ----- what a path addresses -----

  function SegmentId(segment: string): string { CutBefore(segment, ':') }

  /** The identifiers the guard reads off a path: of each segment, what stands
      before a colon, when it has the shape of an identifier. */
  function Addressed(sh: Shapes, path: string): set<string> {
    set segment | segment in Split(path, '/') && sh.identifier(SegmentId(segment)) :: SegmentId(segment)
  }

  // ----- the state and its transitions -----

  datatype GuardState = GuardState(
    owned: set<string>,
    created: seq<CreatedObject>,
    synthetic: map<int, seq<string>>,
    dryRun: bool)

  function Fresh(dryRun: bool): GuardState {
    GuardState({}, [], map[], dryRun)
  }

  function Decide(sh: Shapes, st: GuardState, a: Attempt): Decision {
    if Reads(a.verb) then Allow
    else if st.dryRun then RefuseDryRun
    else if !(Addressed(sh, a.path) <= st.owned) then RefuseForeign
    else if a.verb.DELETE? || a.verb.PATCH? then
      if Addressed(sh, a.path) == {} then RefuseNamesNothing else Allow
    else if Creates(a.verb) then
      if a.operation in FREE_TO_CREATE then Allow else RefuseBillable
    else RefuseNoRule
  }

  // ----- what a decision comes to -----

  /** Every identifier the path names, each segment up to its first colon, is owned. */
  ghost predicate OwnsWhatItNames(sh: Shapes, owned: set<string>, path: string) {
    forall segment :: segment in Split(path, '/') && sh.identifier(CutBefore(segment, ':')) ==>
                        CutBefore(segment, ':') in owned
  }

  ghost predicate NamesSomething(sh: Shapes, path: string) {
    exists segment :: segment in Split(path, '/') && sh.identifier(CutBefore(segment, ':'))
  }

  /** The three operations whose objects cost nothing. */
  ghost predicate CostsNothing(operation: string) {
    || operation == "vpc/v2/API.CreateVPC"
    || operation == "vpc/v2/API.CreatePrivateNetwork"
    || operation == "iam/v1alpha1/API.CreateSSHKey"
  }

  /** What goes out, and why each of the rest does not. */
  ghost predicate IsDecision(sh: Shapes, dryRun: bool, owned: set<string>, a: Attempt, decision: Decision) {
    var reading := a.verb == GET || a.verb == HEAD;
    var changes := !reading && !dryRun;
    var allowed := changes && OwnsWhatItNames(sh, owned, a.path);
    var removes, creates := a.verb == DELETE || a.verb == PATCH, a.verb == POST || a.verb == PUT;
    && (decision == Allow <==>
          || reading
          || (allowed && removes && NamesSomething(sh, a.path))
          || (allowed && creates && CostsNothing(a.operation)))
    && (decision == RefuseDryRun <==> !reading && dryRun)
    && (decision == RefuseForeign <==> changes && !OwnsWhatItNames(sh, owned, a.path))
    && (decision == RefuseNamesNothing <==> allowed && removes && !NamesSomething(sh, a.path))
    && (decision == RefuseBillable <==> allowed && creates && !CostsNothing(a.operation))
    && (decision == RefuseNoRule <==> allowed && !removes && !creates)
  }

  lemma AddressedIsNamed(sh: Shapes, owned: set<string>, path: string)
    ensures Addressed(sh, path) <= owned <==> OwnsWhatItNames(sh, owned, path)
    ensures Addressed(sh, path) == {} <==> !NamesSomething(sh, path)
  {
    forall segment | segment in Split(path, '/') && sh.identifier(SegmentId(segment))
      ensures SegmentId(segment) in Addressed(sh, path)
    {
    }
  }

  /** Every decision, by what the request is. */
  lemma DecideMeans(sh: Shapes, st: GuardState, a: Attempt)
    ensures IsDecision(sh, st.dryRun, st.owned, a, Decide(sh, st, a))
  {
    AddressedIsNamed(sh, st.owned, a.path);
  }

  /** Every value of the request, of its path and of its query that the
      sanitiser invented. */
  ghost function SyntheticIn(sh: Shapes, a: Attempt): set<string> {
    set s | s in StringsIn(a.body) + PathTexts(a.path) + QueryValues(a.query) && s != "" && sh.synthetic(s)
  }

  function PathTexts(path: string): set<string> {
    set segment | segment in Split(path, '/') :: SegmentId(segment)
  }

  function QueryValues(query: string): set<string> {
    set pair | pair in Split(query, '&') && '=' in pair :: CutAfter(pair, '=')
  }

  /** `s` is a value the sanitiser invents, and it stands somewhere in the body, in
      the path as a segment up to its first colon, or in the query behind the first
      equals sign of a pair. */
  ghost predicate Invents(sh: Shapes, a: Attempt, s: string) {
    && s != "" && sh.synthetic(s)
    && (StandsInBody(a.body, s) || StandsInPath(a.path, s) || StandsInQuery(a.query, s))
  }

  ghost predicate StandsInBody(body: Value, s: string) {
    exists path :: SitsAt(body, path, s)
  }

  ghost predicate StandsInPath(path: string, s: string) {
    exists segment :: segment in Split(path, '/') && CutBefore(segment, ':') == s
  }

  ghost predicate StandsInQuery(query: string, s: string) {
    exists key :: '=' !in key && key + ['='] + s in Split(query, '&')
  }

  lemma ValueOfAPair(pair: string, s: string)
    requires '=' in pair
    ensures CutAfter(pair, '=') == s <==> exists key :: '=' !in key && key + ['='] + s == pair
  {
    if CutAfter(pair, '=') == s { assert CutBefore(pair, '=') + ['='] + s == pair; }
    if key :| '=' !in key && key + ['='] + s == pair { CutAtFirst(key, '=', s); }
  }

  lemma QueryValuesMean(query: string, s: string)
    ensures s in QueryValues(query) <==> StandsInQuery(query, s)
  {
    if s in QueryValues(query) {
      var pair :| pair in Split(query, '&') && '=' in pair && CutAfter(pair, '=') == s;
      ValueOfAPair(pair, s);
    }
    if key :| '=' !in key && key + ['='] + s in Split(query, '&') {
      var pair := key + ['='] + s;
      assert pair[|key|] == '=';
      ValueOfAPair(pair, s);
    }
  }

  lemma PathTextsMean(path: string, s: string)
    ensures s in PathTexts(path) <==> StandsInPath(path, s)
  {
    if segment :| segment in Split(path, '/') && CutBefore(segment, ':') == s {
      assert SegmentId(segment) in PathTexts(path);
    }
  }

  /** What the guard records of a request, by where it stands. */
  lemma SyntheticMeans(sh: Shapes, a: Attempt, s: string)
    ensures s in SyntheticIn(sh, a) <==> Invents(sh, a, s)
  {
    StringsAreReached(a.body, s);
    QueryValuesMean(a.query, s);
    PathTextsMean(a.path, s);
    assert s in SyntheticIn(sh, a) <==>
             s in StringsIn(a.body) + PathTexts(a.path) + QueryValues(a.query) && s != "" && sh.synthetic(s);
  }

  /** `noted` is `st` with the request's invented values, listed in order, under
      the request's number; a request carrying none leaves the record alone. */
  ghost predicate Noted(sh: Shapes, st: GuardState, a: Attempt, noted: GuardState) {
    var found := SyntheticIn(sh, a);
    if found == {} then noted == st
    else
      && a.seqNo in noted.synthetic
      && IsListing(noted.synthetic[a.seqNo], found)
      && noted == st.(synthetic := st.synthetic[a.seqNo := noted.synthetic[a.seqNo]])
  }

  /** The record after a request: what it invents, sorted and once each, under its
      number, and nothing else moved; a request that invents nothing moves nothing. */
  ghost predicate NotesInvented(sh: Shapes, a: Attempt, was: map<int, seq<string>>, now: map<int, seq<string>>) {
    && (forall n :: n != a.seqNo ==> (n in now <==> n in was) && (n in was ==> now[n] == was[n]))
    && ((forall s :: !Invents(sh, a, s)) ==> now == was)
    && ((exists s :: Invents(sh, a, s)) ==>
          && a.seqNo in now && Sorted(now[a.seqNo], Le) && Distinct(now[a.seqNo])
          && forall s :: s in now[a.seqNo] <==> Invents(sh, a, s))
  }

  lemma NotedMeans(sh: Shapes, st: GuardState, a: Attempt, noted: GuardState)
    requires Noted(sh, st, a, noted)
    ensures NotesInvented(sh, a, st.synthetic, noted.synthetic)
  {
    var found := SyntheticIn(sh, a);
    forall s ensures s in found <==> Invents(sh, a, s) { SyntheticMeans(sh, a, s); }
    if found != {} {
      var list := noted.synthetic[a.seqNo];
      forall s ensures s in list <==> s in found { assert s in list <==> s in Elements(list); }
    }
  }

  ghost function Learn(sh: Shapes, st: GuardState, a: Attempt, answer: Answer): GuardState {
    if Creates(a.verb) && Succeeded(answer.status) then
      var id := ObjectId(sh.identifier, answer.body);
      st.(owned := st.owned + MintedIds(sh.identifier, answer.body),
          created := if id.Some? then st.created + [CreatedObject(a.path, id.value, a.operation)] else st.created)
    else st
  }

  /** A POST or PUT answered with 200 to 299. */
  ghost predicate CreatesAnObject(a: Attempt, answer: Answer) {
    (a.verb == POST || a.verb == PUT) && 200 <= answer.status <= 299
  }

  /** Such a create answered `id` under "id", at some depth. */
  ghost predicate Teaches(sh: Shapes, a: Attempt, answer: Answer, id: string) {
    CreatesAnObject(a, answer) && exists path :: SitsUnderId(sh.identifier, answer.body, path, id)
  }

  /** And the ledger takes the object the answer names, with the path it was created
      at, when it names one. */
  ghost predicate TakesTheObject(sh: Shapes, a: Attempt, answer: Answer, was: seq<CreatedObject>,
                                 now: seq<CreatedObject>)
  {
    if CreatesAnObject(a, answer) && exists id :: NamesTheObject(sh.identifier, answer.body, id)
    then exists id ::
      NamesTheObject(sh.identifier, answer.body, id) && now == was + [CreatedObject(a.path, id, a.operation)]
    else now == was
  }

  lemma LearnMeans(sh: Shapes, st: GuardState, a: Attempt, answer: Answer)
    ensures var now := Learn(sh, st, a, answer);
            && (forall id :: id in now.owned <==> id in st.owned || Teaches(sh, a, answer, id))
            && TakesTheObject(sh, a, answer, st.created, now.created)
  {
    forall id
      ensures id in Learn(sh, st, a, answer).owned <==> id in st.owned || Teaches(sh, a, answer, id)
      ensures ObjectId(sh.identifier, answer.body) == Some(id) <==> NamesTheObject(sh.identifier, answer.body, id)
    {
      MintedIdsAreThePathsEndingInId(sh.identifier, answer.body, id);
      ObjectIdNamesTheObject(sh.identifier, answer.body, id);
    }
  }

  // ----- the destruction walk -----

  /** A proving read that answered 404 or 410; None is a read that never came back. */
  predicate Gone(read: Option<int>) {
    read == Some(404) || read == Some(410)
  }

  /** The entries whose proving read did not say gone, newest first. */
  function Leftovers(ledger: seq<CreatedObject>, proofs: seq<Option<int>>): seq<CreatedObject>
    requires |proofs| == |ledger|
  {
    if ledger == [] then []
    else
      var n := |ledger| - 1;
      (if Gone(proofs[n]) then [] else [ledger[n]]) + Leftovers(ledger[..n], proofs[..n])
  }

  /** What goes out on the wire: a DELETE then a GET of each entry's URL, newest first. */
  function DestroyTraffic(ledger: seq<CreatedObject>): seq<(Verb, CreatedObject)> {
    if ledger == [] then []
    else
      var n := |ledger| - 1;
      [(DELETE, ledger[n]), (GET, ledger[n])] + DestroyTraffic(ledger[..n])
  }

  lemma WalkStep(ledger: seq<CreatedObject>, proofs: seq<Option<int>>, i: nat)
    requires |proofs| == |ledger| && i < |ledger|
    ensures Leftovers(ledger[..i + 1], proofs[..i + 1])
         == (if Gone(proofs[i]) then [] else [ledger[i]]) + Leftovers(ledger[..i], proofs[..i])
    ensures DestroyTraffic(ledger[..i + 1])
         == [(DELETE, ledger[i]), (GET, ledger[i])] + DestroyTraffic(ledger[..i])
  {
    assert ledger[..i + 1][..i] == ledger[..i] && proofs[..i + 1][..i] == proofs[..i];
  }

  /** The leftovers are the entries at these positions, newest first: those whose
      read was answered neither 404 nor 410, one that never came back included. */
  ghost predicate LeftAt(ledger: seq<CreatedObject>, proofs: seq<Option<int>>, leftovers: seq<CreatedObject>,
                         at: seq<nat>)
    requires |proofs| == |ledger|
  {
    && |at| == |leftovers|
    && (forall k :: 0 <= k < |at| ==> at[k] < |ledger| && leftovers[k] == ledger[at[k]])
    && (forall j, k :: 0 <= j < k < |at| ==> at[j] > at[k])
    && (forall i :: 0 <= i < |ledger| ==> (i in at <==> proofs[i] != Some(404) && proofs[i] != Some(410)))
  }

  lemma LeftGone(ledger: seq<CreatedObject>, o: CreatedObject, proofs: seq<Option<int>>, proof: Option<int>,
                 left: seq<CreatedObject>, at: seq<nat>)
    requires |proofs| == |ledger| && LeftAt(ledger, proofs, left, at)
    requires proof == Some(404) || proof == Some(410)
    ensures LeftAt(ledger + [o], proofs + [proof], left, at)
  {
    forall i | 0 <= i < |ledger| ensures (proofs + [proof])[i] == proofs[i] {}
    assert |ledger| !in at;
  }

  lemma LeftStays(ledger: seq<CreatedObject>, o: CreatedObject, proofs: seq<Option<int>>, proof: Option<int>,
                  left: seq<CreatedObject>, at: seq<nat>)
    requires |proofs| == |ledger| && LeftAt(ledger, proofs, left, at)
    requires proof != Some(404) && proof != Some(410)
    ensures LeftAt(ledger + [o], proofs + [proof], [o] + left, [|ledger|] + at)
  {
    var all := [|ledger|] + at;
    forall i | 0 <= i < |ledger|
      ensures (proofs + [proof])[i] == proofs[i]
      ensures i in all <==> i in at
    {
    }
    forall k | 0 < k < |all| ensures all[k] == at[k - 1] {}
  }

  lemma LeftoversOfOneMore(ledger: seq<CreatedObject>, o: CreatedObject, proofs: seq<Option<int>>, proof: Option<int>)
    requires |proofs| == |ledger|
    ensures Leftovers(ledger + [o], proofs + [proof])
         == if Gone(proof) then Leftovers(ledger, proofs) else [o] + Leftovers(ledger, proofs)
  {
    assert (ledger + [o])[..|ledger|] == ledger && (proofs + [proof])[..|ledger|] == proofs;
    assert [] + Leftovers(ledger, proofs) == Leftovers(ledger, proofs);
  }

  lemma OneMoreLeft(ledger: seq<CreatedObject>, o: CreatedObject, proofs: seq<Option<int>>, proof: Option<int>,
                    at: seq<nat>) returns (more: seq<nat>)
    requires |proofs| == |ledger| && LeftAt(ledger, proofs, Leftovers(ledger, proofs), at)
    ensures LeftAt(ledger + [o], proofs + [proof], Leftovers(ledger + [o], proofs + [proof]), more)
  {
    LeftoversOfOneMore(ledger, o, proofs, proof);
    if Gone(proof) {
      LeftGone(ledger, o, proofs, proof, Leftovers(ledger, proofs), at);
      more := at;
    } else {
      LeftStays(ledger, o, proofs, proof, Leftovers(ledger, proofs), at);
      more := [|ledger|] + at;
    }
  }

  lemma Apart<T>(xs: seq<T>)
    requires xs != []
    ensures xs == xs[..|xs| - 1] + [xs[|xs| - 1]]
  {
  }

  lemma {:induction false} LeftoversMean(ledger: seq<CreatedObject>, proofs: seq<Option<int>>) returns (at: seq<nat>)
    requires |proofs| == |ledger|
    ensures LeftAt(ledger, proofs, Leftovers(ledger, proofs), at)
  {
    if ledger == [] {
      at := [];
    } else {
      var n := |ledger| - 1;
      var before := LeftoversMean(ledger[..n], proofs[..n]);
      at := OneMoreLeft(ledger[..n], ledger[n], proofs[..n], proofs[n], before);
      Apart(ledger);
      Apart(proofs);
    }
  }

  /** A read that never came back leaves its entry over. */
  lemma ASilentReadLeavesItsEntry(ledger: seq<CreatedObject>, proofs: seq<Option<int>>, i: nat)
    requires |proofs| == |ledger| && i < |ledger| && proofs[i] == None
    ensures ledger[i] in Leftovers(ledger, proofs)
  {
    var at := LeftoversMean(ledger, proofs);
    var k :| 0 <= k < |at| && at[k] == i;
    assert Leftovers(ledger, proofs)[k] == ledger[i];
  }

  /** Newest first, each entry is deleted and then read. */
  ghost predicate DeletesThenReads(ledger: seq<CreatedObject>, sent: seq<(Verb, CreatedObject)>) {
    && |sent| == 2 * |ledger|
    && forall i :: 0 <= i < |ledger| ==>
         sent[2 * (|ledger| - 1 - i)] == (DELETE, ledger[i]) && sent[2 * (|ledger| - 1 - i) + 1] == (GET, ledger[i])
  }

  lemma {:induction false} TrafficMeans(ledger: seq<CreatedObject>)
    ensures DeletesThenReads(ledger, DestroyTraffic(ledger))
  {
    if ledger == [] {
    } else {
      var n := |ledger| - 1;
      TrafficMeans(ledger[..n]);
      var earlier, all := DestroyTraffic(ledger[..n]), DestroyTraffic(ledger);
      forall i | 0 <= i < n
        ensures all[2 * (n - i)] == earlier[2 * (n - 1 - i)] && all[2 * (n - i) + 1] == earlier[2 * (n - 1 - i) + 1]
        ensures ledger[..n][i] == ledger[i]
      {
      }
    }
  }

  // ----- the loops -----

  /** The loop over the segments: it stops at the first identifier that is not
      this run's, and otherwise says how many segments named one. */
  method ReadPath(shapes: Shapes, owned: set<string>, path: string) returns (minted: nat, foreign: bool)
    ensures foreign <==> !(Addressed(shapes, path) <= owned)
    ensures !foreign ==> (minted == 0 <==> Addressed(shapes, path) == {})
  {
    minted, foreign := 0, false;
    var segments := Split(path, '/');
    for i := 0 to |segments|
      invariant forall j :: 0 <= j < i && shapes.identifier(SegmentId(segments[j])) ==> SegmentId(segments[j]) in owned
      invariant minted == 0 <==> forall j :: 0 <= j < i ==> !shapes.identifier(SegmentId(segments[j]))
    {
      var id := SegmentId(segments[i]);
      if !shapes.identifier(id) { continue; }
      minted := minted + 1;
      if id !in owned {
        assert id in Addressed(shapes, path);
        return minted, true;
      }
    }
    if minted != 0 {
      var j :| 0 <= j < |segments| && shapes.identifier(SegmentId(segments[j]));
      assert SegmentId(segments[j]) in Addressed(shapes, path);
    }
  }

  method PathTextList(path: string) returns (texts: seq<string>)
    ensures Elements(texts) == PathTexts(path)
  {
    texts := [];
    var segments := Split(path, '/');
    for i := 0 to |segments|
      invariant forall s :: s in texts <==> exists j :: 0 <= j < i && s == SegmentId(segments[j])
    {
      texts := texts + [SegmentId(segments[i])];
    }
  }

  method QueryValueList(query: string) returns (texts: seq<string>)
    ensures Elements(texts) == QueryValues(query)
  {
    texts := [];
    var pairs := Split(query, '&');
    for i := 0 to |pairs|
      invariant forall s :: s in texts <==> exists j :: 0 <= j < i && '=' in pairs[j] && s == CutAfter(pairs[j], '=')
    {
      if '=' in pairs[i] {
        texts := texts + [CutAfter(pairs[i], '=')];
      }
    }
  }

  /** The closure noteSynthetic hands to the walk: each invented value once. */
  method NoteEach(shapes: Shapes, texts: seq<string>) returns (out: seq<string>)
    ensures Distinct(out)
    ensures forall s :: s in out <==> s in texts && s != "" && shapes.synthetic(s)
  {
    out := [];
    var seen: set<string> := {};
    for i := 0 to |texts|
      invariant Distinct(out)
      invariant seen == Elements(out)
      invariant forall s :: s in out <==> s in texts[..i] && s != "" && shapes.synthetic(s)
    {
      var s := texts[i];
      if s == "" || s in seen || !shapes.synthetic(s) { continue; }
      seen := seen + {s};
      out := out + [s];
    }
  }

  class Guard {
    const shapes: Shapes
    const dryRun: bool
    var owned: set<string>
    var created: seq<CreatedObject>
    var synthetic: map<int, seq<string>>

    function State(): GuardState
      reads this
    {
      GuardState(owned, created, synthetic, dryRun)
    }

    constructor (shapes: Shapes, dryRun: bool)
      ensures this.shapes == shapes && State() == Fresh(dryRun)
    {
      this.shapes := shapes;
      this.dryRun := dryRun;
      owned, created, synthetic := {}, [], map[];
    }

    method Before(a: Attempt) returns (decision: Decision)
      modifies this`synthetic
      ensures Noted(shapes, old(State()), a, State())
      ensures decision == Decide(shapes, old(State()), a)
      ensures IsDecision(shapes, dryRun, old(owned), a, decision)
    {
      DecideMeans(shapes, State(), a);
      NoteSynthetic(a);
      if Reads(a.verb) { return Allow; }
      if dryRun { return RefuseDryRun; }
      var minted, foreign := ReadPath(shapes, owned, a.path);
      if foreign { return RefuseForeign; }
      match a.verb
      case DELETE | PATCH => decision := if minted == 0 then RefuseNamesNothing else Allow;
      case POST | PUT => decision := if a.operation in FREE_TO_CREATE then Allow else RefuseBillable;
      case _ => decision := RefuseNoRule;
    }

    method After(a: Attempt, answer: Answer)
      modifies this`owned, this`created
      ensures State() == Learn(shapes, old(State()), a, answer)
      ensures forall id :: id in owned <==> id in old(owned) || Teaches(shapes, a, answer, id)
      ensures TakesTheObject(shapes, a, answer, old(created), created)
    {
      LearnMeans(shapes, State(), a, answer);
      if !Creates(a.verb) { return; }
      if answer.status < 200 || answer.status >= 300 { return; }
      var ids := CollectMintedIds(shapes.identifier, answer.body);
      for i := 0 to |ids|
        invariant owned == old(owned) + Elements(ids[..i])
        invariant created == old(created)
      {
        assert ids[..i + 1] == ids[..i] + [ids[i]];
        owned := owned + {ids[i]};
      }
      assert ids[..|ids|] == ids;
      var id := FindObjectId(shapes.identifier, answer.body);
      if id.Some? {
        created := created + [CreatedObject(a.path, id.value, a.operation)];
      }
    }

    method NoteSynthetic(a: Attempt)
      modifies this`synthetic
      ensures Noted(shapes, old(State()), a, State())
      ensures NotesInvented(shapes, a, old(synthetic), synthetic)
    {
      var visited := WalkStrings(a.body);
      var segments := PathTextList(a.path);
      var values := QueryValueList(a.query);
      var texts := visited + segments + values;
      assert Elements(texts) == Elements(visited) + Elements(segments) + Elements(values);
      var out := NoteEach(shapes, texts);
      assert Elements(out) == SyntheticIn(shapes, a) by {
        assert forall s :: s in texts <==> s in Elements(texts);
      }
      if out != [] {
        assert out[0] in Elements(out);
        SortIsListing(out);
        synthetic := synthetic[a.seqNo := Sort(out, Le)];
      }
      NotedMeans(shapes, old(State()), a, State());
    }

    /** Never the DELETE's own answer: an entry counts as destroyed when the read
        of its URL, `proofs[i]` for entry `i`, says so. */
    method Destroy(proofs: seq<Option<int>>)
      returns (proved: nat, leftovers: seq<CreatedObject>, sent: seq<(Verb, CreatedObject)>)
      requires |proofs| == |created|
      ensures proved + |leftovers| == |created|
      ensures leftovers == Leftovers(created, proofs)
      ensures exists at :: LeftAt(created, proofs, leftovers, at)
      ensures sent == DestroyTraffic(created)
      ensures DeletesThenReads(created, sent)
    {
      proved, leftovers, sent := 0, [], [];
      var ledger := created;
      ghost var at := LeftoversMean(ledger, proofs);
      TrafficMeans(ledger);
      var i := |ledger|;
      assert ledger[..i] == ledger && proofs[..i] == proofs;
      while i > 0
        invariant 0 <= i <= |ledger|
        invariant proved + |leftovers| == |ledger| - i
        invariant leftovers + Leftovers(ledger[..i], proofs[..i]) == Leftovers(ledger, proofs)
        invariant sent + DestroyTraffic(ledger[..i]) == DestroyTraffic(ledger)
      {
        i := i - 1;
        WalkStep(ledger, proofs, i);
        ghost var left, traffic := Leftovers(ledger[..i], proofs[..i]), DestroyTraffic(ledger[..i]);
        var o := ledger[i];
        var two := [(DELETE, o), (GET, o)];
        Assoc(sent, two, traffic);
        sent := sent + two;
        if Gone(proofs[i]) {
          proved := proved + 1;
          Assoc(leftovers, [], left);
          assert leftovers + [] == leftovers;
        } else {
          Assoc(leftovers, [o], left);
          leftovers := leftovers + [o];
        }
      }
    }
  }
}
