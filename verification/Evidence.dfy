/** The per-operation evidence record: seven independent axes, three of them
    verdicts, the join of two legs of one regeneration, the report of what a
    write demotes, and the offline rewrite of the shape column. */
module Evidence {
  import opened Wrappers
  import opened Text
  import opened Ordering

  /** A verdict as the record spells it. `Other` is any text outside the nine
      declared words, the empty one of a missing key included. */
  datatype Word =
    | Response | Refusal | NoProbe
    | Clean | Violating | Unchecked
    | Observed | Unobserved | Unknown
    | Other(raw: string)

  datatype Row = Row(
    driven: bool, probed: Word, contract: Word, dataplane: bool, shape: Word, behaviour: bool, negative: bool)

  datatype Digests = Digests(contracts: string, shapes: string, suites: string)

  datatype Artefact = Artefact(machines: seq<string>, madeFrom: Digests, operations: map<string, Row>)

  // ----- the axes -----

  datatype Axis = Driven | Probed | Contract | Dataplane | Shape | Behaviour | Negative

  const AXES: seq<Axis> := [Driven, Probed, Contract, Dataplane, Shape, Behaviour, Negative]

  lemma EveryAxisIsListed(x: Axis)
    ensures x in AXES
  {
    match x
    case Driven => assert AXES[0] == x;
    case Probed => assert AXES[1] == x;
    case Contract => assert AXES[2] == x;
    case Dataplane => assert AXES[3] == x;
    case Shape => assert AXES[4] == x;
    case Behaviour => assert AXES[5] == x;
    case Negative => assert AXES[6] == x;
  }

  predicate Earned(x: Axis, r: Row) {
    match x
    case Driven => r.driven
    case Probed => r.probed == Response || r.probed == Refusal
    case Contract => r.contract == Clean
    case Dataplane => r.dataplane
    case Shape => r.shape == Observed
    case Behaviour => r.behaviour
    case Negative => r.negative
  }

  // ----- the boundary: readEvidence -----

  predicate ProbeWord(w: Word) { w.Response? || w.Refusal? || w.NoProbe? }

  predicate ContractWord(w: Word) { w.Clean? || w.Violating? || w.Unchecked? }

  predicate ShapeWord(w: Word) { w.Observed? || w.Unobserved? || w.Unknown? }

  predicate ValidRow(r: Row) {
    ProbeWord(r.probed) && ContractWord(r.contract) && ShapeWord(r.shape)
  }

  ghost predicate ValidOperations(ops: map<string, Row>) {
    forall op :: op in ops ==> ValidRow(ops[op])
  }

  /** The first verdict whose value is outside its vocabulary. */
  method UnknownVerdict(r: Row) returns (field: Option<Axis>)
    ensures field == None <==> ValidRow(r)
    ensures field == Some(Probed) <==> r.probed !in {Response, Refusal, NoProbe}
    ensures field == Some(Contract) <==>
              r.probed in {Response, Refusal, NoProbe} && r.contract !in {Clean, Violating, Unchecked}
    ensures field == Some(Shape) <==>
              && r.probed in {Response, Refusal, NoProbe} && r.contract in {Clean, Violating, Unchecked}
              && r.shape !in {Observed, Unobserved, Unknown}
    ensures field.Some? ==> field.value in {Probed, Contract, Shape}
  {
    var fields := [(Probed, ProbeWord(r.probed)), (Contract, ContractWord(r.contract)), (Shape, ShapeWord(r.shape))];
    for i := 0 to |fields|
      invariant forall j :: 0 <= j < i ==> fields[j].1
    {
      assert i == 0 || fields[0].1;
      assert i <= 1 || fields[1].1;
      if !fields[i].1 { return Some(fields[i].0); }
    }
    assert fields[0].1 && fields[1].1 && fields[2].1;
    return None;
  }

  // ----- joining two legs -----

  function ProbeRank(w: Word): nat {
    match w
    case Response => 2
    case Refusal => 1
    case _ => 0
  }

  function ContractRank(w: Word): nat {
    match w
    case Violating => 2
    case Clean => 1
    case _ => 0
  }

  function ShapeRank(w: Word): nat {
    match w
    case Observed => 2
    case Unobserved => 1
    case _ => 0
  }

  function StrongerProbe(a: Word, b: Word): Word { if ProbeRank(b) > ProbeRank(a) then b else a }

  function StrongerContract(a: Word, b: Word): Word { if ContractRank(b) > ContractRank(a) then b else a }

  function StrongerShape(a: Word, b: Word): Word { if ShapeRank(b) > ShapeRank(a) then b else a }

  function JoinRow(a: Row, b: Row): Row {
    Row(a.driven || b.driven,
        StrongerProbe(a.probed, b.probed),
        StrongerContract(a.contract, b.contract),
        a.dataplane || b.dataplane,
        StrongerShape(a.shape, b.shape),
        a.behaviour || b.behaviour,
        a.negative || b.negative)
  }

  function JoinOperations(a: map<string, Row>, b: map<string, Row>): map<string, Row> {
    map op | op in a.Keys + b.Keys ::
      if op !in b then a[op] else if op !in a then b[op] else JoinRow(a[op], b[op])
  }

  /** The stronger verdict of each two, word by word, and either leg's yes. A word that
      is neither of the two that rank is the first leg's. */
  ghost predicate KeepsTheStronger(a: Row, b: Row, j: Row) {
    && (j.probed == Response <==> a.probed == Response || b.probed == Response)
    && (j.probed == Refusal <==> j.probed != Response && (a.probed == Refusal || b.probed == Refusal))
    && (j.probed != Response && j.probed != Refusal ==> j.probed == a.probed)
    && (j.contract == Violating <==> a.contract == Violating || b.contract == Violating)
    && (j.contract == Clean <==> j.contract != Violating && (a.contract == Clean || b.contract == Clean))
    && (j.contract != Violating && j.contract != Clean ==> j.contract == a.contract)
    && (j.shape == Observed <==> a.shape == Observed || b.shape == Observed)
    && (j.shape == Unobserved <==> j.shape != Observed && (a.shape == Unobserved || b.shape == Unobserved))
    && (j.shape != Observed && j.shape != Unobserved ==> j.shape == a.shape)
    && (j.driven <==> a.driven || b.driven) && (j.dataplane <==> a.dataplane || b.dataplane)
    && (j.behaviour <==> a.behaviour || b.behaviour) && (j.negative <==> a.negative || b.negative)
  }

  lemma JoinKeepsTheStronger(a: Row, b: Row)
    ensures KeepsTheStronger(a, b, JoinRow(a, b))
  {
  }

  /** What the joined record holds of each operation. */
  ghost predicate JoinsEach(a: map<string, Row>, b: map<string, Row>, j: map<string, Row>) {
    && (forall op :: op in j <==> op in a || op in b)
    && (forall op :: op in a && op !in b ==> j[op] == a[op])
    && (forall op :: op in b && op !in a ==> j[op] == b[op])
    && (forall op :: op in a && op in b ==> KeepsTheStronger(a[op], b[op], j[op]))
  }

  lemma JoinMeans(a: map<string, Row>, b: map<string, Row>)
    ensures JoinsEach(a, b, JoinOperations(a, b))
  {
    forall op | op in a && op in b ensures KeepsTheStronger(a[op], b[op], JoinRow(a[op], b[op])) {
      JoinKeepsTheStronger(a[op], b[op]);
    }
  }

  ghost predicate IsJoin(a: Artefact, b: Artefact, j: Artefact) {
    && IsListing(j.machines, Elements(a.machines) + Elements(b.machines))
    && j.madeFrom == a.madeFrom
    && j.operations == JoinOperations(a.operations, b.operations)
  }

  method JoinEvidence(a: Artefact, b: Artefact) returns (j: Artefact)
    ensures IsJoin(a, b, j)
    ensures JoinsEach(a.operations, b.operations, j.operations)
  {
    JoinMeans(a.operations, b.operations);
    var both := a.machines + b.machines;
    var machines: set<string> := {};
    for i := 0 to |both|
      invariant machines == Elements(both[..i])
    {
      assert both[..i + 1] == both[..i] + [both[i]];
      machines := machines + {both[i]};
    }
    assert both[..|both|] == both;
    assert machines == Elements(a.machines) + Elements(b.machines);
    var names := SortedKeys(machines);

    var ops := a.operations;
    var left := b.operations.Keys;
    while left != {}
      invariant left <= b.operations.Keys
      invariant ops.Keys == a.operations.Keys + (b.operations.Keys - left)
      invariant forall op :: op in ops ==>
                  ops[op] == if op in b.operations && op !in left
                             then JoinOperations(a.operations, b.operations)[op] else a.operations[op]
    {
      var op :| op in left;
      left := left - {op};
      var other := b.operations[op];
      if op !in ops {
        ops := ops[op := other];
      } else {
        ops := ops[op := JoinRow(ops[op], other)];
      }
    }
    j := Artefact(names, a.madeFrom, ops);
  }

  /** sortedKeys: a set walked in no particular order, then sorted. */
  method SortedKeys(s: set<string>) returns (out: seq<string>)
    ensures IsListing(out, s)
  {
    out := [];
    var left := s;
    while left != {}
      invariant left <= s
      invariant Distinct(out) && Elements(out) == s - left
    {
      var k :| k in left;
      left := left - {k};
      assert k !in Elements(out);
      assert Elements(out + [k]) == Elements(out) + {k};
      out := out + [k];
    }
    SortIsListing(out);
    out := Sort(out, Le);
  }

  // ----- the algebra of joining -----

  /** On every row there is, joining commutes exactly when no verdict of the two
      ties in rank without being the same word. */
  lemma JoinCommutesExactlyWhenRanksTell(a: Row, b: Row)
    ensures JoinRow(a, b) == JoinRow(b, a)
       <==> && (a.probed == b.probed || ProbeRank(a.probed) != ProbeRank(b.probed))
            && (a.contract == b.contract || ContractRank(a.contract) != ContractRank(b.contract))
            && (a.shape == b.shape || ShapeRank(a.shape) != ShapeRank(b.shape))
  {
    assert JoinRow(a, b).probed == StrongerProbe(a.probed, b.probed);
  }

  /** Which holds of any two rows the reader accepts. */
  lemma JoinCommutes(a: map<string, Row>, b: map<string, Row>)
    requires ValidOperations(a) && ValidOperations(b)
    ensures JoinOperations(a, b) == JoinOperations(b, a)
  {
    forall op | op in a && op in b
      ensures JoinRow(a[op], b[op]) == JoinRow(b[op], a[op])
    {
      ValidRowsCommute(a[op], b[op]);
    }
  }

  /** So the order of the legs of accepted records can show in one place only,
      the digests the first of them carries: machines come out of a map, and no
      trace of that map's order is left. */
  lemma LegsJoinInEitherOrderExactlyWhen(a: Artefact, b: Artefact, j: Artefact, k: Artefact)
    requires ValidOperations(a.operations) && ValidOperations(b.operations)
    requires IsJoin(a, b, j) && IsJoin(b, a, k)
    ensures j == k <==> a.madeFrom == b.madeFrom
  {
    JoinCommutes(a.operations, b.operations);
    assert Elements(a.machines) + Elements(b.machines) == Elements(b.machines) + Elements(a.machines);
    ListingIsUnique(j.machines, k.machines, Elements(a.machines) + Elements(b.machines));
  }

  lemma ValidRowsCommute(a: Row, b: Row)
    requires ValidRow(a) && ValidRow(b)
    ensures JoinRow(a, b) == JoinRow(b, a)
  {
    JoinCommutesExactlyWhenRanksTell(a, b);
  }

  /** A value the reader refuses is what breaks it: a missing verdict and "none"
      tie, so each leg would keep its own. */
  lemma JoinDoesNotCommuteOnAMissingVerdict()
    ensures exists a, b :: JoinRow(a, b) != JoinRow(b, a)
  {
    var a := Row(false, NoProbe, Unchecked, false, Unknown, false, false);
    var b := a.(probed := Other(""));
    assert JoinRow(a, b).probed != JoinRow(b, a).probed;
  }

  lemma StrongerAssociate(a: Row, b: Row, c: Row)
    ensures JoinRow(JoinRow(a, b), c) == JoinRow(a, JoinRow(b, c))
  {
    assert StrongerProbe(StrongerProbe(a.probed, b.probed), c.probed)
             == StrongerProbe(a.probed, StrongerProbe(b.probed, c.probed));
    assert StrongerContract(StrongerContract(a.contract, b.contract), c.contract)
             == StrongerContract(a.contract, StrongerContract(b.contract, c.contract));
    assert StrongerShape(StrongerShape(a.shape, b.shape), c.shape)
             == StrongerShape(a.shape, StrongerShape(b.shape, c.shape));
  }

  lemma JoinedAt(a: map<string, Row>, b: map<string, Row>, op: string)
    requires op in a || op in b
    ensures op in JoinOperations(a, b)
    ensures JoinOperations(a, b)[op] == if op !in b then a[op] else if op !in a then b[op] else JoinRow(a[op], b[op])
  {
  }

  lemma JoinedEitherWay(a: map<string, Row>, b: map<string, Row>, c: map<string, Row>, op: string)
    requires op in a || op in b || op in c
    ensures JoinOperations(JoinOperations(a, b), c)[op] == JoinOperations(a, JoinOperations(b, c))[op]
  {
    if op in a && op in b && op in c { StrongerAssociate(a[op], b[op], c[op]); }
    if op in a || op in b { JoinedAt(a, b, op); }
    if op in b || op in c { JoinedAt(b, c, op); }
    JoinedAt(JoinOperations(a, b), c, op);
    JoinedAt(a, JoinOperations(b, c), op);
  }

  lemma JoinAssociates(a: map<string, Row>, b: map<string, Row>, c: map<string, Row>)
    ensures JoinOperations(JoinOperations(a, b), c) == JoinOperations(a, JoinOperations(b, c))
    ensures JoinOperations(a, a) == a
  {
    var left, right := JoinOperations(JoinOperations(a, b), c), JoinOperations(a, JoinOperations(b, c));
    assert left.Keys == right.Keys;
    forall op | op in left
      ensures left[op] == right[op]
    {
      JoinedEitherWay(a, b, c, op);
    }
  }

  lemma JoinKeepsTheVocabulary(a: map<string, Row>, b: map<string, Row>)
    requires ValidOperations(a) && ValidOperations(b)
    ensures ValidOperations(JoinOperations(a, b))
  {
  }

  /** An axis of a joined row is earned exactly when one leg earned it, except
      `contract`, which also asks that neither leg violated it. */
  lemma JoinEarns(x: Axis, a: Row, b: Row)
    ensures x != Contract ==> (Earned(x, JoinRow(a, b)) <==> Earned(x, a) || Earned(x, b))
    ensures Earned(Contract, JoinRow(a, b)) <==>
              (Earned(Contract, a) || Earned(Contract, b)) && a.contract != Violating && b.contract != Violating
  {
  }

  // ----- what a write demotes -----

  /** The operations `was` had earned on an axis and `now` has not. */
  ghost function Lost(x: Axis, was: map<string, Row>, now: map<string, Row>): set<string> {
    set op | op in was && Earned(x, was[op]) && !(op in now && Earned(x, now[op]))
  }

  /** axesLost: the axes that lose something, each with its operations in order.
      `existing` is the record on disk, when it could be read. */
  method AxesLost(existing: Option<Artefact>, next: Artefact) returns (lost: map<Axis, seq<string>>)
    ensures existing == None ==> lost == map[]
    ensures existing.Some? ==> forall x :: x in lost <==> Lost(x, existing.value.operations, next.operations) != {}
    ensures existing.Some? ==> forall x :: x in lost ==>
              IsListing(lost[x], Lost(x, existing.value.operations, next.operations))
  {
    lost := map[];
    if existing == None { return; }
    var was := existing.value.operations;
    for i := 0 to |AXES|
      invariant forall x :: x in lost <==> x in AXES[..i] && Lost(x, was, next.operations) != {}
      invariant forall x :: x in lost ==> IsListing(lost[x], Lost(x, was, next.operations))
    {
      var x := AXES[i];
      var ops := LostOn(x, was, next.operations);
      assert AXES[..i + 1] == AXES[..i] + [x];
      if ops != [] {
        assert ops[0] in Elements(ops);
        lost := lost[x := ops];
      }
    }
    assert AXES[..|AXES|] == AXES;
    forall x ensures x in AXES { EveryAxisIsListed(x); }
  }

  method LostOn(x: Axis, was: map<string, Row>, now: map<string, Row>) returns (ops: seq<string>)
    ensures IsListing(ops, Lost(x, was, now))
  {
    ops := [];
    var left := was.Keys;
    while left != {}
      invariant left <= was.Keys
      invariant Distinct(ops)
      invariant forall op :: op in ops <==> op in Lost(x, was, now) && op !in left
    {
      var op :| op in left;
      left := left - {op};
      if !Earned(x, was[op]) { continue; }
      if op in now && Earned(x, now[op]) { continue; }
      ops := ops + [op];
    }
    assert Elements(ops) == Lost(x, was, now);
    SortIsListing(ops);
    ops := Sort(ops, Le);
  }

  /** Joining a leg demotes nothing but `contract`, and there exactly the
      operations this leg holds clean and the other one violating. */
  lemma JoinLosesOnlyContract(x: Axis, a: map<string, Row>, b: map<string, Row>)
    ensures x != Contract ==> Lost(x, a, JoinOperations(a, b)) == {}
    ensures Lost(Contract, a, JoinOperations(a, b)) == set op | op in a && op in b && a[op].contract == Clean
              && b[op].contract == Violating
  {
    forall op | op in a && op in b
      ensures x != Contract ==> (Earned(x, JoinRow(a[op], b[op])) <==> Earned(x, a[op]) || Earned(x, b[op]))
    {
      JoinEarns(x, a[op], b[op]);
      JoinEarns(Contract, a[op], b[op]);
    }
  }

  // ----- the runtimes a record was earned under -----

  /** Every runtime of `was`, "none" aside, that `now` does not name, as often
      as `was` names it. */
  function Unreached(was: seq<string>, now: seq<string>): seq<string> {
    if was == [] then []
    else
      var m := was[|was| - 1];
      Unreached(was[..|was| - 1], now) + (if m == "none" || m in now then [] else [m])
  }

  /** runtimesLost, once both records are in hand. */
  method RuntimesLost(existing: Artefact, next: Artefact) returns (lost: seq<string>)
    ensures Sorted(lost, Le)
    ensures multiset(lost) == multiset(Unreached(existing.machines, next.machines))
  {
    var reached: set<string> := set m | m in next.machines;
    lost := [];
    for i := 0 to |existing.machines|
      invariant lost == Unreached(existing.machines[..i], next.machines)
    {
      var m := existing.machines[i];
      assert existing.machines[..i + 1][..i] == existing.machines[..i];
      if m == "none" || m in reached { continue; }
      lost := lost + [m];
    }
    assert existing.machines[..|existing.machines|] == existing.machines;
    StringsAreOrdered();
    SortSorted(lost, Le);
    lost := Sort(lost, Le);
  }

  /** A runtime not reached is named as often as it was; one reached, or no runtime
      at all, is not named. */
  ghost predicate NamedAsOften(lost: seq<string>, was: seq<string>, now: seq<string>, m: string) {
    multiset(lost)[m] == if m == "none" || m in now then 0 else multiset(was)[m]
  }

  lemma CountOfOneMore(xs: seq<string>, x: string, m: string)
    ensures multiset(xs + [x])[m] == multiset(xs)[m] + (if x == m then 1 else 0)
  {
  }

  lemma NamedOneMore(lost: seq<string>, was: seq<string>, now: seq<string>, x: string, m: string)
    requires NamedAsOften(lost, was, now, m)
    ensures NamedAsOften(if x == "none" || x in now then lost else lost + [x], was + [x], now, m)
  {
    CountOfOneMore(was, x, m);
    CountOfOneMore(lost, x, m);
  }

  lemma {:induction false} UnreachedMeans(was: seq<string>, now: seq<string>, m: string)
    ensures NamedAsOften(Unreached(was, now), was, now, m)
  {
    if was == [] {
    } else {
      var n := |was| - 1;
      UnreachedMeans(was[..n], now, m);
      NamedOneMore(Unreached(was[..n], now), was[..n], now, was[n], m);
      assert was == was[..n] + [was[n]];
      assert Unreached(was[..n], now) + [] == Unreached(was[..n], now);
    }
  }

  lemma {:induction false} AllReached(was: seq<string>, now: seq<string>)
    ensures Unreached(was, now) == [] <==> forall m :: m in was && m != "none" ==> m in now
  {
    if was == [] {
    } else {
      AllReached(was[..|was| - 1], now);
      assert was == was[..|was| - 1] + [was[|was| - 1]];
    }
  }

  /** So a joined record may always replace either of its legs. */
  lemma JoinLosesNoRuntime(a: Artefact, b: Artefact, j: Artefact)
    requires IsJoin(a, b, j)
    ensures Unreached(a.machines, j.machines) == [] == Unreached(b.machines, j.machines)
  {
    forall m | m in a.machines || m in b.machines
      ensures m in j.machines
    {
      assert m in Elements(j.machines);
    }
    AllReached(a.machines, j.machines);
    AllReached(b.machines, j.machines);
  }

  // ----- the shape column -----

  function Reshaped(ops: map<string, Row>, covered: set<string>): map<string, Row> {
    map op | op in ops :: ops[op].(shape := if op in covered then Observed else Unobserved)
  }

  /** Every operation is kept, and of its row the shape alone is written: observed or
      not, by whether the catalogue covers it. */
  lemma ReshapedMeans(ops: map<string, Row>, covered: set<string>, op: string)
    ensures var next := Reshaped(ops, covered);
      && (op in next <==> op in ops)
      && (op in ops ==> next[op].shape in {Observed, Unobserved})
      && (op in ops ==> (next[op].shape == Observed <==> op in covered))
      && (op in ops ==> forall s :: next[op].(shape := s) == ops[op].(shape := s))
  {
  }

  ghost function ObservedIn(ops: map<string, Row>): set<string> {
    set op | op in ops && ops[op].shape == Observed
  }

  /** What reading the catalogues comes to: an error, no catalogue at all, or the
      operations they cover. */
  datatype Catalogues = Unreadable | Missing | Covering(operations: set<string>)

  datatype ReshapeError =
    | NoDirectory
    | NoRecord
    | NoProvenance
    | InputsMoved(contracts: bool, suites: bool)
    | BadCatalogue
    | NoCatalogue

  /** Other inputs than the catalogues are not what the record was made from. */
  predicate Moved(art: Artefact, now: Digests) {
    now.contracts != art.madeFrom.contracts || now.suites != art.madeFrom.suites
  }

  /** reshapeEvidence: `directory` says that one was given, `record` and `now`
      what could be read of the record and of the inputs on disk. */
  method Reshape(directory: bool, record: Option<Artefact>, now: Option<Digests>, catalogues: Catalogues)
    returns (r: Result<(Artefact, nat, nat), ReshapeError>)
    ensures r == Err(NoDirectory) <==> !directory
    ensures r == Err(NoRecord) <==> directory && record == None
    ensures r == Err(NoProvenance) <==> directory && record.Some? && now == None
    ensures directory && record.Some? && now.Some? ==>
              var art := record.value;
              && (Moved(art, now.value) <==>
                    r == Err(InputsMoved(now.value.contracts != art.madeFrom.contracts,
                                         now.value.suites != art.madeFrom.suites)))
              && (r == Err(BadCatalogue) <==> !Moved(art, now.value) && catalogues == Unreadable)
              && (r == Err(NoCatalogue) <==> !Moved(art, now.value) && catalogues == Missing)
              && (r.Ok? <==> !Moved(art, now.value) && catalogues.Covering?)
              && (r.Ok? ==> var (next, was, count) := r.value;
                    && next == Artefact(art.machines, now.value, Reshaped(art.operations, catalogues.operations))
                    && was == |ObservedIn(art.operations)|
                    && count == |ObservedIn(next.operations)|)
  {
    if !directory { return Err(NoDirectory); }
    if record == None { return Err(NoRecord); }
    if now == None { return Err(NoProvenance); }
    var art := record.value;
    var contracts, suites := now.value.contracts != art.madeFrom.contracts, now.value.suites != art.madeFrom.suites;
    if contracts || suites { return Err(InputsMoved(contracts, suites)); }
    if catalogues == Unreadable { return Err(BadCatalogue); }
    if catalogues == Missing { return Err(NoCatalogue); }
    var ops, was, count := ReshapeColumn(art.operations, catalogues.operations);
    r := Ok((art.(madeFrom := art.madeFrom.(shapes := now.value.shapes), operations := ops), was, count));
  }

  method ReshapeColumn(rows: map<string, Row>, covered: set<string>)
    returns (ops: map<string, Row>, was: nat, count: nat)
    ensures ops == Reshaped(rows, covered)
    ensures was == |ObservedIn(rows)| && count == |ObservedIn(ops)|
  {
    was, count := 0, 0;
    ops := rows;
    var left := rows.Keys;
    ReshapeBegins(rows, covered);
    while left != {}
      invariant PartlyReshaped(rows, covered, left, ops)
      invariant Counted(rows, covered, left, was, count)
    {
      var op :| op in left;
      ReshapeOne(rows, covered, left, op, ops);
      CountOne(rows, covered, left, op, was, count);
      left := left - {op};
      var row := ops[op];
      if row.shape == Observed {
        was := was + 1;
      }
      row := row.(shape := Unobserved);
      if op in covered {
        row := row.(shape := Observed);
        count := count + 1;
      }
      assert row == rows[op].(shape := if op in covered then Observed else Unobserved);
      ops := ops[op := row];
    }
    AllReshaped(rows, covered, ops, was, count);
  }

  /** The column rewritten everywhere but on the operations left. */
  ghost predicate PartlyReshaped(rows: map<string, Row>, covered: set<string>, left: set<string>,
                                 ops: map<string, Row>)
  {
    && left <= rows.Keys == ops.Keys
    && forall op :: op in ops ==> ops[op] == if op in left then rows[op] else Reshaped(rows, covered)[op]
  }

  lemma ReshapeOne(rows: map<string, Row>, covered: set<string>, left: set<string>, op: string, ops: map<string, Row>)
    requires op in left && PartlyReshaped(rows, covered, left, ops)
    ensures op in rows && op in ops && ops[op] == rows[op]
    ensures var shape := if op in covered then Observed else Unobserved;
            PartlyReshaped(rows, covered, left - {op}, ops[op := rows[op].(shape := shape)])
  {
  }

  /** What was observed, and what the catalogue covers, counted but for those left. */
  ghost predicate Counted(rows: map<string, Row>, covered: set<string>, left: set<string>, was: nat, count: nat) {
    was == |ObservedIn(rows) - left| && count == |(rows.Keys * covered) - left|
  }

  lemma ReshapeBegins(rows: map<string, Row>, covered: set<string>)
    ensures PartlyReshaped(rows, covered, rows.Keys, rows) && Counted(rows, covered, rows.Keys, 0, 0)
  {
    assert ObservedIn(rows) - rows.Keys == {} == (rows.Keys * covered) - rows.Keys;
  }

  lemma CountOne(rows: map<string, Row>, covered: set<string>, left: set<string>, op: string, was: nat, count: nat)
    requires op in left && op in rows && Counted(rows, covered, left, was, count)
    ensures Counted(rows, covered, left - {op},
                    if rows[op].shape == Observed then was + 1 else was, if op in covered then count + 1 else count)
  {
    OneFewer(ObservedIn(rows), left, op);
    OneFewer(rows.Keys * covered, left, op);
  }

  lemma NothingIsLeft(rows: map<string, Row>, covered: set<string>, ops: map<string, Row>)
    requires PartlyReshaped(rows, covered, {}, ops)
    ensures ops == Reshaped(rows, covered)
  {
    var all := Reshaped(rows, covered);
    assert ops.Keys == all.Keys;
    forall op | op in ops ensures ops[op] == all[op] {}
  }

  lemma AllReshaped(rows: map<string, Row>, covered: set<string>, ops: map<string, Row>, was: nat, count: nat)
    requires PartlyReshaped(rows, covered, {}, ops) && Counted(rows, covered, {}, was, count)
    ensures ops == Reshaped(rows, covered)
    ensures was == |ObservedIn(rows)| && count == |ObservedIn(ops)|
  {
    NothingIsLeft(rows, covered, ops);
    assert ObservedIn(rows) - {} == ObservedIn(rows);
    assert ObservedIn(ops) == rows.Keys * covered == (rows.Keys * covered) - {};
  }

  lemma OneFewer(all: set<string>, left: set<string>, op: string)
    requires op in left
    ensures |all - (left - {op})| == |all - left| + (if op in all then 1 else 0)
  {
    assert all - (left - {op}) == (all - left) + (if op in all then {op} else {});
  }

  /** The rewrite demotes on `shape` alone, exactly what the catalogue no longer
      covers, raises exactly what it now covers, and doing it again changes
      nothing. */
  lemma ReshapeMovesOnlyShape(ops: map<string, Row>, covered: set<string>)
    ensures forall x :: x != Shape ==>
              Lost(x, ops, Reshaped(ops, covered)) == {} == Lost(x, Reshaped(ops, covered), ops)
    ensures Lost(Shape, ops, Reshaped(ops, covered)) == ObservedIn(ops) - covered
    ensures Lost(Shape, Reshaped(ops, covered), ops) == (covered * ops.Keys) - ObservedIn(ops)
    ensures Reshaped(Reshaped(ops, covered), covered) == Reshaped(ops, covered)
  {
    var next := Reshaped(ops, covered);
    forall x, op | x != Shape && op in ops
      ensures Earned(x, ops[op]) == Earned(x, next[op])
    {
    }
  }
}
