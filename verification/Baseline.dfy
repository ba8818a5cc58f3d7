/** The level of proof a consumer pins, and the check that it is still
    delivered: `feint evidence baseline` and `feint evidence verify`. */
module Baseline {
  import opened Wrappers
  import opened Text
  import opened Ordering
  import opened Evidence

  /** What one axis of a row holds, a boolean or a verdict. */
  datatype AxisValue = Flag(b: bool) | Verdict(w: Word)

  function ValueOf(x: Axis, r: Row): AxisValue {
    match x
    case Driven => Flag(r.driven)
    case Probed => Verdict(r.probed)
    case Contract => Verdict(r.contract)
    case Dataplane => Flag(r.dataplane)
    case Shape => Verdict(r.shape)
    case Behaviour => Flag(r.behaviour)
    case Negative => Flag(r.negative)
  }

  predicate ProvesSomething(v: AxisValue) {
    match v
    case Flag(b) => b
    case Verdict(w) => w !in {Other(""), NoProbe, Unchecked, Unobserved, Unknown}
  }

  predicate ProbeVerdict(w: Word) { w == Response || w == Refusal }

  /** Two values that print alike: a boolean prints as a word of its own. */
  predicate PrintAlike(a: AxisValue, b: AxisValue) {
    match (a, b)
    case (Flag(f), Verdict(Other(raw))) => raw == if f then "true" else "false"
    case (Verdict(Other(raw)), Flag(f)) => raw == if f then "true" else "false"
    case _ => a == b
  }

  /** A verdict as the record spells it. */
  function Spelled(w: Word): string {
    match w
    case Response => "response"
    case Refusal => "refusal"
    case NoProbe => "none"
    case Clean => "clean"
    case Violating => "violating"
    case Unchecked => "unchecked"
    case Observed => "observed"
    case Unobserved => "unobserved"
    case Unknown => "unknown"
    case Other(raw) => raw
  }

  /** A value as it is printed. */
  function Printed(v: AxisValue): string {
    match v
    case Flag(b) => if b then "true" else "false"
    case Verdict(w) => Spelled(w)
  }

  const WORDS: seq<Word> := [Response, Refusal, NoProbe, Clean, Violating, Unchecked, Observed, Unobserved, Unknown]

  /** `Other` holds none of the nine words. */
  ghost predicate IsSpelledOnce(v: AxisValue) {
    v.Verdict? && v.w.Other? ==> forall i :: 0 <= i < |WORDS| ==> v.w.raw != Spelled(WORDS[i])
  }

  /** The length and the first letter tell the eleven words apart. */
  lemma WordsAreTold(v: AxisValue)
    requires v.Verdict? ==> !v.w.Other?
    ensures var s := Printed(v); s != "" && (|s|, s[0]) == match v
      case Flag(b) => if b then (4, 't') else (5, 'f')
      case Verdict(Response) => (8, 'r') case Verdict(Refusal) => (7, 'r') case Verdict(NoProbe) => (4, 'n')
      case Verdict(Clean) => (5, 'c') case Verdict(Violating) => (9, 'v') case Verdict(Unchecked) => (9, 'u')
      case Verdict(Observed) => (8, 'o') case Verdict(Unobserved) => (10, 'u') case Verdict(Unknown) => (7, 'u')
      case Verdict(Other(_)) => (0, ' ')
  {
  }

  lemma NotAWord(v: AxisValue, w: Word)
    requires IsSpelledOnce(v) && v.Verdict? && v.w.Other? && !w.Other?
    ensures v.w.raw != Spelled(w)
  {
    match w
    case Response => assert WORDS[0] == w;
    case Refusal => assert WORDS[1] == w;
    case NoProbe => assert WORDS[2] == w;
    case Clean => assert WORDS[3] == w;
    case Violating => assert WORDS[4] == w;
    case Unchecked => assert WORDS[5] == w;
    case Observed => assert WORDS[6] == w;
    case Unobserved => assert WORDS[7] == w;
    case Unknown => assert WORDS[8] == w;
  }

  /** Values are compared as they print, and a verdict proves something unless it is
      empty or one of the four words for nothing. */
  lemma ValuesArePrinted(a: AxisValue, b: AxisValue)
    requires IsSpelledOnce(a) && IsSpelledOnce(b)
    ensures PrintAlike(a, b) <==> Printed(a) == Printed(b)
    ensures a.Verdict? ==>
              (ProvesSomething(a) <==> Printed(a) !in {"", "none", "unchecked", "unobserved", "unknown"})
  {
    if !(a.Verdict? && a.w.Other?) { WordsAreTold(a); }
    if !(b.Verdict? && b.w.Other?) { WordsAreTold(b); }
    if a.Verdict? && a.w.Other? && b.Verdict? && !b.w.Other? { NotAWord(a, b.w); }
    if b.Verdict? && b.w.Other? && a.Verdict? && !a.w.Other? { NotAWord(b, a.w); }
    if a.Verdict? && a.w.Other? {
      NotAWord(a, NoProbe);
      NotAWord(a, Unchecked);
      NotAWord(a, Unobserved);
      NotAWord(a, Unknown);
    }
  }

  predicate Satisfies(x: Axis, pinned: AxisValue, current: AxisValue) {
    if x == Probed then
      pinned.Verdict? && current.Verdict? &&
      if ProbeVerdict(pinned.w) then ProbeVerdict(current.w) else pinned.w == current.w
    else PrintAlike(pinned, current)
  }

  /** A pinned level is delivered by a value that prints alike; but on the probe's
      axis either of its two verdicts stands for the other, and a boolean for none. */
  lemma SatisfiesMeans(x: Axis, pinned: AxisValue, current: AxisValue)
    requires IsSpelledOnce(pinned) && IsSpelledOnce(current)
    ensures x != Probed ==> (Satisfies(x, pinned, current) <==> Printed(pinned) == Printed(current))
    ensures x == Probed ==>
              (Satisfies(x, pinned, current) <==>
                 && pinned.Verdict? && current.Verdict?
                 && (pinned.w == current.w || (pinned.w in {Response, Refusal} && current.w in {Response, Refusal})))
  {
    ValuesArePrinted(pinned, current);
  }

  type Pins = map<string, map<Axis, AxisValue>>

  // ----- capture -----

  function PinnedRow(r: Row, wanted: set<Axis>): map<Axis, AxisValue> {
    map x | x in wanted && ProvesSomething(ValueOf(x, r)) :: ValueOf(x, r)
  }

  function Captured(ops: map<string, Row>, wanted: set<Axis>): Pins {
    map op | op in ops && PinnedRow(ops[op], wanted) != map[] :: PinnedRow(ops[op], wanted)
  }

  /** What is pinned: of each operation that proves something on an axis asked for,
      what those axes hold, and nothing of any other operation. */
  lemma CapturedMeans(ops: map<string, Row>, wanted: set<Axis>, op: string, x: Axis)
    ensures var pins := Captured(ops, wanted);
      && (op in pins <==> op in ops && exists y :: y in wanted && ProvesSomething(ValueOf(y, ops[op])))
      && (op in pins ==> (x in pins[op] <==> x in wanted && ProvesSomething(ValueOf(x, ops[op]))))
      && (op in pins && x in pins[op] ==> pins[op][x] == ValueOf(x, ops[op]))
  {
    if op in ops {
      if y :| y in wanted && ProvesSomething(ValueOf(y, ops[op])) {
        assert y in PinnedRow(ops[op], wanted);
      }
    }
  }

  datatype CaptureError = NoRuntime | NoAxis

  method ReachesARuntime(machines: seq<string>) returns (yes: bool)
    ensures yes <==> exists m :: m in machines && m != "" && m != "none"
  {
    for i := 0 to |machines|
      invariant forall j :: 0 <= j < i ==> machines[j] == "" || machines[j] == "none"
    {
      assert machines[i] in machines;
      if machines[i] != "" && machines[i] != "none" { return true; }
    }
    return false;
  }

  /** evidenceCapture, once the record is read and the axes are parsed. */
  method Capture(art: Artefact, wanted: set<Axis>) returns (r: Result<Pins, CaptureError>)
    ensures r == Err(NoRuntime) <==> forall m :: m in art.machines ==> m == "" || m == "none"
    ensures r == Err(NoAxis) ==> wanted == {}
    ensures r.Ok? ==> wanted != {} && r.value == Captured(art.operations, wanted)
  {
    var reaches := ReachesARuntime(art.machines);
    if !reaches { return Err(NoRuntime); }
    if wanted == {} { return Err(NoAxis); }
    var pins: Pins := map[];
    var left := art.operations.Keys;
    while left != {}
      invariant left <= art.operations.Keys
      invariant forall op :: op in pins <==> op in Captured(art.operations, wanted) && op !in left
      invariant forall op :: op in pins ==> pins[op] == PinnedRow(art.operations[op], wanted)
    {
      var op :| op in left;
      left := left - {op};
      var pinned := PinRow(art.operations[op], wanted);
      if pinned != map[] {
        pins := pins[op := pinned];
      }
    }
    r := Ok(pins);
  }

  method PinRow(row: Row, wanted: set<Axis>) returns (pinned: map<Axis, AxisValue>)
    ensures pinned == PinnedRow(row, wanted)
  {
    pinned := map[];
    for i := 0 to |AXES|
      invariant forall x :: x in pinned <==> x in AXES[..i] && x in PinnedRow(row, wanted)
      invariant forall x :: x in pinned ==> pinned[x] == ValueOf(x, row)
    {
      var x := AXES[i];
      assert AXES[..i + 1] == AXES[..i] + [x];
      if x in wanted && ProvesSomething(ValueOf(x, row)) {
        pinned := pinned[x := ValueOf(x, row)];
      }
    }
    assert AXES[..|AXES|] == AXES;
    forall x ensures x in AXES { EveryAxisIsListed(x); }
  }

  // ----- verify -----

  datatype Withdrawal = Withdrawal(operation: string, axis: Axis, reason: string)

  datatype Fall = Fall(operation: string, axis: Axis, was: AxisValue, now: Option<AxisValue>, reason: string)

  predicate Delivered(op: string, x: Axis, want: AxisValue, ops: map<string, Row>) {
    op in ops && Satisfies(x, want, ValueOf(x, ops[op]))
  }

  /** The pinned levels a record no longer delivers. */
  ghost function Fallen(pins: Pins, ops: map<string, Row>): set<(string, Axis)> {
    set op, x | op in pins && x in pins[op] && !Delivered(op, x, pins[op][x], ops) :: (op, x)
  }

  ghost function PairsOf(falls: seq<Fall>): set<(string, Axis)> {
    set f | f in falls :: (f.operation, f.axis)
  }

  /** A fall prints the pinned value and what the record holds now; an operation
      that is gone has nothing to print. */
  predicate Says(f: Fall, pins: Pins, ops: map<string, Row>) {
    && f.operation in pins && f.axis in pins[f.operation]
    && f.was == pins[f.operation][f.axis]
    && f.now == if f.operation in ops then Some(ValueOf(f.axis, ops[f.operation])) else None
  }

  ghost predicate BlankReason(accepted: seq<Withdrawal>) {
    exists w :: w in accepted && TrimSpace(w.reason) == ""
  }

  /** One of the reasons holds nothing but white bytes. */
  lemma BlankReasonMeans(accepted: seq<Withdrawal>)
    ensures BlankReason(accepted) <==> exists w :: w in accepted && AllSpace(w.reason)
  {
    forall w | w in accepted ensures TrimSpace(w.reason) == "" <==> AllSpace(w.reason) { BlankIsSpace(w.reason); }
  }

  ghost function Forgiven(accepted: seq<Withdrawal>): set<(string, Axis)> {
    set w | w in accepted :: (w.operation, w.axis)
  }

  /** The reason written last for this operation and axis. */
  ghost predicate LastReason(accepted: seq<Withdrawal>, k: (string, Axis), reason: string) {
    exists i :: 0 <= i < |accepted| && LastAt(accepted, k, i) && accepted[i].reason == reason
  }

  ghost predicate LastAt(accepted: seq<Withdrawal>, k: (string, Axis), i: nat)
    requires i < |accepted|
  {
    && (accepted[i].operation, accepted[i].axis) == k
    && forall j :: i < j < |accepted| ==> (accepted[j].operation, accepted[j].axis) != k
  }

  lemma LastReasonOfOneMore(accepted: seq<Withdrawal>, w: Withdrawal, k: (string, Axis), reason: string)
    requires if (w.operation, w.axis) == k then w.reason == reason else LastReason(accepted, k, reason)
    ensures LastReason(accepted + [w], k, reason)
  {
    var more := accepted + [w];
    if (w.operation, w.axis) == k {
      assert LastAt(more, k, |accepted|);
    } else {
      var i :| 0 <= i < |accepted| && LastAt(accepted, k, i) && accepted[i].reason == reason;
      assert LastAt(more, k, i) && more[i].reason == reason;
    }
  }

  ghost predicate AreLast(reasons: map<(string, Axis), string>, accepted: seq<Withdrawal>) {
    forall k :: k in reasons ==> LastReason(accepted, k, reasons[k])
  }

  lemma LastOfOneMore(reasons: map<(string, Axis), string>, accepted: seq<Withdrawal>, w: Withdrawal)
    requires AreLast(reasons, accepted)
    ensures AreLast(reasons[(w.operation, w.axis) := w.reason], accepted + [w])
  {
    var now := reasons[(w.operation, w.axis) := w.reason];
    forall k | k in now
      ensures LastReason(accepted + [w], k, now[k])
    {
      LastReasonOfOneMore(accepted, w, k, now[k]);
    }
  }

  method ReadAccepted(accepted: seq<Withdrawal>) returns (r: Result<map<(string, Axis), string>, Withdrawal>)
    ensures r.Err? <==> BlankReason(accepted)
    ensures r.Ok? ==> r.value.Keys == Forgiven(accepted) && forall k :: k in r.value ==> r.value[k] != ""
    ensures r.Ok? ==> AreLast(r.value, accepted)
  {
    var reasons: map<(string, Axis), string> := map[];
    for i := 0 to |accepted|
      invariant Gathered(reasons, accepted[..i])
      invariant AreLast(reasons, accepted[..i])
    {
      var w := accepted[i];
      AcceptOne(accepted, i, reasons);
      LastOfOneMore(reasons, accepted[..i], w);
      assert accepted[..i + 1] == accepted[..i] + [w];
      if TrimSpace(w.reason) == "" { return Err(w); }
      reasons := reasons[(w.operation, w.axis) := w.reason];
    }
    assert accepted[..|accepted|] == accepted;
    r := Ok(reasons);
  }

  /** A reason for each of them, none of them blank. */
  ghost predicate Gathered(reasons: map<(string, Axis), string>, accepted: seq<Withdrawal>) {
    && !BlankReason(accepted)
    && reasons.Keys == Forgiven(accepted) && NoneEmpty(reasons)
  }

  ghost predicate NoneEmpty(reasons: map<(string, Axis), string>) {
    forall k :: k in reasons ==> reasons[k] != ""
  }

  lemma AcceptOne(accepted: seq<Withdrawal>, i: nat, reasons: map<(string, Axis), string>)
    requires i < |accepted| && Gathered(reasons, accepted[..i])
    ensures var w := accepted[i];
            if TrimSpace(w.reason) == "" then BlankReason(accepted)
            else Gathered(reasons[(w.operation, w.axis) := w.reason], accepted[..i + 1])
  {
    OneMoreAccepted(accepted, i);
    var w := accepted[i];
    if TrimSpace(w.reason) != "" { ReasonAdded(reasons, (w.operation, w.axis), w.reason); }
  }

  lemma ReasonAdded(reasons: map<(string, Axis), string>, k: (string, Axis), reason: string)
    requires NoneEmpty(reasons) && reason != ""
    ensures reasons[k := reason].Keys == reasons.Keys + {k}
    ensures NoneEmpty(reasons[k := reason])
  {
  }

  lemma OneMoreAccepted(accepted: seq<Withdrawal>, i: nat)
    requires i < |accepted|
    ensures Forgiven(accepted[..i + 1]) == Forgiven(accepted[..i]) + {(accepted[i].operation, accepted[i].axis)}
    ensures var blank := TrimSpace(accepted[i].reason) == "";
            && (BlankReason(accepted[..i + 1]) <==> BlankReason(accepted[..i]) || blank)
            && (blank ==> BlankReason(accepted))
            && (!blank ==> accepted[i].reason != "")
  {
    var w := accepted[i];
    assert accepted[..i + 1] == accepted[..i] + [w];
    assert w in accepted && w in accepted[..i + 1];
    forall v ensures v in accepted[..i + 1] <==> v in accepted[..i] || v == w {}
  }

  ghost function FallenRow(op: string, pinned: map<Axis, AxisValue>, ops: map<string, Row>): set<Axis> {
    set x | x in pinned && !Delivered(op, x, pinned[x], ops)
  }

  ghost function AxesOf(falls: seq<Fall>): set<Axis> {
    set f | f in falls :: f.axis
  }

  function MakeFall(op: string, x: Axis, want: AxisValue, ops: map<string, Row>,
                    reasons: map<(string, Axis), string>): Fall
  {
    Fall(op, x, want, if op in ops then Some(ValueOf(x, ops[op])) else None,
         if (op, x) in reasons then reasons[(op, x)] else "")
  }

  /** What one operation lost, axis by axis, split by whether somebody wrote the
      withdrawal down. */
  method HoldOperation(op: string, pinned: map<Axis, AxisValue>, ops: map<string, Row>,
                       reasons: map<(string, Axis), string>)
    returns (regressions: seq<Fall>, withdrawals: seq<Fall>)
    requires forall k :: k in reasons ==> reasons[k] != ""
    ensures AxesOf(regressions) == set x | x in FallenRow(op, pinned, ops) && (op, x) !in reasons
    ensures AxesOf(withdrawals) == set x | x in FallenRow(op, pinned, ops) && (op, x) in reasons
    ensures forall f :: f in regressions || f in withdrawals ==>
              f.axis in pinned && f == MakeFall(op, f.axis, pinned[f.axis], ops, reasons)
    ensures Explained(regressions, withdrawals, reasons)
    ensures InOrder(regressions) && InOrder(withdrawals)
  {
    regressions, withdrawals := [], [];
    for i := 0 to |AXES|
      invariant Explained(regressions, withdrawals, reasons)
      invariant InOrder(regressions) && forall f :: f in regressions ==> f.operation == op && Column(f.axis) < i
      invariant InOrder(withdrawals) && forall f :: f in withdrawals ==> f.operation == op && Column(f.axis) < i
      invariant forall x :: x in AxesOf(regressions) <==>
                  x in FallenRow(op, pinned, ops) && x in AXES[..i] && (op, x) !in reasons
      invariant forall x :: x in AxesOf(withdrawals) <==>
                  x in FallenRow(op, pinned, ops) && x in AXES[..i] && (op, x) in reasons
      invariant forall f :: f in regressions || f in withdrawals ==>
                  f.axis in pinned && f == MakeFall(op, f.axis, pinned[f.axis], ops, reasons)
    {
      var x := AXES[i];
      assert AXES[..i + 1] == AXES[..i] + [x];
      assert Column(x) == i;
      if x !in pinned || Delivered(op, x, pinned[x], ops) { continue; }
      var f := MakeFall(op, x, pinned[x], ops, reasons);
      if f.reason != "" {
        AxesGrow(withdrawals, f);
        OneMoreInOrder(withdrawals, f);
        withdrawals := withdrawals + [f];
      } else {
        AxesGrow(regressions, f);
        OneMoreInOrder(regressions, f);
        regressions := regressions + [f];
      }
    }
    assert AXES[..|AXES|] == AXES;
    forall x ensures x in AXES { EveryAxisIsListed(x); }
  }

  lemma AxesGrow(falls: seq<Fall>, f: Fall)
    ensures AxesOf(falls + [f]) == AxesOf(falls) + {f.axis}
  {
    assert forall g :: g in falls + [f] <==> g in falls || g == f;
    assert f in falls + [f];
  }

  lemma PairsOfOne(falls: seq<Fall>, op: string)
    requires forall f :: f in falls ==> f.operation == op
    ensures forall p :: p in PairsOf(falls) <==> p.0 == op && p.1 in AxesOf(falls)
  {
    forall p ensures p in PairsOf(falls) <==> p.0 == op && p.1 in AxesOf(falls) {
      if p.0 == op && p.1 in AxesOf(falls) {
        var f :| f in falls && f.axis == p.1;
        assert (f.operation, f.axis) == p;
      }
    }
  }

  lemma PairsAppend(a: seq<Fall>, b: seq<Fall>)
    ensures PairsOf(a + b) == PairsOf(a) + PairsOf(b)
  {
    assert forall g :: g in a + b <==> g in a || g in b;
  }

  /** evidenceVerify, on documents already read. */
  method Verify(pins: Pins, ops: map<string, Row>, accepted: seq<Withdrawal>)
    returns (r: Result<(seq<Fall>, seq<Fall>), Withdrawal>)
    ensures r.Err? <==> exists w :: w in accepted && AllSpace(w.reason)
    ensures r.Ok? ==> PairsOf(r.value.0) == Fallen(pins, ops) - Forgiven(accepted)
    ensures r.Ok? ==> PairsOf(r.value.1) == Fallen(pins, ops) * Forgiven(accepted)
    ensures r.Ok? ==> forall f :: f in r.value.0 || f in r.value.1 ==> Says(f, pins, ops)
    ensures r.Ok? ==> forall f :: f in r.value.0 ==> f.reason == ""
    ensures r.Ok? ==> forall f :: f in r.value.1 ==> LastReason(accepted, (f.operation, f.axis), f.reason)
    ensures r.Ok? ==> InOrder(r.value.0) && InOrder(r.value.1)
  {
    BlankReasonMeans(accepted);
    var read := ReadAccepted(accepted);
    if read.Err? { return Err(read.error); }
    var reasons := read.value;
    var operations := SortedKeys(pins.Keys);
    var regressions, withdrawals: seq<Fall> := [], [];
    for i := 0 to |operations|
      invariant Held(regressions, withdrawals, pins, ops, reasons, operations[..i])
      invariant Explained(regressions, withdrawals, reasons)
      invariant InOrder(regressions) && NamesOf(regressions) <= Elements(operations[..i])
      invariant InOrder(withdrawals) && NamesOf(withdrawals) <= Elements(operations[..i])
    {
      var op := operations[i];
      assert op in Elements(operations);
      var more, excused := HoldOperation(op, pins[op], ops, reasons);
      Follows(regressions, more, operations, i);
      Follows(withdrawals, excused, operations, i);
      ExplainedFurther(regressions, withdrawals, reasons, more, excused);
      HoldOne(regressions, withdrawals, pins, ops, reasons, operations, i, more, excused);
      regressions := regressions + more;
      withdrawals := withdrawals + excused;
    }
    assert operations[..|operations|] == operations;
    AllHeld(regressions, withdrawals, pins, ops, reasons, operations);
    r := Ok((regressions, withdrawals));
  }

  /** A regression has no reason, and a withdrawal the one on file. */
  ghost predicate Explained(regressions: seq<Fall>, withdrawals: seq<Fall>, reasons: map<(string, Axis), string>) {
    && (forall f :: f in regressions ==> f.reason == "")
    && (forall f :: f in withdrawals ==> (f.operation, f.axis) in reasons && f.reason == reasons[(f.operation, f.axis)])
  }

  lemma ExplainedFurther(regressions: seq<Fall>, withdrawals: seq<Fall>, reasons: map<(string, Axis), string>,
                         more: seq<Fall>, excused: seq<Fall>)
    requires Explained(regressions, withdrawals, reasons) && Explained(more, excused, reasons)
    ensures Explained(regressions + more, withdrawals + excused, reasons)
  {
  }

  /** `f` is printed before `g`: an earlier operation, or an earlier axis of the same. */
  predicate Before(f: Fall, g: Fall) {
    if f.operation == g.operation then Column(f.axis) < Column(g.axis) else Le(f.operation, g.operation)
  }

  function Column(x: Axis): nat {
    match x
    case Driven => 0
    case Probed => 1
    case Contract => 2
    case Dataplane => 3
    case Shape => 4
    case Behaviour => 5
    case Negative => 6
  }

  /** Each fall once, by operation and then by axis. */
  ghost predicate InOrder(falls: seq<Fall>) {
    forall i, j :: 0 <= i < j < |falls| ==> Before(falls[i], falls[j])
  }

  ghost function NamesOf(falls: seq<Fall>): set<string> {
    set f | f in falls :: f.operation
  }

  lemma OneMoreInOrder(falls: seq<Fall>, f: Fall)
    requires InOrder(falls) && forall g :: g in falls ==> Before(g, f)
    ensures InOrder(falls + [f])
  {
  }

  lemma Follows(falls: seq<Fall>, more: seq<Fall>, operations: seq<string>, i: nat)
    requires i < |operations| && Sorted(operations, Le) && Distinct(operations)
    requires InOrder(falls) && NamesOf(falls) <= Elements(operations[..i])
    requires InOrder(more) && forall f :: f in more ==> f.operation == operations[i]
    ensures InOrder(falls + more) && NamesOf(falls + more) <= Elements(operations[..i + 1])
  {
    assert operations[..i + 1] == operations[..i] + [operations[i]];
    forall f, g | f in falls && g in more
      ensures Before(f, g)
    {
      assert f.operation in NamesOf(falls);
      var k :| 0 <= k < i && operations[..i][k] == f.operation;
      assert operations[k] == f.operation;
    }
    var all := falls + more;
    forall f | f in all
      ensures f.operation in operations[..i + 1]
    {
      if f in falls { assert f.operation in NamesOf(falls); }
    }
    forall a, b | 0 <= a < b < |all|
      ensures Before(all[a], all[b])
    {
      if a < |falls| <= b { assert all[a] in falls && all[b] in more; }
    }
  }

  /** What the operations looked at so far lost, split by whether a reason is on
      file. */
  ghost predicate Held(regressions: seq<Fall>, withdrawals: seq<Fall>, pins: Pins, ops: map<string, Row>,
                       reasons: map<(string, Axis), string>, done: seq<string>) {
    && (forall p :: p in PairsOf(regressions) <==> p in Fallen(pins, ops) && p.0 in done && p !in reasons)
    && (forall p :: p in PairsOf(withdrawals) <==> p in Fallen(pins, ops) && p.0 in done && p in reasons)
    && (forall f :: f in regressions || f in withdrawals ==> Says(f, pins, ops))
  }

  lemma HoldOne(regressions: seq<Fall>, withdrawals: seq<Fall>, pins: Pins, ops: map<string, Row>,
                reasons: map<(string, Axis), string>, operations: seq<string>, i: nat, more: seq<Fall>,
                excused: seq<Fall>)
    requires i < |operations| && operations[i] in pins
    requires Held(regressions, withdrawals, pins, ops, reasons, operations[..i])
    requires var op := operations[i];
             && AxesOf(more) == (set x | x in FallenRow(op, pins[op], ops) && (op, x) !in reasons)
             && AxesOf(excused) == (set x | x in FallenRow(op, pins[op], ops) && (op, x) in reasons)
             && forall f :: f in more || f in excused ==>
                  f.axis in pins[op] && f == MakeFall(op, f.axis, pins[op][f.axis], ops, reasons)
    ensures Held(regressions + more, withdrawals + excused, pins, ops, reasons, operations[..i + 1])
  {
    var op := operations[i];
    assert operations[..i + 1] == operations[..i] + [op];
    assert forall x :: x in FallenRow(op, pins[op], ops) <==> (op, x) in Fallen(pins, ops);
    SideGrows(regressions, more, Fallen(pins, ops) - reasons.Keys, operations[..i], op);
    SideGrows(withdrawals, excused, Fallen(pins, ops) * reasons.Keys, operations[..i], op);
  }

  lemma SideGrows(side: seq<Fall>, more: seq<Fall>, pairs: set<(string, Axis)>, done: seq<string>, op: string)
    requires forall p :: p in PairsOf(side) <==> p in pairs && p.0 in done
    requires forall f :: f in more ==> f.operation == op
    requires forall x :: x in AxesOf(more) <==> (op, x) in pairs
    ensures forall p :: p in PairsOf(side + more) <==> p in pairs && p.0 in done + [op]
  {
    PairsOfOne(more, op);
    PairsAppend(side, more);
  }

  lemma AllHeld(regressions: seq<Fall>, withdrawals: seq<Fall>, pins: Pins, ops: map<string, Row>,
                reasons: map<(string, Axis), string>, operations: seq<string>)
    requires Elements(operations) == pins.Keys
    requires Held(regressions, withdrawals, pins, ops, reasons, operations)
    ensures PairsOf(regressions) == Fallen(pins, ops) - reasons.Keys
    ensures PairsOf(withdrawals) == Fallen(pins, ops) * reasons.Keys
  {
    forall p | p in Fallen(pins, ops) ensures p.0 in operations {
      assert p.0 in Elements(operations);
    }
  }

  /** The gate: no regression, no failure. */
  ghost predicate Passes(pins: Pins, ops: map<string, Row>, accepted: seq<Withdrawal>) {
    !BlankReason(accepted) && Fallen(pins, ops) <= Forgiven(accepted)
  }

  // ----- the baseline and the record's other readers -----

  /** On what the reader accepts, a baseline pins what the table counts as
      earned, and one thing more: a violated contract. */
  lemma PinnedIsEarnedOrViolating(x: Axis, r: Row)
    requires ValidRow(r)
    ensures ProvesSomething(ValueOf(x, r)) <==> Earned(x, r) || (x == Contract && r.contract == Violating)
  {
  }

  /** What falls against a captured baseline is what the demotion report names
      on the pinned axes, and a pinned violation that is no longer one. */
  lemma FallsAreTheDemotions(art: map<string, Row>, next: map<string, Row>, wanted: set<Axis>)
    requires ValidOperations(art)
    ensures forall op, x :: (op, x) in Fallen(Captured(art, wanted), next) <==>
              && x in wanted
              && op in art
              && (|| op in Lost(x, art, next)
                  || (x == Contract && art[op].contract == Violating
                      && !(op in next && next[op].contract == Violating)))
  {
    forall op, x | op in art && x in wanted
      ensures (op, x) in Fallen(Captured(art, wanted), next) <==>
                (|| op in Lost(x, art, next)
                 || (x == Contract && art[op].contract == Violating && !(op in next && next[op].contract == Violating)))
    {
      PinnedIsEarnedOrViolating(x, art[op]);
      if ProvesSomething(ValueOf(x, art[op])) {
        assert x in PinnedRow(art[op], wanted);
        if op in next { DeliveredIsStillEarned(x, art[op], next[op]); }
      }
    }
  }

  lemma DeliveredIsStillEarned(x: Axis, was: Row, now: Row)
    requires ValidRow(was) && ProvesSomething(ValueOf(x, was))
    ensures Satisfies(x, ValueOf(x, was), ValueOf(x, now)) <==>
              if x == Contract && was.contract == Violating then now.contract == Violating else Earned(x, now)
  {
  }

  /** The gate, without a withdrawal, passes just when the demotion report is
      silent on every pinned axis. */
  ghost predicate GateAgrees(art: map<string, Row>, next: map<string, Row>, wanted: set<Axis>) {
    Passes(Captured(art, wanted), next, []) <==> forall x :: x in wanted ==> Lost(x, art, next) == {}
  }

  lemma AgreesWithoutAViolation(art: map<string, Row>, next: map<string, Row>, wanted: set<Axis>)
    requires ValidOperations(art)
    requires Contract in wanted ==> forall op :: op in art ==> art[op].contract != Violating
    ensures GateAgrees(art, next, wanted)
  {
    FallsAreTheDemotions(art, next, wanted);
    if x :| x in wanted && Lost(x, art, next) != {} {
      var op :| op in Lost(x, art, next);
      assert (op, x) in Fallen(Captured(art, wanted), next);
    }
    if Fallen(Captured(art, wanted), next) != {} {
      var p :| p in Fallen(Captured(art, wanted), next);
      assert (p.0, p.1) == p;
      assert p.0 in Lost(p.1, art, next);
    }
  }

  /** Any pinned violation put right, everything else left alone, is a fall, and
      the demotion report has nothing to say. */
  lemma FixingAPinnedViolationIsAFall(art: map<string, Row>, op: string, wanted: set<Axis>)
    requires ValidOperations(art) && op in art && art[op].contract == Violating && Contract in wanted
    ensures var next := art[op := art[op].(contract := Clean)];
            && (op, Contract) in Fallen(Captured(art, wanted), next)
            && forall x :: Lost(x, art, next) == {}
  {
    FallsAreTheDemotions(art, art[op := art[op].(contract := Clean)], wanted);
  }

  lemma FixingDisagrees(art: map<string, Row>, op: string, wanted: set<Axis>)
    requires ValidOperations(art) && op in art && art[op].contract == Violating && Contract in wanted
    ensures !GateAgrees(art, art[op := art[op].(contract := Clean)], wanted)
  {
    FixingAPinnedViolationIsAFall(art, op, wanted);
  }

  /** The two readers of a baseline agree on every record that can replace it
      exactly when no contract that was pinned is a violated one. */
  lemma GateAgreesWithTheDemotionReport(art: map<string, Row>, wanted: set<Axis>)
    requires ValidOperations(art)
    ensures (forall next :: GateAgrees(art, next, wanted))
       <==> (Contract in wanted ==> forall op :: op in art ==> art[op].contract != Violating)
  {
    if Contract in wanted && exists op :: op in art && art[op].contract == Violating {
      var op :| op in art && art[op].contract == Violating;
      FixingDisagrees(art, op, wanted);
    } else {
      forall next ensures GateAgrees(art, next, wanted) { AgreesWithoutAViolation(art, next, wanted); }
    }
  }

  /** A baseline always holds against the record it was taken from. */
  lemma BaselineHoldsAgainstItsSource(art: map<string, Row>, wanted: set<Axis>)
    ensures Fallen(Captured(art, wanted), art) == {}
  {
    forall op, x | op in art && x in wanted
      ensures Satisfies(x, ValueOf(x, art[op]), ValueOf(x, art[op]))
    {
    }
  }

  /** And against that record joined with another leg, it falls exactly where the
      other leg violated a contract this one had clean. */
  lemma JoiningALegFallsOnlyOnContract(a: map<string, Row>, b: map<string, Row>, wanted: set<Axis>)
    requires ValidOperations(a)
    ensures forall op, x :: (op, x) in Fallen(Captured(a, wanted), JoinOperations(a, b)) <==>
              x == Contract && Contract in wanted && op in a && op in b && a[op].contract == Clean
                  && b[op].contract == Violating
  {
    var j := JoinOperations(a, b);
    FallsAreTheDemotions(a, j, wanted);
    forall x ensures x != Contract ==> Lost(x, a, j) == {} { JoinLosesOnlyContract(x, a, b); }
    JoinLosesOnlyContract(Contract, a, b);
    forall op | op in a && a[op].contract == Violating
      ensures op in j && j[op].contract == Violating
    {
    }
  }

  /** A reshape falls exactly where the catalogue stopped covering an operation. */
  lemma ReshapeFallsOnlyOnShape(art: map<string, Row>, covered: set<string>, wanted: set<Axis>)
    requires ValidOperations(art)
    ensures forall op, x :: (op, x) in Fallen(Captured(art, wanted), Reshaped(art, covered)) <==>
              x == Shape && Shape in wanted && op in ObservedIn(art) && op !in covered
  {
    FallsAreTheDemotions(art, Reshaped(art, covered), wanted);
    ReshapeMovesOnlyShape(art, covered);
  }
}
