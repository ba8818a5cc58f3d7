/** Which objects of the account a run can name: what the guard protects, and what
    it does not because it reads a path its own way. */
module AccountExposure {
  import opened Wrappers
  import opened Text
  import opened Ordering
  import opened Json
  import opened AccountGuard
  import opened AccountSafety
  import opened AccountSessions
  import opened Wire

  // ----- the first step of a run -----

  function Request(free: string, verb: Verb, path: string): Attempt {
    Attempt(1, free, verb, path, "", Null)
  }

  /** An answer that names each of `ids` under "id", at one remove. */
  function Naming(ids: set<string>): Answer {
    Answer(201, Obj(map id | id in ids :: Obj(map["id" := Str(id)])))
  }

  lemma NamingMints(sh: Shapes, ids: set<string>)
    requires forall id :: id in ids ==> sh.identifier(id)
    ensures MintedIds(sh.identifier, Naming(ids).body) == ids
  {
    var fs := Naming(ids).body.fields;
    forall k | k in ids
      ensures MintedUnder(sh.identifier, k, fs[k]) == {k}
    {
      var inner := fs[k];
      assert inner.fields.Keys == {"id"} && MintedUnder(sh.identifier, "id", inner.fields["id"]) == {k};
      assert MintedIds(sh.identifier, inner) == {k};
    }
  }

  /** One free create at the top, answered: a run that owns what the answer names. */
  function Opening(free: string, answer: Answer): seq<Step> {
    [Step(Request(free, POST, ""), Some(answer))]
  }

  lemma NothingAtTheTop(sh: Shapes)
    requires !sh.identifier("")
    ensures Addressed(sh, "") == {}
  {
    assert Split("", '/') == [""];
  }

  lemma OneStep(sh: Shapes, s: Step)
    ensures StateAfter(sh, false, [s]) == Advance(sh, Fresh(false), s)
  {
    assert [s] == [] + [s];
    StateSnoc(sh, false, [], s);
  }

  lemma OpeningOwns(sh: Shapes, free: string, answer: Answer)
    requires free in FREE_TO_CREATE && !sh.identifier("") && Succeeded(answer.status)
    ensures var st := StateAfter(sh, false, Opening(free, answer));
            st.owned == MintedIds(sh.identifier, answer.body) && !st.dryRun
  {
    NothingAtTheTop(sh);
    OneStep(sh, Step(Request(free, POST, ""), Some(answer)));
  }

  lemma NamingOwns(sh: Shapes, free: string, ids: set<string>)
    requires free in FREE_TO_CREATE && !sh.identifier("")
    requires forall id :: id in ids ==> sh.identifier(id)
    ensures var st := StateAfter(sh, false, Opening(free, Naming(ids))); st.owned == ids && !st.dryRun
    ensures forall id :: id !in ids ==> NeverAnswered(sh, false, Opening(free, Naming(ids)), id)
  {
    NamingMints(sh, ids);
    OpeningOwns(sh, free, Naming(ids));
    forall id, j | id !in ids && CreateAnswered(sh, false, Opening(free, Naming(ids)), j, id)
      ensures false
    {
      OwnedIsWhatCreatesAnswered(sh, false, Opening(free, Naming(ids)), id);
    }
  }

  lemma SomethingIsFree()
    ensures FREE_TO_CREATE != {}
  {
    assert "iam/v1alpha1/API.CreateSSHKey" in FREE_TO_CREATE;
  }

  /** A change that may go out next goes out, and unanswered it teaches nothing. */
  lemma OneMoreChange(sh: Shapes, steps: seq<Step>, a: Attempt)
    requires !Reads(a.verb) && Decide(sh, StateAfter(sh, false, steps), a) == Allow
    ensures var all := steps + [Step(a, None)];
            ChangeSent(sh, false, all, |steps|) && forall id :: NeverAnswered(sh, false, steps, id) ==>
                NeverAnswered(sh, false, all, id)
  {
    var all := steps + [Step(a, None)];
    SentSnoc(sh, false, steps, Step(a, None));
    StateSnoc(sh, false, steps, Step(a, None));
    forall id, j | NeverAnswered(sh, false, steps, id) && CreateAnswered(sh, false, all, j, id)
      ensures false
    {
      OwnedIsWhatCreatesAnswered(sh, false, steps, id);
      OwnedIsWhatCreatesAnswered(sh, false, all, id);
    }
  }

  // ----- which objects the guard protects -----

  lemma PathOfOne(sh: Shapes, id: string)
    requires '/' !in id
    ensures id in NamesOf(id)
    ensures Addressed(sh, id) == if sh.identifier(SegmentId(id)) then {SegmentId(id)} else {}
  {
    SplitOfPiece(id, '/');
  }

  lemma NamesHoldNoSlash(path: string, id: string)
    requires id in Named(path)
    ensures '/' !in id
  {
    var received := Received(path).value;
    SplitHasNoSeparator(received, '/');
    var segment :| segment in Split(received, '/') && (id == segment || id == SegmentId(segment));
    assert segment == CutBefore(segment, ':') || ':' in segment;
  }

  /** No parsing of a path can take a byte of it for anything but itself. */
  predicate Sayable(id: string) {
    '/' !in id && Plain(id) && !HoldsControl(id)
  }

  /** A plain path names only what can be said in one. */
  lemma PlainNames(path: string, id: string)
    requires Plain(path) && id in Named(path)
    ensures Sayable(id)
  {
    PlainIsReceived(path);
    NamesHoldNoSlash(path, id);
    SplitIsPart(path, '/');
    var segment :| segment in Split(path, '/') && (id == segment || id == SegmentId(segment));
    forall c | c in id ensures c in path {
      assert id == segment[..|id|];
      assert c in segment;
    }
  }

  ghost predicate PlainRun(sh: Shapes, dryRun: bool, steps: seq<Step>) {
    forall k :: ChangeSent(sh, dryRun, steps, k) ==> Plain(steps[k].a.path)
  }

  lemma IdentifiersAreSayable(sh: Shapes, id: string)
    requires SaneShapes(sh) && sh.identifier(id)
    ensures Sayable(id) && Sayable(SegmentId(id)) && Bytes(id)
  {
    assert forall c :: c in id ==> IsNameByte(c);
    forall c | c in SegmentId(id) ensures c in id {
      assert SegmentId(id) == id[..|SegmentId(id)|];
    }
  }

  lemma UnsayableIsUnnamed(sh: Shapes, dryRun: bool, steps: seq<Step>, id: string)
    requires SaneShapes(sh) && PlainRun(sh, dryRun, steps) && !Sayable(id)
    ensures Unnamed(sh, dryRun, steps, id)
  {
    forall k | ChangeSent(sh, dryRun, steps, k) && id in Named(steps[k].a.path)
      ensures false
    {
      PlainNames(steps[k].a.path, id);
    }
    forall o | o in Ledger(sh, dryRun, steps)
      ensures id !in Named(o.Url())
    {
      LedgerWasSent(sh, dryRun, steps, o);
      UrlNames(sh, o);
      IdentifiersAreSayable(sh, o.id);
    }
  }

  /** A free create at a path that names `id`, sent after some run that owns what
      the guard reads of it. */
  lemma CreateAtNames(sh: Shapes, free: string, opening: seq<Step>, path: string, id: string)
    requires free in FREE_TO_CREATE && id in Named(path)
    requires NeverAnswered(sh, false, opening, id)
    requires var st := StateAfter(sh, false, opening); !st.dryRun && Addressed(sh, path) <= st.owned
    ensures var steps := opening + [Step(Request(free, POST, path), None)];
            NeverAnswered(sh, false, steps, id) && !Unnamed(sh, false, steps, id)
  {
    var a := Request(free, POST, path);
    assert Decide(sh, StateAfter(sh, false, opening), a) == Allow;
    OneMoreChange(sh, opening, a);
    var steps := opening + [Step(a, None)];
    assert steps[|opening|].a == a && ChangeSent(sh, false, steps, |opening|);
  }

  lemma PlainSteps(sh: Shapes, steps: seq<Step>)
    requires forall k :: 0 <= k < |steps| ==> Plain(steps[k].a.path)
    ensures PlainRun(sh, false, steps)
  {
  }

  /** A run that owns what the guard reads of `id` and never sent it. */
  lemma OwningWhatIsRead(sh: Shapes, free: string, id: string) returns (opening: seq<Step>)
    requires SaneShapes(sh) && free in FREE_TO_CREATE && '/' !in id && !(sh.identifier(id) && ':' !in id)
    ensures forall k :: 0 <= k < |opening| ==> opening[k].a.path == ""
    ensures var st := StateAfter(sh, false, opening); !st.dryRun && Addressed(sh, id) <= st.owned
    ensures NeverAnswered(sh, false, opening, id)
  {
    var cut := SegmentId(id);
    PathOfOne(sh, id);
    opening := if sh.identifier(cut) then Opening(free, Naming({cut})) else [];
    if sh.identifier(cut) { NamingOwns(sh, free, {cut}); }
  }

  /** A plain run that is never answered `id` and names it, when the guard cannot
      read it. */
  lemma NamingUnread(sh: Shapes, id: string) returns (steps: seq<Step>)
    requires SaneShapes(sh) && Sayable(id) && !(sh.identifier(id) && ':' !in id)
    ensures PlainRun(sh, false, steps) && NeverAnswered(sh, false, steps, id) && !Unnamed(sh, false, steps, id)
  {
    SomethingIsFree();
    var free :| free in FREE_TO_CREATE;
    PathOfOne(sh, id);
    PlainIsReceived(id);
    var opening := OwningWhatIsRead(sh, free, id);
    CreateAtNames(sh, free, opening, id, id);
    steps := opening + [Step(Request(free, POST, id), None)];
    PlainSteps(sh, steps);
  }

  /** Exactly which objects the guard protects when a recording holds plain paths:
      no such run names one it was not answered if and only if its name is an
      identifier without a colon, or cannot be said in a plain path at all. */
  lemma ProtectedExactlyWhen(sh: Shapes, id: string)
    requires SaneShapes(sh)
    ensures (forall steps :: PlainRun(sh, false, steps) && NeverAnswered(sh, false, steps, id) ==>
             Unnamed(sh, false, steps, id))
       <==> !Sayable(id) || (sh.identifier(id) && ':' !in id)
  {
    if !Sayable(id) {
      forall steps: seq<Step> | PlainRun(sh, false, steps)
        ensures Unnamed(sh, false, steps, id)
      {
        UnsayableIsUnnamed(sh, false, steps, id);
      }
    } else if sh.identifier(id) && ':' !in id {
      forall steps: seq<Step> | PlainRun(sh, false, steps) && NeverAnswered(sh, false, steps, id)
        ensures Unnamed(sh, false, steps, id)
      {
        forall k | ChangeSent(sh, false, steps, k)
          ensures InSight(sh, steps[k].a.path)
        {
          PlainIsInSight(sh, steps[k].a.path);
        }
        ColonFreeIdentifiersAreUnnamed(sh, false, steps, id);
      }
    } else {
      var steps := NamingUnread(sh, id);
    }
  }

  /** And when it may hold any path: nothing that has a name. Spelt in escapes, a
      name is not an identifier to the guard, and arrives as what it spells. */
  lemma NothingIsProtectedFromEscapes(sh: Shapes, id: string)
    requires SaneShapes(sh) && Bytes(id)
    ensures (forall steps :: NeverAnswered(sh, false, steps, id) ==> Unnamed(sh, false, steps, id)) <==> '/' in id
  {
    if '/' in id {
      forall path | id in Named(path) ensures false { NamesHoldNoSlash(path, id); }
    } else {
      SomethingIsFree();
      var free :| free in FREE_TO_CREATE;
      EscapedNames(sh, id);
      CreateAtNames(sh, free, [], Escape(id), id);
    }
  }

  lemma EscapedNames(sh: Shapes, id: string)
    requires SaneShapes(sh) && Bytes(id) && '/' !in id
    ensures id in Named(Escape(id)) && Addressed(sh, Escape(id)) == {}
  {
    EscapedIsReceived(id);
    SplitOfPiece(id, '/');
    UnescapeEscape(id);
    SpeltIsUnread(sh, Escape(id));
  }

  lemma SpeltIsUnread(sh: Shapes, path: string)
    requires SaneShapes(sh) && (path == "" || '%' in path)
    requires forall c :: c in path ==> c == '%' || IsHex(c)
    ensures Addressed(sh, path) == {}
  {
    assert ':' !in path && '/' !in path && SegmentId(path) == path;
    SplitOfPiece(path, '/');
    assert !IsNameByte('%') && !sh.identifier(path);
  }

  // ----- two ways to lose an object -----

  /** A run that loses an object it was not answered: a free create answered `own`,
      then a DELETE of a path that the guard reads as `own` alone and that names
      another object when it arrives. Both go out, the answer was fresh, and some
      endpoint loses the object. */
  lemma LosingRun(sh: Shapes, own: string, path: string, lost: string, value: string)
    returns (steps: seq<Step>, accounts: seq<Account>, walk: seq<Account>)
    requires SaneShapes(sh) && sh.identifier(own) && lost != own
    requires Addressed(sh, path) == {own} && lost in Named(path)
    ensures |steps| == 2
    ensures steps[0].a.path == "" && steps[0].answer == Some(Answer(201, Obj(map["id" := Str(own)])))
    ensures steps[1].a.verb == DELETE && steps[1].a.path == path
    ensures Sent(sh, false, steps, 0) && Sent(sh, false, steps, 1)
    ensures AnswersFresh(sh, false, steps, map[lost := value])
    ensures Session(sh, false, steps, map[lost := value], accounts, walk) && lost !in walk[0]
  {
    SomethingIsFree();
    var free :| free in FREE_TO_CREATE;
    var body := Obj(map["id" := Str(own)]);
    var opening, a := Opening(free, Answer(201, body)), Request(free, DELETE, path);
    OpeningOwns(sh, free, Answer(201, body));
    MintsItself(sh, own);
    assert Decide(sh, StateAfter(sh, false, opening), a) == Allow;
    OwnedIsWhatCreatesAnswered(sh, false, opening, lost);
    OneMoreChange(sh, opening, a);
    steps := opening + [Step(a, None)];
    OpeningGoesOut(sh, opening, steps[1]);
    accounts, walk := LostInTheRun(sh, false, steps, map[lost := value], lost, 1);
  }

  lemma MintsItself(sh: Shapes, own: string)
    requires sh.identifier(own)
    ensures MintedIds(sh.identifier, Obj(map["id" := Str(own)])) == {own}
  {
    var fs := map["id" := Str(own)];
    assert fs.Keys == {"id"} && MintedUnder(sh.identifier, "id", fs["id"]) == {own};
  }

  lemma OpeningGoesOut(sh: Shapes, opening: seq<Step>, next: Step)
    requires |opening| == 1 && StateAfter(sh, false, opening).owned != {}
    ensures Sent(sh, false, opening + [next], 0)
  {
    assert opening == [opening[0]];
    OneStep(sh, opening[0]);
    assert (opening + [next])[..0] == [];
  }

  /** An address behind an identifier of the run's own: cut at its first colon it
      is no identifier, and the guard does not see it. */
  lemma AnAddressIsNotProtected(sh: Shapes, own: string, address: string, value: string)
    returns (steps: seq<Step>, accounts: seq<Account>, walk: seq<Account>)
    requires SaneShapes(sh) && sh.identifier(own) && ':' !in own && sh.identifier(address) && ':' in address
    ensures |steps| == 2 && Sent(sh, false, steps, 0) && Sent(sh, false, steps, 1)
    ensures steps[1].a.verb == DELETE && steps[1].a.path == "/" + own + "/" + address
    ensures AnswersFresh(sh, false, steps, map[address := value])
    ensures Session(sh, false, steps, map[address := value], accounts, walk) && address !in walk[0]
  {
    TwoSegments(sh, own, address);
    steps, accounts, walk := LosingRun(sh, own, "/" + own + "/" + address, address, value);
  }

  lemma SplitOfTwo(a: string, b: string)
    requires '/' !in a && '/' !in b
    ensures Split("/" + a + "/" + b, '/') == ["", a, b]
  {
    SplitAcross("/" + a, '/', b);
    SplitAcross("", '/', a);
    SplitOfPiece(a, '/');
    SplitOfPiece(b, '/');
    assert "" + ['/'] + a == "/" + a && Split("", '/') == [""];
    assert [""] + [a] + [b] == ["", a, b];
  }

  lemma TwoSegments(sh: Shapes, own: string, address: string)
    requires SaneShapes(sh) && sh.identifier(own) && ':' !in own && sh.identifier(address) && ':' in address
    ensures var path := "/" + own + "/" + address; Addressed(sh, path) == {own} && address in Named(path)
  {
    var path := "/" + own + "/" + address;
    IdentifiersAreSayable(sh, own);
    IdentifiersAreSayable(sh, address);
    SplitOfTwo(own, address);
    var all := ["", own, address];
    assert all[1] == own && all[2] == address && SegmentId("") == "" && SegmentId(own) == own;
    assert Plain(path) && !HoldsControl(path);
    PlainIsReceived(path);
  }

  /** An object in front of a question mark: the guard does not know its segment,
      the question mark included, and what follows ends with an identifier of the
      run's own; the path that arrives stops at the object. */
  lemma AQueryHidesAnObject(sh: Shapes, collection: string, own: string, lost: string, value: string)
    returns (steps: seq<Step>, accounts: seq<Account>, walk: seq<Account>)
    requires SaneShapes(sh) && sh.identifier(own) && ':' !in own && sh.identifier(lost) && ':' !in lost && lost != own
    requires Plain(collection) && !HoldsControl(collection) && Addressed(sh, collection) == {}
    ensures |steps| == 2 && Sent(sh, false, steps, 0) && Sent(sh, false, steps, 1)
    ensures steps[1].a.verb == DELETE && steps[1].a.path == collection + "/" + lost + "?/" + own
    ensures Received(steps[1].a.path) == Some(collection + "/" + lost)
    ensures AnswersFresh(sh, false, steps, map[lost := value])
    ensures Session(sh, false, steps, map[lost := value], accounts, walk) && lost !in walk[0]
  {
    BehindAQuery(sh, collection, own, lost);
    steps, accounts, walk := LosingRun(sh, own, collection + "/" + lost + "?/" + own, lost, value);
  }

  lemma BehindAQuery(sh: Shapes, collection: string, own: string, lost: string)
    requires SaneShapes(sh) && sh.identifier(own) && ':' !in own && sh.identifier(lost) && ':' !in lost
    requires Plain(collection) && !HoldsControl(collection) && Addressed(sh, collection) == {}
    ensures var path := collection + "/" + lost + "?/" + own;
            && Received(path) == Some(collection + "/" + lost)
            && lost in Named(path)
            && Addressed(sh, path) == {own}
  {
    var target := collection + ['/'] + lost;
    IdentifiersAreSayable(sh, own);
    IdentifiersAreSayable(sh, lost);
    assert collection + "/" + lost == target;
    PlainParts(collection, lost);
    QueryEndsThePath(target, ['/'] + own);
    assert target + ['?'] + (['/'] + own) == collection + "/" + lost + "?/" + own;
    NamesAcross(collection, lost);
    AddressedBehindAQuery(sh, collection, own, lost);
  }

  lemma PlainParts(a: string, b: string)
    requires Plain(a) && Plain(b) && !HoldsControl(a) && !HoldsControl(b)
    ensures Plain(a + ['/'] + b) && !HoldsControl(a + ['/'] + b) && '#' !in ['/'] + b && !HoldsControl(['/'] + b)
  {
  }

  lemma AddressedBehindAQuery(sh: Shapes, collection: string, own: string, lost: string)
    requires SaneShapes(sh) && sh.identifier(own) && ':' !in own && sh.identifier(lost) && ':' !in lost
    requires Addressed(sh, collection) == {}
    ensures Addressed(sh, collection + "/" + lost + "?/" + own) == {own}
  {
    var path, left, hidden := collection + "/" + lost + "?/" + own, Split(collection, '/'), lost + ['?'];
    IdentifiersAreSayable(sh, own);
    IdentifiersAreSayable(sh, lost);
    SplitOfPiece(own, '/');
    SplitOfPiece(hidden, '/');
    SplitAcross(collection, '/', hidden);
    SplitAcross(collection + ['/'] + hidden, '/', own);
    assert path == collection + ['/'] + hidden + ['/'] + own;
    var all := Split(path, '/');
    assert all == left + [hidden] + [own] && all[|left| + 1] == own;
    HiddenIsNoIdentifier(sh, lost);
    assert SegmentId(own) == own;
    forall segment | segment in all && sh.identifier(SegmentId(segment))
      ensures segment == own
    {
      assert segment in left && sh.identifier(SegmentId(segment)) ==> SegmentId(segment) in Addressed(sh, collection);
    }
  }

  lemma HiddenIsNoIdentifier(sh: Shapes, lost: string)
    requires SaneShapes(sh) && ':' !in lost
    ensures !sh.identifier(SegmentId(lost + ['?']))
  {
    var hidden := lost + ['?'];
    assert hidden[|lost|] == '?' && !IsNameByte('?');
    assert SegmentId(hidden) == hidden;
  }

  /** With the two kinds of IP address for names: the first in front of a question
      mark, the second behind the first. */
  lemma LosingAnAddress(sh: Shapes, value: string)
    requires SaneShapes(sh) && sh.identifier("1.2.3.4") && sh.identifier("::1")
    ensures exists steps: seq<Step>, accounts: seq<Account>, walk: seq<Account> ::
              && |steps| == 2
              && Sent(sh, false, steps, 1) && steps[1].a.verb == DELETE
              && steps[1].a.path == "/" + "1.2.3.4" + "/" + "::1"
              && AnswersFresh(sh, false, steps, map["::1" := value])
              && Session(sh, false, steps, map["::1" := value], accounts, walk)
              && "::1" !in walk[0]
  {
    var own, address := "1.2.3.4", "::1";
    assert ':' !in own && address[0] == ':';
    var steps, accounts, walk := AnAddressIsNotProtected(sh, own, address, value);
  }

  lemma LosingBehindAQuery(sh: Shapes, value: string)
    requires SaneShapes(sh) && sh.identifier("1.2.3.4") && sh.identifier("1.2.3.5")
    ensures exists steps: seq<Step>, accounts: seq<Account>, walk: seq<Account> ::
              && |steps| == 2
              && Sent(sh, false, steps, 1) && steps[1].a.verb == DELETE
              && steps[1].a.path == "" + "/" + "1.2.3.5" + "?/" + "1.2.3.4"
              && AnswersFresh(sh, false, steps, map["1.2.3.5" := value])
              && Session(sh, false, steps, map["1.2.3.5" := value], accounts, walk)
              && "1.2.3.5" !in walk[0]
  {
    var own, lost := "1.2.3.4", "1.2.3.5";
    assert ':' !in own && ':' !in lost && own[6] != lost[6];
    NothingAtTheTop(sh);
    var steps, accounts, walk := AQueryHidesAnObject(sh, "", own, lost, value);
  }

  /** An entry created at a collection with a question mark in it is not reached by
      its own URL: the DELETE of the clean-up arrives at the collection. */
  lemma AnEntryBehindAQueryIsNotReached(sh: Shapes, free: string, collection: string, query: string, own: string)
    requires SaneShapes(sh) && free in FREE_TO_CREATE && sh.identifier(own)
    requires Plain(collection) && !HoldsControl(collection) && Addressed(sh, collection + ['?'] + query) == {}
    requires '#' !in query && !HoldsControl(query)
    ensures var step := Step(Request(free, POST, collection + ['?'] + query),
                             Some(Answer(201, Obj(map["id" := Str(own)]))));
            var o := CreatedObject(collection + ['?'] + query, own, free);
            Ledger(sh, false, [step]) == [o] && Received(o.Url()) == Some(collection)
  {
    var path, body := collection + ['?'] + query, Obj(map["id" := Str(own)]);
    var step := Step(Request(free, POST, path), Some(Answer(201, body)));
    OneStep(sh, step);
    assert Decide(sh, Fresh(false), step.a) == Allow;
    assert ObjectId(sh.identifier, body) == Some(own);
    IdentifiersAreSayable(sh, own);
    QueryEndsThePath(collection, query);
    ReceivedWithMore(path, own);
    assert path[|collection|] == '?';
    assert CreatedObject(path, own, free).Url() == path + ['/'] + own;
  }

  // ----- what a change may name without owning it -----

  /** The tests of the guard that do not look at what it owns. */
  ghost predicate CanGoOut(sh: Shapes, a: Attempt) {
    if a.verb.DELETE? || a.verb.PATCH? then Addressed(sh, a.path) != {}
    else Creates(a.verb) && a.operation in FREE_TO_CREATE
  }

  /** Over the states runs reach, the identifiers a change is sure to own when it
      is let out are those the guard reads off its path. */
  lemma OwnedExactlyWhenRead(sh: Shapes, a: Attempt, ids: set<string>)
    requires SaneShapes(sh) && !Reads(a.verb)
    ensures (forall steps :: Decide(sh, StateAfter(sh, false, steps), a) == Allow ==>
             ids <= StateAfter(sh, false, steps).owned)
       <==> !CanGoOut(sh, a) || ids <= Addressed(sh, a.path)
  {
    if CanGoOut(sh, a) && !(ids <= Addressed(sh, a.path)) {
      SomethingIsFree();
      var free :| free in FREE_TO_CREATE;
      var steps := Opening(free, Naming(Addressed(sh, a.path)));
      NamingOwns(sh, free, Addressed(sh, a.path));
      assert Decide(sh, StateAfter(sh, false, steps), a) == Allow;
    }
  }

  /** What parsing costs, change by change: every identifier without a colon that
      arrives in the path is owned, in every run that lets the change out, exactly
      when the change cannot go out or its path is in sight. */
  lemma NamedIsOwnedExactlyWhenInSight(sh: Shapes, a: Attempt)
    requires SaneShapes(sh) && !Reads(a.verb)
    ensures (forall steps :: Decide(sh, StateAfter(sh, false, steps), a) == Allow ==>
               ColonFree(sh, a.path) <= StateAfter(sh, false, steps).owned)
       <==> !CanGoOut(sh, a) || InSight(sh, a.path)
  {
    OwnedExactlyWhenRead(sh, a, ColonFree(sh, a.path));
    assert ColonFree(sh, a.path) <= Addressed(sh, a.path) <==> InSight(sh, a.path);
  }

  ghost function ColonFree(sh: Shapes, path: string): set<string> {
    set id | id in Named(path) && sh.identifier(id) && ':' !in id
  }

  /** The identifiers that stand as whole segments of the path received. */
  ghost function WholeSegments(sh: Shapes, path: string): set<string> {
    if Received(path).None? then {}
    else
      set segment | segment in Split(Received(path).value, '/') && sh.identifier(segment)
  }

  /** What the colon cut costs: with a plain path, every identifier standing as a
      whole segment is owned, in every run that lets the change out, exactly when
      the change cannot go out or none of them holds a colon. */
  lemma WholeSegmentsAreOwnedUnlessOneHoldsAColon(sh: Shapes, a: Attempt)
    requires SaneShapes(sh) && !Reads(a.verb) && Plain(a.path)
    ensures (forall steps :: Decide(sh, StateAfter(sh, false, steps), a) == Allow ==>
               WholeSegments(sh, a.path) <= StateAfter(sh, false, steps).owned)
       <==> (!CanGoOut(sh, a) || forall id :: id in WholeSegments(sh, a.path) ==> ':' !in id)
  {
    OwnedExactlyWhenRead(sh, a, WholeSegments(sh, a.path));
    PlainIsReceived(a.path);
    assert forall id :: id in Addressed(sh, a.path) ==> ':' !in id;
    forall id | id in WholeSegments(sh, a.path) && ':' !in id
      ensures id in Addressed(sh, a.path)
    {
      assert SegmentId(id) == id;
    }
  }

  // ----- what freshness is worth -----

  /** Some change with a plain path that names `id` would go out next. */
  ghost predicate Exposed(sh: Shapes, steps: seq<Step>, id: string) {
    exists a: Attempt :: IsNext(sh, steps, a) && Plain(a.path) && id in Named(a.path)
  }

  ghost predicate IsNext(sh: Shapes, steps: seq<Step>, a: Attempt) {
    !Reads(a.verb) && Decide(sh, StateAfter(sh, false, steps), a) == Allow
  }

  /** The hypothesis on answers is the weakest there is: after every run, an object
      under an identifier without a colon can be named by a plain path next exactly
      when some create answered that identifier. */
  lemma ExposedExactlyWhenAnswered(sh: Shapes, steps: seq<Step>, id: string)
    requires SaneShapes(sh) && sh.identifier(id) && ':' !in id
    ensures Exposed(sh, steps, id) <==> !NeverAnswered(sh, false, steps, id)
  {
    OwnedIsWhatCreatesAnswered(sh, false, steps, id);
    if a: Attempt :| IsNext(sh, steps, a) && Plain(a.path) && id in Named(a.path) {
      PlainIsInSight(sh, a.path);
    }
    if id in StateAfter(sh, false, steps).owned { OwnedCanBeDeleted(sh, steps, id); }
  }

  lemma OwnedCanBeDeleted(sh: Shapes, steps: seq<Step>, id: string)
    requires SaneShapes(sh) && sh.identifier(id) && ':' !in id && id in StateAfter(sh, false, steps).owned
    ensures Exposed(sh, steps, id)
  {
    IdentifiersAreSayable(sh, id);
    PathOfOne(sh, id);
    PlainIsReceived(id);
    OwnershipGrows(sh, false, steps, 0);
    assert SegmentId(id) == id;
    assert IsNext(sh, steps, Request("", DELETE, id));
  }

  /** With other paths every name is exposed, from the first request on. */
  lemma EveryNameIsExposedToEscapes(sh: Shapes, steps: seq<Step>, id: string)
    requires SaneShapes(sh) && Bytes(id) && '/' !in id
    ensures exists a: Attempt :: IsNext(sh, steps, a) && id in Named(a.path)
  {
    SomethingIsFree();
    var free :| free in FREE_TO_CREATE;
    EscapedNames(sh, id);
    FreeCreateIsNext(sh, steps, free, Escape(id));
    assert Request(free, POST, Escape(id)).path == Escape(id);
  }

  lemma FreeCreateIsNext(sh: Shapes, steps: seq<Step>, free: string, path: string)
    requires free in FREE_TO_CREATE && Addressed(sh, path) == {}
    ensures IsNext(sh, steps, Request(free, POST, path))
  {
    OwnershipGrows(sh, false, steps, 0);
  }

  /** An answer that carries its project inside gives the project away: the
      ledger records the new object alone, and a DELETE of the project goes out. */
  lemma ANestedAnswerExposesItsProject(sh: Shapes, free: string, own: string, project: string)
    requires SaneShapes(sh) && free in FREE_TO_CREATE
    requires sh.identifier(own) && sh.identifier(project) && ':' !in project
    ensures var body := Obj(map["id" := Str(own), "project" := Obj(map["id" := Str(project)])]);
            var steps := Opening(free, Answer(201, body));
            ObjectId(sh.identifier, body) == Some(own) && Exposed(sh, steps, project)
  {
    var inner := Obj(map["id" := Str(project)]);
    var fs := map["id" := Str(own), "project" := inner];
    MintsItself(sh, project);
    assert project in MintedUnder(sh.identifier, "project", fs["project"]);
    assert project in MintedIds(sh.identifier, Obj(fs));
    var steps := Opening(free, Answer(201, Obj(fs)));
    OpeningOwns(sh, free, Answer(201, Obj(fs)));
    OwnedIsWhatCreatesAnswered(sh, false, steps, project);
    ExposedExactlyWhenAnswered(sh, steps, project);
  }
}
