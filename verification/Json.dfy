/** Decoded JSON, and the two walks the account guard makes over it: every
    string value, and every identifier named under a key called exactly "id".
    A map is walked in no particular order. */
module Json {
  import opened Wrappers
  import opened Ordering

  datatype Value =
    | Null
    | Bool(b: bool)
    | Number(digits: string)
    | Str(s: string)
    | Arr(items: seq<Value>)
    | Obj(fields: map<string, Value>)

  /** One edge down a value. */
  datatype Edge = Key(k: string) | At(i: nat)

  /** What sits at the end of a path, when the path exists. */
  ghost function Reach(v: Value, path: seq<Edge>): Option<Value> {
    if path == [] then Some(v)
    else match (v, path[0])
      case (Obj(fs), Key(k)) => if k in fs then Reach(fs[k], path[1..]) else None
      case (Arr(items), At(i)) => if i < |items| then Reach(items[i], path[1..]) else None
      case _ => None
  }

  // ----- every string -----

  ghost function StringsIn(v: Value): set<string> {
    match v
    case Str(s) => {s}
    case Obj(fs) => set k, s | k in fs && s in StringsIn(fs[k]) :: s
    case Arr(items) => set i, s | 0 <= i < |items| && s in StringsIn(items[i]) :: s
    case _ => {}
  }

  /** walkStrings: what the callback is handed, in the order it is handed it. */
  method WalkStrings(v: Value) returns (visited: seq<string>)
    ensures Elements(visited) == StringsIn(v)
  {
    visited := [];
    match v
    case Str(s) =>
      visited := [s];
    case Obj(fs) =>
      var keys := fs.Keys;
      while keys != {}
        invariant keys <= fs.Keys
        invariant forall s :: s in visited <==> exists k :: k in fs && k !in keys && s in StringsIn(fs[k])
      {
        var k :| k in keys;
        keys := keys - {k};
        var more := WalkStrings(fs[k]);
        assert forall s :: s in more <==> s in StringsIn(fs[k]) by {
          assert forall s :: s in more <==> s in Elements(more);
        }
        visited := visited + more;
      }
    case Arr(items) =>
      for i := 0 to |items|
        invariant forall s :: s in visited <==> exists j :: 0 <= j < i && s in StringsIn(items[j])
      {
        var more := WalkStrings(items[i]);
        assert forall s :: s in more <==> s in StringsIn(items[i]) by {
          assert forall s :: s in more <==> s in Elements(more);
        }
        visited := visited + more;
      }
    case _ =>
  }

  /** `s` sits, as a string, at the end of a path. */
  ghost predicate SitsAt(v: Value, path: seq<Edge>, s: string) {
    Reach(v, path) == Some(Str(s))
  }

  /** What the walk is handed is what some path through the value ends at. */
  lemma StringsAreReached(v: Value, s: string)
    ensures s in StringsIn(v) <==> exists path :: SitsAt(v, path, s)
  {
    if s in StringsIn(v) {
      var path := StringHasPath(v, s);
    }
    if path :| SitsAt(v, path, s) {
      PathHasString(v, path, s);
    }
  }

  lemma {:induction false} StringHasPath(v: Value, s: string) returns (path: seq<Edge>)
    requires s in StringsIn(v)
    ensures SitsAt(v, path, s)
  {
    match v
    case Str(_) =>
      path := [];
    case Obj(fs) =>
      var k :| k in fs && s in StringsIn(fs[k]);
      var rest := StringHasPath(fs[k], s);
      path := [Key(k)] + rest;
      assert path[1..] == rest;
    case Arr(items) =>
      var i :| 0 <= i < |items| && s in StringsIn(items[i]);
      var rest := StringHasPath(items[i], s);
      path := [At(i)] + rest;
      assert path[1..] == rest;
    case _ =>
  }

  lemma {:induction false} PathHasString(v: Value, path: seq<Edge>, s: string)
    requires SitsAt(v, path, s)
    ensures s in StringsIn(v)
    decreases |path|
  {
    if path == [] {
    } else {
      match (v, path[0])
      case (Obj(fs), Key(k)) => PathHasString(fs[k], path[1..], s);
      case (Arr(items), At(i)) => PathHasString(items[i], path[1..], s);
      case _ =>
    }
  }

  // ----- identifiers under "id" -----

  /** The text under "id" itself, when it has the shape of an identifier. */
  predicate NamesItself(identifier: string -> bool, k: string, v: Value) {
    k == "id" && v.Str? && identifier(v.s)
  }

  ghost function MintedIds(identifier: string -> bool, v: Value): set<string>
    decreases v, 0
  {
    match v
    case Obj(fs) => set k, id | k in fs && id in MintedUnder(identifier, k, fs[k]) :: id
    case Arr(items) => set i, id | 0 <= i < |items| && id in MintedIds(identifier, items[i]) :: id
    case _ => {}
  }

  ghost function MintedUnder(identifier: string -> bool, k: string, v: Value): set<string>
    decreases v, 1
  {
    if NamesItself(identifier, k, v) then {v.s} else MintedIds(identifier, v)
  }

  /** mintedIDs. A map's entries are visited in no particular order. */
  method CollectMintedIds(identifier: string -> bool, v: Value) returns (out: seq<string>)
    ensures Elements(out) == MintedIds(identifier, v)
  {
    out := [];
    match v
    case Obj(fs) =>
      var keys := fs.Keys;
      while keys != {}
        invariant keys <= fs.Keys
        invariant forall id :: id in out <==>
                    exists k :: k in fs && k !in keys && id in MintedUnder(identifier, k, fs[k])
      {
        var k :| k in keys;
        keys := keys - {k};
        var nested := fs[k];
        var more: seq<string>;
        if NamesItself(identifier, k, nested) {
          more := [nested.s];
        } else {
          more := CollectMintedIds(identifier, nested);
        }
        assert forall id :: id in more <==> id in MintedUnder(identifier, k, fs[k]) by {
          assert forall id :: id in more <==> id in Elements(more);
        }
        out := out + more;
      }
    case Arr(items) =>
      for i := 0 to |items|
        invariant forall id :: id in out <==> exists j :: 0 <= j < i && id in MintedIds(identifier, items[j])
      {
        var more := CollectMintedIds(identifier, items[i]);
        assert forall id :: id in more <==> id in MintedIds(identifier, items[i]) by {
          assert forall id :: id in more <==> id in Elements(more);
        }
        out := out + more;
      }
    case _ =>
  }

  /** `id` sits, as a string, at the end of a path whose last step is "id". */
  ghost predicate SitsUnderId(identifier: string -> bool, v: Value, path: seq<Edge>, id: string) {
    Reach(v, path + [Key("id")]) == Some(Str(id)) && identifier(id)
  }

  /** What the walk owns is exactly what some path ending in "id" reaches, at
      any depth: nothing under another key, and nothing under "id" missed. */
  lemma MintedIdsAreThePathsEndingInId(identifier: string -> bool, v: Value, id: string)
    ensures id in MintedIds(identifier, v) <==> exists path :: SitsUnderId(identifier, v, path, id)
  {
    if id in MintedIds(identifier, v) {
      var path := MintedHasPath(identifier, v, id);
    }
    if path :| SitsUnderId(identifier, v, path, id) {
      PathIsMinted(identifier, v, path, id);
    }
  }

  lemma {:induction false} MintedHasPath(identifier: string -> bool, v: Value, id: string) returns (path: seq<Edge>)
    requires id in MintedIds(identifier, v)
    ensures SitsUnderId(identifier, v, path, id)
  {
    match v
    case Obj(fs) =>
      var k :| k in fs && id in MintedUnder(identifier, k, fs[k]);
      if NamesItself(identifier, k, fs[k]) {
        path := [];
        assert ([Key("id")])[1..] == [];
      } else {
        var rest := MintedHasPath(identifier, fs[k], id);
        path := [Key(k)] + rest;
        assert (path + [Key("id")])[1..] == rest + [Key("id")];
      }
    case Arr(items) =>
      var i :| 0 <= i < |items| && id in MintedIds(identifier, items[i]);
      var rest := MintedHasPath(identifier, items[i], id);
      path := [At(i)] + rest;
      assert (path + [Key("id")])[1..] == rest + [Key("id")];
    case _ =>
  }

  lemma {:induction false} PathIsMinted(identifier: string -> bool, v: Value, path: seq<Edge>, id: string)
    requires SitsUnderId(identifier, v, path, id)
    ensures id in MintedIds(identifier, v)
    decreases |path|
  {
    var whole := path + [Key("id")];
    if path == [] {
      assert whole[0] == Key("id") && whole[1..] == [];
      assert v.Obj? && "id" in v.fields && Reach(v.fields["id"], []) == Some(Str(id));
      assert id in MintedUnder(identifier, "id", v.fields["id"]);
    } else {
      assert whole[1..] == path[1..] + [Key("id")];
      match (v, path[0])
      case (Obj(fs), Key(k)) =>
        PathIsMinted(identifier, fs[k], path[1..], id);
        assert id in MintedUnder(identifier, k, fs[k]);
      case (Arr(items), At(i)) =>
        PathIsMinted(identifier, items[i], path[1..], id);
      case _ =>
    }
  }

  // ----- the object a create answered -----

  ghost function ObjectId(identifier: string -> bool, v: Value): Option<string> {
    if !v.Obj? then None
    else if "id" in v.fields && NamesItself(identifier, "id", v.fields["id"]) then Some(v.fields["id"].s)
    else if |v.fields| != 1 then None
    else
      var k :| k in v.fields;
      var inner := v.fields[k];
      if inner.Obj? && "id" in inner.fields && NamesItself(identifier, "id", inner.fields["id"])
      then Some(inner.fields["id"].s)
      else None
  }

  lemma OneKey(fs: map<string, Value>, a: string, b: string)
    requires |fs| == 1 && a in fs && b in fs
    ensures a == b
  {
    assert |fs.Keys| == 1;
    assert |fs.Keys - {a}| == 0;
  }

  /** What the object answered is called: the identifier at ["id"], or, when
      there is none, the one at [k, "id"] below the only key `k`. */
  ghost predicate NamesTheObject(identifier: string -> bool, v: Value, id: string) {
    || SitsUnderId(identifier, v, [], id)
    || ((forall top :: !SitsUnderId(identifier, v, [], top))
        && exists k :: v.Obj? && v.fields.Keys == {k} && SitsUnderId(identifier, v, [Key(k)], id))
  }

  lemma ReachOne(v: Value)
    ensures Reach(v, [] + [Key("id")]) == if v.Obj? && "id" in v.fields then Some(v.fields["id"]) else None
  {
    var path := [] + [Key("id")];
    assert path[0] == Key("id") && path[1..] == [];
  }

  lemma ReachTwo(v: Value, k: string)
    requires v.Obj? && k in v.fields
    ensures Reach(v, [Key(k)] + [Key("id")]) == Reach(v.fields[k], [] + [Key("id")])
  {
    var path := [Key(k)] + [Key("id")];
    assert path[0] == Key(k) && path[1..] == [] + [Key("id")];
  }

  /** The ledger's identifier is the one that names the object, by its place in
      the answer alone. */
  lemma ObjectIdNamesTheObject(identifier: string -> bool, v: Value, id: string)
    ensures ObjectId(identifier, v) == Some(id) <==> NamesTheObject(identifier, v, id)
  {
    ReachOne(v);
    if v.Obj? && |v.fields| == 1 {
      var k :| k in v.fields;
      forall other | other in v.fields ensures other == k { OneKey(v.fields, other, k); }
      assert v.fields.Keys == {k};
      ReachTwo(v, k);
      ReachOne(v.fields[k]);
    }
    if k :| v.Obj? && v.fields.Keys == {k} {
      assert |v.fields| == |v.fields.Keys| == 1;
    }
  }

  /** objectID. */
  method FindObjectId(identifier: string -> bool, v: Value) returns (id: Option<string>)
    ensures forall s :: id == Some(s) <==> NamesTheObject(identifier, v, s)
    ensures id == ObjectId(identifier, v)
  {
    forall s ensures ObjectId(identifier, v) == Some(s) <==> NamesTheObject(identifier, v, s) {
      ObjectIdNamesTheObject(identifier, v, s);
    }
    if !v.Obj? { return None; }
    if "id" in v.fields && NamesItself(identifier, "id", v.fields["id"]) {
      return Some(v.fields["id"].s);
    }
    if |v.fields| != 1 { return None; }
    var k :| k in v.fields.Keys;
    forall other | other in v.fields ensures other == k {
      OneKey(v.fields, other, k);
    }
    var inner := v.fields[k];
    if inner.Obj? && "id" in inner.fields && NamesItself(identifier, "id", inner.fields["id"]) {
      return Some(inner.fields["id"].s);
    }
    return None;
  }

  /** The identifier the ledger would hold is one the walk owns, whatever the
      answer looks like. */
  lemma ObjectIdIsMinted(identifier: string -> bool, v: Value)
    ensures ObjectId(identifier, v).Some? ==> ObjectId(identifier, v).value in MintedIds(identifier, v)
  {
    if ObjectId(identifier, v).Some? {
      var id := ObjectId(identifier, v).value;
      var fs := v.fields;
      if "id" in fs && NamesItself(identifier, "id", fs["id"]) {
        assert id in MintedUnder(identifier, "id", fs["id"]);
      } else {
        var k :| k in fs;
        forall other | other in fs ensures other == k { OneKey(fs, other, k); }
        assert id in MintedUnder(identifier, "id", fs[k].fields["id"]);
        assert id in MintedIds(identifier, fs[k]);
        assert id in MintedUnder(identifier, k, fs[k]);
      }
    }
  }
}
