/** Reading the provider constraints of a Terraform file: the text a pair of braces
    encloses, and the entries of every required_providers block. The file is taken
    after its comments are stripped. */
module ProviderBlocks {
  import Ordering
  import opened Wrappers
  import opened Text

  const MARK := "required_providers"

  // ----- braces -----

  /** How deep the braces stand after `t`, entered at depth `d`; None once the
      depth falls to zero. */
  function EndDepth(t: string, d: nat): Option<nat>
    requires d >= 1
  {
    if t == "" then Some(d)
    else if t[0] == '{' then EndDepth(t[1..], d + 1)
    else if t[0] == '}' then if d == 1 then None else EndDepth(t[1..], d - 1)
    else EndDepth(t[1..], d)
  }

  /** Every brace opened in `t` is closed in it, and no other. */
  predicate Balanced(t: string) {
    EndDepth(t, 1) == Some(1)
  }

  /** How many more braces are open than closed in the first `m` bytes. */
  function Excess(t: string, m: nat): int
    requires m <= |t|
  {
    Count(t[..m], '{') - Count(t[..m], '}')
  }

  lemma ExcessStep(t: string, m: nat)
    requires 0 < m <= |t|
    ensures Excess(t, m) == Turn(t[0]) + Excess(t[1..], m - 1)
  {
    assert t[..m][1..] == t[1..][..m - 1] && t[..m][0] == t[0];
  }

  ghost predicate StaysOpen(t: string, d: int) {
    forall m: nat :: m <= |t| ==> d + Excess(t, m) >= 1
  }

  function Turn(c: char): int {
    if c == '{' then 1 else if c == '}' then -1 else 0
  }

  lemma StaysOpenStep(t: string, d: nat)
    requires t != "" && d >= 1
    ensures StaysOpen(t, d) <==> StaysOpen(t[1..], d + Turn(t[0]))
  {
    assert Excess(t, 0) == 0;
    forall m: nat | 0 < m <= |t| ensures Excess(t, m) == Turn(t[0]) + Excess(t[1..], m - 1) { ExcessStep(t, m); }
    assert forall m: nat :: m <= |t[1..]| ==> Excess(t, m + 1) == Turn(t[0]) + Excess(t[1..], m);
  }

  lemma EndDepthStep(t: string, d: nat)
    requires t != "" && d >= 1
    ensures EndDepth(t, d) == if d + Turn(t[0]) >= 1 then EndDepth(t[1..], d + Turn(t[0])) else None
    ensures StaysOpen(t, d) ==> d + Turn(t[0]) >= 1
  {
    StaysOpenStep(t, d);
    assert Excess(t[1..], 0) == 0;
  }

  /** The depth is lost where what has been closed reaches it and what has been
      opened. */
  lemma {:induction false} DepthIsKept(t: string, d: nat)
    requires d >= 1
    ensures EndDepth(t, d).Some? <==> StaysOpen(t, d)
  {
    if t == "" {
      assert Excess(t, 0) == 0;
    } else {
      EndDepthStep(t, d);
      StaysOpenStep(t, d);
      if d + Turn(t[0]) >= 1 { DepthIsKept(t[1..], d + Turn(t[0])); }
    }
  }

  lemma {:induction false} DepthIsCounted(t: string, d: nat)
    requires d >= 1 && EndDepth(t, d).Some?
    ensures EndDepth(t, d).value == d + Excess(t, |t|)
  {
    if t == "" {
    } else {
      EndDepthStep(t, d);
      ExcessStep(t, |t|);
      DepthIsCounted(t[1..], d + Turn(t[0]));
    }
  }

  /** Balanced: as many braces closed as opened, and never more. */
  lemma BalancedMeans(t: string)
    ensures Balanced(t) <==> Excess(t, |t|) == 0 && forall m: nat :: m <= |t| ==> Excess(t, m) >= 0
  {
    DepthIsKept(t, 1);
    if EndDepth(t, 1).Some? { DepthIsCounted(t, 1); }
  }

  /** Where the brace that brings the depth back to zero stands. */
  function CloseAt(s: string, d: nat): (r: Option<nat>)
    requires d >= 1
    ensures r.Some? ==> r.value < |s|
  {
    if s == "" then None
    else if s[0] == '}' && d == 1 then Some(0)
    else
      var r := CloseAt(s[1..], if s[0] == '{' then d + 1 else if s[0] == '}' then d - 1 else d);
      if r.None? then None else Some(r.value + 1)
  }

  lemma {:induction false} EndDepthAppend(a: string, b: string, d: nat)
    requires d >= 1
    ensures var e := EndDepth(a, d);
            e.Some? ==> e.value >= 1 && EndDepth(a + b, d) == EndDepth(b, e.value)
    ensures EndDepth(a, d).None? ==> EndDepth(a + b, d).None?
  {
    if a == "" {
      assert a + b == b;
    } else {
      assert (a + b)[1..] == a[1..] + b;
      if a[0] == '{' { EndDepthAppend(a[1..], b, d + 1); }
      else if a[0] == '}' { if d > 1 { EndDepthAppend(a[1..], b, d - 1); } }
      else { EndDepthAppend(a[1..], b, d); }
    }
  }

  /** The close is the first brace at which the span balances, and there is none
      exactly when the depth never falls to zero. */
  lemma {:induction false} CloseMeans(s: string, d: nat)
    requires d >= 1
    ensures var r := CloseAt(s, d);
            if r.None? then EndDepth(s, d).Some?
            else s[r.value] == '}' && EndDepth(s[..r.value], d) == Some(1)
    ensures forall m :: 0 <= m <= |s| && EndDepth(s[..m], d).None? ==> CloseAt(s, d).Some? && CloseAt(s, d).value < m
  {
    var r := CloseAt(s, d);
    if s == "" {
    } else if s[0] == '}' && d == 1 {
      assert s[..0] == "";
    } else {
      var d' := if s[0] == '{' then d + 1 else if s[0] == '}' then d - 1 else d;
      CloseMeans(s[1..], d');
      if r.Some? {
        assert s[..r.value][1..] == s[1..][..r.value - 1];
      }
      forall m | 0 <= m <= |s| && EndDepth(s[..m], d).None?
        ensures r.Some? && r.value < m
      {
        if m > 0 { assert s[..m][1..] == s[1..][..m - 1]; }
      }
    }
  }

  /** What stands before the brace that closes a block, once it is open. */
  function Enclosed(rest: string): (t: Option<string>)
    ensures t.Some? ==> |t.value| < |rest| && t.value <= rest
  {
    var r := CloseAt(rest, 1);
    if r.None? then None else Some(rest[..r.value])
  }

  /** A block's text, and how far past its closing brace. */
  datatype Span = Span(text: string, next: nat)

  /** The block at or after the start of `s`; nothing, and the end of the text,
      when no brace opens or the one that does is never matched. */
  function BlockOf(s: string): (b: Span)
    ensures b.next <= |s| && (s != "" ==> b.next > 0)
    ensures '{' in s ==> |CutBefore(s, '{')| < b.next
  {
    if '{' !in s then Span("", |s|)
    else
      var open := |CutBefore(s, '{')|;
      var t := Enclosed(s[open + 1..]);
      if t.None? then Span("", |s|) else Span(t.value, open + 2 + |t.value|)
  }

  /** The depth has not fallen to zero within the first `m` bytes. */
  ghost predicate StillOpen(s: string, m: nat)
    requires m <= |s|
  {
    EndDepth(s[..m], 1).Some?
  }

  lemma BalancedThenClosed(t: string, tail: string)
    requires Balanced(t) && tail != "" && tail[0] == '}'
    ensures EndDepth(t + tail, 1).None?
  {
    EndDepthAppend(t, tail, 1);
  }

  /** The close parts the prefixes that are still open from those that are not. */
  lemma CloseParts(s: string)
    ensures var r := CloseAt(s, 1);
            if r.None? then forall m: nat :: m <= |s| ==> StillOpen(s, m)
            else
              && s[r.value] == '}' && Balanced(s[..r.value])
              && forall m: nat :: m <= |s| ==> (StillOpen(s, m) <==> m <= r.value)
  {
    CloseMeans(s, 1);
    var r := CloseAt(s, 1);
    if r.Some? {
      forall m: nat | r.value < m <= |s|
        ensures !StillOpen(s, m)
      {
        BalancedThenClosed(s[..r.value], s[r.value..m]);
        assert s[..m] == s[..r.value] + s[r.value..m];
      }
    }
  }

  /** The text between the first brace and its match: it balances, its match is
      there, no shorter or longer span is one, and only a brace nothing matches
      gives up on the rest of the file. */
  lemma BlockIsTheShortestBalancedSpan(before: string, rest: string)
    requires '{' !in before
    ensures var b, s := BlockOf(before + "{" + rest), before + "{" + rest;
            if forall m: nat :: m <= |rest| ==> StillOpen(rest, m) then b == Span("", |s|)
            else
              && b.next == |before| + |b.text| + 2 && b.text + "}" <= rest && Balanced(b.text)
              && forall m: nat :: m <= |rest| ==> (StillOpen(rest, m) <==> m <= |b.text|)
  {
    var s := before + "{" + rest;
    CutAtFirst(before, '{', rest);
    assert s[|before| + 1..] == rest;
    assert s[|before|] == '{';
    CloseParts(rest);
    var t := Enclosed(rest);
    if t.Some? {
      assert rest[..|t.value| + 1] == t.value + "}";
      assert !StillOpen(rest, |rest|);
    }
  }

  /** block: the scan with its depth counter. */
  method Block(body: string, start: nat) returns (text: string, next: nat)
    requires start <= |body|
    ensures text == BlockOf(body[start..]).text && next == start + BlockOf(body[start..]).next
  {
    if '{' !in body[start..] { return "", |body|; }
    var open := start + |CutBefore(body[start..], '{')|;
    ItOpens(body, start, open);
    var depth: nat := 0;
    var i := open;
    while i < |body|
      invariant open <= i <= |body|
      invariant Stands(body, open, i, depth)
    {
      StandsOn(body, open, i, depth);
      ghost var stood := NextDepth(depth, body[i]);
      if body[i] == '{' {
        depth := depth + 1;
      } else if body[i] == '}' {
        depth := depth - 1;
        if depth == 0 {
          BlockCloses(body, start, open, i);
          return body[open + 1..i], i + 1;
        }
      }
      assert depth == stood;
      i := i + 1;
    }
    BlockNeverCloses(body, start, open, depth);
    return "", |body|;
  }

  /** The first brace from `start` on. */
  ghost predicate OpensAt(body: string, start: nat, open: nat) {
    && start <= |body| && '{' in body[start..] && open == start + |CutBefore(body[start..], '{')|
    && open < |body| && body[open] == '{'
  }

  lemma ItOpens(body: string, start: nat, open: nat)
    requires start <= |body| && '{' in body[start..] && open == start + |CutBefore(body[start..], '{')|
    ensures OpensAt(body, start, open) && open < |body| && body[open] == '{'
  {
    BlockFrom(body, start, open);
  }

  lemma BlockCloses(body: string, start: nat, open: nat, i: nat)
    requires OpensAt(body, start, open)
    requires open < i < |body| && CloseAt(body[open + 1..], 1) == Some(i - open - 1)
    ensures start <= |body| && BlockOf(body[start..]) == Span(body[open + 1..i], i + 1 - start)
  {
    BlockFrom(body, start, open);
  }

  lemma BlockNeverCloses(body: string, start: nat, open: nat, depth: nat)
    requires OpensAt(body, start, open)
    requires open < |body| && Stands(body, open, |body|, depth)
    ensures start <= |body| && BlockOf(body[start..]) == Span("", |body| - start)
  {
    BlockFrom(body, start, open);
  }

  /** The scan has come to `i` at depth `depth`, and the close is ahead. */
  ghost predicate Stands(body: string, open: nat, i: nat, depth: nat)
    requires open < |body|
  {
    if i == open then depth == 0
    else
      && open < i <= |body| && depth >= 1
      && CloseAt(body[open + 1..], 1) == Later(i - open - 1, CloseAt(body[i..], depth))
  }

  function NextDepth(depth: nat, c: char): int {
    depth + Turn(c)
  }

  lemma StandsOn(body: string, open: nat, i: nat, depth: nat)
    requires open <= i < |body| && body[open] == '{' && Stands(body, open, i, depth)
    ensures NextDepth(depth, body[i]) >= 0
    ensures if NextDepth(depth, body[i]) == 0 then i > open && CloseAt(body[open + 1..], 1) == Some(i - open - 1)
            else Stands(body, open, i + 1, NextDepth(depth, body[i]))
  {
    assert body[i..][1..] == body[i + 1..];
  }

  lemma BlockFrom(body: string, start: nat, open: nat)
    requires start <= |body| && '{' in body[start..] && open == start + |CutBefore(body[start..], '{')|
    ensures open < |body| && body[open] == '{'
    ensures var r := CloseAt(body[open + 1..], 1);
            BlockOf(body[start..]) == if r.None? then Span("", |body| - start)
                                      else Span(body[open + 1..open + 1 + r.value], open + 2 + r.value - start)
  {
    var s := body[start..];
    assert s[open - start + 1..] == body[open + 1..];
    var r := CloseAt(body[open + 1..], 1);
    if r.Some? {
      assert body[open + 1..][..r.value] == body[open + 1..open + 1 + r.value];
    }
  }

  function Later(n: nat, r: Option<nat>): Option<nat> {
    if r.None? then None else Some(n + r.value)
  }

  // ----- the patterns -----

  predicate IsNameByte(c: char) {
    'A' <= c <= 'Z' || 'a' <= c <= 'z' || '0' <= c <= '9' || c == '_' || c == '-'
  }

  function AfterSpace(s: string): (r: string)
    ensures |r| <= |s|
  {
    if s != "" && IsReSpace(s[0]) then AfterSpace(s[1..]) else s
  }

  function AfterName(s: string): (r: string)
    ensures |r| <= |s|
  {
    if s != "" && IsNameByte(s[0]) then AfterName(s[1..]) else s
  }

  /** The text after white space and one given byte, when it stands there. */
  function AfterByte(s: string, c: char): (r: Option<string>)
    ensures r.Some? ==> |r.value| < |s|
  {
    var a := AfterSpace(s);
    if a != "" && a[0] == c then Some(a[1..]) else None
  }

  /** A name, an equals sign and an opening brace, white space between them. */
  predicate IsHead(s: string) {
    var b := AfterName(s);
    |b| < |s| && (var c := AfterByte(b, '='); c.Some? && AfterByte(c.value, '{').Some?)
  }

  /** The value of a key, an equals sign and a quoted text that is not empty. */
  function AttributeOf(s: string, key: string): Option<string> {
    if !HasPrefix(s, key) then None
    else
      var b := AfterByte(s[|key|..], '=');
      if b.None? then None
      else
        var c := AfterByte(b.value, '"');
        if c.None? || '"' !in c.value || CutBefore(c.value, '"') == "" then None
        else Some(CutBefore(c.value, '"'))
  }

  predicate AllReSpace(s: string) {
    forall c :: c in s ==> IsReSpace(c)
  }

  lemma {:induction false} SpaceSkipped(space: string, t: string)
    requires AllReSpace(space) && (t != "" ==> !IsReSpace(t[0]))
    ensures AfterSpace(space + t) == t
  {
    if space == "" {
      assert space + t == t;
    } else {
      assert space[0] in space && forall c :: c in space[1..] ==> c in space;
      assert (space + t)[1..] == space[1..] + t;
      SpaceSkipped(space[1..], t);
    }
  }

  lemma {:induction false} NameSkipped(name: string, t: string)
    requires (forall c :: c in name ==> IsNameByte(c)) && (t != "" ==> !IsNameByte(t[0]))
    ensures AfterName(name + t) == t
  {
    if name == "" {
      assert name + t == t;
    } else {
      assert name[0] in name && forall c :: c in name[1..] ==> c in name;
      assert (name + t)[1..] == name[1..] + t;
      NameSkipped(name[1..], t);
    }
  }

  lemma OneMoreReSpace(c: char, white: string)
    requires AllReSpace(white) && IsReSpace(c)
    ensures AllReSpace([c] + white)
  {
  }

  lemma {:induction false} SpaceLeads(s: string) returns (white: string)
    ensures AllReSpace(white) && s == white + AfterSpace(s) && (AfterSpace(s) != "" ==> !IsReSpace(AfterSpace(s)[0]))
  {
    if s != "" && IsReSpace(s[0]) {
      var more := SpaceLeads(s[1..]);
      OneMoreReSpace(s[0], more);
      white := [s[0]] + more;
      assert s == [s[0]] + s[1..];
    } else {
      white := "";
    }
  }

  lemma {:induction false} NameLeads(s: string) returns (name: string)
    ensures (forall c :: c in name ==> IsNameByte(c)) && s == name + AfterName(s)
  {
    if s != "" && IsNameByte(s[0]) {
      var more := NameLeads(s[1..]);
      name := [s[0]] + more;
      assert s == [s[0]] + s[1..];
    } else {
      name := "";
    }
  }

  /** The bytes of a name, by their codes: letters, digits, underscore and dash. */
  lemma NameByteMeans(c: char)
    ensures IsNameByte(c) <==>
              var n := c as int; 65 <= n <= 90 || 97 <= n <= 122 || 48 <= n <= 57 || n == 95 || n == 45
  {
  }

  lemma ByteReads(white: string, c: char, t: string)
    requires AllReSpace(white) && !IsReSpace(c)
    ensures AfterByte(white + ([c] + t), c) == Some(t)
  {
    SpaceSkipped(white, [c] + t);
    assert ([c] + t)[1..] == t;
  }

  lemma ByteLeads(s: string, c: char) returns (white: string)
    requires AfterByte(s, c).Some?
    ensures AllReSpace(white) && s == white + ([c] + AfterByte(s, c).value)
  {
    white := SpaceLeads(s);
    var a := AfterSpace(s);
    assert a == [c] + a[1..];
  }

  /** The text is a name, an equals sign and an opening brace, white space between
      them, and what follows. */
  ghost predicate HeadIs(s: string, name: string, left: string, right: string, rest: string) {
    && name != "" && (forall c :: c in name ==> IsNameByte(c)) && AllReSpace(left) && AllReSpace(right)
    && s == name + (left + (['='] + (right + (['{'] + rest))))
  }

  lemma HeadMeans(s: string)
    ensures IsHead(s) <==> exists name, left, right, rest :: HeadIs(s, name, left, right, rest)
  {
    if IsHead(s) {
      var name := NameLeads(s);
      var c := AfterByte(AfterName(s), '=').value;
      var left := ByteLeads(AfterName(s), '=');
      var right := ByteLeads(c, '{');
      assert HeadIs(s, name, left, right, AfterByte(c, '{').value);
    }
    if name, left, right, rest :| HeadIs(s, name, left, right, rest) { HeadIsRead(s, name, left, right, rest); }
  }

  lemma HeadIsRead(s: string, name: string, left: string, right: string, rest: string)
    requires HeadIs(s, name, left, right, rest)
    ensures IsHead(s)
  {
    var braced := ['{'] + rest;
    var after := left + (['='] + (right + braced));
    assert left != "" ==> left[0] in left;
    NameSkipped(name, after);
    ByteReads(left, '=', right + braced);
    ByteReads(right, '{', rest);
  }

  /** The text is the key, an equals sign and the value in quotes, white space between
      them, and what follows. */
  ghost predicate AttributeIs(s: string, key: string, value: string, left: string, right: string, rest: string) {
    && value != "" && '"' !in value && AllReSpace(left) && AllReSpace(right)
    && s == key + (left + (['='] + (right + (['"'] + (value + ['"'] + rest)))))
  }

  lemma AttributeMeans(s: string, key: string, value: string)
    ensures AttributeOf(s, key) == Some(value) <==> exists left, right, rest ::
              AttributeIs(s, key, value, left, right, rest)
  {
    if AttributeOf(s, key) == Some(value) {
      var b := AfterByte(s[|key|..], '=').value;
      var c := AfterByte(b, '"').value;
      var left := ByteLeads(s[|key|..], '=');
      var right := ByteLeads(b, '"');
      assert s == key + s[|key|..];
      assert c == value + ['"'] + CutAfter(c, '"');
      assert AttributeIs(s, key, value, left, right, CutAfter(c, '"'));
    }
    if left, right, rest :| AttributeIs(s, key, value, left, right, rest) {
      AttributeIsRead(s, key, value, left, right, rest);
    }
  }

  lemma AttributeIsRead(s: string, key: string, value: string, left: string, right: string, rest: string)
    requires AttributeIs(s, key, value, left, right, rest)
    ensures AttributeOf(s, key) == Some(value)
  {
    var quoted := value + ['"'] + rest;
    var after := left + (['='] + (right + (['"'] + quoted)));
    assert s[|key|..] == after && s[..|key|] == key;
    ByteReads(left, '=', right + (['"'] + quoted));
    ByteReads(right, '"', quoted);
    CutAtFirst(value, '"', rest);
    assert quoted[|value|] == '"';
  }

  function HasKey(key: string): string -> bool {
    s => AttributeOf(s, key).Some?
  }

  /** The first place a line starts at which, white space skipped, the text passes
      the test; the place a search begins counts as one. */
  function FindLine(s: string, test: string -> bool, lineStart: bool): (r: Option<nat>)
    ensures r.Some? ==> r.value <= |s|
  {
    if lineStart && test(AfterSpace(s)) then Some(0)
    else if s == "" then None
    else Later(1, FindLine(s[1..], test, s[0] == '\n'))
  }

  /** A line starts at `k`, and from there, white space skipped, the test passes. */
  ghost predicate PassesAt(s: string, test: string -> bool, lineStart: bool, k: nat)
    requires k <= |s|
  {
    (if k == 0 then lineStart else s[k - 1] == '\n') && test(AfterSpace(s[k..]))
  }

  lemma PassesLater(s: string, test: string -> bool, lineStart: bool, k: nat)
    requires 0 < k <= |s|
    ensures PassesAt(s, test, lineStart, k) <==> PassesAt(s[1..], test, s[0] == '\n', k - 1)
  {
    assert s[1..][k - 1..] == s[k..];
  }

  /** What is found is the first such place. */
  lemma {:induction false} FindLineMeans(s: string, test: string -> bool, lineStart: bool)
    ensures var r := FindLine(s, test, lineStart);
      && (r.Some? ==> PassesAt(s, test, lineStart, r.value))
      && forall k: nat :: k <= |s| && PassesAt(s, test, lineStart, k) ==> r.Some? && r.value <= k
  {
    assert s[0..] == s;
    if !(lineStart && test(AfterSpace(s))) && s != "" {
      FindLineMeans(s[1..], test, s[0] == '\n');
      forall k: nat | 0 < k <= |s|
        ensures PassesAt(s, test, lineStart, k) <==> PassesAt(s[1..], test, s[0] == '\n', k - 1)
      {
        PassesLater(s, test, lineStart, k);
      }
    }
  }

  function FindHead(s: string): (r: Option<nat>)
    ensures r.Some? ==> r.value <= |s|
  {
    FindLine(s, IsHead, true)
  }

  lemma {:induction false} FoundLinePasses(s: string, test: string -> bool, lineStart: bool)
    ensures var r := FindLine(s, test, lineStart); r.Some? ==> test(AfterSpace(s[r.value..]))
  {
    if lineStart && test(AfterSpace(s)) {
      assert s[0..] == s;
    } else if s != "" {
      FoundLinePasses(s[1..], test, s[0] == '\n');
      var r := FindLine(s[1..], test, s[0] == '\n');
      if r.Some? { assert s[1..][r.value..] == s[r.value + 1..]; }
    }
  }

  lemma HeadIsInside(s: string)
    ensures FindHead(s).Some? ==> FindHead(s).value < |s|
  {
    FoundLinePasses(s, IsHead, true);
  }

  function FindAttribute(s: string, key: string): Option<string> {
    var j := FindLine(s, HasKey(key), true);
    if j.None? then None else AttributeOf(AfterSpace(s[j.value..]), key)
  }

  // ----- what is read -----

  datatype Pin = Pin(source: string, constraint: string)

  function ValueOf(v: Option<string>): string {
    if v.None? then "" else v.value
  }

  function PinOf(entry: string): Pin {
    Pin(ValueOf(FindAttribute(entry, "source")), ValueOf(FindAttribute(entry, "version")))
  }

  function Named(pin: Pin): seq<Pin> {
    if pin.source != "" then [pin] else []
  }

  /** The texts a cutter takes off `s`, each cut going on where the last ended. */
  function CutAll(s: string, cutter: string -> Option<Span>): seq<string>
    decreases |s|
  {
    var c := cutter(s);
    if c.None? || c.value.next == 0 || c.value.next > |s| then []
    else [c.value.text] + CutAll(s[c.value.next..], cutter)
  }

  /** The block at or after `from`. */
  function BlockAfter(s: string, from: nat): Span
    requires from < |s|
  {
    var b := BlockOf(s[from..]);
    Span(b.text, from + b.next)
  }

  /** The first block a marker announces. */
  function MarkedBlock(s: string, mark: string): Option<Span>
    requires mark != ""
  {
    var j := Index(s, mark);
    if j == -1 then None else Some(BlockAfter(s, j))
  }

  function Marked(mark: string): string -> Option<Span>
    requires mark != ""
  {
    s => MarkedBlock(s, mark)
  }

  /** The first entry of a block. */
  function EntryBlock(s: string): Option<Span> {
    HeadIsInside(s);
    var j := FindHead(s);
    if j.None? then None else Some(BlockAfter(s, j.value))
  }

  /** The entries that name a source, in order. */
  function EntryPins(entries: seq<string>): seq<Pin> {
    if entries == [] then [] else EntryPins(entries[..|entries| - 1]) + Named(PinOf(entries[|entries| - 1]))
  }

  /** The entries of every block, in order. */
  function BlockPins(inners: seq<string>): seq<Pin> {
    if inners == [] then []
    else BlockPins(inners[..|inners| - 1]) + EntryPins(CutAll(inners[|inners| - 1], EntryBlock))
  }

  /** requiredProviders, its two loops over one text; the marker is MARK. */
  method RequiredProviders(clean: string, mark: string) returns (out: seq<Pin>)
    requires mark != ""
    ensures out == BlockPins(CutAll(clean, Marked(mark)))
  {
    out := [];
    var i := 0;
    ghost var done: seq<string> := [];
    CutBegins(clean, Marked(mark));
    ghost var all := CutAll(clean, Marked(mark));
    while true
      invariant i <= |clean|
      invariant Coming(clean, Marked(mark), i, done, all)
      invariant out == BlockPins(done)
      decreases |clean| - i
    {
      var j := Index(clean[i..], mark);
      if j == -1 {
        CutEnds(clean, Marked(mark), i, done, all);
        return;
      }
      var at := i + j;
      var inner, next := Block(clean, at);
      MarkedCut(clean, mark, i, at, inner, next);
      CutStep(clean, Marked(mark), i, done, all, inner, next);
      BlockPinsSnoc(done, inner);
      done := done + [inner];
      out := ReadEntries(inner, out);
      i := next;
    }
  }

  /** The inner loop: one block's entries, appended. */
  method ReadEntries(inner: string, before: seq<Pin>) returns (out: seq<Pin>)
    ensures out == before + EntryPins(CutAll(inner, EntryBlock))
  {
    out := before;
    var k := 0;
    ghost var done: seq<string> := [];
    CutBegins(inner, EntryBlock);
    ghost var all := CutAll(inner, EntryBlock);
    while true
      invariant k <= |inner|
      invariant Coming(inner, EntryBlock, k, done, all)
      invariant out == before + EntryPins(done)
      decreases |inner| - k
    {
      HeadIsInside(inner[k..]);
      var head := FindHead(inner[k..]);
      if head.None? {
        CutEnds(inner, EntryBlock, k, done, all);
        return;
      }
      var at := k + head.value;
      var entry, after := Block(inner, at);
      EntryCut(inner, k, at, entry, after);
      CutStep(inner, EntryBlock, k, done, all, entry, after);
      EntryPinsSnoc(done, entry);
      Ordering.Assoc(before, EntryPins(done), Named(PinOf(entry)));
      done := done + [entry];
      var source := FindAttribute(entry, "source");
      var version := FindAttribute(entry, "version");
      out := out + Named(Pin(ValueOf(source), ValueOf(version)));
      k := after;
    }
  }

  /** What is cut off the rest of `s` after `i`, still to come after `done`. */
  ghost predicate Coming(s: string, cutter: string -> Option<Span>, i: nat, done: seq<string>, all: seq<string>)
    requires i <= |s|
  {
    done + CutAll(s[i..], cutter) == all
  }

  lemma CutBegins(s: string, cutter: string -> Option<Span>)
    ensures Coming(s, cutter, 0, [], CutAll(s, cutter))
  {
    assert s[0..] == s;
  }

  lemma CutUnfolds(s: string, cutter: string -> Option<Span>, i: nat, text: string, next: nat)
    requires i < next <= |s| && cutter(s[i..]) == Some(Span(text, next - i))
    ensures CutAll(s[i..], cutter) == [text] + CutAll(s[next..], cutter)
  {
    assert s[i..][next - i..] == s[next..];
  }

  lemma CutStep(s: string, cutter: string -> Option<Span>, i: nat, done: seq<string>, all: seq<string>, text: string,
                next: nat)
    requires i < next <= |s| && Coming(s, cutter, i, done, all)
    requires cutter(s[i..]) == Some(Span(text, next - i))
    ensures Coming(s, cutter, next, done + [text], all)
  {
    CutUnfolds(s, cutter, i, text, next);
    Ordering.Assoc(done, [text], CutAll(s[next..], cutter));
  }

  lemma CutEnds(s: string, cutter: string -> Option<Span>, i: nat, done: seq<string>, all: seq<string>)
    requires i <= |s| && Coming(s, cutter, i, done, all) && cutter(s[i..]).None?
    ensures done == all
  {
  }

  lemma BlockShifts(s: string, i: nat, at: nat, text: string, next: nat)
    requires i <= at < |s|
    requires text == BlockOf(s[at..]).text && next == at + BlockOf(s[at..]).next
    ensures BlockAfter(s[i..], at - i) == Span(text, next - i) && at < next <= |s|
  {
    assert s[i..][at - i..] == s[at..];
  }

  lemma MarkedCut(s: string, mark: string, i: nat, at: nat, text: string, next: nat)
    requires mark != "" && i <= at < |s| && Index(s[i..], mark) == at - i
    requires text == BlockOf(s[at..]).text && next == at + BlockOf(s[at..]).next
    ensures Marked(mark)(s[i..]) == Some(Span(text, next - i)) && i < next <= |s|
  {
    BlockShifts(s, i, at, text, next);
  }

  lemma EntryCut(s: string, i: nat, at: nat, text: string, next: nat)
    requires i <= at < |s| && FindHead(s[i..]) == Some(at - i)
    requires text == BlockOf(s[at..]).text && next == at + BlockOf(s[at..]).next
    ensures EntryBlock(s[i..]) == Some(Span(text, next - i)) && i < next <= |s|
  {
    BlockShifts(s, i, at, text, next);
    EntryFound(s[i..], at - i);
  }

  lemma EntryFound(s: string, j: nat)
    requires j < |s| && FindHead(s) == Some(j)
    ensures EntryBlock(s) == Some(BlockAfter(s, j))
  {
  }

  lemma EntryPinsSnoc(entries: seq<string>, entry: string)
    ensures EntryPins(entries + [entry]) == EntryPins(entries) + Named(PinOf(entry))
  {
    assert (entries + [entry])[..|entries|] == entries;
  }

  lemma BlockPinsSnoc(inners: seq<string>, inner: string)
    ensures BlockPins(inners + [inner]) == BlockPins(inners) + EntryPins(CutAll(inner, EntryBlock))
  {
    assert (inners + [inner])[..|inners|] == inners;
  }

  // ----- the blocks are disjoint and in order -----

  ghost predicate Inside(text: string, s: string, lo: nat, hi: nat) {
    exists k :: lo <= k && k + |text| <= hi && OccursAt(s, text, k)
  }

  /** What is cut is a stretch of what was left, and leaves less. */
  ghost predicate CutFrom(c: Option<Span>, s: string) {
    c.Some? ==> 0 < c.value.next <= |s| && Inside(c.value.text, s, 0, c.value.next)
  }

  ghost predicate CutsInside(cutter: string -> Option<Span>) {
    forall s :: CutFrom(cutter(s), s)
  }

  lemma BlockIsCutFrom(s: string, from: nat)
    requires from < |s|
    ensures CutFrom(Some(BlockAfter(s, from)), s)
  {
    var rest := s[from..];
    var text := BlockOf(rest).text;
    if text == "" {
      assert OccursAt(s, text, 0);
    } else {
      var open := |CutBefore(rest, '{')|;
      assert text == rest[open + 1..][..|text|];
      assert OccursAt(s, text, from + open + 1);
    }
  }

  lemma MarkedBlocksAreCut(mark: string)
    requires mark != ""
    ensures CutsInside(Marked(mark))
  {
    forall s: string
      ensures CutFrom(Marked(mark)(s), s)
    {
      var j := Index(s, mark);
      if j != -1 { BlockIsCutFrom(s, j); }
    }
  }

  lemma EntriesAreCut()
    ensures CutsInside(EntryBlock)
  {
    forall s: string
      ensures CutFrom(EntryBlock(s), s)
    {
      HeadIsInside(s);
      var j := FindHead(s);
      if j.Some? { BlockIsCutFrom(s, j.value); }
    }
  }

  /** Every text lies between the end of the one before it and its own. */
  ghost predicate InOrder(texts: seq<string>, s: string, from: nat, ends: seq<nat>) {
    && |texts| == |ends|
    && (texts == [] ||
        (&& from < ends[0] <= |s| && Inside(texts[0], s, from, ends[0])
         && InOrder(texts[1..], s, ends[0], ends[1..])))
  }

  /** The blocks found are disjoint stretches of the text, in order. */
  lemma {:induction false} BlocksAreDisjointAndInOrder(s: string, cutter: string -> Option<Span>, i: nat)
    returns (ends: seq<nat>)
    requires CutsInside(cutter) && i <= |s|
    ensures InOrder(CutAll(s[i..], cutter), s, i, ends)
    decreases |s| - i
  {
    var c := cutter(s[i..]);
    if c.None? { return []; }
    var text, next := c.value.text, i + c.value.next;
    var later := BlocksAreDisjointAndInOrder(s, cutter, next);
    CutUnfolds(s, cutter, i, text, next);
    InsideShifts(text, s, i, next);
    ends := [next] + later;
    var texts := [text] + CutAll(s[next..], cutter);
    assert texts[1..] == CutAll(s[next..], cutter) && ends[1..] == later;
  }

  lemma InsideShifts(text: string, s: string, i: nat, next: nat)
    requires i <= next <= |s| && Inside(text, s[i..], 0, next - i)
    ensures Inside(text, s, i, next)
  {
    var k :| 0 <= k && k + |text| <= next - i && OccursAt(s[i..], text, k);
    assert s[i + k..i + k + |text|] == s[i..][k..k + |text|];
    assert OccursAt(s, text, i + k);
  }
}
