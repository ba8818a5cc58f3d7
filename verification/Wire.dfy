/** The path of a request as it reaches the server. What the replay holds is
    parsed as a URL before it goes out: a fragment is dropped, the query ends the
    path, and what is left is unescaped. */
module Wire {
  import opened Wrappers
  import opened Text

  // ----- escapes -----

  predicate IsHex(c: char) {
    '0' <= c <= '9' || 'a' <= c <= 'f' || 'A' <= c <= 'F'
  }

  function HexValue(c: char): (n: nat)
    requires IsHex(c)
    ensures n < 16
  {
    if c <= '9' then (c - '0') as nat else if c <= 'F' then (c - 'A') as nat + 10 else (c - 'a') as nat + 10
  }

  function HexDigit(n: nat): (c: char)
    requires n < 16
    ensures IsHex(c) && HexValue(c) == n
  {
    if n < 10 then '0' + n as char else 'A' + (n - 10) as char
  }

  /** The digits in the order of their values, in either case. */
  lemma HexMeans(c: char)
    ensures IsHex(c) <==> exists n :: 0 <= n < 16 && ("0123456789abcdef"[n] == c || "0123456789ABCDEF"[n] == c)
    ensures IsHex(c) ==> "0123456789abcdef"[HexValue(c)] == c || "0123456789ABCDEF"[HexValue(c)] == c
  {
    if IsHex(c) {
      var n := HexValue(c);
      assert 0 <= n < 16 && ("0123456789abcdef"[n] == c || "0123456789ABCDEF"[n] == c);
    }
  }

  /** A percent sign and two hexadecimal digits stand for a byte; a percent sign
      anywhere else is an error. */
  function Unescape(s: string): Option<string> {
    if s == "" then Some("")
    else if s[0] != '%' then Before(s[0], Unescape(s[1..]))
    else if |s| < 3 || !IsHex(s[1]) || !IsHex(s[2]) then None
    else Before((16 * HexValue(s[1]) + HexValue(s[2])) as char, Unescape(s[3..]))
  }

  function Before(c: char, rest: Option<string>): Option<string> {
    if rest.None? then None else Some([c] + rest.value)
  }

  function Joined(a: Option<string>, b: Option<string>): Option<string> {
    if a.None? || b.None? then None else Some(a.value + b.value)
  }

  lemma {:induction false} UnescapePlain(s: string)
    requires '%' !in s
    ensures Unescape(s) == Some(s)
  {
    if s == "" {
    } else {
      assert s[0] in s && forall c :: c in s[1..] ==> c in s;
      UnescapePlain(s[1..]);
      assert [s[0]] + s[1..] == s;
    }
  }

  /** A byte that is part of no escape parts what is unescaped. */
  lemma {:induction false} UnescapeAcross(a: string, c: char, b: string)
    requires c != '%' && !IsHex(c)
    ensures Unescape(a + [c] + b) == Joined(Unescape(a), Before(c, Unescape(b)))
  {
    var s := a + [c] + b;
    if a == "" {
      assert s[1..] == b;
      if Unescape(b).Some? { assert "" + ([c] + Unescape(b).value) == [c] + Unescape(b).value; }
    } else if a[0] != '%' {
      assert s[1..] == a[1..] + [c] + b;
      UnescapeAcross(a[1..], c, b);
      JoinBefore(a[0], Unescape(a[1..]), Before(c, Unescape(b)));
    } else if |a| < 3 {
      EscapeCutShort(a, c, b);
    } else if IsHex(a[1]) && IsHex(a[2]) {
      assert s[3..] == a[3..] + [c] + b;
      UnescapeAcross(a[3..], c, b);
      JoinBefore((16 * HexValue(a[1]) + HexValue(a[2])) as char, Unescape(a[3..]), Before(c, Unescape(b)));
    } else {
      assert s[1] == a[1] && s[2] == a[2];
    }
  }

  lemma EscapeCutShort(a: string, c: char, b: string)
    requires a != "" && a[0] == '%' && |a| < 3 && !IsHex(c)
    ensures Unescape(a + [c] + b) == None == Unescape(a)
  {
    var s := a + [c] + b;
    assert s[0] == '%' && s[|a|] == c && (|a| == 2 ==> s[1] == a[1]);
  }

  lemma JoinBefore(c: char, a: Option<string>, b: Option<string>)
    ensures Joined(Before(c, a), b) == Before(c, Joined(a, b))
  {
    if a.Some? && b.Some? { assert [c] + a.value + b.value == [c] + (a.value + b.value); }
  }

  /** A text of bytes with every byte escaped. */
  function Escape(s: string): string
    requires Bytes(s)
  {
    if s == "" then ""
    else
      assert s[0] in s && forall c :: c in s[1..] ==> c in s;
      ['%', HexDigit(s[0] as nat / 16), HexDigit(s[0] as nat % 16)] + Escape(s[1..])
  }

  predicate Bytes(s: string) {
    forall c :: c in s ==> c as nat < 256
  }

  lemma OneByteReads(c: char, rest: string)
    requires c as nat < 256
    ensures var e := ['%', HexDigit(c as nat / 16), HexDigit(c as nat % 16)];
            && Unescape(e + rest) == Before(c, Unescape(rest))
            && forall d :: d in e ==> d == '%' || IsHex(d)
  {
    var e := ['%', HexDigit(c as nat / 16), HexDigit(c as nat % 16)];
    assert (e + rest)[3..] == rest;
  }

  lemma {:induction false} UnescapeEscape(s: string)
    requires Bytes(s)
    ensures Unescape(Escape(s)) == Some(s)
    ensures forall c :: c in Escape(s) ==> c == '%' || IsHex(c)
    ensures s != "" ==> '%' in Escape(s)
  {
    if s == "" {
    } else {
      assert s[0] in s && forall c :: c in s[1..] ==> c in s;
      UnescapeEscape(s[1..]);
      OneByteReads(s[0], Escape(s[1..]));
      assert [s[0]] + s[1..] == s;
      assert Escape(s)[0] == '%';
    }
  }

  // ----- the path received -----

  predicate IsControl(c: char) {
    c < ' ' || c == '\U{7F}'
  }

  /** The control bytes, by their codes. */
  lemma ControlMeans(c: char)
    ensures IsControl(c) <==> c as int < 32 || c as int == 127
  {
  }

  predicate HoldsControl(s: string) {
    exists c :: c in s && IsControl(c)
  }

  /** `http.NewRequest` on an endpoint and this path, as far as the path goes; None
      when the request cannot be built. */
  function Received(path: string): Option<string> {
    var address := CutBefore(path, '#');
    if HoldsControl(address) then None
    else if '#' in path && Unescape(CutAfter(path, '#')).None? then None
    else Unescape(CutBefore(address, '?'))
  }

  /** A path the parser takes as it stands. */
  predicate Plain(path: string) {
    '#' !in path && '?' !in path && '%' !in path
  }

  lemma PlainIsReceived(path: string)
    requires Plain(path)
    ensures Received(path) == if HoldsControl(path) then None else Some(path)
  {
    UnescapePlain(path);
  }

  /** A path spelt in escapes arrives as what it spells. */
  lemma EscapedIsReceived(s: string)
    requires Bytes(s)
    ensures Received(Escape(s)) == Some(s)
  {
    UnescapeEscape(s);
    HexIsReceived(Escape(s));
  }

  lemma HexIsReceived(path: string)
    requires forall c :: c in path ==> c == '%' || IsHex(c)
    ensures Received(path) == Unescape(path)
  {
    assert '#' !in path && '?' !in path && !HoldsControl(path);
  }

  /** What stands behind the first hash does not arrive, but it has to read as an
      escaped text. */
  lemma TheFragmentIsDropped(address: string, fragment: string)
    requires '#' !in address
    ensures Received(address + ['#'] + fragment) == if Unescape(fragment).None? then None else Received(address)
  {
    CutAtFirst(address, '#', fragment);
    assert (address + ['#'] + fragment)[|address|] == '#';
  }

  /** What stands behind the first question mark does not arrive, but it may hold no
      control byte. */
  lemma TheQueryIsDropped(path: string, query: string)
    requires '#' !in path && '?' !in path && '#' !in query
    ensures Received(path + ['?'] + query) == if HoldsControl(query) then None else Received(path)
  {
    var whole := path + ['?'] + query;
    CutAtFirst(path, '?', query);
    assert '#' !in whole;
    ControlsOfThree(path, query);
  }

  lemma ControlsOfThree(path: string, query: string)
    ensures HoldsControl(path + ['?'] + query) <==> HoldsControl(path) || HoldsControl(query)
  {
    var whole := path + ['?'] + query;
    forall c ensures c in whole <==> c in path || c == '?' || c in query {}
    if c :| c in path && IsControl(c) { assert c in whole; }
    if c :| c in query && IsControl(c) { assert c in whole; }
  }

  /** The query ends the path. */
  lemma QueryEndsThePath(path: string, query: string)
    requires Plain(path) && '#' !in query && !HoldsControl(path) && !HoldsControl(query)
    ensures Received(path + ['?'] + query) == Some(path)
  {
    var whole := path + ['?'] + query;
    CutAtFirst(path, '?', query);
    assert '#' !in whole && !HoldsControl(whole);
    UnescapePlain(path);
  }

  lemma {:induction false} CutOfLonger(a: string, c: char, b: string)
    requires c in a
    ensures CutBefore(a + b, c) == CutBefore(a, c) && CutAfter(a + b, c) == CutAfter(a, c) + b
  {
    assert a[0] in a && c in a + b;
    if a[0] == c {
      assert (a + b)[1..] == a[1..] + b;
    } else {
      assert c in a[1..];
      assert (a + b)[1..] == a[1..] + b;
      CutOfLonger(a[1..], c, b);
    }
  }

  lemma MoreAfterTheHash(path: string, more: string, tail: string)
    requires '#' in path && Unescape(more) == Some(more) && tail == ['/'] + more
    ensures Received(path + tail) == Received(path)
  {
    CutOfLonger(path, '#', tail);
    UnescapableWithMore(CutAfter(path, '#'), more, tail);
  }

  lemma UnescapableWithMore(fragment: string, more: string, tail: string)
    requires Unescape(more) == Some(more) && tail == ['/'] + more
    ensures Unescape(fragment + tail).None? <==> Unescape(fragment).None?
  {
    assert fragment + tail == fragment + ['/'] + more;
    UnescapeAcross(fragment, '/', more);
  }

  lemma MoreOfThePath(path: string, more: string, tail: string)
    requires '#' !in path && '?' !in path && Plain(more) && Unescape(more) == Some(more) && tail == ['/'] + more
    requires HoldsControl(path + tail) <==> HoldsControl(path)
    ensures Received(path + tail) ==
              if Received(path).None? then None else Some(Received(path).value + ['/'] + more)
  {
    assert '#' !in path + tail && '?' !in path + tail;
    assert path + tail == path + ['/'] + more;
    UnescapeAcross(path, '/', more);
    if Unescape(path).Some? { AfterReceived(path, more); }
  }

  lemma AfterReceived(path: string, more: string)
    requires Unescape(path).Some?
    ensures Joined(Unescape(path), Before('/', Some(more))) == Some(Unescape(path).value + ['/'] + more)
  {
    assert Unescape(path).value + (['/'] + more) == Unescape(path).value + ['/'] + more;
  }

  lemma ControlsOfBoth(path: string, tail: string)
    requires !HoldsControl(tail)
    ensures HoldsControl(path + tail) <==> HoldsControl(path)
  {
    forall c ensures c in path + tail <==> c in path || c in tail {}
    if HoldsControl(path) {
      var c :| c in path && IsControl(c);
      assert c in path + tail;
    }
  }

  /** What a plain piece after a slash does to the path received: nothing, once the
      path has been ended. */
  lemma ReceivedWithMore(path: string, more: string)
    requires Plain(more) && !HoldsControl(more)
    ensures Received(path + ['/'] + more) ==
              if Received(path).None? || '#' in path || '?' in path then Received(path)
              else Some(Received(path).value + ['/'] + more)
  {
    var tail := ['/'] + more;
    assert path + ['/'] + more == path + tail;
    UnescapePlain(more);
    if '#' in path {
      MoreAfterTheHash(path, more, tail);
    } else if '?' in path {
      ControlsOfBoth(path, tail);
      CutOfLonger(path, '?', tail);
    } else {
      ControlsOfBoth(path, tail);
      MoreOfThePath(path, more, tail);
    }
  }
}
