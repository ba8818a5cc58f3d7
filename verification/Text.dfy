/** The string operations the command line uses, over bytes written as `char`:
    splitting on one byte, cutting before one byte, first occurrence of a
    substring, and the byte-wise order `sort.Strings` sorts by. */
module Text {

  // ----- splitting on one byte -----

  /** Every stretch between two separators, the empty ones included. */
  function Split(s: string, sep: char): (parts: seq<string>)
    ensures |parts| >= 1
  {
    if s == "" then [""]
    else if s[0] == sep then [""] + Split(s[1..], sep)
    else var rest := Split(s[1..], sep); [[s[0]] + rest[0]] + rest[1..]
  }

  lemma {:induction false} SplitHasNoSeparator(s: string, sep: char)
    ensures forall p :: p in Split(s, sep) ==> sep !in p
  {
    if s == "" {
    } else {
      SplitHasNoSeparator(s[1..], sep);
    }
  }

  lemma {:induction false} SplitIsPart(s: string, sep: char)
    ensures forall p, c :: p in Split(s, sep) && c in p ==> c in s
  {
    if s == "" {
    } else {
      SplitIsPart(s[1..], sep);
      var rest := Split(s[1..], sep);
      assert forall c :: c in s[1..] ==> c in s;
      forall p, c | p in Split(s, sep) && c in p
        ensures c in s
      {
        if p !in rest && p != "" {
          assert p == [s[0]] + rest[0] && rest[0] in rest;
        }
      }
    }
  }

  lemma {:induction false} SplitOfPiece(s: string, sep: char)
    requires sep !in s
    ensures Split(s, sep) == [s]
  {
    if s == "" {
    } else {
      assert forall c :: c in s[1..] ==> c in s;
      SplitOfPiece(s[1..], sep);
      assert [s[0]] + s[1..] == s;
    }
  }

  /** Splitting two texts joined by the separator is splitting each. */
  lemma {:induction false} SplitAcross(a: string, sep: char, b: string)
    ensures Split(a + [sep] + b, sep) == Split(a, sep) + Split(b, sep)
  {
    var whole := a + [sep] + b;
    if a == "" {
      assert whole[1..] == b;
    } else {
      assert whole[1..] == a[1..] + [sep] + b;
      SplitAcross(a[1..], sep, b);
    }
  }

  /** strings.Join. */
  function Join(parts: seq<string>, sep: string): string {
    if |parts| == 0 then ""
    else if |parts| == 1 then parts[0]
    else parts[0] + sep + Join(parts[1..], sep)
  }

  ghost predicate AreCutFrom(parts: seq<string>, s: string, sep: char) {
    parts != [] && (forall p :: p in parts ==> sep !in p) && Join(parts, [sep]) == s
  }

  /** Splitting is the one way to cut a text into pieces without the separator that
      give it back when joined. */
  lemma SplitIsTheCut(s: string, sep: char, parts: seq<string>)
    ensures parts == Split(s, sep) <==> AreCutFrom(parts, s, sep)
  {
    SplitHasNoSeparator(s, sep);
    SplitJoins(s, sep);
    if AreCutFrom(parts, s, sep) { JoinSplits(parts, sep); }
  }

  lemma {:induction false} SplitJoins(s: string, sep: char)
    ensures Join(Split(s, sep), [sep]) == s
  {
    if s == "" {
    } else {
      SplitJoins(s[1..], sep);
      var rest, all := Split(s[1..], sep), Split(s, sep);
      assert s == [s[0]] + s[1..];
      if s[0] == sep {
        assert all[1..] == rest;
      } else if |rest| > 1 {
        assert all[1..] == rest[1..];
        assert [s[0]] + rest[0] + [sep] + Join(rest[1..], [sep]) == [s[0]] + (rest[0] + [sep] + Join(rest[1..], [sep]));
      }
    }
  }

  lemma {:induction false} JoinSplits(parts: seq<string>, sep: char)
    requires parts != [] && forall p :: p in parts ==> sep !in p
    ensures Split(Join(parts, [sep]), sep) == parts
  {
    assert parts[0] in parts;
    SplitOfPiece(parts[0], sep);
    if |parts| == 1 {
      assert parts == [parts[0]];
    } else {
      assert forall p :: p in parts[1..] ==> p in parts;
      JoinSplits(parts[1..], sep);
      SplitAcross(parts[0], sep, Join(parts[1..], [sep]));
      assert [parts[0]] + parts[1..] == parts;
    }
  }

  /** What stands before the first `sep`, the whole text when there is none. */
  function CutBefore(s: string, sep: char): (r: string)
    ensures sep !in r
    ensures sep !in s ==> r == s
    ensures sep in s ==> |r| < |s| && s[..|r|] == r && s[|r|] == sep
  {
    if s == "" || s[0] == sep then ""
    else [s[0]] + CutBefore(s[1..], sep)
  }

  /** What stands after the first `sep`, when there is one. */
  function CutAfter(s: string, sep: char): (r: string)
    requires sep in s
    ensures CutBefore(s, sep) + [sep] + r == s
  {
    if s[0] == sep then s[1..]
    else CutAfter(s[1..], sep)
  }

  lemma {:induction false} CutAtFirst(a: string, c: char, b: string)
    requires c !in a
    ensures CutBefore(a + [c] + b, c) == a && CutAfter(a + [c] + b, c) == b
  {
    var s := a + [c] + b;
    assert s[|a|] == c;
    if a == "" {
      assert s[1..] == b;
    } else {
      assert a[0] in a && forall d :: d in a[1..] ==> d in a;
      assert s[1..] == a[1..] + [c] + b;
      CutAtFirst(a[1..], c, b);
    }
  }

  predicate HasPrefix(s: string, p: string) {
    |p| <= |s| && s[..|p|] == p
  }

  predicate HasSuffix(s: string, p: string) {
    |p| <= |s| && s[|s| - |p|..] == p
  }

  lemma PrefixMeans(s: string, p: string)
    ensures HasPrefix(s, p) <==> exists rest :: s == p + rest
  {
    if HasPrefix(s, p) { assert s == p + s[|p|..]; }
  }

  lemma SuffixMeans(s: string, p: string)
    ensures HasSuffix(s, p) <==> exists rest :: s == rest + p
  {
    if HasSuffix(s, p) { assert s == s[..|s| - |p|] + p; }
  }

  // ----- occurrences -----

  predicate OccursAt(s: string, m: string, i: int) {
    0 <= i && i + |m| <= |s| && s[i..i + |m|] == m
  }

  lemma OccursMeans(s: string, m: string, i: int)
    ensures OccursAt(s, m, i) <==> exists before, after :: s == before + m + after && |before| == i
  {
    if OccursAt(s, m, i) { assert s == s[..i] + m + s[i + |m|..]; }
    if before, after :| s == before + m + after && |before| == i { assert s[i..i + |m|] == m; }
  }

  ghost predicate Contains(s: string, m: string) {
    exists i :: OccursAt(s, m, i)
  }

  lemma ContainsMeans(s: string, m: string)
    ensures Contains(s, m) <==> exists before, after :: s == before + m + after
  {
    if i :| OccursAt(s, m, i) { OccursMeans(s, m, i); }
    if before, after :| s == before + m + after { OccursMeans(s, m, |before|); }
  }

  /** `i` is where `m` first occurs in `s`. */
  ghost predicate FirstAt(s: string, m: string, i: int) {
    OccursAt(s, m, i) && forall j :: 0 <= j < i ==> !OccursAt(s, m, j)
  }

  /** The first occurrence at or after `from`, or -1. */
  function IndexFrom(s: string, m: string, from: nat): (i: int)
    ensures i == -1 || from <= i <= |s| - |m|
    decreases |s| - from
  {
    if from + |m| > |s| then -1
    else if OccursAt(s, m, from) then from
    else IndexFrom(s, m, from + 1)
  }

  /** strings.Index. */
  function Index(s: string, m: string): (i: int)
    ensures i == -1 || 0 <= i <= |s| - |m|
  {
    IndexFrom(s, m, 0)
  }

  lemma {:induction false} IndexFromMeans(s: string, m: string, from: nat)
    ensures var i := IndexFrom(s, m, from);
            && (i == -1 || (OccursAt(s, m, i) && from <= i))
            && forall j :: from <= j && OccursAt(s, m, j) ==> i != -1 && i <= j
    decreases |s| - from
  {
    if from + |m| > |s| || OccursAt(s, m, from) {
    } else {
      IndexFromMeans(s, m, from + 1);
    }
  }

  /** Index is where the first occurrence is, and -1 exactly when there is none. */
  lemma IndexMeans(s: string, m: string)
    ensures Index(s, m) == -1 <==> !Contains(s, m)
    ensures Index(s, m) != -1 ==> FirstAt(s, m, Index(s, m))
  {
    IndexFromMeans(s, m, 0);
  }

  lemma FirstIsIndex(s: string, m: string, i: int)
    requires FirstAt(s, m, i)
    ensures Index(s, m) == i
  {
    IndexMeans(s, m);
  }

  /** An occurrence inside the left part of a concatenation is one in the whole. */
  lemma OccursLeft(a: string, b: string, m: string, i: int)
    requires 0 <= i && i + |m| <= |a|
    ensures OccursAt(a + b, m, i) <==> OccursAt(a, m, i)
  {
    assert (a + b)[i..i + |m|] == a[i..i + |m|];
  }

  lemma OccursRight(a: string, b: string, m: string, i: int)
    requires |a| <= i
    ensures OccursAt(a + b, m, i) <==> OccursAt(b, m, i - |a|)
  {
    if i + |m| <= |a| + |b| {
      assert (a + b)[i..i + |m|] == b[i - |a|..i - |a| + |m|];
    }
  }

  // ----- counting one byte -----

  function Count(s: string, c: char): (n: nat)
    ensures n <= |s|
    ensures n == 0 <==> c !in s
  {
    if s == "" then 0 else (if s[0] == c then 1 else 0) + Count(s[1..], c)
  }

  lemma {:induction false} CountAppend(a: string, b: string, c: char)
    ensures Count(a + b, c) == Count(a, c) + Count(b, c)
  {
    if a == "" {
      assert a + b == b;
    } else {
      assert (a + b)[1..] == a[1..] + b;
      CountAppend(a[1..], b, c);
    }
  }

  // ----- white space -----

  predicate IsSpace(c: char) {
    c == ' ' || c == '\t' || c == '\n' || c == '\r' || c == '\U{0B}' || c == '\U{0C}'
  }

  /** The white space of a regular expression, which is not all of the white
      space trimming removes. */
  predicate IsReSpace(c: char) {
    c == ' ' || c == '\t' || c == '\n' || c == '\r' || c == '\U{0C}'
  }

  /** The two sets of white bytes, by their codes: tab, newline, vertical tab, form
      feed, carriage return and space, and the same without the vertical tab. */
  lemma SpaceMeans(c: char)
    ensures IsSpace(c) <==> 9 <= c as int <= 13 || c as int == 32
    ensures IsReSpace(c) <==> IsSpace(c) && c as int != 11
  {
  }

  ghost predicate NoSpace(s: string) {
    forall c :: c in s ==> !IsSpace(c)
  }

  ghost predicate AllSpace(s: string) {
    forall c :: c in s ==> IsSpace(c)
  }

  /** The text with every white byte taken out. */
  function Ink(s: string): (r: string)
    ensures NoSpace(r)
  {
    if s == "" then ""
    else if IsSpace(s[0]) then Ink(s[1..])
    else [s[0]] + Ink(s[1..])
  }

  lemma {:induction false} InkAppend(a: string, b: string)
    ensures Ink(a + b) == Ink(a) + Ink(b)
  {
    if a == "" {
      assert a + b == b;
    } else {
      assert (a + b)[1..] == a[1..] + b;
      InkAppend(a[1..], b);
    }
  }

  function TrimLeft(s: string): string {
    if s != "" && IsSpace(s[0]) then TrimLeft(s[1..]) else s
  }

  function TrimRight(s: string): string {
    if s != "" && IsSpace(s[|s| - 1]) then TrimRight(s[..|s| - 1]) else s
  }

  function TrimSpace(s: string): string {
    TrimRight(TrimLeft(s))
  }

  lemma {:induction false} InkOfSpace(s: string)
    requires AllSpace(s)
    ensures Ink(s) == ""
  {
    if s == "" {
    } else {
      assert s[0] in s;
      assert forall c :: c in s[1..] ==> c in s;
      InkOfSpace(s[1..]);
    }
  }

  predicate InkAtBothEnds(s: string) {
    s != "" ==> !IsSpace(s[0]) && !IsSpace(s[|s| - 1])
  }

  lemma {:induction false} TrimLeftOf(white: string, rest: string)
    requires AllSpace(white) && (rest != "" ==> !IsSpace(rest[0]))
    ensures TrimLeft(white + rest) == rest
  {
    if white == "" {
      assert white + rest == rest;
    } else {
      assert white[0] in white && forall c :: c in white[1..] ==> c in white;
      assert (white + rest)[1..] == white[1..] + rest;
      TrimLeftOf(white[1..], rest);
    }
  }

  lemma {:induction false} TrimRightOf(rest: string, white: string)
    requires AllSpace(white) && (rest != "" ==> !IsSpace(rest[|rest| - 1]))
    ensures TrimRight(rest + white) == rest
  {
    if white == "" {
      assert rest + white == rest;
    } else {
      var n := |white| - 1;
      assert white[n] in white && forall c :: c in white[..n] ==> c in white;
      assert (rest + white)[..|rest| + n] == rest + white[..n];
      TrimRightOf(rest, white[..n]);
    }
  }

  lemma OneMoreSpace(white: string, c: char)
    requires AllSpace(white) && IsSpace(c)
    ensures AllSpace([c] + white) && AllSpace(white + [c])
  {
  }

  lemma {:induction false} TrimLeftLeaves(s: string) returns (white: string)
    ensures AllSpace(white) && s == white + TrimLeft(s)
    ensures var r := TrimLeft(s); r != "" ==> !IsSpace(r[0])
  {
    if s != "" && IsSpace(s[0]) {
      var more := TrimLeftLeaves(s[1..]);
      OneMoreSpace(more, s[0]);
      white := [s[0]] + more;
      assert s == [s[0]] + s[1..];
    } else {
      white := "";
    }
  }

  lemma {:induction false} TrimRightLeaves(s: string) returns (white: string)
    ensures AllSpace(white) && s == TrimRight(s) + white && TrimRight(s) <= s
    ensures var r := TrimRight(s); r != "" ==> !IsSpace(r[|r| - 1])
  {
    if s != "" && IsSpace(s[|s| - 1]) {
      var n := |s| - 1;
      var more := TrimRightLeaves(s[..n]);
      OneMoreSpace(more, s[n]);
      white := more + [s[n]];
      assert s == s[..n] + [s[n]];
    } else {
      white := "";
    }
  }

  /** Trimming leaves the one stretch of a text that has ink at both ends and
      nothing but white bytes around it. */
  lemma TrimMeans(s: string, r: string)
    ensures r == TrimSpace(s) <==>
              InkAtBothEnds(r) && exists before, after :: AllSpace(before) && AllSpace(after) && s == before + r + after
  {
    var left := TrimLeft(s);
    var before := TrimLeftLeaves(s);
    var after := TrimRightLeaves(left);
    assert s == before + TrimSpace(s) + after;
    if l, t :| InkAtBothEnds(r) && AllSpace(l) && AllSpace(t) && s == l + r + t { TrimOf(l, r, t); }
  }

  lemma TrimOf(before: string, r: string, after: string)
    requires InkAtBothEnds(r) && AllSpace(before) && AllSpace(after)
    ensures TrimSpace(before + r + after) == r
  {
    if r == "" {
      assert before + r + after == (before + after) + "";
      TrimLeftOf(before + after, "");
    } else {
      assert before + r + after == before + (r + after);
      TrimLeftOf(before, r + after);
      TrimRightOf(r, after);
    }
  }

  /** Nothing is left of a text exactly when it is all white. */
  lemma BlankIsSpace(s: string)
    ensures TrimSpace(s) == "" <==> AllSpace(s)
  {
    TrimMeans(s, TrimSpace(s));
    if AllSpace(s) {
      assert s == s + "" + "";
      TrimOf(s, "", "");
    }
  }

  /** Trimming takes white bytes and nothing else. */
  lemma TrimKeepsInk(s: string)
    ensures Ink(TrimSpace(s)) == Ink(s)
  {
    TrimLeftKeepsInk(s);
    TrimRightKeepsInk(TrimLeft(s));
  }

  lemma {:induction false} TrimLeftKeepsInk(s: string)
    ensures Ink(TrimLeft(s)) == Ink(s)
  {
    if s == "" || !IsSpace(s[0]) {
    } else {
      TrimLeftKeepsInk(s[1..]);
    }
  }

  lemma {:induction false} TrimRightKeepsInk(s: string)
    ensures Ink(TrimRight(s)) == Ink(s)
  {
    if s == "" || !IsSpace(s[|s| - 1]) {
    } else {
      var n := |s| - 1;
      TrimRightKeepsInk(s[..n]);
      InkAppend(s[..n], [s[n]]);
      assert s == s[..n] + [s[n]];
      assert Ink([s[n]]) == "";
    }
  }

  // ----- the order of sort.Strings -----

  predicate Le(a: string, b: string) {
    a == "" || (b != "" && (a[0] < b[0] || (a[0] == b[0] && Le(a[1..], b[1..]))))
  }

  /** The first byte at which the two differ is at `i`, and lower in `a`. */
  ghost predicate LowerAt(a: string, b: string, i: int) {
    0 <= i < |a| && i < |b| && a[..i] == b[..i] && a[i] < b[i]
  }

  lemma StartsAlike(a: string, b: string, i: int)
    requires LowerAt(a, b, i) && i > 0
    ensures a[0] == b[0] && LowerAt(a[1..], b[1..], i - 1)
  {
    assert a[..i][0] == a[0] && b[..i][0] == b[0];
    assert a[1..][..i - 1] == a[..i][1..] && b[1..][..i - 1] == b[..i][1..];
  }

  lemma LowerBehind(a: string, b: string, i: int)
    requires a != "" && b != "" && a[0] == b[0] && LowerAt(a[1..], b[1..], i)
    ensures LowerAt(a, b, i + 1)
  {
    assert a[..i + 1] == [a[0]] + a[1..][..i] && b[..i + 1] == [b[0]] + b[1..][..i];
  }

  /** The byte-wise order: one text begins the other, or is lower at the first byte
      at which they differ. */
  lemma {:induction false} LeMeans(a: string, b: string)
    ensures Le(a, b) <==> a <= b || exists i :: LowerAt(a, b, i)
  {
    if a == "" || b == "" {
    } else {
      LeMeans(a[1..], b[1..]);
      assert a[0] < b[0] ==> LowerAt(a, b, 0);
      assert a == [a[0]] + a[1..] && b == [b[0]] + b[1..];
      if i :| LowerAt(a, b, i) && i > 0 { StartsAlike(a, b, i); }
      if i :| a[0] == b[0] && LowerAt(a[1..], b[1..], i) { LowerBehind(a, b, i); }
    }
  }

  lemma {:induction false} LeTotal(a: string, b: string)
    ensures Le(a, b) || Le(b, a)
  {
    if a == "" || b == "" {
    } else {
      LeTotal(a[1..], b[1..]);
    }
  }

  lemma {:induction false} LeTransitive(a: string, b: string, c: string)
    requires Le(a, b) && Le(b, c)
    ensures Le(a, c)
  {
    if a == "" || a[0] != c[0] {
    } else {
      LeTransitive(a[1..], b[1..], c[1..]);
    }
  }

  lemma {:induction false} LeAntisymmetric(a: string, b: string)
    requires Le(a, b) && Le(b, a)
    ensures a == b
  {
    if a == "" {
    } else {
      LeAntisymmetric(a[1..], b[1..]);
      assert a == [a[0]] + a[1..] && b == [b[0]] + b[1..];
    }
  }
}
