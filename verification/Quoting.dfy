/** The assignments `env` prints for bash and fish, and a reader of shell words
    that takes them apart again: quoting as in sections 2.2.1 and 2.2.2 of the
    Shell Command Language of POSIX.1-2017, and the single quotes of fish, where
    a backslash escapes a backslash or a quote and stands for itself otherwise. */
module Quoting {
  import opened Wrappers
  import opened Text

  // ----- the printers -----

  /** strings.ReplaceAll of every single quote. */
  function ReplaceQuotes(value: string, escape: string): string {
    if value == "" then ""
    else (if value[0] == '\'' then escape else [value[0]]) + ReplaceQuotes(value[1..], escape)
  }

  function BashExport(key: string, value: string): string {
    "export " + key + "='" + ReplaceQuotes(value, "'\\''") + "'"
  }

  function FishExport(key: string, value: string): string {
    "set -gx " + key + " '" + ReplaceQuotes(value, "\\'") + "'"
  }

  // ----- the reader -----

  datatype Shell = Posix | Fish

  predicate IsBlank(c: char) { c == ' ' || c == '\t' }

  /** What a word of this reader never holds unquoted: an operator, an expansion,
      a double quote, the end of the command, a byte no shell variable holds. */
  predicate IsSpecial(c: char) {
    c in {'|', '&', ';', '<', '>', '(', ')', '$', '`', '"', '\n', '\0'}
  }

  predicate IsAlnum(c: char) {
    'a' <= c <= 'z' || 'A' <= c <= 'Z' || '0' <= c <= '9'
  }

  datatype Taken = Taken(word: string, rest: string)

  function Prepend(c: char, t: Option<Taken>): Option<Taken> {
    if t.None? then None else Some(Taken([c] + t.value.word, t.value.rest))
  }

  /** The word starting here, from inside or outside single quotes, with the text
      after it; None when a quote stays open or the word is not a plain one. */
  function ReadWord(shell: Shell, s: string, quoted: bool): Option<Taken>
    decreases |s|, 1
  {
    if s == "" then (if quoted then None else Some(Taken("", "")))
    else if s[0] == '\'' then ReadWord(shell, s[1..], !quoted)
    else if s[0] == '\0' then None
    else if s[0] == '\\' then ReadBackslash(shell, s, quoted)
    else if quoted then Prepend(s[0], ReadWord(shell, s[1..], quoted))
    else if IsBlank(s[0]) then Some(Taken("", s))
    else if IsSpecial(s[0]) then None
    else Prepend(s[0], ReadWord(shell, s[1..], quoted))
  }

  /** Outside quotes a backslash preserves the next character (2.2.1) and joins
      two lines before a newline. Inside, nothing is special to POSIX (2.2.2), and
      fish takes `\\` and `\'` as escapes. */
  function ReadBackslash(shell: Shell, s: string, quoted: bool): Option<Taken>
    requires s != "" && s[0] == '\\'
    decreases |s|, 0
  {
    if quoted then
      if shell.Fish? && |s| > 1 && (s[1] == '\\' || s[1] == '\'') then Prepend(s[1], ReadWord(shell, s[2..], true))
      else Prepend('\\', ReadWord(shell, s[1..], true))
    else if |s| == 1 || s[1] == '\0' then None
    else if s[1] == '\n' then ReadWord(shell, s[2..], false)
    else if shell.Fish? && IsAlnum(s[1]) then None
    else Prepend(s[1], ReadWord(shell, s[2..], false))
  }

  lemma {:induction false} WordTakesAPrefix(shell: Shell, s: string, quoted: bool)
    ensures var t := ReadWord(shell, s, quoted);
            t.Some? ==> |t.value.rest| <= |s| && (!quoted && s != "" && !IsBlank(s[0]) ==> |t.value.rest| < |s|)
    decreases s
  {
    if s == "" {
    } else {
      WordTakesAPrefix(shell, s[1..], quoted);
      WordTakesAPrefix(shell, s[1..], !quoted);
      if |s| > 1 { WordTakesAPrefix(shell, s[2..], quoted); }
    }
  }

  /** The words of one command. */
  function ReadWords(shell: Shell, s: string): Option<seq<string>>
    decreases |s|
  {
    if s == "" then Some([])
    else if IsBlank(s[0]) then ReadWords(shell, s[1..])
    else
      WordTakesAPrefix(shell, s, false);
      var t := ReadWord(shell, s, false);
      if t.None? then None
      else
        var more := ReadWords(shell, t.value.rest);
        if more.None? then None else Some([t.value.word] + more.value)
  }

  /** The variable and the value a command gives it. */
  function Assigned(shell: Shell, line: string): Option<(string, string)> {
    var words := ReadWords(shell, line);
    if words.None? then None
    else if shell.Posix? then
      if |words.value| == 2 && words.value[0] == "export" && '=' in words.value[1]
      then Some((CutBefore(words.value[1], '='), CutAfter(words.value[1], '=')))
      else None
    else
      if |words.value| == 4 && words.value[0] == "set" && words.value[1] == "-gx"
      then Some((words.value[2], words.value[3]))
      else None
  }

  /** The bytes the reader treats apart, by their codes: a space and a tab end a word,
      and letters and digits are those of ASCII. */
  lemma BytesMean(c: char)
    ensures IsBlank(c) <==> c as int == 32 || c as int == 9
    ensures IsAlnum(c) <==> 48 <= c as int <= 57 || 65 <= c as int <= 90 || 97 <= c as int <= 122
  {
  }

  /** What a command assigns is told by its words alone. */
  lemma AssignedMeans(line: string, key: string, value: string)
    requires '=' !in key
    ensures Assigned(Posix, line) == Some((key, value)) <==>
              ReadWords(Posix, line) == Some(["export", key + "=" + value])
    ensures Assigned(Fish, line) == Some((key, value)) <==> ReadWords(Fish, line) == Some(["set", "-gx", key, value])
  {
    CutAtFirst(key, '=', value);
    var posix, fish := ReadWords(Posix, line), ReadWords(Fish, line);
    if posix.Some? && |posix.value| == 2 {
      assert posix.value == [posix.value[0], posix.value[1]];
    }
    if fish.Some? && |fish.value| == 4 {
      assert fish.value == [fish.value[0], fish.value[1], fish.value[2], fish.value[3]];
    }
  }

  /** A backslash before every byte. */
  function Escaped(w: string): string {
    if w == "" then "" else ['\\', w[0]] + Escaped(w[1..])
  }

  /** An escaped newline joins two lines. */
  lemma EscapedNewlineReads(shell: Shell, rest: string)
    ensures ReadWord(shell, "\\\n" + rest, false) == ReadWord(shell, rest, false)
  {
    assert ("\\\n" + rest)[2..] == rest;
  }

  lemma EscapedByteReads(shell: Shell, c: char, rest: string)
    requires c != '\n'
    ensures ReadWord(shell, ['\\', c] + rest, false)
         == if c == '\0' || (shell.Fish? && IsAlnum(c)) then None else Prepend(c, ReadWord(shell, rest, false))
  {
    assert (['\\', c] + rest)[2..] == rest;
  }

  /** Outside quotes a text escaped byte by byte is read back exactly when no byte of
      it is a NUL or, to fish, a letter or a digit. */
  lemma {:induction false} EscapedTextReads(shell: Shell, w: string)
    requires '\n' !in w
    ensures ReadWord(shell, Escaped(w), false) == Some(Taken(w, ""))
       <==> forall c :: c in w ==> c != '\0' && (shell.Fish? ==> !IsAlnum(c))
  {
    if w == "" {
    } else {
      EscapedTextReads(shell, w[1..]);
      EscapedByteReads(shell, w[0], Escaped(w[1..]));
      assert w == [w[0]] + w[1..] && w[0] in w && forall c :: c in w <==> c == w[0] || c in w[1..];
      assert Escaped(w) == ['\\', w[0]] + Escaped(w[1..]);
      var t := ReadWord(shell, Escaped(w[1..]), false);
      if t.Some? { assert ([w[0]] + t.value.word)[1..] == t.value.word; }
    }
  }

  // ----- plain text reads as itself -----

  predicate IsPlain(c: char) {
    c != '\'' && c != '\\' && !IsBlank(c) && !IsSpecial(c)
  }

  /** The name of a variable, as section 3.235 of POSIX.1-2017 has it. */
  ghost predicate IsName(key: string) {
    && key != "" && !('0' <= key[0] <= '9')
    && forall c :: c in key ==> IsAlnum(c) || c == '_'
  }

  ghost predicate AllPlain(s: string) {
    forall c :: c in s ==> IsPlain(c)
  }

  lemma NamesArePlain(key: string)
    requires IsName(key)
    ensures AllPlain(key) && '=' !in key
  {
  }

  function PrependAll(w: string, t: Option<Taken>): Option<Taken> {
    if t.None? then None else Some(Taken(w + t.value.word, t.value.rest))
  }

  lemma {:induction false} PlainReads(shell: Shell, w: string, tail: string)
    requires AllPlain(w)
    ensures ReadWord(shell, w + tail, false) == PrependAll(w, ReadWord(shell, tail, false))
  {
    if w == "" {
      assert w + tail == tail;
      var t := ReadWord(shell, tail, false);
      assert t.Some? ==> "" + t.value.word == t.value.word;
    } else {
      var t := ReadWord(shell, tail, false);
      assert w[0] in w && forall c :: c in w[1..] ==> c in w;
      PlainReads(shell, w[1..], tail);
      assert (w + tail)[1..] == w[1..] + tail;
      assert t.Some? ==> [w[0]] + (w[1..] + t.value.word) == w + t.value.word;
    }
  }

  /** A plain word before a blank is the first word. */
  lemma PlainWordReads(shell: Shell, w: string, tail: string)
    requires w != "" && AllPlain(w)
    ensures ReadWords(shell, w + " " + tail) == OneMoreWord(w, ReadWords(shell, tail))
  {
    PlainReads(shell, w, " " + tail);
    assert w + " " + tail == w + (" " + tail);
    assert w + "" == w;
    assert (" " + tail)[1..] == tail;
    assert w[0] in w;
    assert (w + " " + tail)[0] == w[0];
  }

  function OneMoreWord(w: string, words: Option<seq<string>>): Option<seq<string>> {
    if words.None? then None else Some([w] + words.value)
  }

  // ----- bash -----

  /** A quoted value reads back as itself and ends the line, unless it holds a
      NUL, which nothing reads. */
  lemma {:induction false} BashBodyReads(value: string)
    ensures ReadWord(Posix, ReplaceQuotes(value, "'\\''") + "'", true)
         == if '\0' in value then None else Some(Taken(value, ""))
  {
    if value == "" {
      assert ReplaceQuotes(value, "'\\''") + "'" == "'";
    } else {
      var rest := ReplaceQuotes(value[1..], "'\\''") + "'";
      BashBodyReads(value[1..]);
      assert value == [value[0]] + value[1..];
      if value[0] == '\'' {
        EscapedQuoteReads(rest);
        assert ReplaceQuotes(value, "'\\''") + "'" == "'\\''" + rest;
      } else {
        assert ReplaceQuotes(value, "'\\''") + "'" == [value[0]] + rest;
      }
    }
  }

  /** Close the quote, an escaped one, reopen: one quote. */
  lemma EscapedQuoteReads(rest: string)
    ensures ReadWord(Posix, "'\\''" + rest, true) == Prepend('\'', ReadWord(Posix, rest, true))
  {
    var reopened := "'" + rest;
    var escaped := "\\'" + reopened;
    assert "'\\''" + rest == "'" + escaped;
    assert ("'" + escaped)[1..] == escaped;
    assert escaped[2..] == reopened;
    assert reopened[1..] == rest;
    assert ReadWord(Posix, reopened, false) == ReadWord(Posix, rest, true);
    assert ReadWord(Posix, escaped, false) == Prepend('\'', ReadWord(Posix, reopened, false));
  }

  /** For every value, what bash is handed assigns exactly that value to the key;
      a value holding a NUL, which no shell variable holds, is the one exception. */
  lemma BashRoundTrip(key: string, value: string)
    requires IsName(key)
    ensures Assigned(Posix, BashExport(key, value)) == if '\0' in value then None else Some((key, value))
    ensures ReadWords(Posix, BashExport(key, value)) == if '\0' in value then None
              else Some(["export", key + "=" + value])
  {
    NamesArePlain(key);
    var body := ReplaceQuotes(value, "'\\''") + "'";
    var name := key + "=";
    assert AllPlain("export") && AllPlain(name);
    assert BashExport(key, value) == "export" + " " + (name + ("'" + body));
    PlainWordReads(Posix, "export", name + ("'" + body));
    BashBodyReads(value);
    QuotedArgumentReads(Posix, name, body);
    if '\0' !in value {
      assert [name + value] == ["export", name + value][1..];
      AssignedMeans(BashExport(key, value), key, value);
      CutAtFirst(key, '=', value);
    }
  }

  /** A plain start and a quoted rest that ends the line are one word. */
  lemma QuotedArgumentReads(shell: Shell, start: string, body: string)
    requires AllPlain(start)
    requires var t := ReadWord(shell, body, true); t.Some? ==> t.value.rest == ""
    ensures var t := ReadWord(shell, body, true);
            ReadWords(shell, start + ("'" + body)) == if t.None? then None else Some([start + t.value.word])
  {
    PlainReads(shell, start, "'" + body);
    assert ("'" + body)[1..] == body;
    var s := start + ("'" + body);
    if start != "" { assert start[0] in start; assert s[0] == start[0]; }
    assert !IsBlank(s[0]);
    assert ReadWord(shell, s, false) == PrependAll(start, ReadWord(shell, body, true));
    assert ReadWords(shell, "") == Some([]);
    var t := ReadWord(shell, body, true);
    if t.Some? { assert [start + t.value.word] + [] == [start + t.value.word]; }
  }

  // ----- fish -----

  /** No backslash stands before a backslash, before a quote, or at the end. */
  predicate BackslashesStandAlone(value: string) {
    value == ""
    || (&& (value[0] == '\\' ==> |value| > 1 && value[1] != '\\' && value[1] != '\'')
        && BackslashesStandAlone(value[1..]))
  }

  predicate FishSafe(value: string) {
    '\0' !in value && BackslashesStandAlone(value)
  }

  function Marks(s: string): nat {
    Count(s, '\\') + Count(s, '\'')
  }

  ghost predicate Paid(s: string, quoted: bool) {
    PaidBy(ReadWord(Fish, s, quoted), Count(s, '\\'))
  }

  /** Every backslash or quote read costs a backslash of the text, so a text whose
      escapes are spent elsewhere cannot give all of them back. */
  lemma {:induction false} MarksCostBackslashes(s: string, quoted: bool)
    ensures Paid(s, quoted)
    decreases |s|
  {
    if s == "" {
    } else if s[0] == '\'' {
      MarksCostBackslashes(s[1..], !quoted);
      QuotePays(s, quoted);
    } else if s[0] == '\\' {
      MarksCostBackslashes(s[1..], quoted);
      if |s| > 1 { MarksCostBackslashes(s[2..], quoted); }
      BackslashPays(s, quoted);
    } else {
      MarksCostBackslashes(s[1..], quoted);
      OtherPays(s, quoted);
    }
  }

  lemma QuotePays(s: string, quoted: bool)
    requires s != "" && s[0] == '\'' && Paid(s[1..], !quoted)
    ensures Paid(s, quoted)
  {
  }

  lemma OtherPays(s: string, quoted: bool)
    requires s != "" && s[0] != '\'' && s[0] != '\\' && Paid(s[1..], quoted)
    ensures Paid(s, quoted)
  {
    MarksOfPrepend(s[0], ReadWord(Fish, s[1..], quoted));
  }

  lemma BackslashPays(s: string, quoted: bool)
    requires s != "" && s[0] == '\\'
    requires Paid(s[1..], quoted)
    requires |s| > 1 ==> Paid(s[2..], quoted)
    ensures Paid(s, quoted)
  {
    var one := ReadWord(Fish, s[1..], quoted);
    if |s| > 1 {
      TwoLess(s);
      var two := ReadWord(Fish, s[2..], quoted);
      PrependPays('\\', one, Count(s, '\\') - 1);
      PrependPays(s[1], two, Count(s, '\\') - 1);
      BackslashCases(s, quoted, one, two);
    } else {
      assert s[1..] == "";
    }
  }

  lemma BackslashCases(s: string, quoted: bool, one: Option<Taken>, two: Option<Taken>)
    requires |s| > 1 && s[0] == '\\'
    requires one == ReadWord(Fish, s[1..], quoted) && two == ReadWord(Fish, s[2..], quoted)
    ensures var t := ReadWord(Fish, s, quoted);
            t == None || t == two || t == Prepend('\\', one) || t == Prepend(s[1], two)
  {
  }

  lemma TwoLess(s: string)
    requires |s| > 1 && s[0] == '\\'
    ensures Count(s[2..], '\\') < Count(s, '\\')
  {
    CountTail(s[1..], '\\');
    assert s[1..][1..] == s[2..];
  }

  ghost predicate PaidBy(t: Option<Taken>, n: nat) {
    t.Some? ==> Marks(t.value.word) <= n
  }

  lemma PrependPays(c: char, t: Option<Taken>, n: nat)
    requires PaidBy(t, n)
    ensures PaidBy(Prepend(c, t), n + 1)
  {
    MarksOfPrepend(c, t);
  }

  lemma CountTail(s: string, c: char)
    requires s != ""
    ensures Count(s[1..], c) <= Count(s, c)
  {
  }

  lemma MarksOfPrepend(c: char, t: Option<Taken>)
    ensures t.Some? ==>
              Marks(Prepend(c, t).value.word) == Marks(t.value.word) + (if c == '\\' || c == '\'' then 1 else 0)
  {
    if t.Some? { assert ([c] + t.value.word)[1..] == t.value.word; }
  }

  lemma {:induction false} RenderedBackslashes(value: string)
    ensures Count(FishBody(value), '\\') == Marks(value)
  {
    if value == "" {
      assert ReplaceQuotes(value, "\\'") + "'" == "'";
    } else {
      var first := if value[0] == '\'' then "\\'" else [value[0]];
      var rest := ReplaceQuotes(value[1..], "\\'") + "'";
      assert ReplaceQuotes(value, "\\'") + "'" == first + rest;
      CountAppend(first, rest, '\\');
      RenderedBackslashes(value[1..]);
    }
  }

  ghost predicate ReadsBack(t: Option<Taken>, value: string) {
    t.Some? && t.value.word == value
  }

  /** What reading `text` inside quotes gives: the value and the end of the line
      when it is safe, and something else when it is not. */
  ghost predicate FishGives(text: string, value: string) {
    var t := ReadWord(Fish, text, true);
    if FishSafe(value) then t == Some(Taken(value, "")) else !ReadsBack(t, value)
  }

  function FishBody(value: string): string {
    ReplaceQuotes(value, "\\'") + "'"
  }

  lemma FishBodyUnfolds(value: string)
    requires value != ""
    ensures FishBody(value) == (if value[0] == '\'' then "\\'" else [value[0]]) + FishBody(value[1..])
  {
  }

  /** Inside quotes a safe value reads back as itself, and no other does. */
  lemma {:induction false} FishBodyReads(value: string)
    ensures FishGives(FishBody(value), value)
  {
    if value == "" {
      assert FishBody(value) == "'";
    } else {
      FishBodyReads(value[1..]);
      FishBodyUnfolds(value);
      var rest := FishBody(value[1..]);
      if value[0] == '\'' {
        EscapedReads('\'', rest);
        OneMoreGiven("\\'" + rest, rest, value);
      } else if value[0] != '\\' {
        assert ([value[0]] + rest)[1..] == rest;
        OneMoreGiven([value[0]] + rest, rest, value);
      } else if |value| == 1 {
        assert rest == "'";
        EscapedReads('\'', "");
        assert "\\'" + "" == FishBody(value);
      } else if value[1] == '\\' || value[1] == '\'' {
        SpentBackslash(value);
      } else {
        FishBodyUnfolds(value[1..]);
        assert rest[0] == value[1];
        LoneBackslashReads(rest);
        OneMoreGiven([value[0]] + rest, rest, value);
      }
    }
  }

  /** A first character that reads as itself passes the rest of the value on. */
  lemma OneMoreGiven(text: string, rest: string, value: string)
    requires value != "" && FishGives(rest, value[1..])
    requires value[0] == '\0' ==> ReadWord(Fish, text, true) == None
    requires value[0] != '\0' ==> ReadWord(Fish, text, true) == Prepend(value[0], ReadWord(Fish, rest, true))
    requires value[0] == '\\' ==> |value| > 1 && value[1] != '\\' && value[1] != '\''
    ensures FishGives(text, value)
  {
    assert value == [value[0]] + value[1..];
    var t := ReadWord(Fish, rest, true);
    if t.Some? { assert ([value[0]] + t.value.word)[1..] == t.value.word; }
  }

  lemma EscapedReads(c: char, rest: string)
    requires c == '\\' || c == '\''
    ensures ReadWord(Fish, ['\\', c] + rest, true) == Prepend(c, ReadWord(Fish, rest, true))
  {
    assert (['\\', c] + rest)[2..] == rest;
  }

  lemma LoneBackslashReads(rest: string)
    requires rest != "" && rest[0] != '\\' && rest[0] != '\''
    ensures ReadWord(Fish, "\\" + rest, true) == Prepend('\\', ReadWord(Fish, rest, true))
  {
    assert ("\\" + rest)[1..] == rest;
  }

  /** A backslash that meets the escape of what follows it is lost. */
  lemma SpentBackslash(value: string)
    requires |value| > 1 && value[0] == '\\' && (value[1] == '\\' || value[1] == '\'')
    ensures FishGives(FishBody(value), value)
  {
    FishBodyUnfolds(value);
    FishBodyUnfolds(value[1..]);
    assert value[1..][1..] == value[2..];
    var tail := FishBody(value[2..]);
    RenderedBackslashes(value[2..]);
    if value[1] == '\\' {
      assert FishBody(value) == "\\\\" + tail;
      MarksCostBackslashes(tail, true);
      NotEnoughLeft(value, tail, ReadWord(Fish, tail, true));
    } else {
      assert FishBody(value) == "\\\\" + ("'" + tail);
      assert ("'" + tail)[1..] == tail;
      MarksCostBackslashes(tail, false);
      NotEnoughLeft(value, "'" + tail, ReadWord(Fish, tail, false));
    }
  }

  lemma NotEnoughLeft(value: string, rest: string, t: Option<Taken>)
    requires |value| > 1 && value[0] == '\\' && (value[1] == '\\' || value[1] == '\'')
    requires t == ReadWord(Fish, rest, true) && PaidBy(t, Marks(value[2..]))
    ensures FishGives("\\\\" + rest, value)
  {
    MarksOfTwo(value);
    EscapedReads('\\', rest);
  }

  lemma MarksOfTwo(value: string)
    requires |value| >= 2 && value[0] == '\\' && (value[1] == '\\' || value[1] == '\'')
    ensures Marks(value) == 2 + Marks(value[2..])
    ensures forall w :: Marks(w) <= Marks(value[2..]) ==> ['\\'] + w != value
  {
    assert value[1..][1..] == value[2..];
    assert Count(value, '\\') == 1 + Count(value[1..], '\\');
    assert Count(value, '\'') == Count(value[1..], '\'');
    forall w | Marks(w) <= Marks(value[2..])
      ensures ['\\'] + w != value
    {
      assert (['\\'] + w)[1..] == w;
    }
  }

  /** What fish is handed assigns exactly the value if and only if the value holds
      no NUL and no backslash before a backslash, before a quote or at its end:
      the printer escapes quotes and leaves backslashes as they are. */
  lemma FishRoundTripExactlyWhen(key: string, value: string)
    requires IsName(key)
    ensures Assigned(Fish, FishExport(key, value)) == Some((key, value)) <==> FishSafe(value)
    ensures ReadWords(Fish, FishExport(key, value)) == Some(["set", "-gx", key, value]) <==> FishSafe(value)
  {
    NamesArePlain(key);
    var body := FishBody(value);
    var line := "set" + " " + ("-gx" + " " + (key + " " + ("'" + body)));
    assert FishExport(key, value) == line;
    assert AllPlain("set") && AllPlain("-gx");
    PlainWordReads(Fish, "set", "-gx" + " " + (key + " " + ("'" + body)));
    PlainWordReads(Fish, "-gx", key + " " + ("'" + body));
    PlainWordReads(Fish, key, "'" + body);
    FishBodyReads(value);
    assert ("'" + body)[1..] == body;
    assert ReadWord(Fish, "'" + body, false) == ReadWord(Fish, body, true);
    AssignedMeans(line, key, value);
  }

  /** Two backslashes reach fish as one; a lone one at the end leaves the quote
      open. Bash reads both back. */
  lemma FishLosesABackslash()
    ensures Assigned(Fish, FishExport("K", "\\\\")) != Some(("K", "\\\\"))
    ensures Assigned(Fish, FishExport("K", "\\")) != Some(("K", "\\"))
    ensures Assigned(Posix, BashExport("K", "\\\\")) == Some(("K", "\\\\"))
  {
    FishRoundTripExactlyWhen("K", "\\\\");
    FishRoundTripExactlyWhen("K", "\\");
    BashRoundTrip("K", "\\\\");
  }
}
