/** The texts the SSH backend sends to a remote shell, against a reader written from
    sections 2.2.1 (escape character), 2.2.2 (single quotes) and 2.3 (token
    recognition) of the POSIX Shell Command Language. */
module Shell {
  import opened Wrappers

  // ---------------------------------------------------------------------------
  // The reader: a character automaton
  // ---------------------------------------------------------------------------

  /** A character of a word, and whether it was quoted. */
  datatype QChar = QChar(c: char, quoted: bool)

  type Word = seq<QChar>

  datatype Mode = Between | InWord | Single | Escape(inWord: bool) | Comment

  datatype Lexer = Lexer(mode: Mode, word: Word, words: seq<Word>, commands: seq<seq<Word>>)

  const START := Lexer(Between, [], [], [])

  /** Characters without any meaning to the shell. */
  predicate Plain(c: char) {
    'a' <= c <= 'z' || 'A' <= c <= 'Z' || '0' <= c <= '9' || c in "_-./=:,+@%"
  }

  function EndWord(l: Lexer): Lexer {
    l.(mode := Between, word := [], words := l.words + [l.word])
  }

  function EndCommand(l: Lexer): Lexer {
    l.(mode := Between, words := [], commands := if l.words == [] then l.commands else l.commands + [l.words])
  }

  /** One character. None where the fragment modelled here ends: operators,
      expansions, patterns, double quotes, and NUL, which no shell text can carry. */
  function Next(l: Lexer, c: char): Option<Lexer> {
    if c == '\0' then None
    else
      match l.mode
      case Single =>
        if c == '\'' then Some(l.(mode := InWord)) else Some(l.(word := l.word + [QChar(c, true)]))
      case Escape(inWord) =>
        if c == '\n' then Some(l.(mode := if inWord then InWord else Between))
        else Some(l.(mode := InWord, word := l.word + [QChar(c, true)]))
      case Comment =>
        if c == '\n' then Some(EndCommand(l)) else Some(l)
      case Between =>
        if c == ' ' || c == '\t' then Some(l)
        else if c == '\n' then Some(EndCommand(l))
        else if c == '\'' then Some(l.(mode := Single))
        else if c == '\\' then Some(l.(mode := Escape(false)))
        else if c == '#' then Some(l.(mode := Comment))
        else if Plain(c) then Some(l.(mode := InWord, word := [QChar(c, false)]))
        else None
      case InWord =>
        if c == ' ' || c == '\t' then Some(EndWord(l))
        else if c == '\n' then Some(EndCommand(EndWord(l)))
        else if c == '\'' then Some(l.(mode := Single))
        else if c == '\\' then Some(l.(mode := Escape(true)))
        else if Plain(c) || c == '#' then Some(l.(word := l.word + [QChar(c, false)]))
        else None
  }

  function Lex(l: Lexer, s: string): Option<Lexer>
    decreases |s|
  {
    if s == "" then Some(l)
    else
      var n := Next(l, s[0]);
      if n.None? then None else Lex(n.value, s[1..])
  }

  /** The commands of a text; None for an unterminated quote or an unmodelled part. */
  function Commands(s: string): Option<seq<seq<Word>>> {
    var l := Lex(START, s);
    if l.None? then None
    else
      match l.value.mode
      case Between => Some(EndCommand(l.value).commands)
      case Comment => Some(EndCommand(l.value).commands)
      case InWord => Some(EndCommand(EndWord(l.value)).commands)
      case _ => None
  }

  /** Quote removal. */
  function Chars(w: Word): string {
    seq(|w|, i requires 0 <= i < |w| => w[i].c)
  }

  function Plainly(s: string): Word {
    seq(|s|, i requires 0 <= i < |s| => QChar(s[i], false))
  }

  function Quoted(s: string): Word {
    seq(|s|, i requires 0 <= i < |s| => QChar(s[i], true))
  }

  lemma {:induction false} LexConcat(l: Lexer, a: string, b: string)
    ensures Lex(l, a + b) == if Lex(l, a).None? then None else Lex(Lex(l, a).value, b)
    decreases |a|
  {
    if a == "" {
      assert a + b == b;
    } else {
      assert (a + b)[1..] == a[1..] + b;
      var n := Next(l, a[0]);
      if n.Some? {
        LexConcat(n.value, a[1..], b);
      }
    }
  }

  lemma {:induction false} LexPlain(l: Lexer, s: string)
    requires l.mode.InWord? && forall c :: c in s ==> Plain(c)
    ensures Lex(l, s) == Some(l.(word := l.word + Plainly(s)))
    decreases |s|
  {
    if s == "" {
      assert l.word + Plainly(s) == l.word;
    } else {
      var l1 := l.(word := l.word + [QChar(s[0], false)]);
      assert s[0] in s;
      LexPlain(l1, s[1..]);
      assert l1.word + Plainly(s[1..]) == l.word + Plainly(s);
    }
  }

  lemma BareStart(l: Lexer, c: char)
    requires l.mode.Between? && l.word == [] && c != '#' && Plain(c)
    ensures Next(l, c) == Some(l.(mode := InWord, word := [QChar(c, false)]))
  {
  }

  lemma PlainTail(s: string)
    requires s != "" && forall c :: c in s ==> Plain(c)
    ensures forall c :: c in s[1..] ==> Plain(c)
  {
  }

  /** A word of plain characters, from between words. */
  lemma LexBareWord(l: Lexer, s: string)
    requires l.mode.Between? && l.word == [] && s != "" && s[0] != '#' && forall c :: c in s ==> Plain(c)
    ensures Lex(l, s) == Some(l.(mode := InWord, word := Plainly(s)))
  {
    var l1 := l.(mode := InWord, word := [QChar(s[0], false)]);
    BareStart(l, s[0]) by {
      assert s[0] in s;
    }
    PlainTail(s);
    LexPlain(l1, s[1..]);
    assert l1.word + Plainly(s[1..]) == Plainly(s);
  }

  lemma {:induction false} LexNul(l: Lexer, s: string)
    requires '\0' in s
    ensures Lex(l, s) == None
    decreases |s|
  {
    if s[0] != '\0' {
      var n := Next(l, s[0]);
      if n.Some? {
        LexNul(n.value, s[1..]);
      }
    }
  }

  // ---------------------------------------------------------------------------
  // shellSingleQuote and joinArgvShell
  // ---------------------------------------------------------------------------

  const QUOTE_ESCAPED: string := "'\\''"

  /** Every single quote replaced: close, escaped quote, open again. */
  function EscapeQuotes(s: string): string {
    if s == "" then "" else (if s[0] == '\'' then QUOTE_ESCAPED else [s[0]]) + EscapeQuotes(s[1..])
  }

  /** shellSingleQuote. */
  function SingleQuote(s: string): string {
    if s == "" then "''" else "'" + EscapeQuotes(s) + "'"
  }

  lemma {:induction false} LexEscaped(l: Lexer, s: string)
    requires l.mode.Single? && '\0' !in s
    ensures Lex(l, EscapeQuotes(s)) == Some(l.(word := l.word + Quoted(s)))
    decreases |s|
  {
    if s == "" {
      assert l.word + Quoted(s) == l.word;
    } else {
      var l1 := l.(word := l.word + [QChar(s[0], true)]);
      var head := if s[0] == '\'' then QUOTE_ESCAPED else [s[0]];
      assert s[0] in s;
      assert Lex(l, head) == Some(l1) by {
        if s[0] == '\'' {
          assert head[1..] == "\\''" && head[1..][1..] == "''" && head[1..][1..][1..] == "'";
          assert Lex(l.(mode := InWord), "\\''") == Lex(l.(mode := Escape(true)), "''");
          assert Lex(l.(mode := Escape(true)), "''") == Lex(l1.(mode := InWord), "'");
          assert Lex(l1.(mode := InWord), "'") == Some(l1);
        } else {
          assert head[1..] == "";
        }
      }
      LexConcat(l, head, EscapeQuotes(s[1..]));
      LexEscaped(l1, s[1..]);
      assert l1.word + Quoted(s[1..]) == l.word + Quoted(s);
    }
  }

  /** Whatever the text, the shell reads its quoted form as (part of) one word made of
      exactly that text, all quoted. */
  lemma LexQuote(l: Lexer, s: string)
    requires (l.mode.Between? && l.word == []) || l.mode.InWord?
    requires '\0' !in s
    ensures Lex(l, SingleQuote(s)) == Some(l.(mode := InWord, word := l.word + Quoted(s)))
  {
    var open := l.(mode := Single);
    LexConcat(l, "'", EscapeQuotes(s) + "'");
    assert "'"[1..] == "";
    assert Lex(l, "'") == Some(open);
    LexConcat(open, EscapeQuotes(s), "'");
    LexEscaped(open, s);
    assert SingleQuote(s) == "'" + (EscapeQuotes(s) + "'");
  }

  lemma {:induction false} QuoteKeepsNul(s: string)
    requires '\0' in s
    ensures '\0' in SingleQuote(s) && '\0' in EscapeQuotes(s)
    decreases |s|
  {
    if s[0] != '\0' {
      QuoteKeepsNul(s[1..]);
    }
  }

  function Joined(argv: seq<string>): string {
    if argv == [] then ""
    else if |argv| == 1 then SingleQuote(argv[0])
    else Joined(argv[..|argv| - 1]) + " " + SingleQuote(argv[|argv| - 1])
  }

  /** joinArgvShell: quote every element into `parts`, then join with spaces. */
  method JoinArgvShell(argv: seq<string>) returns (s: string)
    ensures s == Joined(argv)
  {
    var parts := new string[|argv|](_ => "");
    for i := 0 to |argv|
      invariant forall k :: 0 <= k < i ==> parts[k] == SingleQuote(argv[k])
    {
      parts[i] := SingleQuote(argv[i]);
    }
    s := "";
    for i := 0 to |argv|
      invariant s == Joined(argv[..i])
    {
      assert argv[..i + 1][..i] == argv[..i];
      s := if i == 0 then parts[0] else s + " " + parts[i];
    }
    assert argv[..|argv|] == argv;
  }

  predicate NulFree(argv: seq<string>) {
    forall a :: a in argv ==> '\0' !in a
  }

  function QuotedWords(argv: seq<string>): seq<Word> {
    seq(|argv|, i requires 0 <= i < |argv| => Quoted(argv[i]))
  }

  /** A blank ends the word in progress, a quoted text starts the next. */
  lemma LexNextArg(l: Lexer, s: string)
    requires l.mode.InWord? && '\0' !in s
    ensures Lex(l, " " + SingleQuote(s)) == Some(l.(word := Quoted(s), words := l.words + [l.word]))
  {
    var between := EndWord(l);
    assert (" " + SingleQuote(s))[1..] == SingleQuote(s);
    assert Next(l, ' ') == Some(between);
    LexQuote(between, s);
    assert [] + Quoted(s) == Quoted(s);
  }

  /** The joined text, read from between words: all elements but the last are complete
      words, the last is in progress. */
  lemma {:induction false} LexJoined(l: Lexer, argv: seq<string>)
    requires l.mode.Between? && l.word == [] && argv != [] && NulFree(argv)
    ensures Lex(l, Joined(argv)) ==
      Some(l.(mode := InWord, word := Quoted(argv[|argv| - 1]), words := l.words + QuotedWords(argv[..|argv| - 1])))
    decreases |argv|
  {
    var init, last := argv[..|argv| - 1], argv[|argv| - 1];
    assert last in argv;
    if |argv| == 1 {
      LexQuote(l, last);
      assert l.words + QuotedWords(init) == l.words;
      assert [] + Quoted(last) == Quoted(last);
    } else {
      forall a | a in init ensures '\0' !in a {
        assert a in argv;
      }
      LexJoined(l, init);
      var l1 := Lex(l, Joined(init)).value;
      LexConcat(l, Joined(init), " " + SingleQuote(last));
      LexNextArg(l1, last);
      assert Joined(argv) == Joined(init) + (" " + SingleQuote(last));
      WordsGrow(l.words, init);
    }
  }

  lemma WordsGrow(words: seq<Word>, init: seq<string>)
    requires init != []
    ensures words + QuotedWords(init[..|init| - 1]) + [Quoted(init[|init| - 1])] == words + QuotedWords(init)
  {
  }

  lemma {:induction false} JoinedNul(argv: seq<string>)
    requires !NulFree(argv)
    ensures '\0' in Joined(argv)
    decreases |argv|
  {
    var init, last := argv[..|argv| - 1], argv[|argv| - 1];
    assert argv == init + [last];
    if '\0' in last {
      QuoteKeepsNul(last);
    } else {
      assert !NulFree(init);
      JoinedNul(init);
    }
  }

  /** Round trip: the shell splits the joined text into exactly argv, as one command of
      fully quoted words, if and only if argv carries no NUL. */
  lemma ShellRoundTrip(argv: seq<string>)
    requires argv != []
    ensures Commands(Joined(argv)) == Some([QuotedWords(argv)]) <==> NulFree(argv)
  {
    if NulFree(argv) {
      LexJoined(START, argv);
      WordsGrow([], argv);
      assert [] + QuotedWords(argv) == QuotedWords(argv);
      var l := Lex(START, Joined(argv)).value;
      assert EndWord(l).words == QuotedWords(argv);
      assert EndCommand(EndWord(l)).commands == [QuotedWords(argv)];
    } else {
      JoinedNul(argv);
      LexNul(START, Joined(argv));
    }
  }

  lemma QuotedChars(s: string)
    ensures Chars(Quoted(s)) == s
    ensures Chars(Plainly(s)) == s
  {
  }

  // ---------------------------------------------------------------------------
  // Environment entries
  // ---------------------------------------------------------------------------

  /** strings.IndexByte: the first index of `c`, or -1. */
  function IndexOf(s: string, c: char): (i: int)
    ensures -1 <= i < |s|
    ensures i == -1 <==> c !in s
    ensures i >= 0 ==> s[i] == c && c !in s[..i]
  {
    if s == "" then -1
    else if s[0] == c then 0
    else
      var r := IndexOf(s[1..], c);
      if r < 0 then -1 else assert s[..r + 1] == [s[0]] + s[1..][..r]; r + 1
  }

  const LOCAL_ONLY: set<string> := {"HOME", "USER", "LOGNAME", "PWD", "OLDPWD", "SHELL", "PATH", "TMPDIR"}

  /** Does mergeSSHEnv take the entry, and under which key? */
  function KeyOf(kv: string): Option<string> {
    var eq := IndexOf(kv, '=');
    if eq <= 0 || kv[..eq] in LOCAL_ONLY then None else Some(kv[..eq])
  }

  function ValueOf(kv: string): string
    requires KeyOf(kv).Some?
  {
    kv[IndexOf(kv, '=') + 1..]
  }

  /** The keys in the order they first appear. */
  function FirstSeen(entries: seq<string>): seq<string> {
    if entries == [] then []
    else
      var init, k := FirstSeen(entries[..|entries| - 1]), KeyOf(entries[|entries| - 1]);
      if k.None? || k.value in init then init else init + [k.value]
  }

  /** The map a reader with "late entries win" gets. */
  function LastWins(entries: seq<string>): map<string, string> {
    if entries == [] then map[]
    else
      var init, kv := LastWins(entries[..|entries| - 1]), entries[|entries| - 1];
      if KeyOf(kv).None? then init else init[KeyOf(kv).value := ValueOf(kv)]
  }

  function Entries(keys: seq<string>, m: map<string, string>): seq<string>
    requires forall k :: k in keys ==> k in m
  {
    seq(|keys|, i requires 0 <= i < |keys| => keys[i] + "=" + m[keys[i]])
  }

  lemma {:induction false} SeenAreKeys(entries: seq<string>)
    ensures forall k :: k in FirstSeen(entries) <==> k in LastWins(entries)
    ensures forall i, j :: 0 <= i < j < |FirstSeen(entries)| ==> FirstSeen(entries)[i] != FirstSeen(entries)[j]
    ensures forall k :: k in FirstSeen(entries) ==> k != "" && '=' !in k && k !in LOCAL_ONLY
    decreases |entries|
  {
    if entries != [] {
      SeenAreKeys(entries[..|entries| - 1]);
    }
  }

  /** The entry sets k: it starts with k and an equals sign, and k is a key that goes to the
      remote host. */
  predicate Sets(kv: string, k: string) {
    && k + "=" <= kv && k != "" && '=' !in k
    && k !in {"HOME", "USER", "LOGNAME", "PWD", "OLDPWD", "SHELL", "PATH", "TMPDIR"}
  }

  lemma KeyOfMeans(kv: string, k: string)
    ensures KeyOf(kv) == Some(k) <==> Sets(kv, k)
    ensures Sets(kv, k) ==> ValueOf(kv) == kv[|k| + 1..]
  {
    var eq := IndexOf(kv, '=');
    if Sets(kv, k) {
      assert kv[|k|] == (k + "=")[|k|] == '=';
      assert kv[..|k|] == (k + "=")[..|k|] == k;
      assert eq == |k|;
    }
  }

  /** The last-wins map, outright: it holds the keys some entry sets, each with the value of
      the last entry that sets it. */
  lemma {:induction false} LastWinsMeans(entries: seq<string>, k: string)
    ensures k in LastWins(entries) <==> exists i :: 0 <= i < |entries| && Sets(entries[i], k)
    ensures forall i ::
              0 <= i < |entries| && Sets(entries[i], k)
              && (forall j :: i < j < |entries| ==> !Sets(entries[j], k))
              ==> LastWins(entries)[k] == entries[i][|k| + 1..]
    decreases |entries|
  {
    if entries != [] {
      var last := |entries| - 1;
      KeyOfMeans(entries[last], k);
      LastWinsMeans(entries[..last], k);
    }
  }

  /** The i-th entry is the first that sets k. */
  predicate FirstSets(entries: seq<string>, k: string, i: nat) {
    i < |entries| && Sets(entries[i], k) && forall j :: 0 <= j < i ==> !Sets(entries[j], k)
  }

  /** The key order, outright: `at` gives for each key the first entry that sets it, and
      these increase. */
  lemma {:induction false} FirstSeenMeans(entries: seq<string>) returns (at: seq<nat>)
    ensures |at| == |FirstSeen(entries)|
    ensures forall p :: 0 <= p < |at| ==> FirstSets(entries, FirstSeen(entries)[p], at[p])
    ensures forall p, q :: 0 <= p < q < |at| ==> at[p] < at[q]
    decreases |entries|
  {
    if entries == [] {
      at := [];
    } else {
      var last := |entries| - 1;
      var init, k := entries[..last], KeyOf(entries[last]);
      at := FirstSeenMeans(init);
      forall p | 0 <= p < |at| ensures FirstSets(entries, FirstSeen(init)[p], at[p]) {
        SetsStay(entries, last, FirstSeen(init)[p], at[p]);
      }
      assert forall p :: 0 <= p < |at| ==> at[p] < last;
      if k.Some? && k.value !in FirstSeen(init) {
        SetsNow(entries, last, k.value);
        at := at + [last];
      }
    }
  }

  lemma SetsStay(entries: seq<string>, n: nat, k: string, i: nat)
    requires n <= |entries| && FirstSets(entries[..n], k, i)
    ensures i < n && FirstSets(entries, k, i)
  {
    assert forall j :: 0 <= j < n ==> entries[..n][j] == entries[j];
  }

  lemma SetsNow(entries: seq<string>, last: nat, k: string)
    requires last < |entries| && KeyOf(entries[last]) == Some(k) && k !in FirstSeen(entries[..last])
    ensures FirstSets(entries, k, last)
  {
    KeyOfMeans(entries[last], k);
    SeenAreKeys(entries[..last]);
    LastWinsMeans(entries[..last], k);
    forall i | 0 <= i < last ensures !Sets(entries[i], k) {
      assert entries[..last][i] == entries[i];
    }
  }

  /** Reading one more entry, as AddEntry does. */
  lemma OneMoreEntry(before: seq<string>, entries: seq<string>, i: nat)
    requires i < |entries|
    ensures var was, now, k := before + entries[..i], before + entries[..i + 1], KeyOf(entries[i]);
            if k.None? then FirstSeen(now) == FirstSeen(was) && LastWins(now) == LastWins(was)
            else LastWins(now) == LastWins(was)[k.value := ValueOf(entries[i])]
                 && FirstSeen(now) == if k.value in FirstSeen(was) then FirstSeen(was) else FirstSeen(was) + [k.value]
  {
    var now := before + entries[..i + 1];
    assert now[..|now| - 1] == before + entries[..i] && now[|now| - 1] == entries[i];
  }

  /** Feed entries to `add`, after those of `before`. */
  method AddEntries(ghost before: seq<string>, entries: seq<string>, merged: map<string, string>, order: seq<string>)
    returns (merged': map<string, string>, order': seq<string>)
    requires order == FirstSeen(before) && merged == LastWins(before)
    ensures order' == FirstSeen(before + entries) && merged' == LastWins(before + entries)
  {
    merged', order' := merged, order;
    assert before + entries[..0] == before;
    for i := 0 to |entries|
      invariant order' == FirstSeen(before + entries[..i]) && merged' == LastWins(before + entries[..i])
    {
      OneMoreEntry(before, entries, i);
      SeenAreKeys(before + entries[..i]);
      merged', order' := AddEntry(merged', order', entries[i]);
    }
    assert entries[..|entries|] == entries;
  }

  /** mergeSSHEnv. */
  method MergeSSHEnv(env: seq<string>, creds: Option<seq<string>>) returns (out: seq<string>)
    ensures var all := env + (if creds.Some? then creds.value else []);
            && (forall k :: k in FirstSeen(all) ==> k in LastWins(all))
            && out == Entries(FirstSeen(all), LastWins(all))
  {
    ghost var all := env + (if creds.Some? then creds.value else []);
    var merged, order := AddEntries([], env, map[], []);
    assert [] + env == env && env + [] == env;
    if creds.Some? {
      merged, order := AddEntries(env, creds.value, merged, order);
    }
    SeenAreKeys(all);
    out := [];
    for i := 0 to |order|
      invariant |out| == i && forall k :: 0 <= k < i ==> out[k] == order[k] + "=" + merged[order[k]]
    {
      assert order[i] in order;
      out := out + [order[i] + "=" + merged[order[i]]];
    }
  }

  /** The closure `add` of mergeSSHEnv. */
  method AddEntry(merged: map<string, string>, order: seq<string>, kv: string)
    returns (merged': map<string, string>, order': seq<string>)
    requires forall k :: k in order <==> k in merged
    ensures KeyOf(kv).None? ==> merged' == merged && order' == order
    ensures KeyOf(kv).Some? ==> merged' == merged[KeyOf(kv).value := ValueOf(kv)]
    ensures KeyOf(kv).Some? ==> order' == if KeyOf(kv).value in order then order else order + [KeyOf(kv).value]
  {
    merged', order' := merged, order;
    var eq := IndexOf(kv, '=');
    if eq <= 0 {
      return;
    }
    var k := kv[..eq];
    if k in LOCAL_ONLY {
      return;
    }
    if k !in merged {
      order' := order + [k];
    }
    merged' := merged[k := kv[eq + 1..]];
  }

  lemma EntrySplits(k: string, v: string)
    requires '=' !in k
    ensures IndexOf(k + "=" + v, '=') == |k|
    ensures (k + "=" + v)[..|k|] == k && (k + "=" + v)[|k| + 1..] == v
  {
    var kv := k + "=" + v;
    assert kv[|k|] == '=';
    assert kv[..|k|] == k && kv[|k| + 1..] == v;
  }

  lemma AppendEntry(entries: seq<string>, k: string, v: string)
    requires k != "" && '=' !in k && k !in LOCAL_ONLY && k !in FirstSeen(entries)
    ensures FirstSeen(entries + [k + "=" + v]) == FirstSeen(entries) + [k]
    ensures LastWins(entries + [k + "=" + v]) == LastWins(entries)[k := v]
  {
    EntrySplits(k, v);
    assert (entries + [k + "=" + v])[..|entries|] == entries;
  }

  predicate Keylike(keys: seq<string>, m: map<string, string>) {
    && (forall k :: k in keys ==> k in m && k != "" && '=' !in k && k !in LOCAL_ONLY)
    && (forall i, j :: 0 <= i < j < |keys| ==> keys[i] != keys[j])
  }

  /** Merged entries read back as the map they came from, one entry per key. */
  lemma {:induction false} EntriesReadBack(keys: seq<string>, m: map<string, string>)
    requires Keylike(keys, m)
    ensures FirstSeen(Entries(keys, m)) == keys
    ensures LastWins(Entries(keys, m)) == map k | k in keys :: m[k]
    decreases |keys|
  {
    if keys != [] {
      var init, k := keys[..|keys| - 1], keys[|keys| - 1];
      assert Keylike(init, m) by {
        assert forall x :: x in init ==> x in keys;
      }
      EntriesFront(keys, m);
      EntriesReadBack(init, m);
      AppendEntry(Entries(init, m), k, m[k]);
    }
  }

  lemma EntriesFront(keys: seq<string>, m: map<string, string>)
    requires keys != [] && forall k :: k in keys ==> k in m
    ensures var init, k := keys[..|keys| - 1], keys[|keys| - 1];
            && (forall x :: x in init ==> x in m) && keys == init + [k] && k in m
            && Entries(keys, m) == Entries(init, m) + [k + "=" + m[k]]
            && (map x | x in keys :: m[x]) == (map x | x in init :: m[x])[k := m[k]]
  {
    assert keys == keys[..|keys| - 1] + [keys[|keys| - 1]];
  }

  /** mergeSSHEnv keeps the last-wins map of all entries and is idempotent. */
  lemma MergeKeepsMap(entries: seq<string>)
    ensures forall k :: k in FirstSeen(entries) ==> k in LastWins(entries)
    ensures var out := Entries(FirstSeen(entries), LastWins(entries));
            LastWins(out) == LastWins(entries) && FirstSeen(out) == FirstSeen(entries)
  {
    SeenAreKeys(entries);
    EntriesReadBack(FirstSeen(entries), LastWins(entries));
  }

  /** Credential entries win over caller entries; what they do not name stays. */
  lemma {:induction false} LaterWins(env: seq<string>, creds: seq<string>)
    ensures LastWins(env + creds) == LastWins(env) + LastWins(creds)
    decreases |creds|
  {
    if creds == [] {
      assert env + creds == env;
    } else {
      assert (env + creds)[..|env + creds| - 1] == env + creds[..|creds| - 1];
      LaterWins(env, creds[..|creds| - 1]);
    }
  }
}
