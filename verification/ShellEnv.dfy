/** What runViaWrapper writes to the remote host: the `.env` file and the wrapper
    script, read back by the shell. */
module ShellEnv {
  import opened Wrappers
  import opened Shell

  // ---------------------------------------------------------------------------
  // The shell's view of commands
  // ---------------------------------------------------------------------------

  predicate NameChar(c: char) {
    'a' <= c <= 'z' || 'A' <= c <= 'Z' || '0' <= c <= '9' || c == '_'
  }

  /** A name in the sense of the shell: not empty, no leading digit. */
  predicate ValidName(k: string) {
    k != "" && !('0' <= k[0] <= '9') && forall c :: c in k ==> NameChar(c)
  }

  /** Length of the name part of an assignment word: everything before the first
      unquoted '='; -1 when the word is no assignment. */
  function NameLength(w: Word): (n: int)
    ensures -1 <= n < |w|
  {
    if w == [] || w[0].quoted then -1
    else if w[0].c == '=' then 0
    else
      var n := NameLength(w[1..]);
      if n < 0 then -1 else n + 1
  }

  /** `NAME=value`, with the name and the '=' unquoted. */
  function Assignment(w: Word): (r: Option<(string, string)>)
    ensures r.Some? ==> ValidName(r.value.0)
  {
    var n := NameLength(w);
    if n < 0 || !ValidName(Chars(w[..n])) then None
    else Some((Chars(w[..n]), Chars(w[n + 1..])))
  }

  function Assign(words: seq<Word>, vars: map<string, string>): (r: Option<map<string, string>>)
    ensures r.Some? ==> forall k :: k in r.value && k !in vars ==> ValidName(k)
    decreases |words|
  {
    if words == [] then Some(vars)
    else
      var a := Assignment(words[0]);
      if a.None? then None else Assign(words[1..], vars[a.value.0 := a.value.1])
  }

  /** The variables a file of assignments sets; None when some command is no
      assignment, because the shell would then try to run it. */
  function SetBy(commands: seq<seq<Word>>, vars: map<string, string>): (r: Option<map<string, string>>)
    ensures r.Some? ==> forall k :: k in r.value && k !in vars ==> ValidName(k)
    decreases |commands|
  {
    if commands == [] then Some(vars)
    else
      var r := Assign(commands[0], vars);
      if r.None? then None else SetBy(commands[1..], r.value)
  }

  /** Reading a whole file with `.`. */
  function Source(text: string): (r: Option<map<string, string>>)
    ensures r.Some? ==> forall k :: k in r.value ==> ValidName(k)
  {
    var c := Commands(text);
    if c.None? then None else SetBy(c.value, map[])
  }

  /** Where a program starts: in the login directory, at a path, or somewhere else. */
  datatype Place = Login | At(path: string) | Aside

  /** What `cd` with one operand does on the remote host: it fails and the shell stays
      where it was, it enters the operand as a path, or it goes elsewhere. */
  datatype Cd = Stays | Enters | Elsewhere

  /** The program the script ends up executing, with the variables it exported, and where. */
  datatype Launch = Launch(argv: seq<string>, env: map<string, string>, place: Place)

  /** The remote host: its files, and what `cd` does there. */
  datatype Host = Host(files: map<string, string>, cd: string -> Cd)
  {
    /** Where `cd` from `place` leads. An operand with a leading '-' is the previous
        directory or an option, never a path. */
    function Landing(arg: string, place: Place): Place {
      match cd(arg)
      case Stays => place
      case Enters => if arg != "" && arg[0] == '-' then Aside else At(arg)
      case Elsewhere => Aside
    }
  }

  /** The shell's state: whether assignments are exported, what was exported, and where it
      stands. */
  datatype Sh = Sh(allexport: bool, env: map<string, string>, place: Place)

  function Strings(command: seq<Word>): seq<string> {
    seq(|command|, i requires 0 <= i < |command| => Chars(command[i]))
  }

  /** The commands a wrapper script uses. `set -a` exports what is assigned from then
      on; `trap` concerns neither argv, environment nor directory; nothing stops the script
      when `cd` fails. */
  function Interpret(commands: seq<seq<Word>>, host: Host, sh: Sh): Option<Launch>
    decreases |commands|
  {
    if commands == [] then None
    else
      var w, rest := Strings(commands[0]), commands[1..];
      if w == [] then None
      else if w == ["set", "+x"] then Interpret(rest, host, sh)
      else if w == ["set", "-a"] then Interpret(rest, host, sh.(allexport := true))
      else if w == ["set", "+a"] then Interpret(rest, host, sh.(allexport := false))
      else if w[0] == "trap" then Interpret(rest, host, sh)
      else if w[0] == "cd" && |w| == 2 then Interpret(rest, host, sh.(place := host.Landing(w[1], sh.place)))
      else if w[0] == "." && |w| == 2 && w[1] in host.files then
        var vars := Source(host.files[w[1]]);
        if vars.None? then None
        else Interpret(rest, host, if sh.allexport then sh.(env := sh.env + vars.value) else sh)
      else if w[0] == "exec" then Some(Launch(w[1..], sh.env, sh.place))
      else None
  }

  // ---------------------------------------------------------------------------
  // The texts
  // ---------------------------------------------------------------------------

  function EnvLine(kv: string): string {
    var eq := IndexOf(kv, '=');
    if eq < 0 then "" else kv[..eq] + "=" + SingleQuote(kv[eq + 1..]) + "\n"
  }

  function EnvText(env: seq<string>): string {
    if env == [] then "" else EnvText(env[..|env| - 1]) + EnvLine(env[|env| - 1])
  }

  /** The `.env` content: one quoted assignment per well-formed entry. */
  method BuildEnvContent(env: seq<string>) returns (content: string)
    ensures content == EnvText(env)
  {
    content := "";
    for i := 0 to |env|
      invariant content == EnvText(env[..i])
    {
      assert env[..i + 1][..i] == env[..i];
      var kv := env[i];
      if '=' !in kv {
        assert content + "" == content;
        continue;
      }
      var eq := IndexOf(kv, '=');
      var k, v := kv[..eq], kv[eq + 1..];
      content := content + (k + "=" + SingleQuote(v) + "\n");
    }
    assert env[..|env|] == env;
  }

  function TrapLine(tempdir: string): string {
    "trap 'rm -rf " + SingleQuote(tempdir) + "' EXIT\n"
  }

  /** A one-argument line: the command, a blank, the quoted argument. */
  function ArgLine(command: string, arg: string): string {
    command + " " + SingleQuote(arg) + "\n"
  }

  function CdLine(tempdir: string, workDir: string, hasFiles: bool): string {
    if workDir != "" then ArgLine("cd", workDir) else if hasFiles then ArgLine("cd", tempdir) else ""
  }

  function WrapperText(tempdir: string, argv: seq<string>, workDir: string, hasFiles: bool): string {
    "#!/bin/sh\n" + ("set +x\n" + (TrapLine(tempdir) + ("set -a\n" + (ArgLine(".", tempdir + "/.env")
    + ("set +a\n" + (CdLine(tempdir, workDir, hasFiles) + ("exec " + Joined(argv) + "\n")))))))
  }

  /** The wrapper script. */
  method BuildWrapper(tempdir: string, argv: seq<string>, workDir: string, hasFiles: bool) returns (w: string)
    ensures w == WrapperText(tempdir, argv, workDir, hasFiles)
  {
    var envFile := tempdir + "/.env";
    var cmdline := JoinArgvShell(argv);
    var cd := "";
    if workDir != "" {
      cd := "cd " + SingleQuote(workDir) + "\n";
    } else if hasFiles {
      cd := "cd " + SingleQuote(tempdir) + "\n";
    }
    var exec := "exec " + cmdline + "\n";
    w := "set +a\n" + (cd + exec);
    w := "set -a\n" + (". " + SingleQuote(envFile) + "\n" + w);
    w := "trap 'rm -rf " + SingleQuote(tempdir) + "' EXIT\n" + w;
    w := "#!/bin/sh\n" + ("set +x\n" + w);
    assert "cd" + " " == "cd " && "." + " " == ". ";
  }

  // ---------------------------------------------------------------------------
  // Reading lines
  // ---------------------------------------------------------------------------

  /** Between commands. */
  predicate AtLineStart(l: Lexer) {
    l.mode.Between? && l.word == [] && l.words == []
  }

  function WithCommand(l: Lexer, command: seq<Word>): Lexer {
    l.(commands := l.commands + [command])
  }

  predicate Bare(s: string) {
    s != "" && s[0] != '#' && forall c :: c in s ==> Plain(c)
  }

  lemma LexOne(l: Lexer, c: char)
    ensures Lex(l, [c]) == Next(l, c)
  {
    assert [c][1..] == "";
  }

  lemma LexBlankAfter(l: Lexer, s: string)
    requires AtLineStart(l) && Bare(s)
    ensures Lex(l, s + " ") == Some(l.(words := [Plainly(s)]))
  {
    LexBareWord(l, s);
    LexConcat(l, s, " ");
    LexOne(l.(mode := InWord, word := Plainly(s)), ' ');
    assert [] + [Plainly(s)] == [Plainly(s)];
  }

  /** A command of two plain words. */
  lemma LexPlainPair(l: Lexer, a: string, b: string)
    requires AtLineStart(l) && Bare(a) && Bare(b)
    ensures Lex(l, a + " " + b + "\n") == Some(WithCommand(l, [Plainly(a), Plainly(b)]))
  {
    var l1 := l.(words := [Plainly(a)]);
    var l2 := l1.(mode := InWord, word := Plainly(b));
    LexBlankAfter(l, a);
    LexBareWord(l1, b);
    LexConcat(l, a + " ", b);
    LexConcat(l, a + " " + b, "\n");
    LexOne(l2, '\n');
    assert EndWord(l2).words == [Plainly(a), Plainly(b)];
  }

  /** A command with quoted arguments. */
  lemma LexCommand(l: Lexer, command: string, argv: seq<string>)
    requires AtLineStart(l) && Bare(command) && argv != [] && NulFree(argv)
    ensures Lex(l, command + " " + Joined(argv) + "\n") == Some(WithCommand(l, [Plainly(command)] + QuotedWords(argv)))
  {
    var l1 := l.(words := [Plainly(command)]);
    LexBlankAfter(l, command);
    LexJoined(l1, argv);
    var l2 := Lex(l1, Joined(argv)).value;
    LexConcat(l, command + " ", Joined(argv));
    LexConcat(l, command + " " + Joined(argv), "\n");
    LexOne(l2, '\n');
    WordsGrow([Plainly(command)], argv);
    assert EndWord(l2).words == [Plainly(command)] + QuotedWords(argv);
  }

  lemma LexArgLine(l: Lexer, command: string, arg: string)
    requires AtLineStart(l) && Bare(command) && '\0' !in arg
    ensures Lex(l, ArgLine(command, arg)) == Some(WithCommand(l, [Plainly(command), Quoted(arg)]))
  {
    LexCommand(l, command, [arg]);
    assert [Plainly(command)] + QuotedWords([arg]) == [Plainly(command), Quoted(arg)];
  }

  lemma {:induction false} LexComment(l: Lexer, s: string)
    requires l.mode.Comment? && '\n' !in s && '\0' !in s
    ensures Lex(l, s) == Some(l)
    decreases |s|
  {
    if s != "" {
      LexComment(l, s[1..]);
    }
  }

  lemma ShebangSplits()
    ensures "#!/bin/sh\n" == "#" + ("!/bin/sh" + "\n")
  {
  }

  lemma LexCommentLine(l: Lexer, s: string)
    requires AtLineStart(l) && '\n' !in s && '\0' !in s
    ensures Lex(l, "#" + (s + "\n")) == Some(l)
  {
    var c := l.(mode := Comment);
    LexOne(l, '#');
    LexComment(c, s);
    LexOne(c, '\n');
    LexConcat(c, s, "\n");
    LexConcat(l, "#", s + "\n");
  }

  lemma LexShebang(l: Lexer)
    requires AtLineStart(l)
    ensures Lex(l, "#!/bin/sh\n") == Some(l)
  {
    ShebangSplits();
    LexCommentLine(l, "!/bin/sh");
  }

  lemma {:induction false} EscapeNothing(s: string)
    requires '\'' !in s
    ensures EscapeQuotes(s) == s
  {
    if s != "" {
      EscapeNothing(s[1..]);
    }
  }

  /** Paths of plain characters only, as mktemp hands out for its template. */
  predicate SafePath(p: string) {
    p != "" && forall c :: c in p ==> Plain(c)
  }

  lemma {:induction false} LexLiteral(l: Lexer, s: string)
    requires l.mode.Single? && '\'' !in s && '\0' !in s
    ensures Lex(l, s) == Some(l.(word := l.word + Quoted(s)))
  {
    EscapeNothing(s);
    LexEscaped(l, s);
  }

  /** A quoted literal text. */
  lemma LexQuotedLiteral(l: Lexer, s: string)
    requires l.mode.Between? && l.word == [] && '\'' !in s && '\0' !in s
    ensures Lex(l, "'" + s + "'") == Some(l.(mode := InWord, word := Quoted(s)))
  {
    var l1 := l.(mode := Single);
    var l2 := l1.(word := Quoted(s));
    LexOne(l, '\'');
    LexLiteral(l1, s);
    assert l1.word + Quoted(s) == Quoted(s);
    LexOne(l2, '\'');
    LexConcat(l, "'", s);
    LexConcat(l, "'" + s, "'");
  }

  /** An empty quoted text inside a word adds nothing. */
  lemma LexEmptyQuotes(l: Lexer)
    requires l.mode.InWord?
    ensures Lex(l, "''") == Some(l)
  {
    LexOne(l, '\'');
    LexOne(l.(mode := Single), '\'');
    LexConcat(l, "'", "'");
    assert "'" + "'" == "''";
  }

  /** The trap line nests quotes: the directory's own quotes close and reopen the outer
      ones, so the directory stands unquoted. For a plain path the line still is one
      command of three words. */
  lemma LexTrapLine(l: Lexer, tempdir: string)
    requires AtLineStart(l) && SafePath(tempdir)
    ensures Lex(l, TrapLine(tempdir)) ==
      Some(WithCommand(l, [Plainly("trap"), Quoted("rm -rf ") + Plainly(tempdir), Plainly("EXIT")]))
  {
    var trap, exit := Plainly("trap"), Plainly("EXIT");
    var action := Quoted("rm -rf ") + Plainly(tempdir);
    TrapLineSplits(tempdir);
    var l1 := l.(words := [trap]);
    var l2 := l1.(mode := InWord, word := Quoted("rm -rf "));
    var l3 := l2.(word := action);
    LexBlankAfter(l, "trap");
    LexQuotedLiteral(l1, "rm -rf ");
    LexPlain(l2, tempdir);
    LexEmptyQuotes(l3);
    LexLastWord(l3, "EXIT");
    assert [trap] + [action] + [exit] == [trap, action, exit];
    LexConcat(l, "trap" + " ", "'" + "rm -rf " + "'");
    LexConcat(l, "trap" + " " + ("'" + "rm -rf " + "'"), tempdir);
    LexConcat(l, "trap" + " " + ("'" + "rm -rf " + "'") + tempdir, "''");
    LexConcat(l, "trap" + " " + ("'" + "rm -rf " + "'") + tempdir + "''", " " + "EXIT" + "\n");
  }

  lemma LexLastWord(l: Lexer, s: string)
    requires l.mode.InWord? && Bare(s)
    ensures Lex(l, " " + s + "\n") ==
      Some(l.(mode := Between, word := [], words := [], commands := l.commands + [l.words + [l.word] + [Plainly(s)]]))
  {
    var l1 := EndWord(l);
    var l2 := l1.(mode := InWord, word := Plainly(s));
    LexOne(l, ' ');
    LexBareWord(l1, s);
    LexOne(l2, '\n');
    LexConcat(l, " ", s);
    LexConcat(l, " " + s, "\n");
  }

  lemma TrapOpens()
    ensures "trap 'rm -rf " == "trap" + " " + ("'" + "rm -rf ")
  {
  }

  lemma TrapCloses()
    ensures "' EXIT\n" == "'" + (" " + "EXIT" + "\n")
  {
  }

  /** Quotes around `t` inside quotes around everything: regrouped by what they pair with. */
  lemma NestedQuotes(p: string, r: string, t: string, e: string)
    ensures p + ("'" + r) + ("'" + t + "'") + ("'" + e) == p + ("'" + r + "'") + t + "''" + e
  {
  }

  lemma TrapLineSplits(tempdir: string)
    requires SafePath(tempdir)
    ensures TrapLine(tempdir) == "trap" + " " + ("'" + "rm -rf " + "'") + tempdir + "''" + (" " + "EXIT" + "\n")
  {
    assert !Plain('\'');
    EscapeNothing(tempdir);
    TrapOpens();
    TrapCloses();
    NestedQuotes("trap" + " ", "rm -rf ", tempdir, " " + "EXIT" + "\n");
  }

  // ---------------------------------------------------------------------------
  // The .env file
  // ---------------------------------------------------------------------------

  function EnvWord(k: string, v: string): Word {
    Plainly(k) + [QChar('=', false)] + Quoted(v)
  }

  lemma NamesArePlain(k: string)
    requires ValidName(k)
    ensures Bare(k) && '=' !in k
  {
    forall c | c in k ensures Plain(c) && c != '=' {
      assert NameChar(c);
    }
    assert k[0] in k;
  }

  lemma LexEnvLine(l: Lexer, k: string, v: string)
    requires AtLineStart(l) && ValidName(k) && '\0' !in v
    ensures Lex(l, k + "=" + SingleQuote(v) + "\n") == Some(WithCommand(l, [EnvWord(k, v)]))
  {
    NamesArePlain(k);
    LexBareWord(l, k);
    var l1 := l.(mode := InWord, word := Plainly(k));
    var l2 := l1.(word := Plainly(k) + [QChar('=', false)]);
    LexOne(l1, '=');
    LexQuote(l2, v);
    var l3 := l2.(word := EnvWord(k, v));
    LexOne(l3, '\n');
    LexConcat(l, k, "=");
    LexConcat(l, k + "=", SingleQuote(v));
    LexConcat(l, k + "=" + SingleQuote(v), "\n");
    assert EndWord(l3).words == [EnvWord(k, v)];
  }

  lemma {:induction false} EnvWordName(k: string, v: string)
    requires '=' !in k
    ensures NameLength(EnvWord(k, v)) == |k|
    decreases |k|
  {
    if k != "" {
      EnvWordName(k[1..], v);
      assert EnvWord(k, v)[1..] == EnvWord(k[1..], v);
      assert k[0] in k;
    }
  }

  lemma EnvWordAssigns(k: string, v: string)
    requires ValidName(k)
    ensures Assignment(EnvWord(k, v)) == Some((k, v))
  {
    NamesArePlain(k);
    EnvWordName(k, v);
    assert EnvWord(k, v)[..|k|] == Plainly(k);
    assert EnvWord(k, v)[|k| + 1..] == Quoted(v);
    QuotedChars(k);
    QuotedChars(v);
  }

  function EnvCommands(keys: seq<string>, m: map<string, string>): seq<seq<Word>>
    requires forall k :: k in keys ==> k in m
  {
    seq(|keys|, i requires 0 <= i < |keys| => [EnvWord(keys[i], m[keys[i]])])
  }

  predicate Transportable(keys: seq<string>, m: map<string, string>) {
    forall k :: k in keys ==> k in m && ValidName(k) && '\0' !in m[k]
  }

  lemma EnvCommandsFront(keys: seq<string>, m: map<string, string>)
    requires keys != [] && forall k :: k in keys ==> k in m
    ensures var init, k := keys[..|keys| - 1], keys[|keys| - 1];
            && (forall x :: x in init ==> x in m) && k in m
            && EnvCommands(keys, m) == EnvCommands(init, m) + [[EnvWord(k, m[k])]]
  {
    assert keys[|keys| - 1] in keys;
  }

  lemma TransportableFront(keys: seq<string>, m: map<string, string>)
    requires keys != [] && Transportable(keys, m)
    ensures Transportable(keys[..|keys| - 1], m)
    ensures var k := keys[|keys| - 1]; k in m && ValidName(k) && '\0' !in m[k]
  {
    var init := keys[..|keys| - 1];
    assert forall x :: x in init ==> x in keys;
    assert keys[|keys| - 1] in keys;
  }

  lemma EnvTextFront(keys: seq<string>, m: map<string, string>)
    requires keys != [] && forall k :: k in keys ==> k in m
    ensures var init, k := keys[..|keys| - 1], keys[|keys| - 1];
            && (forall x :: x in init ==> x in m) && k in m
            && EnvText(Entries(keys, m)) == EnvText(Entries(init, m)) + EnvLine(k + "=" + m[k])
  {
    EntriesFront(keys, m);
    var front := Entries(keys[..|keys| - 1], m);
    assert Entries(keys, m)[..|front|] == front;
  }

  lemma EnvLineText(k: string, v: string)
    requires ValidName(k)
    ensures EnvLine(k + "=" + v) == k + "=" + SingleQuote(v) + "\n"
  {
    NamesArePlain(k);
    EntrySplits(k, v);
  }

  lemma {:induction false} LexEnvText(l: Lexer, keys: seq<string>, m: map<string, string>)
    requires AtLineStart(l) && Transportable(keys, m)
    ensures Lex(l, EnvText(Entries(keys, m))) == Some(l.(commands := l.commands + EnvCommands(keys, m)))
    decreases |keys|
  {
    if keys == [] {
      assert l.commands + EnvCommands(keys, m) == l.commands;
    } else {
      var init, k := keys[..|keys| - 1], keys[|keys| - 1];
      TransportableFront(keys, m);
      EnvTextFront(keys, m);
      EnvCommandsFront(keys, m);
      EnvLineText(k, m[k]);
      LexEnvText(l, init, m);
      var l1 := l.(commands := l.commands + EnvCommands(init, m));
      LexEnvLine(l1, k, m[k]);
      LexThen(l, EnvText(Entries(init, m)), l1, EnvLine(k + "=" + m[k]));
      OneMoreCommand(l.commands, EnvCommands(init, m), [EnvWord(k, m[k])]);
    }
  }

  lemma OneMoreCommand(a: seq<seq<Word>>, b: seq<seq<Word>>, c: seq<Word>)
    ensures a + b + [c] == a + (b + [c])
  {
  }

  lemma LexThen(l: Lexer, a: string, mid: Lexer, b: string)
    requires Lex(l, a) == Some(mid)
    ensures Lex(l, a + b) == Lex(mid, b)
  {
    LexConcat(l, a, b);
  }

  function Restrict(keys: seq<string>, m: map<string, string>): map<string, string>
    requires forall k :: k in keys ==> k in m
  {
    map k | k in keys :: m[k]
  }

  lemma RestrictFront(keys: seq<string>, m: map<string, string>, vars: map<string, string>)
    requires keys != [] && forall k :: k in keys ==> k in m
    ensures forall x :: x in keys[1..] ==> x in m
    ensures vars[keys[0] := m[keys[0]]] + Restrict(keys[1..], m) == vars + Restrict(keys, m)
  {
    assert keys == [keys[0]] + keys[1..];
  }

  lemma {:induction false} SetByEnv(keys: seq<string>, m: map<string, string>, vars: map<string, string>)
    requires Transportable(keys, m)
    ensures SetBy(EnvCommands(keys, m), vars) == Some(vars + Restrict(keys, m))
    decreases |keys|
  {
    if keys == [] {
      assert vars + Restrict(keys, m) == vars;
    } else {
      var k, rest := keys[0], keys[1..];
      RestrictFront(keys, m, vars);
      EnvWordAssigns(k, m[k]);
      assert EnvCommands(keys, m)[1..] == EnvCommands(rest, m);
      assert [EnvWord(k, m[k])][1..] == [];
      assert Assign([EnvWord(k, m[k])], vars) == Some(vars[k := m[k]]);
      SetByEnv(rest, m, vars[k := m[k]]);
    }
  }

  /** Sourcing the `.env` text sets exactly the entries. */
  lemma SourceEnvText(keys: seq<string>, m: map<string, string>)
    requires Transportable(keys, m)
    ensures Source(EnvText(Entries(keys, m))) == Some(Restrict(keys, m))
  {
    LexEnvText(START, keys, m);
    assert START.commands + EnvCommands(keys, m) == EnvCommands(keys, m);
    SetByEnv(keys, m, map[]);
    assert map[] + Restrict(keys, m) == Restrict(keys, m);
  }

  lemma {:induction false} EnvTextNul(keys: seq<string>, m: map<string, string>, k: string)
    requires Keylike(keys, m) && k in keys && '\0' in m[k]
    ensures '\0' in EnvText(Entries(keys, m))
    decreases |keys|
  {
    var init, last := keys[..|keys| - 1], keys[|keys| - 1];
    EntriesFront(keys, m);
    assert Entries(keys, m)[..|keys| - 1] == Entries(init, m);
    EntrySplits(last, m[last]);
    if k == last {
      QuoteKeepsNul(m[k]);
      assert '\0' in EnvLine(last + "=" + m[last]);
    } else {
      assert Keylike(init, m) by {
        assert forall x :: x in init ==> x in keys;
      }
      EnvTextNul(init, m, k);
    }
  }

  /** Reading the `.env` text back gives the last-wins map of the merged entries if and
      only if every key is a shell name and no value carries NUL. */
  lemma EnvRoundTrip(entries: seq<string>)
    ensures Keylike(FirstSeen(entries), LastWins(entries))
    ensures Source(EnvText(Entries(FirstSeen(entries), LastWins(entries)))) == Some(LastWins(entries))
      <==> Transportable(FirstSeen(entries), LastWins(entries))
  {
    var keys, m := FirstSeen(entries), LastWins(entries);
    SeenAreKeys(entries);
    var text := EnvText(Entries(keys, m));
    if Transportable(keys, m) {
      SourceEnvText(keys, m);
      assert Restrict(keys, m) == m;
    } else if Source(text) == Some(m) {
      var k :| k in keys && (!ValidName(k) || '\0' in m[k]);
      if '\0' in m[k] {
        EnvTextNul(keys, m, k);
        LexNul(START, text);
      }
    }
  }

  // ---------------------------------------------------------------------------
  // What the wrapper script starts
  // ---------------------------------------------------------------------------

  function CdCommands(tempdir: string, workDir: string, hasFiles: bool): seq<seq<Word>> {
    if workDir != "" then [[Plainly("cd"), Quoted(workDir)]]
    else if hasFiles then [[Plainly("cd"), Quoted(tempdir)]]
    else []
  }

  /** From `set -a` on. */
  function SourcingCommands(tempdir: string): seq<seq<Word>> {
    [[Plainly("set"), Plainly("-a")], [Plainly("."), Quoted(tempdir + "/.env")], [Plainly("set"), Plainly("+a")]]
  }

  function TailCommands(tempdir: string, argv: seq<string>, workDir: string, hasFiles: bool): seq<seq<Word>> {
    CdCommands(tempdir, workDir, hasFiles) + [[Plainly("exec")] + QuotedWords(argv)]
  }

  function TrapCommand(tempdir: string): seq<Word> {
    [Plainly("trap"), Quoted("rm -rf ") + Plainly(tempdir), Plainly("EXIT")]
  }

  function WrapperCommands(tempdir: string, argv: seq<string>, workDir: string, hasFiles: bool): seq<seq<Word>> {
    [[Plainly("set"), Plainly("+x")], TrapCommand(tempdir)]
    + (SourcingCommands(tempdir) + TailCommands(tempdir, argv, workDir, hasFiles))
  }

  function WithCommands(l: Lexer, commands: seq<seq<Word>>): Lexer {
    l.(commands := l.commands + commands)
  }

  lemma Batches(l: Lexer, a: seq<seq<Word>>, b: seq<seq<Word>>, c: seq<seq<Word>>)
    ensures WithCommands(WithCommands(WithCommands(l, a), b), c) == WithCommands(l, a + (b + c))
  {
    assert l.commands + a + b + c == l.commands + (a + (b + c));
  }

  lemma LexTail(l: Lexer, tempdir: string, argv: seq<string>, workDir: string, hasFiles: bool)
    requires AtLineStart(l) && '\0' !in tempdir && '\0' !in workDir && argv != [] && NulFree(argv)
    ensures Lex(l, CdLine(tempdir, workDir, hasFiles) + ("exec " + Joined(argv) + "\n"))
      == Some(WithCommands(l, TailCommands(tempdir, argv, workDir, hasFiles)))
  {
    var exec, run := "exec " + Joined(argv) + "\n", [Plainly("exec")] + QuotedWords(argv);
    assert "exec" + " " == "exec ";
    if workDir != "" || hasFiles {
      var dir := if workDir != "" then workDir else tempdir;
      LexArgLine(l, "cd", dir);
      var l1 := WithCommand(l, [Plainly("cd"), Quoted(dir)]);
      LexThen(l, ArgLine("cd", dir), l1, exec);
      LexCommand(l1, "exec", argv);
      assert l1.commands + [run] == l.commands + ([[Plainly("cd"), Quoted(dir)]] + [run]);
    } else {
      LexCommand(l, "exec", argv);
      assert "" + exec == exec;
      assert [] + [run] == [run];
    }
  }

  lemma LexSourcing(l: Lexer, tempdir: string, rest: string)
    requires AtLineStart(l) && '\0' !in tempdir
    ensures Lex(l, "set -a\n" + (ArgLine(".", tempdir + "/.env") + ("set +a\n" + rest)))
      == Lex(WithCommands(l, SourcingCommands(tempdir)), rest)
  {
    var c := SourcingCommands(tempdir);
    var l1 := WithCommand(l, c[0]);
    var l2 := WithCommand(l1, c[1]);
    var l3 := WithCommand(l2, c[2]);
    assert "set" + " " + "-a" + "\n" == "set -a\n" && "set" + " " + "+a" + "\n" == "set +a\n";
    LexPlainPair(l, "set", "-a");
    LexArgLine(l1, ".", tempdir + "/.env");
    LexPlainPair(l2, "set", "+a");
    LexThen(l, "set -a\n", l1, ArgLine(".", tempdir + "/.env") + ("set +a\n" + rest));
    LexThen(l1, ArgLine(".", tempdir + "/.env"), l2, "set +a\n" + rest);
    LexThen(l2, "set +a\n", l3, rest);
    assert l3.commands == l.commands + c;
  }

  lemma LexPreamble(l: Lexer, tempdir: string, rest: string)
    requires AtLineStart(l) && SafePath(tempdir)
    ensures Lex(l, "#!/bin/sh\n" + ("set +x\n" + (TrapLine(tempdir) + rest)))
      == Lex(WithCommands(l, [[Plainly("set"), Plainly("+x")], TrapCommand(tempdir)]), rest)
  {
    var l1 := WithCommand(l, [Plainly("set"), Plainly("+x")]);
    var l2 := WithCommand(l1, TrapCommand(tempdir));
    LexShebang(l);
    assert "set" + " " + "+x" + "\n" == "set +x\n";
    LexPlainPair(l, "set", "+x");
    LexTrapLine(l1, tempdir);
    LexThen(l, "#!/bin/sh\n", l, "set +x\n" + (TrapLine(tempdir) + rest));
    LexThen(l, "set +x\n", l1, TrapLine(tempdir) + rest);
    LexThen(l1, TrapLine(tempdir), l2, rest);
    assert l2.commands == l.commands + [[Plainly("set"), Plainly("+x")], TrapCommand(tempdir)];
  }

  lemma SafeNoNul(p: string)
    requires SafePath(p)
    ensures '\0' !in p
  {
    assert !Plain('\0');
  }

  /** The shell reads the wrapper text as exactly these commands. */
  lemma LexWrapper(tempdir: string, argv: seq<string>, workDir: string, hasFiles: bool)
    requires SafePath(tempdir) && '\0' !in workDir && argv != [] && NulFree(argv)
    ensures Commands(WrapperText(tempdir, argv, workDir, hasFiles))
      == Some(WrapperCommands(tempdir, argv, workDir, hasFiles))
  {
    SafeNoNul(tempdir);
    var tail := CdLine(tempdir, workDir, hasFiles) + ("exec " + Joined(argv) + "\n");
    var sourcing := "set -a\n" + (ArgLine(".", tempdir + "/.env") + ("set +a\n" + tail));
    var first := [[Plainly("set"), Plainly("+x")], TrapCommand(tempdir)];
    var l1 := WithCommands(START, first);
    var l2 := WithCommands(l1, SourcingCommands(tempdir));
    LexPreamble(START, tempdir, sourcing);
    LexSourcing(l1, tempdir, tail);
    LexTail(l2, tempdir, argv, workDir, hasFiles);
    var all := WrapperCommands(tempdir, argv, workDir, hasFiles);
    Batches(START, first, SourcingCommands(tempdir), TailCommands(tempdir, argv, workDir, hasFiles));
    assert Lex(START, WrapperText(tempdir, argv, workDir, hasFiles)) == Some(WithCommands(START, all));
    assert [] + all == all;
  }

  lemma StringsQuoted(argv: seq<string>)
    ensures Strings([Plainly("exec")] + QuotedWords(argv)) == ["exec"] + argv
  {
    QuotedChars("exec");
    forall i | 0 <= i < |argv| ensures Chars(Quoted(argv[i])) == argv[i] {
      QuotedChars(argv[i]);
    }
  }

  lemma StringsPair(a: Word, b: Word)
    ensures Strings([a, b]) == [Chars(a), Chars(b)]
  {
  }

  const FRESH := Sh(false, map[], Login)

  /** Dispatching on the first command. */
  lemma InterpretFirst(c: seq<Word>, rest: seq<seq<Word>>, host: Host, sh: Sh)
    requires c != []
    ensures Strings(c) == ["set", "+x"] ==> Interpret([c] + rest, host, sh) == Interpret(rest, host, sh)
    ensures Strings(c) == ["set", "-a"] ==>
        Interpret([c] + rest, host, sh) == Interpret(rest, host, sh.(allexport := true))
    ensures Strings(c) == ["set", "+a"] ==>
        Interpret([c] + rest, host, sh) == Interpret(rest, host, sh.(allexport := false))
    ensures Strings(c)[0] == "trap" ==> Interpret([c] + rest, host, sh) == Interpret(rest, host, sh)
    ensures Strings(c)[0] == "cd" && |c| == 2 ==>
              Interpret([c] + rest, host, sh) ==
              Interpret(rest, host, sh.(place := host.Landing(Strings(c)[1], sh.place)))
    ensures Strings(c)[0] == "exec" ==>
        Interpret([c] + rest, host, sh) == Some(Launch(Strings(c)[1..], sh.env, sh.place))
  {
    assert ([c] + rest)[0] == c && ([c] + rest)[1..] == rest;
  }

  lemma InterpretDot(file: string, rest: seq<seq<Word>>, host: Host, sh: Sh)
    requires file in host.files && Source(host.files[file]).Some? && sh.allexport
    ensures Interpret([[Plainly("."), Quoted(file)]] + rest, host, sh)
      == Interpret(rest, host, sh.(env := sh.env + Source(host.files[file]).value))
  {
    var c := [Plainly("."), Quoted(file)];
    QuotedChars(".");
    QuotedChars(file);
    assert ([c] + rest)[0] == c && ([c] + rest)[1..] == rest;
    assert Strings(c) == [".", file];
  }

  /** The directory the script is told to change to; "" when it is told nothing. */
  function CdDir(tempdir: string, workDir: string, hasFiles: bool): string {
    if workDir != "" then workDir else if hasFiles then tempdir else ""
  }

  /** Where the program should start. */
  function Wanted(dir: string): Place {
    if dir == "" then Login else At(dir)
  }

  /** Where it does start. */
  function Reached(dir: string, host: Host): Place {
    if dir == "" then Login else host.Landing(dir, Login)
  }

  lemma InterpretTail(tempdir: string, argv: seq<string>, workDir: string, hasFiles: bool, host: Host,
                      env: map<string, string>)
    requires tempdir != ""
    ensures Interpret(TailCommands(tempdir, argv, workDir, hasFiles), host, Sh(false, env, Login))
      == Some(Launch(argv, env, Reached(CdDir(tempdir, workDir, hasFiles), host)))
  {
    var exec, dir := [Plainly("exec")] + QuotedWords(argv), CdDir(tempdir, workDir, hasFiles);
    StringsQuoted(argv);
    InterpretFirst(exec, [], host, Sh(false, env, Reached(dir, host)));
    assert (["exec"] + argv)[1..] == argv;
    assert [exec] + [] == [exec];
    var cd := CdCommands(tempdir, workDir, hasFiles);
    if cd == [] {
      assert cd + [exec] == [exec];
    } else {
      QuotedChars("cd");
      QuotedChars(dir);
      StringsPair(Plainly("cd"), Quoted(dir));
      InterpretFirst(cd[0], [exec], host, Sh(false, env, Login));
      assert cd == [cd[0]] && Strings(cd[0]) == ["cd", dir];
    }
  }

  lemma InterpretSourcing(tempdir: string, rest: seq<seq<Word>>, host: Host)
    requires tempdir + "/.env" in host.files && Source(host.files[tempdir + "/.env"]).Some?
    ensures Interpret(SourcingCommands(tempdir) + rest, host, FRESH)
      == Interpret(rest, host, Sh(false, Source(host.files[tempdir + "/.env"]).value, Login))
  {
    var c := SourcingCommands(tempdir);
    var vars := Source(host.files[tempdir + "/.env"]).value;
    var after := [c[2]] + rest;
    SourcingSplits(tempdir, rest);
    InterpretExport(rest, after, host, Sh(true, vars, Login));
    InterpretDot(tempdir + "/.env", after, host, Sh(true, map[], Login));
    assert map[] + vars == vars;
    InterpretExport([c[1]] + after, [c[0]] + ([c[1]] + after), host, FRESH);
  }

  lemma SourcingSplits(tempdir: string, rest: seq<seq<Word>>)
    ensures var c := SourcingCommands(tempdir); c + rest == [c[0]] + ([c[1]] + ([c[2]] + rest))
  {
  }

  /** `set -a` and `set +a` switch exporting on and off. */
  lemma InterpretExport(rest: seq<seq<Word>>, all: seq<seq<Word>>, host: Host, sh: Sh)
    ensures all == [[Plainly("set"), Plainly("-a")]] + rest ==>
              Interpret(all, host, sh) == Interpret(rest, host, sh.(allexport := true))
    ensures all == [[Plainly("set"), Plainly("+a")]] + rest ==>
              Interpret(all, host, sh) == Interpret(rest, host, sh.(allexport := false))
  {
    QuotedChars("set");
    QuotedChars("-a");
    QuotedChars("+a");
    StringsPair(Plainly("set"), Plainly("-a"));
    StringsPair(Plainly("set"), Plainly("+a"));
    InterpretFirst([Plainly("set"), Plainly("-a")], rest, host, sh);
    InterpretFirst([Plainly("set"), Plainly("+a")], rest, host, sh);
  }

  /** The commands of the wrapper launch argv with the variables of the sourced file. */
  lemma InterpretWrapper(tempdir: string, argv: seq<string>, workDir: string, hasFiles: bool, host: Host,
                         vars: map<string, string>)
    requires tempdir != "" && tempdir + "/.env" in host.files && Source(host.files[tempdir + "/.env"]) == Some(vars)
    ensures Interpret(WrapperCommands(tempdir, argv, workDir, hasFiles), host, FRESH)
      == Some(Launch(argv, vars, Reached(CdDir(tempdir, workDir, hasFiles), host)))
  {
    var tail := TailCommands(tempdir, argv, workDir, hasFiles);
    var rest := SourcingCommands(tempdir) + tail;
    var setX, trap := [Plainly("set"), Plainly("+x")], TrapCommand(tempdir);
    InterpretTail(tempdir, argv, workDir, hasFiles, host, vars);
    InterpretSourcing(tempdir, tail, host);
    QuotedChars("set");
    QuotedChars("+x");
    QuotedChars("trap");
    StringsPair(setX[0], setX[1]);
    assert Strings(trap)[0] == "trap";
    InterpretFirst(trap, rest, host, FRESH);
    InterpretFirst(setX, [trap] + rest, host, FRESH);
    assert [setX, trap] + rest == [setX] + ([trap] + rest);
  }

  /** Running a script. */
  function RunScript(text: string, host: Host): Option<Launch> {
    var commands := Commands(text);
    if commands.None? then None else Interpret(commands.value, host, FRESH)
  }

  lemma ScriptRuns(text: string, commands: seq<seq<Word>>, host: Host)
    requires Commands(text) == Some(commands)
    ensures RunScript(text, host) == Interpret(commands, host, FRESH)
  {
  }

  /** One call of the backend, after its entries are merged: the tool with its arguments,
      the environment entries, the remote temporary directory, the working directory asked
      for, and whether files were placed in the temporary one. */
  datatype Call = Call(entries: seq<string>, argv: seq<string>, tempdir: string, workDir: string, hasFiles: bool)
  {
    function Env(): map<string, string> { LastWins(entries) }

    function Merged(): (m: seq<string>)
      ensures Keylike(FirstSeen(entries), LastWins(entries)) && m == Entries(FirstSeen(entries), LastWins(entries))
    {
      SeenAreKeys(entries);
      Entries(FirstSeen(entries), LastWins(entries))
    }

    function Dir(): string { CdDir(tempdir, workDir, hasFiles) }

    /** What the texts can carry: shell names as keys, no NUL, a plain temporary path. */
    predicate Carried() {
      && Transportable(FirstSeen(entries), LastWins(entries))
      && SafePath(tempdir) && '\0' !in workDir && argv != [] && NulFree(argv)
    }

    /** What the caller asked for. */
    function Asked(): Launch { Launch(argv, Env(), Wanted(Dir())) }
  }

  /** What the wrapper script starts, run against the `.env` file written beside it from
      the merged entries, on a host whose `cd` behaves as given. */
  function WrapperLaunch(call: Call, cd: string -> Cd): Option<Launch> {
    RunScript(WrapperText(call.tempdir, call.argv, call.workDir, call.hasFiles), WrapperHost(call, cd))
  }

  function WrapperHost(call: Call, cd: string -> Cd): Host {
    Host(map[call.tempdir + "/.env" := EnvText(call.Merged())], cd)
  }

  /** The wrapper launches exactly argv, with exactly the last-wins environment of the
      entries, wherever `cd` leads. */
  lemma WrapperLaunches(call: Call, cd: string -> Cd)
    requires call.Carried()
    ensures WrapperLaunch(call, cd) == Some(Launch(call.argv, call.Env(), Reached(call.Dir(), Host(map[], cd))))
  {
    var host, commands := WrapperHost(call, cd), WrapperCommands(call.tempdir, call.argv, call.workDir, call.hasFiles);
    EnvRoundTrip(call.entries);
    LexWrapper(call.tempdir, call.argv, call.workDir, call.hasFiles);
    ScriptRuns(WrapperText(call.tempdir, call.argv, call.workDir, call.hasFiles), commands, host);
    InterpretWrapper(call.tempdir, call.argv, call.workDir, call.hasFiles, host, call.Env());
    SameLanding(call.Dir(), host, cd);
  }

  lemma SameLanding(dir: string, host: Host, cd: string -> Cd)
    requires host.cd == cd
    ensures Reached(dir, host) == Reached(dir, Host(map[], cd))
  {
  }

  /** So it launches what was asked for if and only if no directory was asked for, or one
      without a leading '-' that `cd` enters. */
  lemma WrapperAsAskedIff(call: Call, cd: string -> Cd)
    requires call.Carried()
    ensures WrapperLaunch(call, cd) == Some(call.Asked()) <==>
              call.Dir() == "" || (call.Dir()[0] != '-' && cd(call.Dir()).Enters?)
  {
    WrapperLaunches(call, cd);
  }

  /** Before anything else the script turns command tracing off and arranges for the
      temporary directory, with the variables in it, to be removed when it exits; the
      variables are read, and only then is anything run, as the last command. */
  lemma WrapperHygiene(tempdir: string, argv: seq<string>, workDir: string, hasFiles: bool)
    requires SafePath(tempdir) && '\0' !in workDir && argv != [] && NulFree(argv)
    ensures var c := Commands(WrapperText(tempdir, argv, workDir, hasFiles));
            && c.Some? && |c.value| >= 6
            && Strings(c.value[0]) == ["set", "+x"]
            && Strings(c.value[1]) == ["trap", "rm -rf " + tempdir, "EXIT"]
            && Strings(c.value[3]) == [".", tempdir + "/.env"]
            && Strings(c.value[|c.value| - 1]) == ["exec"] + argv
  {
    LexWrapper(tempdir, argv, workDir, hasFiles);
    var c := WrapperCommands(tempdir, argv, workDir, hasFiles);
    StringsQuoted(argv);
    QuotedChars("set");
    QuotedChars("+x");
    QuotedChars(".");
    QuotedChars(tempdir + "/.env");
    StringsPair(Plainly("set"), Plainly("+x"));
    StringsPair(Plainly("."), Quoted(tempdir + "/.env"));
    TrapStrings(tempdir);
    var head := [[Plainly("set"), Plainly("+x")], TrapCommand(tempdir)];
    var tail := TailCommands(tempdir, argv, workDir, hasFiles);
    assert c[0] == head[0] && c[1] == head[1] && c[3] == SourcingCommands(tempdir)[1];
    assert c[|c| - 1] == tail[|tail| - 1] == [Plainly("exec")] + QuotedWords(argv);
  }

  lemma TrapStrings(tempdir: string)
    ensures Strings(TrapCommand(tempdir)) == ["trap", "rm -rf " + tempdir, "EXIT"]
  {
    QuotedChars("trap");
    QuotedChars("EXIT");
    assert Chars(Quoted("rm -rf ") + Plainly(tempdir)) == "rm -rf " + tempdir;
  }

  /** Nothing stops the script when `cd` fails: in a missing directory the tool starts all
      the same, in the login directory; and it never starts in one called "-". */
  lemma MissingDirStarts(call: Call, cd: string -> Cd)
    requires call.Carried() && call.Dir() != ""
    ensures cd(call.Dir()).Stays? ==> WrapperLaunch(call, cd) == Some(Launch(call.argv, call.Env(), Login))
    ensures call.workDir == "-" ==> WrapperLaunch(call, cd) != Some(call.Asked())
  {
    WrapperLaunches(call, cd);
  }

  // ---------------------------------------------------------------------------
  // extractSSHTarget
  // ---------------------------------------------------------------------------

  const NEW_PREFIX: string := "AWSBNKCTL_SSH_TARGET="
  const OLD_PREFIX: string := "ROKSBNKCTL_SSH_TARGET="

  predicate Sentinel(kv: string) {
    NEW_PREFIX <= kv || OLD_PREFIX <= kv
  }

  function WithoutSentinels(env: seq<string>): seq<string> {
    if env == [] then []
    else WithoutSentinels(env[..|env| - 1]) + if Sentinel(env[|env| - 1]) then [] else [env[|env| - 1]]
  }

  /** The first non-empty legacy value. */
  function FirstLegacy(env: seq<string>): string {
    if env == [] then ""
    else if OLD_PREFIX <= env[0] && !(NEW_PREFIX <= env[0]) && env[0] != OLD_PREFIX then env[0][|OLD_PREFIX|..]
    else FirstLegacy(env[1..])
  }

  /** The last canonical entry decides; only when its value is empty (or there is none)
      the first non-empty legacy entry after it does. */
  function TargetOf(env: seq<string>): string {
    TargetFrom(env, |env|)
  }

  function TargetFrom(env: seq<string>, i: nat): string
    requires i <= |env|
  {
    if i == 0 then FirstLegacy(env)
    else if NEW_PREFIX <= env[i - 1] then
      if env[i - 1] != NEW_PREFIX then env[i - 1][|NEW_PREFIX|..] else FirstLegacy(env[i..])
    else TargetFrom(env, i - 1)
  }

  lemma PrefixesDiffer(kv: string)
    ensures !(NEW_PREFIX <= kv && OLD_PREFIX <= kv)
  {
    assert NEW_PREFIX[0] != OLD_PREFIX[0];
  }

  lemma {:induction false} FirstLegacyAppend(env: seq<string>, kv: string)
    ensures FirstLegacy(env + [kv]) ==
      if FirstLegacy(env) != "" then FirstLegacy(env) else FirstLegacy([kv])
    decreases |env|
  {
    if env == [] {
      assert env + [kv] == [kv];
    } else {
      assert (env + [kv])[1..] == env[1..] + [kv];
      FirstLegacyAppend(env[1..], kv);
    }
  }

  lemma {:induction false} TargetFromAppend(env: seq<string>, kv: string, i: nat)
    requires i <= |env| && !(NEW_PREFIX <= kv)
    requires forall k :: i <= k < |env| ==> !(NEW_PREFIX <= env[k])
    ensures TargetFrom(env + [kv], i) ==
      if TargetFrom(env, i) != "" then TargetFrom(env, i) else FirstLegacy([kv])
    decreases i
  {
    if i == 0 {
      FirstLegacyAppend(env, kv);
    } else {
      assert (env + [kv])[i - 1] == env[i - 1];
      if NEW_PREFIX <= env[i - 1] {
        assert (env + [kv])[i..] == env[i..] + [kv];
        FirstLegacyAppend(env[i..], kv);
      } else {
        TargetFromAppend(env, kv, i - 1);
      }
    }
  }

  /** One more entry. */
  lemma TargetAppend(env: seq<string>, kv: string)
    ensures TargetOf(env + [kv]) ==
      if NEW_PREFIX <= kv then kv[|NEW_PREFIX|..]
      else if OLD_PREFIX <= kv && TargetOf(env) == "" then kv[|OLD_PREFIX|..]
      else TargetOf(env)
  {
    PrefixesDiffer(kv);
    var all := env + [kv];
    assert all[|env|] == kv && all[|all|..] == [];
    if !(NEW_PREFIX <= kv) {
      assert TargetOf(all) == TargetFrom(all, |env|);
      TargetFromAppend(env, kv, |env|);
      assert [kv][1..] == [];
    }
  }

  lemma {:induction false} SurvivorsPick(env: seq<string>) returns (at: seq<nat>)
    ensures Picks(WithoutSentinels(env), env, at)
    ensures forall i :: 0 <= i < |env| ==> (i in at <==> !Sentinel(env[i]))
    decreases |env|
  {
    if env == [] {
      at := [];
    } else {
      var init, last := env[..|env| - 1], env[|env| - 1];
      var front := SurvivorsPick(init);
      at := PicksMore(WithoutSentinels(init), init, front, last, !Sentinel(last));
      assert init + [last] == env;
    }
  }

  /** The entries under neither prefix, in the given order. */
  ghost predicate Survivors(env: seq<string>, out: seq<string>) {
    exists at :: Picks(out, env, at)
                 && forall i :: 0 <= i < |env| ==> (i in at <==> !(NEW_PREFIX <= env[i]) && !(OLD_PREFIX <= env[i]))
  }

  lemma SurvivorsOf(env: seq<string>)
    ensures Survivors(env, WithoutSentinels(env))
  {
    var at := SurvivorsPick(env);
  }

  /** extractSSHTarget: no sentinel under either prefix survives, everything else does,
      in order; and the canonical prefix takes priority exactly as TargetOf says. */
  method ExtractSSHTarget(env: seq<string>) returns (target: string, out: seq<string>)
    ensures target == TargetOf(env)
    ensures out == WithoutSentinels(env) && Survivors(env, out)
  {
    out, target := [], "";
    for i := 0 to |env|
      invariant out == WithoutSentinels(env[..i])
      invariant target == TargetOf(env[..i])
    {
      var kv := env[i];
      assert env[..i + 1] == env[..i] + [kv] && env[..i + 1][..i] == env[..i];
      TargetAppend(env[..i], kv);
      if NEW_PREFIX <= kv {
        target := kv[|NEW_PREFIX|..];
        continue;
      }
      if OLD_PREFIX <= kv {
        if target == "" {
          target := kv[|OLD_PREFIX|..];
        }
        continue;
      }
      out := out + [kv];
    }
    assert env[..|env|] == env;
    SurvivorsOf(env);
  }

  lemma {:induction false} NoSentinelSurvives(env: seq<string>, kv: string)
    ensures kv in WithoutSentinels(env) <==> kv in env && !Sentinel(kv)
    decreases |env|
  {
    if env != [] {
      NoSentinelSurvives(env[..|env| - 1], kv);
      assert env == env[..|env| - 1] + [env[|env| - 1]];
    }
  }

  /** A legacy entry with a value. */
  predicate Legacy(kv: string) {
    OLD_PREFIX < kv
  }

  lemma {:induction false} NoLegacyIff(env: seq<string>)
    ensures FirstLegacy(env) == "" <==> forall kv :: kv in env ==> !Legacy(kv)
    decreases |env|
  {
    if env != [] {
      var kv := env[0];
      NoLegacyIff(env[1..]);
      PrefixesDiffer(kv);
      assert env == [kv] + env[1..];
      assert kv in env;
      assert OLD_PREFIX <= kv && kv != OLD_PREFIX <==> Legacy(kv);
    }
  }

  lemma {:induction false} LastCanonical(env: seq<string>, i: nat, n: nat)
    requires i < n <= |env| && NEW_PREFIX <= env[i]
    requires forall k :: i < k < n ==> !(NEW_PREFIX <= env[k])
    ensures TargetFrom(env, n) == if env[i] != NEW_PREFIX then env[i][|NEW_PREFIX|..] else FirstLegacy(env[i + 1..])
    decreases n
  {
    if n > i + 1 {
      LastCanonical(env, i, n - 1);
    }
  }

  /** The first legacy entry with a value at or after an index. */
  predicate FirstLegacyAt(env: seq<string>, from: int, j: int) {
    0 <= from <= j < |env| && Legacy(env[j]) && forall k :: from <= k < j ==> !Legacy(env[k])
  }

  lemma {:induction false} FirstLegacyIs(env: seq<string>, j: int)
    requires FirstLegacyAt(env, 0, j)
    ensures FirstLegacy(env) == env[j][|OLD_PREFIX|..]
    decreases |env|
  {
    PrefixesDiffer(env[0]);
    if j > 0 {
      assert !Legacy(env[0]);
      assert forall k :: 0 <= k < |env| - 1 ==> env[1..][k] == env[k + 1];
      FirstLegacyIs(env[1..], j - 1);
    }
  }

  lemma {:induction false} NoCanonical(env: seq<string>, n: nat)
    requires n <= |env| && forall k :: 0 <= k < n ==> !(NEW_PREFIX <= env[k])
    ensures TargetFrom(env, n) == FirstLegacy(env)
    decreases n
  {
    if n > 0 {
      NoCanonical(env, n - 1);
    }
  }

  /** The target, outright. Let i be the last canonical entry, -1 when there is none: its
      value if not empty; else the value of the first legacy entry after it that has one;
      else nothing. */
  lemma TargetMeans(env: seq<string>, i: int, j: int)
    requires -1 <= i < |env| && (i >= 0 ==> NEW_PREFIX <= env[i])
    requires forall k :: i < k < |env| ==> !(NEW_PREFIX <= env[k])
    ensures i >= 0 && env[i] != NEW_PREFIX ==> TargetOf(env) == env[i][|NEW_PREFIX|..]
    ensures (i < 0 || env[i] == NEW_PREFIX) && FirstLegacyAt(env, i + 1, j) ==> TargetOf(env) == env[j][|OLD_PREFIX|..]
    ensures (i < 0 || env[i] == NEW_PREFIX) && (forall k :: i < k < |env| ==> !Legacy(env[k])) ==> TargetOf(env) == ""
  {
    TargetIs(env, i);
    LegacyFrom(env, i + 1, j);
  }

  lemma TargetIs(env: seq<string>, i: int)
    requires -1 <= i < |env| && (i >= 0 ==> NEW_PREFIX <= env[i])
    requires forall k :: i < k < |env| ==> !(NEW_PREFIX <= env[k])
    ensures TargetOf(env) ==
      if i >= 0 && env[i] != NEW_PREFIX then env[i][|NEW_PREFIX|..] else FirstLegacy(env[i + 1..])
  {
    if i >= 0 {
      LastCanonical(env, i, |env|);
    } else {
      NoCanonical(env, |env|);
      assert env[0..] == env;
    }
  }

  lemma LegacyFrom(env: seq<string>, from: nat, j: int)
    requires from <= |env|
    ensures FirstLegacyAt(env, from, j) ==> FirstLegacy(env[from..]) == env[j][|OLD_PREFIX|..]
    ensures (forall k :: from <= k < |env| ==> !Legacy(env[k])) ==> FirstLegacy(env[from..]) == ""
  {
    var after := env[from..];
    if FirstLegacyAt(env, from, j) {
      assert after[j - from] == env[j];
      forall k | 0 <= k < j - from ensures !Legacy(after[k]) {
        assert after[k] == env[from + k];
      }
      FirstLegacyIs(after, j - from);
    }
    NoLegacyIff(after);
  }

  /** The canonical prefix has the priority the comment claims, so that the target is the
      last canonical value, if and only if that value is not empty or no legacy entry
      with a value follows it. */
  lemma CanonicalWins(env: seq<string>, i: nat)
    requires i < |env| && NEW_PREFIX <= env[i]
    requires forall k :: i < k < |env| ==> !(NEW_PREFIX <= env[k])
    ensures TargetOf(env) == env[i][|NEW_PREFIX|..] <==>
              env[i] != NEW_PREFIX || forall kv :: kv in env[i + 1..] ==> !Legacy(kv)
  {
    LastCanonical(env, i, |env|);
    NoLegacyIff(env[i + 1..]);
  }

  /** An empty canonical entry loses to the legacy entry after it. */
  lemma EmptyCanonicalLoses()
    ensures TargetOf([NEW_PREFIX, OLD_PREFIX + "x"]) == "x"
  {
    var legacy := OLD_PREFIX + "x";
    var env := [NEW_PREFIX, legacy];
    assert OLD_PREFIX <= legacy && legacy[|OLD_PREFIX|..] == "x";
    PrefixesDiffer(legacy);
    LastCanonical(env, 0, 2);
    var rest := env[1..];
    assert rest[0] == legacy;
  }
}
