/** The SSH backend's native path: the session's environment requests and the command line
    that leaves harmless arguments bare; and when it starts what the wrapper script would. */
module NativeRun {
  import opened Wrappers
  import opened Shell
  import opened ShellEnv

  // ---------------------------------------------------------------------------
  // shellQuote and joinArgv of the SSH client
  // ---------------------------------------------------------------------------

  predicate SafeToken(c: char) {
    'a' <= c <= 'z' || 'A' <= c <= 'Z' || '0' <= c <= '9' || c in "_-/.:,@+="
  }

  predicate Safe(s: string) {
    forall c :: c in s ==> SafeToken(c)
  }

  function RemoteQuote(s: string): string {
    if s == "" then "''" else if Safe(s) then s else "'" + EscapeQuotes(s) + "'"
  }

  function RemoteJoined(argv: seq<string>): string {
    if argv == [] then ""
    else if |argv| == 1 then RemoteQuote(argv[0])
    else RemoteJoined(argv[..|argv| - 1]) + " " + RemoteQuote(argv[|argv| - 1])
  }

  method ShellQuote(s: string) returns (q: string)
    ensures q == RemoteQuote(s)
  {
    if s == "" {
      return "''";
    }
    var safe := true;
    for i := 0 to |s|
      invariant safe && forall k :: 0 <= k < i ==> SafeToken(s[k])
    {
      if !SafeToken(s[i]) {
        safe := false;
        assert s[i] in s;
        break;
      }
    }
    if safe {
      return s;
    }
    q := "'" + EscapeQuotes(s) + "'";
  }

  method JoinArgv(argv: seq<string>) returns (line: string)
    ensures line == RemoteJoined(argv)
  {
    line := "";
    for i := 0 to |argv|
      invariant line == RemoteJoined(argv[..i])
    {
      assert argv[..i + 1][..i] == argv[..i];
      if i > 0 {
        line := line + " ";
      }
      var quoted := ShellQuote(argv[i]);
      line := line + quoted;
    }
    assert argv[..|argv|] == argv;
  }

  /** What the shell makes of one argument. */
  function RemoteWord(s: string): Word {
    if s != "" && Safe(s) then Plainly(s) else Quoted(s)
  }

  function RemoteWords(argv: seq<string>): seq<Word> {
    seq(|argv|, i requires 0 <= i < |argv| => RemoteWord(argv[i]))
  }

  lemma LexRemoteQuote(l: Lexer, s: string)
    requires l.mode.Between? && l.word == [] && '\0' !in s
    ensures Lex(l, RemoteQuote(s)) == Some(l.(mode := InWord, word := RemoteWord(s)))
  {
    if s != "" && Safe(s) {
      assert s[0] in s;
      assert forall c :: c in s ==> SafeToken(c) && Plain(c);
      LexBareWord(l, s);
    } else {
      LexQuote(l, s);
      assert [] + Quoted(s) == Quoted(s);
    }
  }

  lemma LexNextWord(l: Lexer, s: string)
    requires l.mode.InWord? && '\0' !in s
    ensures Lex(l, " " + RemoteQuote(s)) == Some(l.(word := RemoteWord(s), words := l.words + [l.word]))
  {
    LexConcat(l, " ", RemoteQuote(s));
    LexOne(l, ' ');
    LexRemoteQuote(EndWord(l), s);
  }

  lemma RemoteWordsGrow(words: seq<Word>, argv: seq<string>)
    requires argv != []
    ensures words + RemoteWords(argv[..|argv| - 1]) + [RemoteWord(argv[|argv| - 1])] == words + RemoteWords(argv)
  {
  }

  lemma {:induction false} LexRemoteJoined(l: Lexer, argv: seq<string>)
    requires l.mode.Between? && l.word == [] && argv != [] && NulFree(argv)
    ensures Lex(l, RemoteJoined(argv)) ==
      Some(l.(mode := InWord, word := RemoteWord(argv[|argv| - 1]), words := l.words + RemoteWords(argv[..|argv| - 1])))
    decreases |argv|
  {
    var init, last := argv[..|argv| - 1], argv[|argv| - 1];
    assert last in argv;
    if |argv| == 1 {
      LexRemoteQuote(l, last);
      assert l.words + RemoteWords(init) == l.words;
    } else {
      forall a | a in init ensures '\0' !in a {
        assert a in argv;
      }
      LexRemoteJoined(l, init);
      var l1 := l.(mode := InWord, word := RemoteWord(init[|init| - 1]),
          words := l.words + RemoteWords(init[..|init| - 1]));
      LexNextWord(l1, last);
      RemoteWordsGrow(l.words, init);
      LexThenWord(l, RemoteJoined(init), RemoteQuote(last), l1);
    }
  }

  lemma LexThenWord(l: Lexer, front: string, last: string, l1: Lexer)
    requires Lex(l, front) == Some(l1)
    ensures Lex(l, front + " " + last) == Lex(l1, " " + last)
  {
    LexConcat(l, front, " " + last);
    assert front + " " + last == front + (" " + last);
  }

  lemma {:induction false} RemoteNul(argv: seq<string>)
    requires !NulFree(argv)
    ensures '\0' in RemoteJoined(argv)
    decreases |argv|
  {
    var init, last := argv[..|argv| - 1], argv[|argv| - 1];
    assert argv == init + [last];
    if '\0' in last {
      assert !SafeToken('\0');
      QuoteKeepsNul(last);
    } else {
      assert !NulFree(init);
      RemoteNul(init);
    }
  }

  /** The shell reads the line as one command of one word per argument, bare or quoted as
      the argument allows, if and only if argv carries no NUL. */
  lemma RemoteLineRead(argv: seq<string>)
    requires argv != []
    ensures Commands(RemoteJoined(argv)) == Some([RemoteWords(argv)]) <==> NulFree(argv)
  {
    if NulFree(argv) {
      LexRemoteJoined(START, argv);
      RemoteWordsGrow([], argv);
      assert [] + RemoteWords(argv) == RemoteWords(argv);
      var l := Lex(START, RemoteJoined(argv)).value;
      assert EndWord(l).words == RemoteWords(argv);
      assert EndCommand(EndWord(l)).commands == [RemoteWords(argv)];
    } else {
      RemoteNul(argv);
      LexNul(START, RemoteJoined(argv));
    }
  }

  // ---------------------------------------------------------------------------
  // What the shell runs
  // ---------------------------------------------------------------------------

  /** Section 2.4 of the POSIX Shell Command Language, the words made of letters. */
  const RESERVED: set<string> :=
    {"case", "do", "done", "elif", "else", "esac", "fi", "for", "if", "in", "then", "until", "while"}

  predicate Reserved(w: Word) {
    (forall q :: q in w ==> !q.quoted) && Chars(w) in RESERVED
  }

  /** Section 2.9.1: leading assignments go to the command's environment, the first word
      that is none names the command. */
  function RunSimple(words: seq<Word>, env: map<string, string>): Option<Launch>
    decreases |words|
  {
    if words == [] then None
    else
      var a := Assignment(words[0]);
      if a.Some? then RunSimple(words[1..], env[a.value.0 := a.value.1]) else Some(Launch(Strings(words), env, Login))
  }

  /** A text of one simple command, in the login directory. */
  function RunLine(text: string, env: map<string, string>): Option<Launch> {
    var c := Commands(text);
    if c.None? || |c.value| != 1 || c.value[0] == [] || Reserved(c.value[0][0]) then None
    else RunSimple(c.value[0], env)
  }

  /** A bare first argument that the shell takes for something other than a command name. */
  predicate Misread(tool: string) {
    var eq := IndexOf(tool, '=');
    Safe(tool) && (tool in RESERVED || (eq > 0 && ValidName(tool[..eq])))
  }

  lemma {:induction false} PlainNameLength(s: string)
    ensures NameLength(Plainly(s)) == IndexOf(s, '=')
    decreases |s|
  {
    if s != "" && s[0] != '=' {
      PlainNameLength(s[1..]);
      assert Plainly(s)[1..] == Plainly(s[1..]);
    }
  }

  lemma QuotedNeverAssigns(s: string)
    ensures Assignment(Quoted(s)).None?
  {
  }

  lemma PlainAssigns(s: string)
    ensures var eq := IndexOf(s, '='); Assignment(Plainly(s)).Some? <==> eq > 0 && ValidName(s[..eq])
  {
    var eq := IndexOf(s, '=');
    PlainNameLength(s);
    if eq >= 0 {
      assert Chars(Plainly(s)[..eq]) == s[..eq];
    }
  }

  lemma WordAssigns(s: string)
    ensures var eq := IndexOf(s, '=');
            Assignment(RemoteWord(s)).Some? <==> Safe(s) && eq > 0 && ValidName(s[..eq])
  {
    QuotedNeverAssigns(s);
    PlainAssigns(s);
  }

  lemma WordReserved(s: string)
    ensures Reserved(RemoteWord(s)) <==> Safe(s) && s in RESERVED
  {
    QuotedChars(s);
    assert "" !in RESERVED;
    if s != "" && !Safe(s) {
      assert RemoteWord(s)[0].quoted && RemoteWord(s)[0] in RemoteWord(s);
    }
  }

  lemma {:induction false} RunSimpleShrinks(words: seq<Word>, env: map<string, string>)
    ensures RunSimple(words, env).Some? ==> |RunSimple(words, env).value.argv| <= |words|
    decreases |words|
  {
    if words != [] {
      var a := Assignment(words[0]);
      if a.Some? {
        RunSimpleShrinks(words[1..], env[a.value.0 := a.value.1]);
      }
    }
  }

  lemma RemoteStrings(argv: seq<string>)
    ensures Strings(RemoteWords(argv)) == argv
  {
    forall i | 0 <= i < |argv| ensures Chars(RemoteWord(argv[i])) == argv[i] {
      QuotedChars(argv[i]);
    }
  }

  /** The line runs argv, and with the session's environment, if and only if its first
      argument is not taken for a reserved word or an assignment. */
  lemma LineRunsArgv(argv: seq<string>, env: map<string, string>)
    requires argv != [] && NulFree(argv)
    ensures var r := RunLine(RemoteJoined(argv), env);
            if !Misread(argv[0]) then r == Some(Launch(argv, env, Login)) else r.None? || |r.value.argv| < |argv|
  {
    RemoteLineRead(argv);
    var words := RemoteWords(argv);
    assert words[0] == RemoteWord(argv[0]);
    WordAssigns(argv[0]);
    WordReserved(argv[0]);
    RemoteStrings(argv);
    if Misread(argv[0]) && !Reserved(words[0]) {
      var a := Assignment(words[0]).value;
      RunSimpleShrinks(words[1..], env[a.0 := a.1]);
    }
  }

  // ---------------------------------------------------------------------------
  // The session's environment
  // ---------------------------------------------------------------------------

  /** The variables a session ends up with: one request per well-formed entry, in order,
      each of which the remote sshd accepts or drops by its name. */
  function SessionEnv(entries: seq<string>, accepts: string -> bool): map<string, string> {
    if entries == [] then map[]
    else
      var init, kv := SessionEnv(entries[..|entries| - 1], accepts), entries[|entries| - 1];
      var eq := IndexOf(kv, '=');
      if eq > 0 && accepts(kv[..eq]) then init[kv[..eq] := kv[eq + 1..]] else init
  }

  method SetEnv(entries: seq<string>, accepts: string -> bool) returns (env: map<string, string>)
    ensures env == SessionEnv(entries, accepts)
  {
    env := map[];
    for i := 0 to |entries|
      invariant env == SessionEnv(entries[..i], accepts)
    {
      assert entries[..i + 1][..i] == entries[..i];
      var eq := IndexOf(entries[i], '=');
      if eq <= 0 {
        continue;
      }
      if accepts(entries[i][..eq]) {
        env := env[entries[i][..eq] := entries[i][eq + 1..]];
      }
    }
    assert entries[..|entries|] == entries;
  }

  lemma {:induction false} SessionEnvKeeps(keys: seq<string>, m: map<string, string>, accepts: string -> bool)
    requires Keylike(keys, m)
    ensures SessionEnv(Entries(keys, m), accepts) == map k | k in keys && accepts(k) :: m[k]
    decreases |keys|
  {
    if keys != [] {
      var init, k := keys[..|keys| - 1], keys[|keys| - 1];
      assert forall x :: x in init ==> x in keys;
      EntriesFront(keys, m);
      SessionEnvKeeps(init, m, accepts);
      SessionEnvOne(Entries(init, m), k, m[k], accepts);
      AcceptedOne(init, k, keys, m, accepts);
    }
  }

  lemma SessionEnvOne(entries: seq<string>, k: string, v: string, accepts: string -> bool)
    requires k != "" && '=' !in k
    ensures var init := SessionEnv(entries, accepts);
            SessionEnv(entries + [k + "=" + v], accepts) == if accepts(k) then init[k := v] else init
  {
    var all := entries + [k + "=" + v];
    EntrySplits(k, v);
    assert all[..|all| - 1] == entries && all[|all| - 1] == k + "=" + v;
  }

  lemma AcceptedOne(init: seq<string>, k: string, keys: seq<string>, m: map<string, string>, accepts: string -> bool)
    requires keys == init + [k] && k in m && forall x :: x in init ==> x in m
    ensures var was := map x | x in init && accepts(x) :: m[x];
            (map x | x in keys && accepts(x) :: m[x]) == if accepts(k) then was[k := m[k]] else was
  {
    assert forall x :: x in keys <==> x in init || x == k;
  }

  // ---------------------------------------------------------------------------
  // Both paths
  // ---------------------------------------------------------------------------

  /** What the native path starts for the merged entries. */
  function NativeLaunch(call: Call, accepts: string -> bool): Option<Launch> {
    RunLine(RemoteJoined(call.argv), SessionEnv(call.Merged(), accepts))
  }

  /** The remote sshd takes every variable. */
  predicate AllAccepted(call: Call, accepts: string -> bool) {
    forall k :: k in FirstSeen(call.entries) ==> accepts(k)
  }

  lemma NativeLaunches(call: Call, accepts: string -> bool, place: Place)
    requires call.argv != [] && NulFree(call.argv)
    ensures NativeLaunch(call, accepts) == Some(Launch(call.argv, call.Env(), place)) <==>
              AllAccepted(call, accepts) && !Misread(call.argv[0]) && place == Login
  {
    var keys, m := FirstSeen(call.entries), LastWins(call.entries);
    SeenAreKeys(call.entries);
    SessionEnvKeeps(keys, m, accepts);
    var env := SessionEnv(call.Merged(), accepts);
    LineRunsArgv(call.argv, env);
    SameMapIff(keys, m, accepts);
    SameLaunchIff(NativeLaunch(call, accepts), call.argv, env, m, place, Misread(call.argv[0]));
  }

  lemma SameLaunchIff(native: Option<Launch>, argv: seq<string>, env: map<string, string>, m: map<string, string>,
                      place: Place, misread: bool)
    requires if !misread then native == Some(Launch(argv, env, Login)) else native.None? || |native.value.argv| < |argv|
    ensures native == Some(Launch(argv, m, place)) <==> !misread && env == m && place == Login
  {
  }

  lemma SameMapIff(keys: seq<string>, m: map<string, string>, accepts: string -> bool)
    requires forall k :: k in keys <==> k in m
    ensures (map k | k in keys && accepts(k) :: m[k]) == m <==> forall k :: k in keys ==> accepts(k)
  {
    var kept := map k | k in keys && accepts(k) :: m[k];
    if kept == m {
      forall k | k in keys ensures accepts(k) {
        assert k in m;
        assert k in kept;
      }
    }
  }

  /** The native path starts what the wrapper starts if and only if the remote sshd accepts
      every merged name, the tool's name is not misread, and the wrapper does not leave the
      login directory: none is asked for, or `cd` fails. */
  lemma NativeMatchesWrapper(call: Call, accepts: string -> bool, cd: string -> Cd)
    requires call.Carried()
    ensures NativeLaunch(call, accepts) == WrapperLaunch(call, cd) <==>
              AllAccepted(call, accepts) && !Misread(call.argv[0]) && (call.Dir() == "" || cd(call.Dir()).Stays?)
  {
    WrapperLaunches(call, cd);
    NativeLaunches(call, accepts, Reached(call.Dir(), Host(map[], cd)));
  }

  /** What Run starts: the native path if the canary variable came through. */
  function Started(call: Call, accepts: string -> bool, canary: string, cd: string -> Cd): Option<Launch> {
    if accepts(canary) then NativeLaunch(call, accepts) else WrapperLaunch(call, cd)
  }

  /** Run starts the tool as asked, with exactly argv, the last-wins environment and the
      directory, if and only if: the canary comes through, every name is accepted, the tool
      is not misread and no directory is asked for; or the canary is dropped, and no
      directory is asked for or one without a leading '-' that `cd` enters. */
  lemma StartedAsAsked(call: Call, accepts: string -> bool, canary: string, cd: string -> Cd)
    requires call.Carried()
    ensures Started(call, accepts, canary, cd) == Some(call.Asked()) <==>
              if accepts(canary) then AllAccepted(call, accepts) && !Misread(call.argv[0]) && call.Dir() == ""
              else call.Dir() == "" || (call.Dir()[0] != '-' && cd(call.Dir()).Enters?)
  {
    WrapperAsAskedIff(call, cd);
    NativeLaunches(call, accepts, Wanted(call.Dir()));
  }

  /** The canary does not speak for the other names: an sshd that accepts the names of this
      program's own prefix only lets it through, and the tool misses every other variable. */
  lemma CanaryMisleads(call: Call, canary: string, k: string, cd: string -> Cd)
    requires call.Carried() && "AWSBNKCTL_" <= canary && k in FirstSeen(call.entries) && !("AWSBNKCTL_" <= k)
    ensures Started(call, (name: string) => "AWSBNKCTL_" <= name, canary, cd) != Some(call.Asked())
  {
    var accepts := (name: string) => "AWSBNKCTL_" <= name;
    StartedAsAsked(call, accepts, canary, cd);
    assert accepts(canary) && !accepts(k);
  }
}
