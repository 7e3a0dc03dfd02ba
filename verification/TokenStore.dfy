/** The cached agent tokens and the atomic replacement of small state files. */
module TokenStore {
  import opened Wrappers

  /** A stored token. `expires` is the parsed expiry; None when it is empty or does not
      parse, in which case the token never expires. */
  datatype Entry = Entry(token: string, expires: Option<int>)

  /** The file: absent, not a JSON object, or what the structured schema decodes from its
      "tokens" and the top-level members the legacy fallback sees. `whole` says that decoding
      met no value of the wrong type; where it did, it reports an error and still fills in
      the rest. */
  datatype File = Missing | Garbage | Object(tokens: map<string, Entry>, flat: map<string, Entry>, whole: bool)

  // ---------------------------------------------------------------------------
  // Keys
  // ---------------------------------------------------------------------------

  /** strings.TrimRight(url, "/"). */
  function TrimSlashes(url: string): string {
    if url != "" && url[|url| - 1] == '/' then TrimSlashes(url[..|url| - 1]) else url
  }

  function Key(url: string, agent: string): string {
    TrimSlashes(url) + "|" + agent
  }

  lemma {:induction false} TrimPrefix(url: string)
    ensures TrimSlashes(url) <= url
  {
    if url != "" && url[|url| - 1] == '/' {
      TrimPrefix(url[..|url| - 1]);
    }
  }

  /** Two stores share a key only for the same agent and the same URL up to trailing
      slashes, when the URLs carry no '|'. */
  lemma KeyInjective(u1: string, a1: string, u2: string, a2: string)
    requires '|' !in u1 && '|' !in u2
    ensures Key(u1, a1) == Key(u2, a2) <==> TrimSlashes(u1) == TrimSlashes(u2) && a1 == a2
  {
    TrimPrefix(u1);
    TrimPrefix(u2);
    var t1, t2 := TrimSlashes(u1), TrimSlashes(u2);
    assert forall c :: c in t1 ==> c in u1;
    assert forall c :: c in t2 ==> c in u2;
    if Key(u1, a1) == Key(u2, a2) {
      assert (t1 + "|" + a1)[|t1|] == '|' && (t2 + "|" + a2)[|t2|] == '|';
      assert t1 == Key(u1, a1)[..|t1|] && t2 == Key(u2, a2)[..|t2|];
      assert a1 == Key(u1, a1)[|t1| + 1..] && a2 == Key(u2, a2)[|t2| + 1..];
    }
  }

  /** Trimming twice is trimming once, so a base URL already trimmed names the same key. */
  lemma {:induction false} TrimTwice(url: string)
    ensures TrimSlashes(TrimSlashes(url)) == TrimSlashes(url)
  {
    if url != "" && url[|url| - 1] == '/' {
      TrimTwice(url[..|url| - 1]);
    }
  }

  function Bar(url: string): string {
    TrimSlashes(url) + "|"
  }

  /** Equal keys: the same store, or one trimmed URL with its bar extends the other's. */
  lemma SameKey(u1: string, a1: string, u2: string, a2: string)
    requires Key(u1, a1) == Key(u2, a2) && |TrimSlashes(u1)| <= |TrimSlashes(u2)|
    ensures (TrimSlashes(u1) == TrimSlashes(u2) && a1 == a2) || Bar(u1) < Bar(u2)
  {
    var p1, p2 := Bar(u1), Bar(u2);
    assert (p1 + a1)[..|p1|] == p1 && (p2 + a2)[..|p2|] == p2;
    if |p1| == |p2| {
      assert (p1 + a1)[|p1|..] == a1 && (p2 + a2)[|p2|..] == a2;
      assert p1[..|p1| - 1] == TrimSlashes(u1) && p2[..|p2| - 1] == TrimSlashes(u2);
    } else {
      assert forall k :: 0 <= k < |p1| ==> p1[k] == (p1 + a1)[k] && (p2 + a2)[k] == p2[k];
    }
  }

  lemma ClashFromPrefix(u1: string, u2: string) returns (a1: string)
    requires Bar(u1) < Bar(u2)
    ensures Key(u1, a1) == Key(u2, "")
    ensures TrimSlashes(u1) != TrimSlashes(u2)
  {
    a1 := Bar(u2)[|Bar(u1)|..];
    assert Bar(u1) + a1 == Bar(u2) + "";
  }

  /** Two URLs have different stores sharing a key if and only if one of them, trimmed and
      with its bar, is a proper prefix of the other. */
  lemma KeyClash(u1: string, u2: string)
    ensures (exists a1, a2 :: Key(u1, a1) == Key(u2, a2) && (TrimSlashes(u1) != TrimSlashes(u2) || a1 != a2))
            <==> Bar(u1) < Bar(u2) || Bar(u2) < Bar(u1)
  {
    if a1, a2 :| Key(u1, a1) == Key(u2, a2) && (TrimSlashes(u1) != TrimSlashes(u2) || a1 != a2) {
      if |TrimSlashes(u1)| <= |TrimSlashes(u2)| {
        SameKey(u1, a1, u2, a2);
      } else {
        SameKey(u2, a2, u1, a1);
      }
    }
    if Bar(u1) < Bar(u2) {
      var a := ClashFromPrefix(u1, u2);
    }
    if Bar(u2) < Bar(u1) {
      var a := ClashFromPrefix(u2, u1);
      assert Key(u1, "") == Key(u2, a);
    }
  }

  /** For instance. */
  lemma KeyClashWitness()
    ensures Key("u|v", "w") == Key("u", "v|w")
  {
    assert "u|v" + "|" + "w" == "u" + "|" + "v|w";
  }

  // ---------------------------------------------------------------------------
  // Read, write, delete
  // ---------------------------------------------------------------------------

  predicate Usable(e: Entry, now: int) {
    e.token != "" && (e.expires.Some? ==> now <= e.expires.value)
  }

  /** What the structured members hold under the key, decoding error or not. */
  function Structured(f: File, key: string, now: int): Option<string> {
    if f.Object? && key in f.tokens && Usable(f.tokens[key], now) then Some(f.tokens[key].token) else None
  }

  function Legacy(f: File, key: string, now: int): Option<string> {
    if f.Object? && key in f.flat && Usable(f.flat[key], now) then Some(f.flat[key].token) else None
  }

  /** ReadAgentToken on the file's contents: after a decoding error the structured members
      are passed over. */
  function Read(f: File, key: string, now: int): Option<string> {
    if f.Object? && f.whole && Structured(f, key, now).Some? then Structured(f, key, now) else Legacy(f, key, now)
  }

  /** The members hold token t under the key, and it can be used: it is not empty, and its
      expiry, if it has one that parses, is not past. */
  predicate Holds(members: map<string, Entry>, key: string, now: int, t: string) {
    && key in members && members[key].token == t && t != ""
    && (members[key].expires.Some? ==> !(now > members[key].expires.value))
  }

  /** What ReadAgentToken finds, outright: a usable structured token of a file that decodes
      whole, and only without one a usable legacy token. */
  lemma ReadMeans(f: File, key: string, now: int, t: string)
    ensures Read(f, key, now) == Some(t) <==>
              && f.Object?
              && if f.whole && exists any :: Holds(f.tokens, key, now, any) then Holds(f.tokens, key, now, t)
                 else Holds(f.flat, key, now, t)
  {
    if f.Object? && key in f.tokens && Usable(f.tokens[key], now) {
      assert Holds(f.tokens, key, now, f.tokens[key].token);
    }
  }

  /** What WriteAgentToken leaves: only the structured members are carried over, and a
      decoding error is ignored. */
  function Write(f: File, key: string, e: Entry): File {
    Object((if f.Object? then f.tokens else map[])[key := e], map[], true)
  }

  /** What DeleteAgentToken leaves: after a decoding error it removes the file. */
  function Delete(f: File, key: string): File {
    match f
    case Missing => Missing
    case Garbage => Missing
    case Object(tokens, flat, whole) => if whole then Object(tokens - {key}, map[], true) else Missing
  }

  /** Writing one key leaves another readable as before if and only if the structured
      members hold for it what is read: so what only the legacy layout served is lost, and
      what a decoding error hid comes to light. */
  lemma OthersKeptByWriteIff(f: File, key: string, e: Entry, other: string, now: int)
    requires other != key
    ensures Read(Write(f, key, e), other, now) == Read(f, other, now) <==>
              Structured(f, other, now) == Read(f, other, now)
    ensures f.Object? && f.whole ==>
              (Structured(f, other, now) == Read(f, other, now) <==>
                 Structured(f, other, now).Some? || Legacy(f, other, now).None?)
  {
  }

  /** Deleting one key leaves another readable as before if and only if it was not to be
      read at all, or the file decodes without error and the structured members serve it. */
  lemma OthersKeptByDeleteIff(f: File, key: string, other: string, now: int)
    requires other != key
    ensures Read(Delete(f, key), other, now) == Read(f, other, now) <==>
              Read(f, other, now).None? || (f.whole && Structured(f, other, now).Some?)
  {
  }

  /** A value of the wrong type beside a good one: "a" cannot be read, writing "c" makes it
      readable, and deleting "c" instead removes the whole file. */
  lemma PartlyDecoded(now: int)
    ensures var f := Object(map["a" := Entry("x", None), "b" := Entry("", None)], map[], false);
            && Read(f, "a", now) == None
            && Read(Write(f, "c", Entry("y", None)), "a", now) == Some("x")
            && Delete(f, "c") == Missing
  {
    assert "a" != "c" && "a" != "b";
  }

  /** A history of the store: tokens written and deleted, under any keys. */
  datatype Op = Put(key: string, entry: Entry) | Drop(key: string)

  function Apply(f: File, op: Op): File {
    match op
    case Put(key, e) => Write(f, key, e)
    case Drop(key) => Delete(f, key)
  }

  function Run(f: File, ops: seq<Op>): File {
    if ops == [] then f else Apply(Run(f, ops[..|ops| - 1]), ops[|ops| - 1])
  }

  /** What the last operation on `key` leaves to read; `untouched` when there is none. */
  function LastOn(ops: seq<Op>, key: string, now: int, untouched: Option<string>): Option<string> {
    if ops == [] then untouched
    else
      var last := ops[|ops| - 1];
      if last.key != key then LastOn(ops[..|ops| - 1], key, now, untouched)
      else if last.Put? && Usable(last.entry, now) then Some(last.entry.token)
      else None
  }

  /** What the first operation lets through of a key that no operation names. */
  function Untouched(f: File, first: Op, key: string, now: int): Option<string> {
    if first.Drop? && f.Object? && !f.whole then None else Structured(f, key, now)
  }

  /** Over every history, whatever file it starts from: a key reads as its last write or
      delete says, and without any as the structured part of the first file says (nothing,
      if that did not decode whole and the first operation was a delete); the legacy layout
      no longer counts after the first operation. */
  lemma {:induction false} ReadAfterRun(f: File, ops: seq<Op>, key: string, now: int)
    requires ops != []
    ensures Read(Run(f, ops), key, now) == LastOn(ops, key, now, Untouched(f, ops[0], key, now))
    ensures Run(f, ops).Object? ==> Run(f, ops).flat == map[] && Run(f, ops).whole
    decreases |ops|
  {
    if |ops| > 1 {
      ReadAfterRun(f, ops[..|ops| - 1], key, now);
    } else {
      assert ops[..0] == [];
      assert Run(f, ops) == Apply(f, ops[0]);
    }
  }

  // ---------------------------------------------------------------------------
  // Replace by temp file and rename
  // ---------------------------------------------------------------------------

  /** A directory: the final file and the temp file beside it, by content; None is
      absent. A partial write is some prefix-like garbage. */
  datatype Dir<C> = Dir(final: Option<C>, temp: Option<TempContent<C>>)

  datatype TempContent<C> = Partial | Full(content: C)

  /** Which system call fails, if any. */
  datatype Failure = NoFailure | CreateFails | ChmodFails | WriteFails | SyncFails | CloseFails | RenameFails

  /** What an observer may see of the final file at any time: old or new, never half. */
  ghost predicate OldOrNew<C(!new)>(states: seq<Dir<C>>, before: Option<C>, content: C) {
    forall d :: d in states ==> d.final == before || d.final == Some(content)
  }

  /** The write protocol of WriteAgentToken (and, without chmod and sync, of WriteLink):
      create a temp file, fill it, rename it over the final one; a failing step leaves
      the final file alone. The deferred removal is best effort: the temp file survives
      exactly when a step after its creation fails and the removal does too. `states` are
      all directory states on the way, in order. */
  method ReplaceFile<C(!new)>(start: Dir<C>, content: C, failure: Failure, removed: bool)
    returns (end: Dir<C>, ok: bool, ghost states: seq<Dir<C>>)
    requires start.temp == None
    ensures ok <==> failure.NoFailure?
    ensures end.temp == None <==> ok || failure.CreateFails? || removed
    ensures end.final == if ok then Some(content) else start.final
    ensures |states| > 0 && states[0] == start && states[|states| - 1] == end
    ensures OldOrNew(states, start.final, content)
  {
    end, ok := start, false;
    states := [start];
    if failure.CreateFails? {
      return;
    }
    end := end.(temp := Some(Partial));
    states := states + [end];
    if !failure.ChmodFails? && !failure.WriteFails? {
      end := end.(temp := Some(Full(content)));
      states := states + [end];
      if !failure.SyncFails? && !failure.CloseFails? && !failure.RenameFails? {
        end := Dir(Some(content), None);
        states := states + [end];
        ok := true;
        return;
      }
    }
    // The deferred removal of the temp file.
    if removed {
      end := end.(temp := None);
      states := states + [end];
    }
  }
}
