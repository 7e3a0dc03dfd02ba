/** The agent worker's token and connect loop: where the token comes from, the re-mint of
    a rejected cached one, what the token file then holds, and the backoff between
    sessions. */
module AgentLoop {
  import opened Wrappers
  import TokenStore

  type File = TokenStore.File

  datatype TokenSource = Configured | Cached | Minted

  /** How the mint endpoint answers; an empty token counts as a failure. */
  datatype MintReply = Denied | Granted(entry: TokenStore.Entry)
  {
    predicate Fresh() { Granted? && entry.token != "" }
  }

  /** What one attempt to mint meets: whether the delete before it and the write after it
      get through. */
  datatype Renewal = Renewal(deleted: bool, mint: MintReply, stored: bool)

  /** How one session ended; a rejection with what a re-mint would meet at that moment. */
  datatype SessionEnd = Rejected(renewal: Renewal) | Dropped

  datatype Exit = ContextDone | AuthFatal

  /** The worker's token, where it came from, and the token file. */
  datatype Held = Held(token: string, source: TokenSource, file: File)

  function Min(a: nat, b: nat): nat {
    if a < b then a else b
  }

  function Pow2(n: nat): nat {
    if n == 0 then 1 else 2 * Pow2(n - 1)
  }

  function Rejections(ends: seq<SessionEnd>): nat {
    if ends == [] then 0
    else Rejections(ends[..|ends| - 1]) + if ends[|ends| - 1].Rejected? then 1 else 0
  }

  function Drops(ends: seq<SessionEnd>): nat {
    if ends == [] then 0
    else Drops(ends[..|ends| - 1]) + if ends[|ends| - 1].Dropped? then 1 else 0
  }

  /** The index of the first rejection at or after `i`; |ends| when there is none. */
  function NextRejection(ends: seq<SessionEnd>, i: nat): (k: nat)
    requires i <= |ends|
    ensures i <= k <= |ends|
    ensures k < |ends| ==> ends[k].Rejected?
    ensures forall m :: i <= m < k ==> ends[m].Dropped?
    decreases |ends| - i
  {
    if i == |ends| || ends[i].Rejected? then i else NextRejection(ends, i + 1)
  }

  /** The first rejection hits a cached token that the endpoint replaces. */
  predicate Reminted(source: TokenSource, ends: seq<SessionEnd>) {
    var first := NextRejection(ends, 0);
    source.Cached? && first < |ends| && ends[first].renewal.mint.Fresh()
  }

  /** The session whose end stops the worker: the first rejection, unless the token
      then in use was the cached one and could be re-minted; in that case the second. */
  function FatalSession(source: TokenSource, ends: seq<SessionEnd>): (k: nat)
    ensures k <= |ends|
  {
    var first := NextRejection(ends, 0);
    if Reminted(source, ends) then NextRejection(ends, first + 1) else first
  }

  /** How many sessions are tried. */
  function Tried(source: TokenSource, ends: seq<SessionEnd>): nat {
    var k := FatalSession(source, ends);
    if k < |ends| then k + 1 else k
  }

  /** A rejection the worker cannot get past: the token was not a cached one, or the endpoint
      has no other, or it was replaced once already. */
  predicate Fatal(source: TokenSource, ends: seq<SessionEnd>, i: int)
    requires 0 <= i < |ends|
  {
    && ends[i].Rejected?
    && (!source.Cached? || !ends[i].renewal.mint.Fresh() || exists k :: 0 <= k < i && ends[k].Rejected?)
  }

  /** The worker stops at the first such rejection and nowhere else. */
  lemma StopsAtFatal(source: TokenSource, ends: seq<SessionEnd>)
    ensures var k := FatalSession(source, ends);
            && (k < |ends| ==> Fatal(source, ends, k))
            && (forall i :: 0 <= i < k ==> !Fatal(source, ends, i))
  {
    var first := NextRejection(ends, 0);
    if Reminted(source, ends) {
      var k := FatalSession(source, ends);
      forall i | 0 <= i < k ensures !Fatal(source, ends, i) {
        assert i != first ==> ends[i].Dropped?;
      }
    }
  }

  lemma {:induction false} DropsOnly(ends: seq<SessionEnd>, i: nat, k: nat)
    requires i <= k <= |ends| && forall m :: i <= m < k ==> ends[m].Dropped?
    ensures Rejections(ends[..k]) == Rejections(ends[..i])
    decreases k
  {
    if i < k {
      DropsOnly(ends, i, k - 1);
      assert ends[..k][..k - 1] == ends[..k - 1];
    }
  }

  lemma OneMore(ends: seq<SessionEnd>, k: nat)
    requires k < |ends|
    ensures Rejections(ends[..k + 1]) == Rejections(ends[..k]) + if ends[k].Rejected? then 1 else 0
    ensures Drops(ends[..k + 1]) == Drops(ends[..k]) + if ends[k].Dropped? then 1 else 0
  {
    assert ends[..k + 1][..k] == ends[..k];
  }

  /** At most two sessions can ever end in a rejection before the worker stops, and two
      only after a successful re-mint of a cached token. */
  lemma RejectionBound(source: TokenSource, ends: seq<SessionEnd>)
    ensures var seen := Rejections(ends[..Tried(source, ends)]);
            && seen <= 2 && (seen == 2 ==> Reminted(source, ends))
            && (FatalSession(source, ends) < |ends| ==> seen >= 1)
  {
    var first := NextRejection(ends, 0);
    var k := FatalSession(source, ends);
    assert ends[..0] == [];
    DropsOnly(ends, 0, first);
    if first < |ends| {
      OneMore(ends, first);
      if k != first {
        DropsOnly(ends, first + 1, k);
        if k < |ends| {
          OneMore(ends, k);
        }
      }
    }
  }

  // ---------------------------------------------------------------------------
  // Which token is presented, and which one the file holds
  // ---------------------------------------------------------------------------

  /** The token a worker starts with: configured before cached before minted; none when
      minting is needed and fails. */
  function Start(explicit: string, workspace: bool, file: File, key: string, now: int, r: Renewal): (h: seq<Held>) {
    var cached := TokenStore.Read(file, key, now);
    if explicit != "" then [Held(explicit, Configured, file)]
    else if workspace && cached.Some? then [Held(cached.value, Cached, file)]
    else if r.mint.Fresh() then [Held(r.mint.entry.token, Minted, if workspace then StoredFile(file, key, r) else file)]
    else []
  }

  function StoredFile(file: File, key: string, r: Renewal): File
    requires r.mint.Granted?
  {
    if r.stored then TokenStore.Write(file, key, r.mint.entry) else file
  }

  /** The file after a re-mint: the old token deleted before, the new one written after. */
  function RenewedFile(file: File, key: string, r: Renewal): File {
    var f := if r.deleted then TokenStore.Delete(file, key) else file;
    if r.mint.Fresh() then StoredFile(f, key, r) else f
  }

  /** The token session `i` presents. */
  function Presented(h: Held, ends: seq<SessionEnd>, i: int): string {
    var first := NextRejection(ends, 0);
    if Reminted(h.source, ends) && first < i then ends[first].renewal.mint.entry.token else h.token
  }

  /** The token file after all sessions. */
  function FinalFile(h: Held, key: string, ends: seq<SessionEnd>): File {
    var first := NextRejection(ends, 0);
    if h.source.Cached? && first < |ends| then RenewedFile(h.file, key, ends[first].renewal) else h.file
  }

  /** Where the first token comes from: a configured one is used whatever the file and the
      endpoint hold; else one the file yields, whatever the endpoint would say; else the
      minted one, which is stored when there is a workspace and the write gets through. */
  lemma StartPrecedence(explicit: string, workspace: bool, file: File, key: string, now: int, r: Renewal)
    ensures var h, cached := Start(explicit, workspace, file, key, now, r), TokenStore.Read(file, key, now);
            && (explicit != "" ==> h == [Held(explicit, Configured, file)])
            && (explicit == "" && workspace && cached.Some? ==> h == [Held(cached.value, Cached, file)])
            && (explicit == "" && !(workspace && cached.Some?) ==>
                 && (h == [] <==> r.mint.Denied? || r.mint.entry.token == "")
                 && (h != [] ==>
                      && h[0].token == r.mint.entry.token && h[0].source == Minted
                      && h[0].file ==
                         if workspace && r.stored then TokenStore.Write(file, key, r.mint.entry) else file))
  {
  }

  /** What the sessions must look like, from the token in hand: the worker stops with an
      auth error exactly at the first fatal rejection and goes on otherwise, to the end of
      its context; each session presents the token in hand, or, once a session was
      rejected, the one minted then. */
  ghost predicate Served(h: Held, ends: seq<SessionEnd>, exit: Exit, presented: seq<string>) {
    && |presented| <= |ends|
    && (exit == AuthFatal <==> exists i :: 0 <= i < |ends| && Fatal(h.source, ends, i))
    && (exit == AuthFatal ==> presented != [] && Fatal(h.source, ends, |presented| - 1))
    && (exit == ContextDone ==> |presented| == |ends|)
    && (forall i :: 0 <= i < |presented| - 1 ==> !Fatal(h.source, ends, i))
    && (forall i :: 0 <= i < |presented| ==> PresentsRightly(h, ends, i, presented[i]))
  }

  predicate PresentsRightly(h: Held, ends: seq<SessionEnd>, i: int, token: string)
    requires 0 <= i <= |ends|
  {
    && ((forall k :: 0 <= k < i ==> ends[k].Dropped?) ==> token == h.token)
    && (forall k :: 0 <= k < i && ends[k].Rejected? ==>
          ends[k].renewal.mint.Granted? && token == ends[k].renewal.mint.entry.token)
  }

  lemma PresentedRightly(h: Held, ends: seq<SessionEnd>, i: nat)
    requires i < Tried(h.source, ends)
    ensures i <= |ends| && PresentsRightly(h, ends, i, Presented(h, ends, i))
  {
    var first := NextRejection(ends, 0);
    StopsAtFatal(h.source, ends);
    if first < i {
      assert ends[first].Rejected? && !Fatal(h.source, ends, first);
      forall k | 0 <= k < i && ends[k].Rejected? ensures k == first {
        assert !Fatal(h.source, ends, k);
      }
    }
  }

  /** A wait of 2 seconds first, then twice the last one, never more than 30. */
  predicate Doubling(waits: seq<nat>) {
    && (waits != [] ==> waits[0] == 2)
    && (forall k :: 0 <= k < |waits| - 1 ==> waits[k + 1] == if 2 * waits[k] > 30 then 30 else 2 * waits[k])
  }

  lemma WaitsDouble(waits: seq<nat>)
    requires forall k :: 0 <= k < |waits| ==> waits[k] == Min(30, Pow2(k + 1))
    ensures Doubling(waits)
  {
    assert Pow2(1) == 2 * Pow2(0);
    forall k | 0 <= k < |waits| - 1
      ensures waits[k + 1] == if 2 * waits[k] > 30 then 30 else 2 * waits[k]
    {
      assert Pow2(k + 2) == 2 * Pow2(k + 1);
    }
  }

  function DropSet(ends: seq<SessionEnd>): set<int> {
    set i | 0 <= i < |ends| && ends[i].Dropped?
  }

  lemma {:induction false} DropsAre(ends: seq<SessionEnd>)
    ensures Drops(ends) == |DropSet(ends)|
    decreases |ends|
  {
    if ends != [] {
      var init, last := ends[..|ends| - 1], |ends| - 1;
      DropsAre(init);
      assert DropSet(ends) == DropSet(init) + if ends[last].Dropped? then {last} else {};
    }
  }

  /** After a rejection the worker goes on only once, and only with a token minted in
      place of the cached one. So a configured or minted token is never tried again, and
      a cached one is presented again if and only if the endpoint mints the very same. */
  lemma RejectedNotRetried(h: Held, ends: seq<SessionEnd>, i: nat, j: nat)
    requires i < j < Tried(h.source, ends) && ends[i].Rejected?
    ensures h.source.Cached? && i == NextRejection(ends, 0) && ends[i].renewal.mint.Fresh()
    ensures Presented(h, ends, i) == h.token
    ensures Presented(h, ends, j) == ends[i].renewal.mint.entry.token
    ensures Presented(h, ends, j) == Presented(h, ends, i) <==> ends[i].renewal.mint.entry.token == h.token
  {
    assert i >= NextRejection(ends, 0);
  }

  /** Whom the next start finds in the file at time t, whatever happened in between: the
      token minted last, if its write got through; nothing, if the cached token was
      rejected, deleted and not replaced; and otherwise what the file held before. In
      particular a rejected cached token is still found if and only if neither its delete
      nor the write of a successor got through (or the successor is the same token). */
  lemma NextStartFinds(explicit: string, workspace: bool, file: File, key: string, now: int, r: Renewal,
                       ends: seq<SessionEnd>, t: int)
    requires Start(explicit, workspace, file, key, now, r) != []
    ensures var h := Start(explicit, workspace, file, key, now, r)[0]; var first := NextRejection(ends, 0);
            TokenStore.Read(FinalFile(h, key, ends), key, t) ==
              match h.source
              case Configured => TokenStore.Read(file, key, t)
              case Minted => if workspace && r.stored then Found(r.mint.entry, t) else TokenStore.Read(file, key, t)
              case Cached =>
                if first == |ends| then TokenStore.Read(file, key, t)
                else
                  var again := ends[first].renewal;
                  if again.mint.Fresh() && again.stored then Found(again.mint.entry, t)
                  else if again.deleted then None
                  else TokenStore.Read(file, key, t)
    ensures explicit != "" || !workspace ==>
        FinalFile(Start(explicit, workspace, file, key, now, r)[0], key, ends) == file
  {
  }

  function Found(e: TokenStore.Entry, t: int): Option<string> {
    if TokenStore.Usable(e, t) then Some(e.token) else None
  }

  // ---------------------------------------------------------------------------
  // From start to start
  // ---------------------------------------------------------------------------

  /** One run of the worker without a configured token: its clock at the start, what a mint
      at the start would meet, and its sessions. */
  datatype Life = Life(now: int, renewal: Renewal, ends: seq<SessionEnd>)

  function Begin(file: File, key: string, l: Life): seq<Held> {
    Start("", true, file, key, l.now, l.renewal)
  }

  function AfterLife(file: File, key: string, l: Life): File {
    var h := Begin(file, key, l);
    if h == [] then file else FinalFile(h[0], key, l.ends)
  }

  function AfterLives(file: File, key: string, ls: seq<Life>): File {
    if ls == [] then file else AfterLife(AfterLives(file, key, ls[..|ls| - 1]), key, ls[|ls| - 1])
  }

  /** Some session of that run presents the token. */
  predicate Presents(file: File, key: string, l: Life, token: string) {
    var h := Begin(file, key, l);
    h != [] && exists i :: 0 <= i < Tried(h[0].source, l.ends) && Presented(h[0], l.ends, i) == token
  }

  /** The endpoint hands the token out at some point of that run. */
  predicate Grants(l: Life, token: string) {
    || (l.renewal.mint.Fresh() && l.renewal.mint.entry.token == token)
    || exists i :: 0 <= i < |l.ends| && l.ends[i].Rejected? && l.ends[i].renewal.mint.Fresh()
                   && l.ends[i].renewal.mint.entry.token == token
  }

  /** The file does not yield the token under the key, at any time. */
  ghost predicate Forgotten(file: File, key: string, token: string) {
    forall t :: TokenStore.Read(file, key, t) != Some(token)
  }

  lemma StoreForgets(file: File, key: string, r: Renewal, token: string)
    requires r.mint.Granted? && r.mint.entry.token != token && (r.stored || Forgotten(file, key, token))
    ensures Forgotten(StoredFile(file, key, r), key, token)
  {
    if r.stored {
      forall t ensures TokenStore.Read(StoredFile(file, key, r), key, t) != Some(token) {
        assert TokenStore.Write(file, key, r.mint.entry).tokens[key] == r.mint.entry;
      }
    }
  }

  /** A re-mint rids the file of a token if the delete or the write of another gets through,
      or if the file did not yield it before. */
  lemma RenewalForgets(file: File, key: string, r: Renewal, token: string)
    requires r.mint.Fresh() ==> r.mint.entry.token != token
    requires r.deleted || (r.mint.Fresh() && r.stored) || Forgotten(file, key, token)
    ensures Forgotten(RenewedFile(file, key, r), key, token)
  {
    var f := if r.deleted then TokenStore.Delete(file, key) else file;
    assert r.deleted ==> forall t :: TokenStore.Read(f, key, t) == None;
    if r.mint.Fresh() {
      StoreForgets(f, key, r, token);
    }
  }

  lemma LifeForgets(file: File, key: string, l: Life, token: string)
    requires Forgotten(file, key, token) && !Grants(l, token)
    ensures Forgotten(AfterLife(file, key, l), key, token) && !Presents(file, key, l, token)
  {
    var h := Begin(file, key, l);
    if h != [] {
      var first := NextRejection(l.ends, 0);
      assert h[0].token != token;
      if h[0].source.Minted? {
        StoreForgets(file, key, l.renewal, token);
      }
      if h[0].source.Cached? && first < |l.ends| {
        RenewalForgets(h[0].file, key, l.ends[first].renewal, token);
      }
    }
  }

  /** A cached token that was rejected, and whose delete or replacement got through, is not
      presented by any later run, until the endpoint hands out the very same. */
  lemma {:induction false} NeverRetried(file: File, key: string, l: Life, later: seq<Life>, k: nat, token: string)
    requires Begin(file, key, l) != [] && Begin(file, key, l)[0].source.Cached? && Begin(file, key, l)[0].token == token
    requires NextRejection(l.ends, 0) < |l.ends|
    requires var again := l.ends[NextRejection(l.ends, 0)].renewal;
             again.deleted || (again.mint.Fresh() && again.stored)
    requires !Grants(l, token) && k < |later| && forall m :: 0 <= m <= k ==> !Grants(later[m], token)
    ensures Forgotten(AfterLives(AfterLife(file, key, l), key, later[..k]), key, token)
    ensures !Presents(AfterLives(AfterLife(file, key, l), key, later[..k]), key, later[k], token)
    decreases k
  {
    var first := AfterLife(file, key, l);
    if k == 0 {
      RenewalForgets(file, key, l.ends[NextRejection(l.ends, 0)].renewal, token);
      assert later[..0] == [];
    } else {
      NeverRetried(file, key, l, later, k - 1, token);
      LifeForgets(AfterLives(first, key, later[..k - 1]), key, later[k - 1], token);
      assert later[..k][..k - 1] == later[..k - 1];
    }
    LifeForgets(AfterLives(first, key, later[..k]), key, later[k], token);
  }

  // ---------------------------------------------------------------------------
  // The code
  // ---------------------------------------------------------------------------

  /** BenchmarkAgentWorker, as far as its token goes; `file` is the token file of its
      workspace. */
  class BenchmarkAgentWorker {
    const url: string
    const agentName: string
    const explicit: string
    const workspace: bool
    var token: string
    var tokenSource: TokenSource
    var file: File

    constructor (url: string, agentName: string, explicit: string, workspace: bool, file: File)
      ensures this.url == url && this.agentName == agentName && this.explicit == explicit && this.workspace == workspace
      ensures this.file == file
    {
      this.url, this.agentName, this.explicit, this.workspace := url, agentName, explicit, workspace;
      this.file := file;
      token, tokenSource := "", Minted;
    }

    function Key(): string {
      TokenStore.Key(url, agentName)
    }

    ghost function State(): Held
      reads this
    {
      Held(token, tokenSource, file)
    }

    /** AcquireAgentToken, and the assignment of its result. */
    method AcquireToken(now: int, r: Renewal) returns (ok: bool)
      modifies this
      ensures if ok then Start(explicit, workspace, old(file), Key(), now, r) == [State()]
              else Start(explicit, workspace, old(file), Key(), now, r) == [] && State() == old(State())
    {
      if explicit != "" {
        token, tokenSource := explicit, Configured;
        return true;
      }
      TokenStore.TrimTwice(url);
      var key := TokenStore.Key(TokenStore.TrimSlashes(url), agentName);
      if workspace {
        var cached := TokenStore.Read(file, key, now);
        if cached.Some? {
          token, tokenSource := cached.value, Cached;
          return true;
        }
      }
      if r.mint.Denied? || r.mint.entry.token == "" {
        return false;
      }
      if workspace && r.stored {
        file := TokenStore.Write(file, key, r.mint.entry);
      }
      token, tokenSource := r.mint.entry.token, Minted;
      return true;
    }

    /** remintAgentToken. */
    method RemintAgentToken(r: Renewal) returns (ok: bool)
      modifies this
      ensures ok <==> r.mint.Fresh()
      ensures file == if workspace then RenewedFile(old(file), Key(), r) else old(file)
      ensures token == (if ok then r.mint.entry.token else old(token))
      ensures tokenSource == if ok then Minted else old(tokenSource)
    {
      TokenStore.TrimTwice(url);
      var key := TokenStore.Key(TokenStore.TrimSlashes(url), agentName);
      if workspace && r.deleted {
        file := TokenStore.Delete(file, key);
      }
      if r.mint.Denied? || r.mint.entry.token == "" {
        return false;
      }
      if workspace && r.stored {
        file := TokenStore.Write(file, key, r.mint.entry);
      }
      token, tokenSource := r.mint.entry.token, Minted;
      return true;
    }

    /** The loop of Run over the sessions' ends; the context is done after the last one.
        `sessions` is how many were tried, `presented` the token each one presented and
        `waits` the backoff waits in seconds. */
    method ServeLoop(ends: seq<SessionEnd>)
      returns (exit: Exit, sessions: nat, presented: seq<string>, waits: seq<nat>, remints: nat)
      requires tokenSource.Cached? ==> workspace
      modifies this
      ensures exit == AuthFatal <==> FatalSession(old(tokenSource), ends) < |ends|
      ensures sessions == Tried(old(tokenSource), ends)
      ensures |presented| == sessions
      ensures forall i :: 0 <= i < sessions ==> presented[i] == Presented(old(State()), ends, i)
      ensures file == FinalFile(old(State()), Key(), ends)
      ensures |waits| == Drops(ends[..sessions])
      ensures forall k :: 0 <= k < |waits| ==> waits[k] == Min(30, Pow2(k + 1))
      ensures remints <= 1 && Rejections(ends[..sessions]) <= 2
      ensures remints == 1 <==> old(tokenSource).Cached? && Rejections(ends[..sessions]) >= 1
      ensures tokenSource == if Reminted(old(tokenSource), ends) then Minted else old(tokenSource)
    {
      ghost var h := State();
      var backoff: nat := 2;
      presented, waits, remints, sessions := [], [], 0, 0;
      ghost var first, fatal := NextRejection(ends, 0), FatalSession(h.source, ends);
      RejectionBound(h.source, ends);
      assert ends[..0] == [];
      while sessions < |ends|
        invariant 0 <= sessions <= fatal
        invariant backoff == Min(30, Pow2(|waits| + 1))
        invariant forall k :: 0 <= k < |waits| ==> waits[k] == Min(30, Pow2(k + 1))
        invariant |waits| == Drops(ends[..sessions])
        invariant remints == Rejections(ends[..sessions]) == if first < sessions then 1 else 0
        invariant first < sessions ==> Reminted(h.source, ends)
        invariant token == if first < sessions then ends[first].renewal.mint.entry.token else h.token
        invariant tokenSource == if first < sessions then Minted else h.source
        invariant file == if first < sessions then RenewedFile(h.file, Key(), ends[first].renewal) else h.file
        invariant |presented| == sessions && forall i :: 0 <= i < sessions ==> presented[i] == Presented(h, ends, i)
      {
        var end := ends[sessions];
        OneMore(ends, sessions);
        presented := presented + [token];
        sessions := sessions + 1;
        match end {
          case Rejected(renewal) =>
            if tokenSource == Cached {
              remints := remints + 1;
              var ok := RemintAgentToken(renewal);
              if ok {
                continue;
              }
            }
            return AuthFatal, sessions, presented, waits, remints;
          case Dropped =>
            waits := waits + [backoff];
            backoff := backoff * 2;
            if backoff > 30 {
              backoff := 30;
            }
        }
      }
      assert ends[..|ends|] == ends;
      exit := ContextDone;
    }

    /** The same, stated outright. */
    method Serve(ends: seq<SessionEnd>)
      returns (exit: Exit, sessions: nat, presented: seq<string>, waits: seq<nat>, remints: nat)
      requires tokenSource.Cached? ==> workspace
      modifies this
      ensures Served(old(State()), ends, exit, presented) && Doubling(waits)
      ensures exit == AuthFatal <==> FatalSession(old(tokenSource), ends) < |ends|
      ensures sessions == Tried(old(tokenSource), ends)
      ensures |presented| == sessions
      ensures forall i :: 0 <= i < sessions ==> presented[i] == Presented(old(State()), ends, i)
      ensures file == FinalFile(old(State()), Key(), ends)
      ensures |waits| == |DropSet(ends[..sessions])|
      ensures forall k :: 0 <= k < |waits| ==> waits[k] == Min(30, Pow2(k + 1))
      ensures remints <= 1 && Rejections(ends[..sessions]) <= 2
      ensures remints == 1 <==> old(tokenSource).Cached? && Rejections(ends[..sessions]) >= 1
      ensures tokenSource == if Reminted(old(tokenSource), ends) then Minted else old(tokenSource)
    {
      ghost var h := State();
      exit, sessions, presented, waits, remints := ServeLoop(ends);
      StopsAtFatal(h.source, ends);
      DropsAre(ends[..sessions]);
      WaitsDouble(waits);
      forall i | 0 <= i < sessions ensures PresentsRightly(h, ends, i, presented[i]) {
        PresentedRightly(h, ends, i);
      }
    }

    /** Run: acquire a token, then serve. */
    method Run(now: int, r: Renewal, ends: seq<SessionEnd>) returns (ok: bool, exit: Exit, presented: seq<string>)
      modifies this
      ensures var start := Start(explicit, workspace, old(file), Key(), now, r);
              && (ok <==> start != [])
              && (!ok ==> presented == [] && file == old(file))
              && (ok ==>
                   && Served(start[0], ends, exit, presented)
                   && file == FinalFile(start[0], Key(), ends))
    {
      presented, exit := [], ContextDone;
      ok := AcquireToken(now, r);
      if ok {
        var sessions, waits, remints;
        exit, sessions, presented, waits, remints := Serve(ends);
      }
    }
  }
}
