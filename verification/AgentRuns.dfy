/** The benchmark agent worker as a step relation: sessions, their receive loops, one
    goroutine per run, and the cancel map shared under one mutex. An event is one
    critical section or one context operation, so every sequence of enabled events is
    an interleaving the worker can take. */
module AgentRuns {
  import opened Wrappers

  /** Where a run's goroutine stands; `ok` is what the handler returned. */
  datatype Phase =
    | Starting
    | Handling
    | Returned(ok: bool)
    | Reported(ok: bool)
    | Unlinked(ok: bool)
    | Finished(ok: bool)

  /** `cancelled` is the state of the run's context. `asked` records that a cancel
      command found this run in the map. */
  datatype Run = Run(id: int, session: nat, cancelled: bool, asked: bool, phase: Phase)

  /** Whether a session's context is live, and the cancel function its receive loop has looked up but
      not called yet. */
  datatype Session = Session(live: bool, pending: Option<nat>)

  /** One terminal report attempt, and whether it was written to an open socket. */
  datatype Report = Report(run: nat, completed: bool, sent: bool)

  datatype MainLoop = Dialing | Serving(k: nat) | Closing(k: nat) | Stopped

  /** `down` says that the worker's own context, from which every session's derives, is
      cancelled. */
  datatype Worker = Worker(
    main: MainLoop,
    down: bool,
    conn: Option<nat>,
    connected: bool,
    sessions: seq<Session>,
    runs: seq<Run>,
    cancelMap: map<int, nat>,
    reports: seq<Report>)

  datatype Event =
    | Connect
    | Disconnect
    | EndSession
    | Shutdown
    | Stop
    | Accept(session: nat, id: int)
    | Progress(run: nat)
    | HandlerReturns(run: nat, ok: bool)
    | SendReport(run: nat, written: bool)
    | Unlink(run: nat)
    | Release(run: nat)
    | LookUpCancel(session: nat, id: int)
    | CallCancel(session: nat)

  const INITIAL := Worker(Dialing, false, None, false, [], [], map[], [])

  predicate Enabled(w: Worker, e: Event) {
    match e
    case Connect => w.main.Dialing?
    case Disconnect => w.main.Serving?
    case EndSession => w.main.Closing? && w.main.k < |w.sessions|
    case Shutdown => !w.down
    case Stop => w.main.Dialing? && w.down
    case Accept(s, id) => s < |w.sessions| && w.sessions[s].pending.None?
    case Progress(i) => i < |w.runs| && w.runs[i].phase.Starting?
    case HandlerReturns(i, ok) => i < |w.runs| && w.runs[i].phase.Handling?
    case SendReport(i, _) => i < |w.runs| && w.runs[i].phase.Returned?
    case Unlink(i) => i < |w.runs| && w.runs[i].phase.Reported?
    case Release(i) => i < |w.runs| && w.runs[i].phase.Unlinked?
    case LookUpCancel(s, id) => s < |w.sessions| && w.sessions[s].pending.None?
    case CallCancel(s) => s < |w.sessions| && w.sessions[s].pending.Some? && w.sessions[s].pending.value < |w.runs|
  }

  /** Cancelling a session's context cancels every context derived from it. */
  function CancelChildren(runs: seq<Run>, k: nat): seq<Run> {
    seq(|runs|, i requires 0 <= i < |runs| =>
      if runs[i].session == k then runs[i].(cancelled := true) else runs[i])
  }

  /** Cancelling the worker's context ends every session's and cancels every run's. */
  function EndAll(sessions: seq<Session>): seq<Session> {
    seq(|sessions|, i requires 0 <= i < |sessions| => sessions[i].(live := false))
  }

  function CancelAll(runs: seq<Run>): seq<Run> {
    seq(|runs|, i requires 0 <= i < |runs| => runs[i].(cancelled := true))
  }

  function SetPhase(w: Worker, i: nat, phase: Phase): Worker
    requires i < |w.runs|
  {
    w.(runs := w.runs[i := w.runs[i].(phase := phase)])
  }

  function Step(w: Worker, e: Event): Worker
    requires Enabled(w, e)
  {
    match e
    case Connect =>
      // A dial under way may still succeed after a shutdown.
      var k := |w.sessions|;
      w.(main := Serving(k), conn := Some(k), connected := true, sessions := w.sessions + [Session(!w.down, None)])
    case Disconnect =>
      w.(main := Closing(w.main.k), conn := None, connected := false)
    case EndSession =>
      var k := w.main.k;
      w.(main := if w.down then Stopped else Dialing, sessions := w.sessions[k := w.sessions[k].(live := false)],
          runs := CancelChildren(w.runs, k))
    case Shutdown => w.(down := true, sessions := EndAll(w.sessions), runs := CancelAll(w.runs))
    case Stop => w.(main := Stopped)
    case Accept(s, id) =>
      // A context derived from a cancelled one is cancelled from the start.
      w.(runs := w.runs + [Run(id, s, !w.sessions[s].live, false, Starting)], cancelMap := w.cancelMap[id := |w.runs|])
    case Progress(i) => SetPhase(w, i, Handling)
    case HandlerReturns(i, ok) => SetPhase(w, i, Returned(ok))
    case SendReport(i, written) =>
      var ok := w.runs[i].phase.ok;
      SetPhase(w, i, Reported(ok)).(reports := w.reports + [Report(i, ok, w.conn.Some? && written)])
    case Unlink(i) =>
      SetPhase(w, i, Unlinked(w.runs[i].phase.ok)).(cancelMap := w.cancelMap - {w.runs[i].id})
    case Release(i) =>
      w.(runs := w.runs[i := w.runs[i].(cancelled := true, phase := Finished(w.runs[i].phase.ok))])
    case LookUpCancel(s, id) =>
      if id in w.cancelMap && w.cancelMap[id] < |w.runs| then
        var i := w.cancelMap[id];
        w.(sessions := w.sessions[s := w.sessions[s].(pending := Some(i))],
            runs := w.runs[i := w.runs[i].(asked := true)])
      else w
    case CallCancel(s) =>
      var i := w.sessions[s].pending.value;
      w.(sessions := w.sessions[s := w.sessions[s].(pending := None)],
          runs := w.runs[i := w.runs[i].(cancelled := true)])
  }

  /** Run `evs` from `w`; None when some event is not enabled where it stands. */
  function Exec(w: Worker, evs: seq<Event>): Option<Worker>
    decreases |evs|
  {
    if evs == [] then Some(w)
    else
      var r := Exec(w, evs[..|evs| - 1]);
      if r.Some? && Enabled(r.value, evs[|evs| - 1]) then Some(Step(r.value, evs[|evs| - 1])) else None
  }

  /** `evs` is an interleaving the worker can take from its start. */
  predicate Possible(evs: seq<Event>) {
    Exec(INITIAL, evs).Some?
  }

  function After(evs: seq<Event>): Worker
    requires Possible(evs)
  {
    Exec(INITIAL, evs).value
  }

  lemma Extend(evs: seq<Event>, e: Event)
    requires Possible(evs) && Enabled(After(evs), e)
    ensures Possible(evs + [e]) && After(evs + [e]) == Step(After(evs), e)
  {
    assert (evs + [e])[..|evs|] == evs;
  }

  // ---------------------------------------------------------------------------
  // What every interleaving keeps
  // ---------------------------------------------------------------------------

  /** Started and not yet removed from the map. */
  predicate InFlight(w: Worker, i: int) {
    0 <= i < |w.runs| && !w.runs[i].phase.Unlinked? && !w.runs[i].phase.Finished?
  }

  /** Map entries point at in-flight runs with that id. */
  predicate EntriesInFlight(w: Worker) {
    forall id :: id in w.cancelMap ==> InFlight(w, w.cancelMap[id]) && w.runs[w.cancelMap[id]].id == id
  }

  /** Every run belongs to a session; its context is cancelled once the session's is over
      or its goroutine has finished. */
  predicate EndedCancelled(w: Worker) {
    forall i :: 0 <= i < |w.runs| ==>
      && w.runs[i].session < |w.sessions|
      && (!w.sessions[w.runs[i].session].live || w.runs[i].phase.Finished? ==> w.runs[i].cancelled)
  }

  /** A cancel function waiting to be called belongs to a run a command found. */
  predicate PendingAsked(w: Worker) {
    forall s :: 0 <= s < |w.sessions| && w.sessions[s].pending.Some? ==>
      w.sessions[s].pending.value < |w.runs| && w.runs[w.sessions[s].pending.value].asked
  }

  /** A run's context is cancelled only because its session's context is over, its
      goroutine finished, or a cancel command found it. */
  predicate CancelledForReason(w: Worker) {
    && PendingAsked(w)
    && (forall i :: 0 <= i < |w.runs| && w.runs[i].cancelled ==>
          w.runs[i].asked || w.runs[i].phase.Finished?
          || (w.runs[i].session < |w.sessions| && !w.sessions[w.runs[i].session].live))
  }

  /** The session the main loop is in, up to the deferred cancel of its context. */
  predicate Current(w: Worker, s: int) {
    (w.main.Serving? || w.main.Closing?) && w.main.k == s
  }

  /** The socket is the one of the session being served, and a session's context is live
      exactly while the main loop is in that session and no shutdown has come. */
  predicate SocketMatches(w: Worker) {
    && (w.connected <==> w.conn.Some?)
    && (w.conn.Some? <==> w.main.Serving?)
    && (w.main.Serving? ==> w.conn == Some(w.main.k))
    && (w.main.Serving? || w.main.Closing? ==> w.main.k < |w.sessions|)
    && (w.main.Stopped? ==> w.down)
    && (forall s :: 0 <= s < |w.sessions| ==> (w.sessions[s].live <==> Current(w, s) && !w.down))
  }

  function ReportsOf(reports: seq<Report>, i: nat): nat {
    if reports == [] then 0
    else ReportsOf(reports[..|reports| - 1], i) + if reports[|reports| - 1].run == i then 1 else 0
  }

  predicate HasReported(p: Phase) {
    p.Reported? || p.Unlinked? || p.Finished?
  }

  /** One terminal report per run past its report step, none before, and it says what
      the handler returned. */
  predicate ReportedOnce(w: Worker) {
    && (forall i :: 0 <= i < |w.runs| ==>
          ReportsOf(w.reports, i) == if HasReported(w.runs[i].phase) then 1 else 0)
    && (forall r :: r in w.reports ==>
          r.run < |w.runs| && HasReported(w.runs[r.run].phase) && w.runs[r.run].phase.ok == r.completed)
  }

  predicate Inv(w: Worker) {
    EntriesInFlight(w) && EndedCancelled(w) && CancelledForReason(w) && SocketMatches(w) && ReportedOnce(w)
  }

  lemma {:induction false} NoReportsYet(reports: seq<Report>, i: nat)
    requires forall r :: r in reports ==> r.run != i
    ensures ReportsOf(reports, i) == 0
  {
    if reports != [] {
      NoReportsYet(reports[..|reports| - 1], i);
      assert reports[|reports| - 1] in reports;
    }
  }

  lemma StepEntries(w: Worker, e: Event)
    requires EntriesInFlight(w) && Enabled(w, e)
    ensures EntriesInFlight(Step(w, e))
  {
  }

  lemma StepEnded(w: Worker, e: Event)
    requires EndedCancelled(w) && Enabled(w, e)
    ensures EndedCancelled(Step(w, e))
  {
  }

  lemma StepPending(w: Worker, e: Event)
    requires PendingAsked(w) && Enabled(w, e)
    ensures PendingAsked(Step(w, e))
  {
  }

  lemma StepReason(w: Worker, e: Event)
    requires EndedCancelled(w) && CancelledForReason(w) && Enabled(w, e)
    ensures CancelledForReason(Step(w, e))
  {
    StepPending(w, e);
  }

  lemma StepSocket(w: Worker, e: Event)
    requires SocketMatches(w) && Enabled(w, e)
    ensures SocketMatches(Step(w, e))
  {
  }

  lemma StepSendReport(w: Worker, k: nat, written: bool)
    requires ReportedOnce(w) && Enabled(w, SendReport(k, written))
    ensures ReportedOnce(Step(w, SendReport(k, written)))
  {
    var w' := Step(w, SendReport(k, written));
    var r := Report(k, w.runs[k].phase.ok, w.conn.Some? && written);
    assert w'.reports == w.reports + [r];
    assert w'.reports[..|w.reports|] == w.reports;
    assert w'.runs[k].phase == Reported(r.completed);
    forall q | q in w'.reports
      ensures q.run < |w'.runs| && HasReported(w'.runs[q.run].phase) && w'.runs[q.run].phase.ok == q.completed
    {
      assert q in w.reports || q == r;
    }
  }

  lemma StepOther(w: Worker, e: Event)
    requires ReportedOnce(w) && Enabled(w, e) && !e.SendReport?
    ensures ReportedOnce(Step(w, e))
  {
    var w' := Step(w, e);
    assert w'.reports == w.reports;
    forall i | 0 <= i < |w.runs|
      ensures HasReported(w'.runs[i].phase) <==> HasReported(w.runs[i].phase)
      ensures HasReported(w.runs[i].phase) ==> w'.runs[i].phase.ok == w.runs[i].phase.ok
    {
    }
    if |w'.runs| > |w.runs| {
      NoReportsYet(w.reports, |w.runs|);
    }
  }

  /** Every step of every interleaving keeps the whole invariant. */
  lemma StepInv(w: Worker, e: Event)
    requires Inv(w) && Enabled(w, e)
    ensures Inv(Step(w, e))
  {
    StepEntries(w, e);
    StepEnded(w, e);
    StepReason(w, e);
    StepSocket(w, e);
    if e.SendReport? {
      StepSendReport(w, e.run, e.written);
    } else {
      StepOther(w, e);
    }
  }

  /** The invariant holds after every interleaving. */
  lemma {:induction false} AlwaysInv(evs: seq<Event>)
    requires Possible(evs)
    ensures Inv(After(evs))
    decreases |evs|
  {
    if evs != [] {
      AlwaysInv(evs[..|evs| - 1]);
      StepInv(After(evs[..|evs| - 1]), evs[|evs| - 1]);
    }
  }

  // ---------------------------------------------------------------------------
  // The cancel map tracks exactly the in-flight runs
  // ---------------------------------------------------------------------------

  /** Every in-flight run's cancel function is the entry under its id. */
  ghost predicate Tracked(w: Worker) {
    forall i :: InFlight(w, i) ==> w.runs[i].id in w.cancelMap && w.cancelMap[w.runs[i].id] == i
  }

  ghost predicate IdInFlight(w: Worker, id: int) {
    exists i :: InFlight(w, i) && w.runs[i].id == id
  }

  /** No run command arrives with the id of an in-flight run. */
  ghost predicate NoDuplicateAccept(evs: seq<Event>)
    requires Possible(evs)
    decreases |evs|
  {
    evs == [] ||
    (var init, e := evs[..|evs| - 1], evs[|evs| - 1];
     NoDuplicateAccept(init) && (e.Accept? ==> !IdInFlight(After(init), e.id)))
  }

  /** The state after every prefix tracks its in-flight runs. */
  ghost predicate AlwaysTracked(evs: seq<Event>)
    requires Possible(evs)
    decreases |evs|
  {
    Tracked(After(evs)) && (evs == [] || AlwaysTracked(evs[..|evs| - 1]))
  }

  lemma TrackedStep(w: Worker, e: Event)
    requires EntriesInFlight(w) && Tracked(w) && Enabled(w, e)
    ensures Tracked(Step(w, e)) <==> (e.Accept? ==> !IdInFlight(w, e.id))
  {
    var w' := Step(w, e);
    match e {
      case Accept(s, id) =>
        if i :| InFlight(w, i) && w.runs[i].id == id {
          assert InFlight(w', i) && InFlight(w', |w.runs|);
        } else {
          forall i | InFlight(w', i) ensures w'.runs[i].id in w'.cancelMap && w'.cancelMap[w'.runs[i].id] == i {
            assert i < |w.runs| ==> InFlight(w, i);
          }
        }
      case Unlink(j) =>
        assert InFlight(w, j);
        forall i | InFlight(w', i) ensures w'.runs[i].id in w'.cancelMap && w'.cancelMap[w'.runs[i].id] == i {
          assert InFlight(w, i);
        }
      case _ =>
        forall i | InFlight(w', i) ensures w'.runs[i].id in w'.cancelMap && w'.cancelMap[w'.runs[i].id] == i {
          assert InFlight(w, i);
        }
    }
  }

  /** Across all interleavings: the map tracks the in-flight runs throughout exactly
      when no run id is dispatched again while in flight. */
  lemma {:induction false} TrackedIffNoDuplicate(evs: seq<Event>)
    requires Possible(evs)
    ensures AlwaysTracked(evs) <==> NoDuplicateAccept(evs)
    decreases |evs|
  {
    if evs != [] {
      var init, e := evs[..|evs| - 1], evs[|evs| - 1];
      TrackedIffNoDuplicate(init);
      AlwaysInv(init);
      if AlwaysTracked(init) {
        TrackedStep(After(init), e);
        assert After(evs) == Step(After(init), e);
      }
    }
  }

  /** Then the map's keys are exactly the ids of the in-flight runs, and distinct
      in-flight runs have distinct ids. */
  lemma KeysAreInFlight(evs: seq<Event>)
    requires Possible(evs) && NoDuplicateAccept(evs)
    ensures var w := After(evs);
            && (forall id :: id in w.cancelMap <==> IdInFlight(w, id))
            && (forall i, j :: InFlight(w, i) && InFlight(w, j) && w.runs[i].id == w.runs[j].id ==> i == j)
  {
    var w := After(evs);
    TrackedIffNoDuplicate(evs);
    AlwaysInv(evs);
    forall id ensures id in w.cancelMap <==> IdInFlight(w, id) {
      if id in w.cancelMap {
        assert InFlight(w, w.cancelMap[id]);
      }
    }
  }

  /** With two in-flight runs under one id, whichever finishes first takes the other's
      entry away: the other goes on, and no cancel command finds it any more. */
  lemma DuplicateLosesEntry(w: Worker, a: nat, b: nat, s: nat)
    requires InFlight(w, a) && InFlight(w, b) && a != b && w.runs[a].id == w.runs[b].id
    requires Enabled(w, Unlink(a)) && s < |w.sessions| && w.sessions[s].pending.None?
    ensures var w' := Step(w, Unlink(a));
            InFlight(w', b) && !Tracked(w')
            && Enabled(w', LookUpCancel(s, w.runs[b].id)) && Step(w', LookUpCancel(s, w.runs[b].id)) == w'
  {
    assert InFlight(Step(w, Unlink(a)), b);
  }

  /** Such a state is reachable: run 7 dispatched twice, the first one finishing. */
  lemma DuplicateReachable() returns (evs: seq<Event>)
    ensures Possible(evs) && InFlight(After(evs), 1) && After(evs).runs[1].id == 7 && 7 !in After(evs).cancelMap
  {
    evs := [];
    Extend(evs, Connect);
    evs := evs + [Connect];
    Extend(evs, Accept(0, 7));
    evs := evs + [Accept(0, 7)];
    Extend(evs, Accept(0, 7));
    evs := evs + [Accept(0, 7)];
    Extend(evs, Progress(0));
    evs := evs + [Progress(0)];
    Extend(evs, HandlerReturns(0, true));
    evs := evs + [HandlerReturns(0, true)];
    Extend(evs, SendReport(0, true));
    evs := evs + [SendReport(0, true)];
    Extend(evs, Unlink(0));
    evs := evs + [Unlink(0)];
  }

  // ---------------------------------------------------------------------------
  // Cancel commands and session ends
  // ---------------------------------------------------------------------------

  /** A cancel command cancels the in-flight run with its id and no other: it finds
      that run, and when the cancel function is called, whatever happened in between,
      only that run's context changes. */
  lemma CancelHitsItsRun(evs: seq<Event>, s: nat, i: nat)
    requires Possible(evs) && NoDuplicateAccept(evs)
    requires InFlight(After(evs), i)
    requires Enabled(After(evs), LookUpCancel(s, After(evs).runs[i].id))
    ensures var w := After(evs);
            Step(w, LookUpCancel(s, w.runs[i].id)).sessions[s].pending == Some(i)
  {
    TrackedIffNoDuplicate(evs);
  }

  /** A looked-up cancel function stays the same until it is called, and calling it
      changes nothing but that one context. */
  lemma PendingKept(w: Worker, e: Event, s: nat)
    requires Enabled(w, e) && s < |w.sessions| && w.sessions[s].pending.Some?
    ensures e == CallCancel(s) || Step(w, e).sessions[s].pending == w.sessions[s].pending
    ensures e == CallCancel(s) ==>
              var i, w' := w.sessions[s].pending.value, Step(w, e);
              w'.runs == w.runs[i := w.runs[i].(cancelled := true)] && w'.cancelMap == w.cancelMap
              && w'.sessions == w.sessions[s := w.sessions[s].(pending := None)]
  {
  }

  lemma {:induction false} PendingThrough(pre: seq<Event>, mid: seq<Event>, s: nat, i: nat)
    requires Possible(pre) && s < |After(pre).sessions| && After(pre).sessions[s].pending == Some(i)
    requires Possible(pre + mid) && CallCancel(s) !in mid
    ensures s < |After(pre + mid).sessions| && After(pre + mid).sessions[s].pending == Some(i)
    decreases |mid|
  {
    if mid == [] {
      assert pre + mid == pre;
    } else {
      var front, last := mid[..|mid| - 1], mid[|mid| - 1];
      assert (pre + mid)[..|pre + mid| - 1] == pre + front && (pre + mid)[|pre + mid| - 1] == last;
      assert last in mid && forall e :: e in front ==> e in mid;
      PendingThrough(pre, front, s, i);
      PendingKept(After(pre + front), last, s);
    }
  }

  /** The whole command: look up, let anything interleave, call. The addressed run ends
      up cancelled, and the call itself touches no other run. */
  lemma CancelReachesItsRun(evs: seq<Event>, s: nat, i: nat, mid: seq<Event>)
    requires Possible(evs) && NoDuplicateAccept(evs) && InFlight(After(evs), i)
    requires Enabled(After(evs), LookUpCancel(s, After(evs).runs[i].id))
    requires Possible(evs + [LookUpCancel(s, After(evs).runs[i].id)] + mid) && CallCancel(s) !in mid
    ensures var w := After(evs + [LookUpCancel(s, After(evs).runs[i].id)] + mid);
            Enabled(w, CallCancel(s)) && i < |w.runs|
            && Step(w, CallCancel(s)).runs == w.runs[i := w.runs[i].(cancelled := true)]
  {
    var look := LookUpCancel(s, After(evs).runs[i].id);
    CancelHitsItsRun(evs, s, i);
    Extend(evs, look);
    PendingThrough(evs + [look], mid, s, i);
    AlwaysInv(evs + [look] + mid);
  }

  lemma StepKeepsRun(w: Worker, e: Event, i: nat)
    requires Enabled(w, e) && i < |Step(w, e).runs|
    ensures if i < |w.runs| then
              Step(w, e).runs[i].id == w.runs[i].id && Step(w, e).runs[i].session == w.runs[i].session
            else i == |w.runs| && e == Accept(Step(w, e).runs[i].session, Step(w, e).runs[i].id)
  {
  }

  /** Where a run comes from: the run command of that id which was handled when i runs had
      been started, and the session it was received in; both stay with the run. */
  lemma {:induction false} RunOrigin(evs: seq<Event>, i: nat) returns (n: nat)
    requires Possible(evs) && i < |After(evs).runs|
    ensures n < |evs| && Possible(evs[..n]) && |After(evs[..n]).runs| == i
    ensures evs[n] == Accept(After(evs).runs[i].session, After(evs).runs[i].id)
    decreases |evs|
  {
    assert evs != [];
    n := |evs| - 1;
    var init := evs[..n];
    assert Possible(init) && After(evs) == Step(After(init), evs[n]);
    StepKeepsRun(After(init), evs[n], i);
    if i < |After(init).runs| {
      n := RunOrigin(init, i);
      assert init[..n] == evs[..n];
    }
  }

  /** The run's session is over, the worker is shut down, or the run has finished. */
  predicate Over(w: Worker, i: nat)
    requires i < |w.runs|
  {
    w.down || !Current(w, w.runs[i].session) || w.runs[i].phase.Finished?
  }

  /** The step calls the cancel function of run i. */
  predicate Calls(w: Worker, e: Event, i: nat) {
    e.CallCancel? && e.session < |w.sessions| && w.sessions[e.session].pending == Some(i)
  }

  /** Some step of the interleaving did. */
  predicate Called(evs: seq<Event>, i: nat)
    requires Possible(evs)
    decreases |evs|
  {
    evs != [] &&
    (Called(evs[..|evs| - 1], i) || Calls(After(evs[..|evs| - 1]), evs[|evs| - 1], i))
  }

  /** Neither being over nor being cancelled is ever undone; and a run's context becomes
      cancelled only by becoming over, or by the call of its own cancel function. */
  lemma StepCancelled(w: Worker, e: Event, i: nat)
    requires Inv(w) && Enabled(w, e) && i < |Step(w, e).runs|
    ensures var w' := Step(w, e);
            && (i < |w.runs| ==> (Over(w, i) ==> Over(w', i)) && (w.runs[i].cancelled ==> w'.runs[i].cancelled))
            && (w'.runs[i].cancelled ==> (i < |w.runs| && w.runs[i].cancelled) || Over(w', i) || Calls(w, e, i))
            && (Calls(w, e, i) ==> w'.runs[i].cancelled)
  {
  }

  /** A cancel function that was called is that of a run already started. */
  lemma {:induction false} CalledStarted(evs: seq<Event>, i: nat)
    requires Possible(evs) && Called(evs, i)
    ensures i < |After(evs).runs|
    decreases |evs|
  {
    var init, e := evs[..|evs| - 1], evs[|evs| - 1];
    AlwaysInv(init);
    if Called(init, i) {
      CalledStarted(init, i);
    }
    RunsStay(After(init), e, i);
  }

  lemma RunsStay(w: Worker, e: Event, i: nat)
    requires Inv(w) && Enabled(w, e)
    ensures |w.runs| <= |Step(w, e).runs|
    ensures Calls(w, e, i) ==> i < |w.runs|
  {
  }

  /** When a run's context is cancelled: exactly once the main loop has left its session,
      the worker is shut down, the run's goroutine finished, or a cancel command that found
      the run called its cancel function. Runs that a lagging receive loop starts only
      after the end of its session are covered. */
  lemma {:induction false} CancelledExactly(evs: seq<Event>, i: nat)
    requires Possible(evs) && i < |After(evs).runs|
    ensures After(evs).runs[i].cancelled <==> Over(After(evs), i) || Called(evs, i)
    decreases |evs|
  {
    assert evs != [];
    var init, e := evs[..|evs| - 1], evs[|evs| - 1];
    AlwaysInv(init);
    AlwaysInv(evs);
    if i < |After(init).runs| {
      CancelledExactly(init, i);
    } else if Called(init, i) {
      CalledStarted(init, i);
    }
    CancelledNext(After(init), e, i, Called(init, i));
  }

  lemma CancelledNext(w: Worker, e: Event, i: nat, called: bool)
    requires Inv(w) && Enabled(w, e) && i < |Step(w, e).runs| && Inv(Step(w, e))
    requires if i < |w.runs| then w.runs[i].cancelled <==> Over(w, i) || called else !called
    ensures Step(w, e).runs[i].cancelled <==> Over(Step(w, e), i) || called || Calls(w, e, i)
  {
    StepCancelled(w, e, i);
  }

  /** Nothing but Shutdown sets `down`, and nothing clears it. */
  lemma {:induction false} DownIffShutdown(evs: seq<Event>)
    requires Possible(evs)
    ensures After(evs).down <==> Shutdown in evs
    decreases |evs|
  {
    if evs != [] {
      var init, e := evs[..|evs| - 1], evs[|evs| - 1];
      DownIffShutdown(init);
      assert After(evs) == Step(After(init), e);
      assert evs == init + [e];
    }
  }

  /** A shutdown is possible in every phase, and comes without an end of the session: run 7
      is cancelled while the socket is open and no cancel command was sent. */
  lemma ShutdownWhileServing() returns (evs: seq<Event>)
    ensures Possible(evs) && EndSession !in evs && (forall s, id :: LookUpCancel(s, id) !in evs)
    ensures var w := After(evs); w.conn == Some(0) && InFlight(w, 0) && w.runs[0].id == 7 && w.runs[0].cancelled
  {
    evs := [];
    Extend(evs, Connect);
    evs := evs + [Connect];
    Extend(evs, Accept(0, 7));
    evs := evs + [Accept(0, 7)];
    Extend(evs, Shutdown);
    evs := evs + [Shutdown];
  }

  /** One step keeps every run's id, and marks a run as asked for only by a cancel
      command with its id while it is in flight. */
  lemma StepAsked(w: Worker, e: Event, i: nat)
    requires EntriesInFlight(w) && Enabled(w, e) && i < |Step(w, e).runs| && Step(w, e).runs[i].asked
    requires i < |w.runs| ==> !w.runs[i].asked
    ensures e.LookUpCancel? && InFlight(w, i) && w.runs[i].id == e.id
  {
  }

  /** `asked` is earned: some cancel command with this run's id was handled while the
      run was in flight. */
  lemma {:induction false} AskedByCommand(evs: seq<Event>, i: nat) returns (n: nat)
    requires Possible(evs) && i < |After(evs).runs| && After(evs).runs[i].asked
    ensures n < |evs| && evs[n].LookUpCancel? && Possible(evs[..n])
    ensures InFlight(After(evs[..n]), i) && After(evs[..n]).runs[i].id == evs[n].id
    decreases |evs|
  {
    assert evs != [];
    n := |evs| - 1;
    var init := evs[..n];
    assert Possible(init) && After(evs) == Step(After(init), evs[n]);
    if i < |After(init).runs| && After(init).runs[i].asked {
      n := AskedByCommand(init, i);
      assert init[..n] == evs[..n];
    } else {
      AlwaysInv(init);
      StepAsked(After(init), evs[n], i);
    }
  }

  // ---------------------------------------------------------------------------
  // Terminal reports
  // ---------------------------------------------------------------------------

  /** Each run whose goroutine got past its report has made exactly one terminal
      report attempt, every other run none; and completed or failed is what its
      handler returned, so never both. */
  lemma ExactlyOneTerminalReport(evs: seq<Event>, i: nat)
    requires Possible(evs) && i < |After(evs).runs|
    ensures var w := After(evs);
            && ReportsOf(w.reports, i) == (if HasReported(w.runs[i].phase) then 1 else 0)
            && (forall r :: r in w.reports && r.run == i ==> HandlerReturns(i, r.completed) in evs)
            && (forall r, q :: r in w.reports && q in w.reports && r.run == q.run ==> r.completed == q.completed)
  {
    AlwaysInv(evs);
    VerdictFromHandler(evs, i);
  }

  lemma {:induction false} VerdictFromHandler(evs: seq<Event>, i: nat)
    requires Possible(evs) && i < |After(evs).runs|
    ensures var p := After(evs).runs[i].phase;
            p.Returned? || HasReported(p) ==> HandlerReturns(i, p.ok) in evs
    decreases |evs|
  {
    if evs != [] {
      var init, e := evs[..|evs| - 1], evs[|evs| - 1];
      assert Possible(init) && After(evs) == Step(After(init), e);
      if i < |After(init).runs| {
        VerdictFromHandler(init, i);
        StepVerdict(After(init), e, i);
      }
      assert e in evs;
      assert forall x :: x in init ==> x in evs;
    }
  }

  /** A verdict, once there, stays; a new one comes from the handler. */
  lemma StepVerdict(w: Worker, e: Event, i: nat)
    requires Enabled(w, e) && i < |w.runs|
    ensures var p, q := w.runs[i].phase, Step(w, e).runs[i].phase;
            if p.Returned? || HasReported(p) then (q.Returned? || HasReported(q)) && q.ok == p.ok
            else q.Returned? || HasReported(q) ==> e == HandlerReturns(i, q.ok)
  {
  }

  // ---------------------------------------------------------------------------
  // The critical sections themselves
  // ---------------------------------------------------------------------------

  /** BenchmarkAgentWorker: the shared fields, and each critical section as a method that
      does exactly one event. */
  class BenchmarkAgentWorker {
    var main: MainLoop
    /** Whether the context given to Run is cancelled. */
    var down: bool
    var conn: Option<nat>
    var connected: bool
    var cancelMap: map<int, nat>
    /** Contexts and goroutines, which Go keeps elsewhere. */
    var sessions: seq<Session>
    var runs: seq<Run>
    var reports: seq<Report>

    constructor ()
      ensures State() == INITIAL
    {
      main, down, conn, connected, cancelMap := Dialing, false, None, false, map[];
      sessions, runs, reports := [], [], [];
    }

    ghost function State(): Worker
      reads this
    {
      Worker(main, down, conn, connected, sessions, runs, cancelMap, reports)
    }

    /** After a successful dial. */
    method SetConnected()
      requires Enabled(State(), Connect)
      modifies this
      ensures State() == Step(old(State()), Connect)
    {
      var k := |sessions|;
      sessions := sessions + [Session(!down, None)];
      main := Serving(k);
      conn := Some(k);
      connected := true;
    }

    method SetDisconnected()
      requires Enabled(State(), Disconnect)
      modifies this
      ensures State() == Step(old(State()), Disconnect)
    {
      connected := false;
      conn := None;
      main := Closing(main.k);
    }

    /** The deferred sessionCancel: every context derived from the session's is cancelled,
        one after the other. */
    method CancelSession()
      requires Enabled(State(), EndSession)
      modifies this
      ensures State() == Step(old(State()), EndSession)
    {
      var k := main.k;
      sessions := sessions[k := sessions[k].(live := false)];
      ghost var before := runs;
      for i := 0 to |runs|
        invariant |runs| == |before| && sessions == old(sessions)[k := old(sessions)[k].(live := false)]
        invariant forall j :: 0 <= j < i ==> runs[j] == CancelChildren(before, k)[j]
        invariant forall j :: i <= j < |runs| ==> runs[j] == before[j]
        invariant unchanged(`main) && unchanged(`down) && unchanged(`conn) && unchanged(`connected)
            && unchanged(`cancelMap) && unchanged(`reports)
      {
        if runs[i].session == k {
          runs := runs[i := runs[i].(cancelled := true)];
        }
      }
      assert runs == CancelChildren(before, k);
      main := if down then Stopped else Dialing;
    }

    /** The caller cancels the context it gave to Run: every session's context ends and
        every run's is cancelled, one after the other. */
    method Shutdown()
      requires Enabled(State(), Event.Shutdown)
      modifies this
      ensures State() == Step(old(State()), Event.Shutdown)
    {
      down := true;
      for i := 0 to |sessions|
        invariant |sessions| == |old(sessions)| && down
        invariant forall j :: 0 <= j < i ==> sessions[j] == EndAll(old(sessions))[j]
        invariant forall j :: i <= j < |sessions| ==> sessions[j] == old(sessions)[j]
        invariant unchanged(`main) && unchanged(`conn) && unchanged(`connected) && unchanged(`cancelMap)
        invariant unchanged(`reports) && unchanged(`runs)
      {
        sessions := sessions[i := sessions[i].(live := false)];
      }
      assert sessions == EndAll(old(sessions));
      for i := 0 to |runs|
        invariant |runs| == |old(runs)| && down && sessions == EndAll(old(sessions))
        invariant forall j :: 0 <= j < i ==> runs[j] == CancelAll(old(runs))[j]
        invariant forall j :: i <= j < |runs| ==> runs[j] == old(runs)[j]
        invariant unchanged(`main) && unchanged(`conn) && unchanged(`connected) && unchanged(`cancelMap)
            && unchanged(`reports)
      {
        runs := runs[i := runs[i].(cancelled := true)];
      }
      assert runs == CancelAll(old(runs));
    }

    /** handleRunCommand up to starting the goroutine. */
    method StartRun(session: nat, id: int) returns (run: nat)
      requires Enabled(State(), Accept(session, id))
      modifies this
      ensures State() == Step(old(State()), Accept(session, id))
      ensures run == |old(runs)|
    {
      run := |runs|;
      runs := runs + [Run(id, session, !sessions[session].live, false, Starting)];
      cancelMap := cancelMap[id := run];
    }

    /** SendCompleted or SendFailed: one attempt, which fails when no socket is open or
        the write to it does. */
    method ReportRun(run: nat, written: bool) returns (sent: bool)
      requires Enabled(State(), SendReport(run, written))
      modifies this
      ensures State() == Step(old(State()), SendReport(run, written))
      ensures sent <==> conn.Some? && written
    {
      var ok := runs[run].phase.ok;
      sent := false;
      if conn.Some? {
        sent := written;
      }
      reports := reports + [Report(run, ok, sent)];
      runs := runs[run := runs[run].(phase := Reported(ok))];
    }

    /** The deferred delete of the goroutine. */
    method DropEntry(run: nat)
      requires Enabled(State(), Unlink(run))
      modifies this
      ensures State() == Step(old(State()), Unlink(run))
    {
      cancelMap := cancelMap - {runs[run].id};
      runs := runs[run := runs[run].(phase := Unlinked(runs[run].phase.ok))];
    }

    /** The lookup of handleCancelCommand. */
    method FindCancel(session: nat, id: int) returns (found: bool)
      requires Enabled(State(), LookUpCancel(session, id)) && EntriesInFlight(State())
      modifies this
      ensures State() == Step(old(State()), LookUpCancel(session, id))
      ensures found <==> id in cancelMap
    {
      found := id in cancelMap;
      if found {
        var run := cancelMap[id];
        assert InFlight(State(), run);
        sessions := sessions[session := sessions[session].(pending := Some(run))];
        runs := runs[run := runs[run].(asked := true)];
      }
    }

    /** The call of the looked-up function, outside the mutex. */
    method CallFoundCancel(session: nat)
      requires Enabled(State(), CallCancel(session))
      modifies this
      ensures State() == Step(old(State()), CallCancel(session))
    {
      var run := sessions[session].pending.value;
      sessions := sessions[session := sessions[session].(pending := None)];
      runs := runs[run := runs[run].(cancelled := true)];
    }
  }
}
