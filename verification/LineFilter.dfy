/** The two log filters: writers that cut a stream into lines, keep what they recognise
    and hold back an unfinished line until its newline arrives. */
module LineFilter {
  import opened Wrappers

  type Text = seq<char>

  function Concat(chunks: seq<Text>): Text {
    if chunks == [] then [] else chunks[0] + Concat(chunks[1..])
  }

  /** bytes.IndexByte(s, '\n'). */
  function Newline(s: Text): (i: int)
    ensures -1 <= i < |s|
    ensures i < 0 ==> '\n' !in s
    ensures i >= 0 ==> s[i] == '\n' && '\n' !in s[..i]
  {
    if s == [] then -1
    else if s[0] == '\n' then 0
    else
      var r := Newline(s[1..]);
      if r < 0 then -1 else assert s[..r + 1] == [s[0]] + s[1..][..r]; r + 1
  }

  /** The finished lines of a text, and what follows the last newline. */
  function Lines(s: Text): (seq<Text>, Text)
    decreases |s|
  {
    var i := Newline(s);
    if i < 0 then ([], s)
    else
      var (ls, rest) := Lines(s[i + 1..]);
      ([s[..i]] + ls, rest)
  }

  /** The lines of a whole stream: a trailing unfinished line counts, an empty one does not. */
  function AllLines(s: Text): seq<Text> {
    var (ls, rest) := Lines(s);
    if rest == [] then ls else ls + [rest]
  }

  /** Lines one to a line. */
  function Terminated(lines: seq<Text>): Text {
    if lines == [] then [] else lines[0] + ['\n'] + Terminated(lines[1..])
  }

  predicate NoNewline(lines: seq<Text>) {
    forall l :: l in lines ==> '\n' !in l
  }

  lemma TerminatedFirst(line: Text, lines: seq<Text>, rest: Text)
    ensures Terminated([line] + lines) + rest == line + ['\n'] + (Terminated(lines) + rest)
  {
    assert ([line] + lines)[1..] == lines;
  }

  /** What one line in front does to a list of lines. */
  lemma LineInFront(s: Text, i: nat, lines: seq<Text>, rest: Text)
    requires i < |s| && s[i] == '\n' && '\n' !in s[..i]
    requires Terminated(lines) + rest == s[i + 1..] && NoNewline(lines)
    ensures Terminated([s[..i]] + lines) + rest == s
    ensures NoNewline([s[..i]] + lines)
  {
    TerminatedFirst(s[..i], lines, rest);
    assert s == s[..i] + ['\n'] + s[i + 1..];
  }

  lemma {:induction false} LinesMean(s: Text)
    ensures Terminated(Lines(s).0) + Lines(s).1 == s
    ensures NoNewline(Lines(s).0) && '\n' !in Lines(s).1
    decreases |s|
  {
    var i := Newline(s);
    if i >= 0 {
      LinesMean(s[i + 1..]);
      LineInFront(s, i, Lines(s[i + 1..]).0, Lines(s[i + 1..]).1);
    }
  }

  lemma {:induction false} TerminatedMore(lines: seq<Text>, l: Text)
    ensures Terminated(lines + [l]) == Terminated(lines) + (l + ['\n'])
    decreases |lines|
  {
    if lines == [] {
      assert lines + [l] == [l] && [l][1..] == [];
    } else {
      assert (lines + [l])[1..] == lines[1..] + [l];
      TerminatedMore(lines[1..], l);
      assert lines[0] + ['\n'] + (Terminated(lines[1..]) + (l + ['\n']))
        == lines[0] + ['\n'] + Terminated(lines[1..]) + (l + ['\n']);
    }
  }

  /** The lines of a whole stream, outright: none contains a newline, and one to a line they
      are the stream again, with a newline added if its last line had none. */
  lemma AllLinesMean(s: Text)
    ensures NoNewline(AllLines(s))
    ensures Terminated(AllLines(s)) == if s == [] || s[|s| - 1] == '\n' then s else s + ['\n']
  {
    var (ls, rest) := Lines(s);
    LinesMean(s);
    if rest == [] {
      assert Terminated(ls) + rest == Terminated(ls);
      EndsInNewline(ls);
    } else {
      TerminatedMore(ls, rest);
      assert Terminated(ls) + (rest + ['\n']) == Terminated(ls) + rest + ['\n'];
      assert s[|s| - 1] == rest[|rest| - 1];
    }
  }

  lemma {:induction false} EndsInNewline(lines: seq<Text>)
    ensures lines != [] ==> Terminated(lines) != [] && Terminated(lines)[|Terminated(lines)| - 1] == '\n'
    decreases |lines|
  {
    if lines != [] {
      EndsInNewline(lines[1..]);
    }
  }

  lemma NewlineConcat(a: Text, b: Text)
    ensures Newline(a) >= 0 ==> Newline(a + b) == Newline(a)
    ensures Newline(a) < 0 ==> Newline(a + b) == if Newline(b) < 0 then -1 else |a| + Newline(b)
    decreases |a|
  {
    if a == [] {
      assert a + b == b;
    } else {
      assert (a + b)[1..] == a[1..] + b;
      NewlineConcat(a[1..], b);
    }
  }

  /** Peeling the first line off, if there is one. */
  lemma Peel(a: Text, b: Text) returns (more: bool, line: Text, tail: Text)
    ensures !more ==> Lines(a) == ([], a)
    ensures more ==> |tail| < |a|
    ensures more ==> Lines(a) == ([line] + Lines(tail).0, Lines(tail).1)
    ensures more ==> Lines(a + b) == ([line] + Lines(tail + b).0, Lines(tail + b).1)
  {
    var i := Newline(a);
    NewlineConcat(a, b);
    more, line, tail := i >= 0, [], [];
    if more {
      line, tail := a[..i], a[i + 1..];
      assert (a + b)[i + 1..] == tail + b && (a + b)[..i] == line;
    }
  }

  /** Lines of a concatenation: those of the front, then those of its rest and the back. */
  lemma {:induction false} LinesConcat(a: Text, b: Text)
    ensures Lines(a + b).0 == Lines(a).0 + Lines(Lines(a).1 + b).0
    ensures Lines(a + b).1 == Lines(Lines(a).1 + b).1
    decreases |a|
  {
    var more, line, tail := Peel(a, b);
    if more {
      LinesConcat(tail, b);
      Regroup([line], Lines(tail).0, Lines(Lines(tail).1 + b).0);
    }
  }

  lemma Regroup(a: seq<Text>, b: seq<Text>, c: seq<Text>)
    ensures a + b + c == a + (b + c)
  {
  }

  // ---------------------------------------------------------------------------
  // What a filter makes of one line
  // ---------------------------------------------------------------------------

  /** Parser and formatter are outside this model: a line is blank, is dropped, or is
      printed as some text. */
  datatype Verdict = Blank | Drop | Print(text: Text)

  type Judge = Text -> Verdict

  /** A parsed governance record: its rpc_method, and how it prints. */
  datatype Record = Record(rpcMethod: Text, shown: Text)

  predicate BlankLine(line: Text) {
    forall c :: c in line ==> Space(c)
  }

  /** governanceFilter.emit over any record parser. */
  function Governance(parse: Text -> Option<Record>, mcpOnly: bool): Judge {
    (line: Text) =>
      if BlankLine(line) then Blank
      else
        var rec := parse(line);
        if rec.None? || (mcpOnly && rec.value.rpcMethod == "") then Drop else Print(rec.value.shown)
  }

  /** tmmLineFilter.emit: lines of the TMM pod, unwrapped by any unwrapper. */
  function Tmm(ofTmmPod: Text -> bool, unwrap: Text -> Text): Judge {
    (line: Text) => if ofTmmPod(line) then Print(unwrap(line)) else Drop
  }

  /** The bytes printed, the records and the drops of a list of lines. */
  datatype Effect = Effect(out: Text, records: nat, dropped: nat)

  function EmitOne(e: Effect, v: Verdict): Effect {
    match v
    case Blank => e
    case Drop => e.(dropped := e.dropped + 1)
    case Print(t) => e.(out := e.out + t + ['\n'], records := e.records + 1)
  }

  function EmitAll(e: Effect, lines: seq<Text>, judge: Judge): Effect
    decreases |lines|
  {
    if lines == [] then e else EmitAll(EmitOne(e, judge(lines[0])), lines[1..], judge)
  }

  lemma {:induction false} EmitConcat(e: Effect, a: seq<Text>, b: seq<Text>, judge: Judge)
    ensures EmitAll(e, a + b, judge) == EmitAll(EmitAll(e, a, judge), b, judge)
    decreases |a|
  {
    if a == [] {
      assert a + b == b;
    } else {
      assert (a + b)[1..] == a[1..] + b;
      EmitConcat(EmitOne(e, judge(a[0])), a[1..], b, judge);
    }
  }

  /** How the underlying writer answers its n-th call: it takes everything, or fails after
      some bytes. */
  datatype Reply = Accepted | Refused(after: nat)

  type Sink = nat -> Reply

  ghost predicate Healthy(sink: Sink) {
    forall n :: sink(n).Accepted?
  }

  /** The calls so far are the records so far: one call prints one line. */
  predicate Cut(e: Effect, v: Verdict, sink: Sink) {
    v.Print? && sink(e.records).Refused?
  }

  /** A line whose print fails: part of it may be out, and it counts as a record. */
  function EmitCut(e: Effect, v: Verdict, sink: Sink): Effect
    requires Cut(e, v, sink)
  {
    var line, after := v.text + ['\n'], sink(e.records).after;
    e.(out := e.out + if after < |line| then line[..after] else line, records := e.records + 1)
  }

  /** Emit lines up to and including the first whose print fails; also how many. */
  function EmitSome(e: Effect, lines: seq<Text>, judge: Judge, sink: Sink): (Effect, nat)
    decreases |lines|
  {
    if lines == [] then (e, 0)
    else
      var v := judge(lines[0]);
      if Cut(e, v, sink) then (EmitCut(e, v, sink), 1)
      else
        var (f, n) := EmitSome(EmitOne(e, v), lines[1..], judge, sink);
        (f, n + 1)
  }

  lemma {:induction false} HealthyEmitsAll(e: Effect, lines: seq<Text>, judge: Judge, sink: Sink)
    requires Healthy(sink)
    ensures EmitSome(e, lines, judge, sink) == (EmitAll(e, lines, judge), |lines|)
    decreases |lines|
  {
    if lines != [] {
      HealthyEmitsAll(EmitOne(e, judge(lines[0])), lines[1..], judge, sink);
    }
  }

  /** The texts the judge prints. */
  function Kept(lines: seq<Text>, judge: Judge): seq<Text> {
    if lines == [] then []
    else
      var v := judge(lines[0]);
      (if v.Print? then [v.text] else []) + Kept(lines[1..], judge)
  }

  lemma {:induction false} EmitsKept(e: Effect, lines: seq<Text>, judge: Judge)
    ensures EmitAll(e, lines, judge).out == e.out + Terminated(Kept(lines, judge))
    ensures EmitAll(e, lines, judge).records == e.records + |Kept(lines, judge)|
    decreases |lines|
  {
    if lines != [] {
      var v := judge(lines[0]);
      EmitsKept(EmitOne(e, v), lines[1..], judge);
      if v.Print? {
        assert Kept(lines, judge)[1..] == Kept(lines[1..], judge);
        RegroupText(e.out, v.text, Terminated(Kept(lines[1..], judge)));
      } else {
        assert Kept(lines, judge) == Kept(lines[1..], judge);
      }
    }
  }

  lemma RegroupText(a: Text, t: Text, b: Text)
    ensures a + t + ['\n'] + b == a + (t + ['\n'] + b)
  {
  }

  function NonBlank(lines: seq<Text>, judge: Judge): nat {
    if lines == [] then 0 else (if judge(lines[0]).Blank? then 0 else 1) + NonBlank(lines[1..], judge)
  }

  function Visible(lines: seq<Text>): nat {
    if lines == [] then 0 else (if BlankLine(lines[0]) then 0 else 1) + Visible(lines[1..])
  }

  /** What the governance filter counts does not depend on the parser or on mcpOnly: the
      lines with something on them. */
  lemma {:induction false} GovernanceCounts(lines: seq<Text>, parse: Text -> Option<Record>, mcpOnly: bool)
    ensures NonBlank(lines, Governance(parse, mcpOnly)) == Visible(lines)
    decreases |lines|
  {
    if lines != [] {
      GovernanceCounts(lines[1..], parse, mcpOnly);
    }
  }

  /** However the underlying writer answers, every non-blank line taken is counted once, as
      a record or as dropped. */
  lemma {:induction false} Conservation(e: Effect, lines: seq<Text>, judge: Judge, sink: Sink)
    ensures var (f, n) := EmitSome(e, lines, judge, sink);
            n <= |lines| && f.records + f.dropped == e.records + e.dropped + NonBlank(lines[..n], judge)
    decreases |lines|
  {
    if lines != [] {
      var v := judge(lines[0]);
      var (f, n) := EmitSome(e, lines, judge, sink);
      if Cut(e, v, sink) {
        assert lines[..1][1..] == [];
      } else {
        Conservation(EmitOne(e, v), lines[1..], judge, sink);
        assert lines[..n][1..] == lines[1..][..n - 1];
      }
    }
  }

  // ---------------------------------------------------------------------------
  // The filters: one buffer discipline, two verdicts
  // ---------------------------------------------------------------------------

  /** Where the loop of Write stands: `done` of the lines taken, with effect `now` so far;
      in the end it will have taken `taken`, with effect `e`. */
  predicate Halfway(ls: seq<Text>, rest: Text, e: Effect, taken: nat, done: nat, buf: Text, now: Effect,
                    judge: Judge, sink: Sink)
  {
    && done <= |ls| && done <= taken && Lines(buf) == (ls[done..], rest)
    && EmitSome(now, ls[done..], judge, sink) == (e, taken - done)
  }

  /** One turn: the first line comes off, and the loop ends there or goes on. */
  lemma TakeLine(ls: seq<Text>, rest: Text, e: Effect, taken: nat, done: nat, buf: Text, now: Effect, judge: Judge,
                 sink: Sink)
    requires Halfway(ls, rest, e, taken, done, buf, now, judge, sink) && Newline(buf) >= 0
    ensures done < |ls| && ls[done] == buf[..Newline(buf)]
    ensures var v, tail := judge(ls[done]), buf[Newline(buf) + 1..];
            if Cut(now, v, sink) then
              e == EmitCut(now, v, sink) && taken == done + 1 && Lines(tail) == (ls[taken..], rest)
            else Halfway(ls, rest, e, taken, done + 1, tail, EmitOne(now, v), judge, sink)
  {
    var (later, end) := Lines(buf[Newline(buf) + 1..]);
    assert Lines(buf).0 == [buf[..Newline(buf)]] + later;
    assert ls[done..][1..] == ls[done + 1..] == later;
    assert EmitSome(EmitOne(now, judge(ls[done])), later, judge, sink).1 >= 0;
  }

  lemma LastLine(ls: seq<Text>, rest: Text, e: Effect, taken: nat, done: nat, buf: Text, now: Effect, judge: Judge,
                 sink: Sink)
    requires Halfway(ls, rest, e, taken, done, buf, now, judge, sink) && Newline(buf) < 0
    ensures now == e && taken == |ls| && Lines(buf) == (ls[taken..], rest)
  {
  }

  /** governanceFilter; tmmLineFilter is the same writer with a judge that never says
      Blank and whose counters nobody reads. */
  class Filter {
    const judge: Judge
    /** The underlying writer's answers. */
    const sink: Sink
    var buf: Text
    var out: Text
    var records: nat
    var dropped: nat

    constructor (judge: Judge, sink: Sink)
      ensures this.judge == judge && this.sink == sink && buf == [] && Done() == Effect([], 0, 0)
    {
      this.judge, this.sink := judge, sink;
      buf, out, records, dropped := [], [], 0, 0;
    }

    function Done(): Effect
      reads this
    {
      Effect(out, records, dropped)
    }

    method Emit(line: Text) returns (ok: bool)
      modifies this
      ensures ok <==> !Cut(old(Done()), judge(line), sink)
      ensures Done() == if ok then EmitOne(old(Done()), judge(line)) else EmitCut(old(Done()), judge(line), sink)
      ensures buf == old(buf)
    {
      var v := judge(line);
      if v.Blank? {
        return true;
      }
      if v.Drop? {
        dropped := dropped + 1;
        return true;
      }
      var reply := sink(records);
      records := records + 1;
      var text := v.text + ['\n'];
      if reply.Refused? && reply.after < |text| {
        text := text[..reply.after];
      }
      ghost var was := out;
      out := out + text;
      assert reply.Accepted? ==> out == was + v.text + ['\n'];
      ok := reply.Accepted?;
    }

    /** One turn of the loop of Write, for the newline at i. */
    method EmitFirst(i: nat, ghost ls: seq<Text>, ghost rest: Text, ghost e: Effect, ghost taken: nat, ghost done: nat)
      returns (ok: bool)
      requires Halfway(ls, rest, e, taken, done, buf, Done(), judge, sink) && i == Newline(buf)
      modifies this
      ensures |buf| < |old(buf)|
      ensures ok ==> Halfway(ls, rest, e, taken, done + 1, buf, Done(), judge, sink)
      ensures !ok ==> Done() == e && taken == done + 1 <= |ls| && Lines(buf) == (ls[taken..], rest)
      ensures !ok ==> judge(ls[done]).Print? && records > 0 && sink(records - 1).Refused?
    {
      TakeLine(ls, rest, e, taken, done, buf, Done(), judge, sink);
      var line := buf[..i];
      buf := buf[i + 1..];
      ok := Emit(line);
    }

    /** Write. It takes finished lines up to the first whose print fails; the lines behind
        that one stay in the buffer, the failing line does not. */
    method Write(p: Text) returns (n: nat, ok: bool, ghost taken: nat)
      modifies this
      ensures n == |p| && taken <= |Lines(old(buf) + p).0|
      ensures EmitSome(old(Done()), Lines(old(buf) + p).0, judge, sink) == (Done(), taken)
      ensures Lines(buf) == (Lines(old(buf) + p).0[taken..], Lines(old(buf) + p).1)
      ensures ok ==> taken == |Lines(old(buf) + p).0|
      ensures !ok ==> taken > 0 && judge(Lines(old(buf) + p).0[taken - 1]).Print?
      ensures !ok ==> records > 0 && sink(records - 1).Refused?
    {
      n, ok := |p|, true;
      buf := buf + p;
      ghost var (ls, rest) := Lines(buf);
      ghost var e;
      e, taken := EmitSome(Done(), ls, judge, sink).0, EmitSome(Done(), ls, judge, sink).1;
      ghost var done := 0;
      Conservation(Done(), ls, judge, sink);
      assert ls[0..] == ls;
      var more := true;
      while more
        invariant Halfway(ls, rest, e, taken, done, buf, Done(), judge, sink)
        invariant ok
        invariant !more ==> Newline(buf) < 0
        decreases |buf|, more
      {
        var i := Newline(buf);
        if i < 0 {
          more := false;
        } else {
          ok := EmitFirst(i, ls, rest, e, taken, done);
          done := done + 1;
          if !ok {
            return;
          }
        }
      }
      LastLine(ls, rest, e, taken, done, buf, Done(), judge, sink);
    }

    /** Flush; a failing print goes unnoticed. */
    method Flush()
      modifies this
      ensures buf == []
      ensures Done() == if old(buf) == [] then old(Done()) else EmitSome(old(Done()), [old(buf)], judge, sink).0
    {
      if |buf| > 0 {
        var _ := Emit(buf);
        buf := [];
      }
    }
  }

  lemma ConcatNext(chunks: seq<Text>, i: nat)
    requires i < |chunks|
    ensures Concat(chunks[..i + 1]) == Concat(chunks[..i]) + chunks[i]
    decreases i
  {
    if i == 0 {
      assert chunks[..1] == [chunks[0]] && chunks[..1][1..] == [];
    } else {
      ConcatNext(chunks[1..], i - 1);
      assert chunks[..i + 1][1..] == chunks[1..][..i] && chunks[..i][1..] == chunks[1..][..i - 1];
      assert chunks[0] + (Concat(chunks[1..][..i - 1]) + chunks[i])
          == chunks[0] + Concat(chunks[1..][..i - 1]) + chunks[i];
    }
  }

  /** Refinement: for every chunking, writing all chunks and flushing prints what the judge
      keeps of the lines of the whole stream, in order, and counts every non-blank line
      exactly once. */
  method Session(judge: Judge, chunks: seq<Text>) returns (e: Effect)
    ensures e == EmitAll(Effect([], 0, 0), AllLines(Concat(chunks)), judge)
    ensures e.out == Terminated(Kept(AllLines(Concat(chunks)), judge))
    ensures e.records == |Kept(AllLines(Concat(chunks)), judge)|
    ensures e.records + e.dropped == NonBlank(AllLines(Concat(chunks)), judge)
  {
    var f := new Filter(judge, _ => Accepted);
    ghost var none := Effect([], 0, 0);
    for i := 0 to |chunks|
      invariant f.judge == judge && Healthy(f.sink)
      invariant f.buf == Lines(Concat(chunks[..i])).1
      invariant f.Done() == EmitAll(none, Lines(Concat(chunks[..i])).0, judge)
    {
      ghost var before := Concat(chunks[..i]);
      ConcatNext(chunks, i);
      LinesConcat(before, chunks[i]);
      EmitConcat(none, Lines(before).0, Lines(Lines(before).1 + chunks[i]).0, judge);
      HealthyEmitsAll(f.Done(), Lines(f.buf + chunks[i]).0, judge, f.sink);
      var _, ok, _ := f.Write(chunks[i]);
      NoLinesLeft(f.buf);
    }
    assert chunks[..|chunks|] == chunks;
    ghost var (ls, rest) := Lines(Concat(chunks));
    ghost var all := AllLines(Concat(chunks));
    EmitConcat(none, ls, [rest], judge);
    assert [rest][1..] == [];
    HealthyEmitsAll(f.Done(), [rest], judge, f.sink);
    ghost var sink := f.sink;
    f.Flush();
    e := f.Done();
    EmitsKept(none, all, judge);
    HealthyEmitsAll(none, all, judge, sink);
    Conservation(none, all, judge, sink);
    assert all[..|all|] == all;
  }

  lemma NoLinesLeft(s: Text)
    ensures Lines(s).0 == [] ==> Lines(s).1 == s
  {
  }

  /** `logs --governance`: however the stream is cut into writes, Records and Dropped
      together count the lines with something on them, and what is printed is the parsed
      records, all of them or those with an rpc_method. */
  method GovernanceSession(parse: Text -> Option<Record>, mcpOnly: bool, chunks: seq<Text>) returns (e: Effect)
    ensures var lines := AllLines(Concat(chunks)); var recs := Recorded(lines, parse, mcpOnly);
            e.records + e.dropped == Visible(lines) && e.records == |recs| && e.out == Terminated(recs)
  {
    e := Session(Governance(parse, mcpOnly), chunks);
    GovernanceCounts(AllLines(Concat(chunks)), parse, mcpOnly);
    RecordedKept(AllLines(Concat(chunks)), parse, mcpOnly);
  }

  function Recorded(lines: seq<Text>, parse: Text -> Option<Record>, mcpOnly: bool): seq<Text> {
    if lines == [] then []
    else
      var rec := parse(lines[0]);
      var rest := Recorded(lines[1..], parse, mcpOnly);
      if BlankLine(lines[0]) || rec.None? || (mcpOnly && rec.value.rpcMethod == "") then rest
      else [rec.value.shown] + rest
  }

  lemma JudgedRecord(line: Text, parse: Text -> Option<Record>, mcpOnly: bool)
    ensures Governance(parse, mcpOnly)(line).Print? <==>
      !BlankLine(line) && parse(line).Some? && !(mcpOnly && parse(line).value.rpcMethod == "")
    ensures Governance(parse, mcpOnly)(line).Print? ==>
      Governance(parse, mcpOnly)(line).text == parse(line).value.shown
  {
  }

  lemma {:induction false} RecordedKept(lines: seq<Text>, parse: Text -> Option<Record>, mcpOnly: bool)
    ensures Kept(lines, Governance(parse, mcpOnly)) == Recorded(lines, parse, mcpOnly)
    decreases |lines|
  {
    if lines != [] {
      RecordedKept(lines[1..], parse, mcpOnly);
      JudgedRecord(lines[0], parse, mcpOnly);
    }
  }

  /** `logs tmm`: however the stream is cut into writes, what is printed is the unwrapped
      lines of the TMM pod, in order. */
  method TmmSession(ofTmmPod: Text -> bool, unwrap: Text -> Text, chunks: seq<Text>) returns (e: Effect)
    ensures e.out == Terminated(PodLines(AllLines(Concat(chunks)), ofTmmPod, unwrap))
  {
    e := Session(Tmm(ofTmmPod, unwrap), chunks);
    PodLinesKept(AllLines(Concat(chunks)), ofTmmPod, unwrap);
  }

  function PodLines(lines: seq<Text>, ofTmmPod: Text -> bool, unwrap: Text -> Text): seq<Text> {
    if lines == [] then []
    else (if ofTmmPod(lines[0]) then [unwrap(lines[0])] else []) + PodLines(lines[1..], ofTmmPod, unwrap)
  }

  lemma {:induction false} PodLinesKept(lines: seq<Text>, ofTmmPod: Text -> bool, unwrap: Text -> Text)
    ensures Kept(lines, Tmm(ofTmmPod, unwrap)) == PodLines(lines, ofTmmPod, unwrap)
    decreases |lines|
  {
    if lines != [] {
      PodLinesKept(lines[1..], ofTmmPod, unwrap);
    }
  }
}
