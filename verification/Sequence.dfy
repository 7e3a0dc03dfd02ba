/** Running an ordered list of benchmark scenarios: the key list, the reset seam between
    consecutive keys, and the per-key tables cut out of one flat outcome list. */
module Sequence {
  import opened Wrappers

  // ---------------------------------------------------------------------------
  // parseScenarioKeys
  // ---------------------------------------------------------------------------

  function TrimLeft(s: string): (r: string)
    ensures r == "" || !Space(r[0])
  {
    if s != "" && Space(s[0]) then TrimLeft(s[1..]) else s
  }

  function TrimRight(s: string): (r: string)
    ensures r <= s
    ensures r == "" || !Space(r[|r| - 1])
  {
    if s != "" && Space(s[|s| - 1]) then TrimRight(s[..|s| - 1]) else s
  }

  function Trim(s: string): string {
    TrimRight(TrimLeft(s))
  }

  /** strings.Split on ','. Never empty. */
  function Split(s: string): (r: seq<string>)
    ensures |r| > 0
  {
    if s == "" then [""]
    else if s[0] == ',' then [""] + Split(s[1..])
    else
      var r := Split(s[1..]);
      [[s[0]] + r[0]] + r[1..]
  }

  function Join(keys: seq<string>): string {
    if keys == [] then "" else if |keys| == 1 then keys[0] else keys[0] + "," + Join(keys[1..])
  }

  function Trimmed(parts: seq<string>): seq<string> {
    seq(|parts|, i requires 0 <= i < |parts| => Trim(parts[i]))
  }

  /** The keys of a raw --scenario value; None for an empty value or an empty entry. */
  function Keys(raw: string): Option<seq<string>> {
    if Trim(raw) == "" then None
    else
      var keys := Trimmed(Split(raw));
      if "" in keys then None else Some(keys)
  }

  method ParseScenarioKeys(raw: string) returns (r: Option<seq<string>>)
    ensures r == Keys(raw)
  {
    if Trim(raw) == "" {
      return None;
    }
    var parts := Split(raw);
    var keys: seq<string> := [];
    for i := 0 to |parts|
      invariant |keys| == i && "" !in keys
      invariant forall k :: 0 <= k < i ==> keys[k] == Trim(parts[k])
    {
      var k := Trim(parts[i]);
      if k == "" {
        assert Trimmed(parts)[i] == "";
        return None;
      }
      keys := keys + [k];
    }
    assert keys == Trimmed(parts);
    return Some(keys);
  }

  lemma {:induction false} SplitPart(a: string, rest: string)
    requires ',' !in a
    ensures Split(a + "," + rest) == [a] + Split(rest)
    ensures Split(a) == [a]
    decreases |a|
  {
    if a == "" {
      assert a + "," + rest == "," + rest;
    } else {
      SplitPart(a[1..], rest);
      assert (a + "," + rest)[1..] == a[1..] + "," + rest;
      assert [a[0]] + a[1..] == a;
    }
  }

  lemma {:induction false} SplitJoin(keys: seq<string>)
    requires keys != [] && forall k :: k in keys ==> ',' !in k
    ensures Split(Join(keys)) == keys
    decreases |keys|
  {
    assert keys[0] in keys;
    if |keys| == 1 {
      SplitPart(keys[0], "");
      assert keys == [keys[0]];
    } else {
      assert forall k :: k in keys[1..] ==> k in keys;
      SplitJoin(keys[1..]);
      SplitPart(keys[0], Join(keys[1..]));
      assert keys == [keys[0]] + keys[1..];
    }
  }

  predicate AllSpace(s: string) {
    forall c :: c in s ==> Space(c)
  }

  lemma {:induction false} TrimLeftMeans(s: string) returns (front: string)
    ensures s == front + TrimLeft(s) && AllSpace(front)
    decreases |s|
  {
    front := "";
    if s != "" && Space(s[0]) {
      var rest := TrimLeftMeans(s[1..]);
      front := [s[0]] + rest;
    }
  }

  lemma {:induction false} TrimRightMeans(s: string) returns (back: string)
    ensures s == TrimRight(s) + back && AllSpace(back)
    decreases |s|
  {
    back := "";
    if s != "" && Space(s[|s| - 1]) {
      var rest := TrimRightMeans(s[..|s| - 1]);
      back := rest + [s[|s| - 1]];
    }
  }

  /** Trimming takes off white space only, and all of it: what is left is a middle part of
      the text between white space, and has none at its ends. */
  lemma TrimMeans(s: string) returns (front: string, back: string)
    ensures s == front + Trim(s) + back && AllSpace(front) && AllSpace(back)
    ensures Trim(s) == "" || (!Space(Trim(s)[0]) && !Space(Trim(s)[|Trim(s)| - 1]))
  {
    front := TrimLeftMeans(s);
    back := TrimRightMeans(TrimLeft(s));
    assert front + (Trim(s) + back) == front + Trim(s) + back;
    assert Trim(s) != "" ==> Trim(s)[0] == TrimLeft(s)[0];
  }

  /** Splitting loses nothing: the parts have no comma, and joined with commas they are the
      text. */
  lemma {:induction false} SplitMeans(s: string)
    ensures Join(Split(s)) == s && forall p :: p in Split(s) ==> ',' !in p
    decreases |s|
  {
    if s != "" {
      var r := Split(s[1..]);
      SplitMeans(s[1..]);
      assert r[0] in r && forall p :: p in r[1..] ==> p in r;
      if s[0] == ',' {
        assert ([""] + r)[1..] == r && "" + "," + Join(r) == "," + Join(r);
        assert s == "," + s[1..];
      } else {
        JoinHead(s[0], r);
        assert s == [s[0]] + s[1..];
      }
    }
  }

  lemma JoinHead(c: char, r: seq<string>)
    requires r != []
    ensures Join([[c] + r[0]] + r[1..]) == [c] + Join(r)
  {
    var q := [[c] + r[0]] + r[1..];
    assert q[1..] == r[1..];
  }

  /** A clean key: trimmed, not empty, no comma. */
  predicate Clean(k: string) {
    k != "" && ',' !in k && !Space(k[0]) && !Space(k[|k| - 1])
  }

  /** Joining clean keys with commas and parsing gives the keys back, repeats and all. */
  lemma KeysRoundTrip(keys: seq<string>)
    requires keys != [] && forall k :: k in keys ==> Clean(k)
    ensures Keys(Join(keys)) == Some(keys)
  {
    SplitJoin(keys);
    TrimmedClean(keys);
    var raw := Join(keys);
    assert keys[0] in keys;
    assert raw[0] == keys[0][0];
    TrimKeepsFirst(raw);
  }

  lemma TrimmedClean(keys: seq<string>)
    requires forall k :: k in keys ==> Clean(k)
    ensures Trimmed(keys) == keys && "" !in keys
  {
    forall i | 0 <= i < |keys| ensures Trim(keys[i]) == keys[i] {
      assert keys[i] in keys;
    }
  }

  lemma {:induction false} TrimKeepsFirst(s: string)
    requires s != "" && !Space(s[0])
    ensures TrimRight(s) != "" && TrimLeft(s) == s
    decreases |s|
  {
    if |s| > 1 && Space(s[|s| - 1]) {
      TrimKeepsFirst(s[..|s| - 1]);
    }
  }

  // ---------------------------------------------------------------------------
  // One key, and the sequence
  // ---------------------------------------------------------------------------

  /** How one child run ends: pushed under a run id, the benchmark failed, or the push. */
  datatype ChildEnd = Pushed(runID: int) | RunFailed | PushFailed

  datatype Outcome = Outcome(variant: string, runID: int, status: string, failed: bool)

  /** Everything outside: the children a key expands to, how the children of the i-th
      key end, and whether the reset before the i-th key works. */
  datatype World = World(expand: string -> Option<seq<string>>, child: (nat, nat) -> ChildEnd, reset: nat -> bool)

  datatype Event = RunKey(key: string) | Reset(prev: string, next: string)

  datatype SeqError = NoError | ResetFailed(prev: string, next: string) | UnknownKey(key: string)

  function OutcomeOf(variant: string, end: ChildEnd): Outcome {
    match end
    case Pushed(id) => Outcome(variant, id, "OK", false)
    case RunFailed => Outcome(variant, 0, "FAILED", true)
    case PushFailed => Outcome(variant, 0, "PUSH_FAILED", true)
  }

  /** What the row of one child must tell: it failed unless its result was pushed, it has the
      run id of that push, 0 without one, and the status says which step failed. */
  predicate Tells(o: Outcome, variant: string, end: ChildEnd) {
    && o.variant == variant && (o.failed <==> !end.Pushed?)
    && o.runID == (if end.Pushed? then end.runID else 0)
    && o.status == (if end.Pushed? then "OK" else if end.PushFailed? then "PUSH_FAILED" else "FAILED")
  }

  function Known(w: World, keys: seq<string>): bool {
    forall k :: k in keys ==> w.expand(k).Some?
  }

  /** The outcomes of the i-th key: one per child, in order. */
  function KeyOutcomes(w: World, keys: seq<string>, i: nat): (r: seq<Outcome>)
    requires i < |keys| && w.expand(keys[i]).Some?
    ensures |r| == |w.expand(keys[i]).value|
  {
    var labels := w.expand(keys[i]).value;
    seq(|labels|, j requires 0 <= j < |labels| => OutcomeOf(labels[j], w.child(i, j)))
  }

  /** The outcomes of the first `m` keys. */
  function Outcomes(w: World, keys: seq<string>, m: nat): seq<Outcome>
    requires m <= |keys| && Known(w, keys[..m])
  {
    if m == 0 then []
    else
      assert keys[m - 1] == keys[..m][m - 1];
      assert forall k :: k in keys[..m - 1] ==> k in keys[..m];
      Outcomes(w, keys, m - 1) + KeyOutcomes(w, keys, m - 1)
  }

  /** Run k0, reset k0-k1, run k1, and so on up to the m-th key. */
  function Alternating(keys: seq<string>, m: nat): seq<Event>
    requires m <= |keys|
  {
    if m == 0 then []
    else if m == 1 then [RunKey(keys[0])]
    else Alternating(keys, m - 1) + [Reset(keys[m - 2], keys[m - 1]), RunKey(keys[m - 1])]
  }

  /** runNativeScenarioCollect: one outcome per child, whatever fails. */
  method Collect(w: World, keys: seq<string>, i: nat) returns (r: Option<seq<Outcome>>)
    requires i < |keys|
    ensures r.Some? <==> w.expand(keys[i]).Some?
    ensures r.Some? ==> r.value == KeyOutcomes(w, keys, i)
    ensures r.Some? ==> forall j :: 0 <= j < |r.value| ==> Tells(r.value[j], w.expand(keys[i]).value[j], w.child(i, j))
  {
    var children := w.expand(keys[i]);
    if children.None? {
      return None;
    }
    var outcomes: seq<Outcome> := [];
    for j := 0 to |children.value|
      invariant |outcomes| == j
      invariant forall k :: 0 <= k < j ==> outcomes[k] == KeyOutcomes(w, keys, i)[k]
    {
      var variant := children.value[j];
      match w.child(i, j) {
        case RunFailed =>
          outcomes := outcomes + [Outcome(variant, 0, "FAILED", true)];
          continue;
        case PushFailed =>
          outcomes := outcomes + [Outcome(variant, 0, "PUSH_FAILED", true)];
          continue;
        case Pushed(id) =>
          outcomes := outcomes + [Outcome(variant, id, "OK", false)];
      }
    }
    return Some(outcomes);
  }

  /** runScenarioSequence. `m` is the number of completed keys. The reset seam is called
      between consecutive keys and nowhere else; a failing reset is the last event. */
  method RunSequence(w: World, keys: seq<string>)
    returns (outcomes: seq<Outcome>, err: SeqError, trace: seq<Event>, m: nat)
    ensures m <= |keys| && Known(w, keys[..m])
    ensures outcomes == Outcomes(w, keys, m)
    ensures err.NoError? <==> m == |keys|
    ensures err.ResetFailed? <==> 0 < m < |keys| && !w.reset(m)
    ensures err.ResetFailed? ==> err == ResetFailed(keys[m - 1], keys[m])
    ensures err.UnknownKey? <==> m < |keys| && (m > 0 ==> w.reset(m)) && w.expand(keys[m]).None?
    ensures forall i :: 0 < i < m ==> w.reset(i)
    ensures trace == Alternating(keys, m) +
      match err
      case NoError => []
      case ResetFailed(p, n) => [Reset(p, n)]
      case UnknownKey(k) => if m == 0 then [RunKey(k)] else [Reset(keys[m - 1], k), RunKey(k)]
  {
    outcomes, trace, m := [], [], 0;
    for i := 0 to |keys|
      invariant m == i && Known(w, keys[..i])
      invariant outcomes == Outcomes(w, keys, i)
      invariant trace == Alternating(keys, i)
      invariant forall j :: 0 < j < i ==> w.reset(j)
    {
      var key := keys[i];
      if i > 0 {
        var prev := keys[i - 1];
        trace := trace + [Reset(prev, key)];
        if !w.reset(i) {
          return outcomes, ResetFailed(prev, key), trace, m;
        }
      }
      trace := trace + [RunKey(key)];
      var collected := Collect(w, keys, i);
      if collected.None? {
        return outcomes, UnknownKey(key), trace, m;
      }
      assert keys[..i + 1] == keys[..i] + [key];
      outcomes := outcomes + collected.value;
      m := m + 1;
    }
    assert trace + [] == trace;
    err := NoError;
  }

  // ---------------------------------------------------------------------------
  // The tables
  // ---------------------------------------------------------------------------

  datatype Table = Table(key: string, rows: seq<Outcome>)

  /** What the slicing must produce: one table per completed key, in order, with just
      that key's outcomes, and none for a key without rows. */
  function Tables(w: World, keys: seq<string>, m: nat): seq<Table>
    requires m <= |keys| && Known(w, keys[..m])
  {
    if m == 0 then []
    else
      assert keys[m - 1] == keys[..m][m - 1];
      assert forall k :: k in keys[..m - 1] ==> k in keys[..m];
      var rows := KeyOutcomes(w, keys, m - 1);
      Tables(w, keys, m - 1) + if rows == [] then [] else [Table(keys[m - 1], rows)]
  }

  lemma OutcomesNext(w: World, keys: seq<string>, m: nat)
    requires 0 < m <= |keys| && Known(w, keys[..m])
    ensures Known(w, keys[..m - 1]) && w.expand(keys[m - 1]).Some?
    ensures Outcomes(w, keys, m) == Outcomes(w, keys, m - 1) + KeyOutcomes(w, keys, m - 1)
  {
    assert keys[m - 1] == keys[..m][m - 1];
    assert forall k :: k in keys[..m - 1] ==> k in keys[..m];
  }

  lemma KnownFront(w: World, keys: seq<string>, i: nat, m: nat)
    requires i <= m <= |keys| && Known(w, keys[..m])
    ensures Known(w, keys[..i])
  {
    assert forall k :: k in keys[..i] ==> k in keys[..m];
  }

  lemma SliceLeft(a: seq<Outcome>, b: seq<Outcome>, lo: nat, hi: nat)
    requires lo <= hi <= |a|
    ensures (a + b)[lo..hi] == a[lo..hi]
    ensures (a + b)[|a|..|a| + |b|] == b
  {
  }

  lemma {:induction false} OutcomesSplit(w: World, keys: seq<string>, i: nat, m: nat)
    requires i < m <= |keys| && Known(w, keys[..m])
    ensures Known(w, keys[..i]) && w.expand(keys[i]).Some? && Known(w, keys[..i + 1])
    ensures |Outcomes(w, keys, i)| + |w.expand(keys[i]).value| <= |Outcomes(w, keys, m)|
    ensures Outcomes(w, keys, m)[|Outcomes(w, keys, i)|..|Outcomes(w, keys, i)| + |w.expand(keys[i]).value|]
      == KeyOutcomes(w, keys, i)
    decreases m
  {
    KnownFront(w, keys, i, m);
    KnownFront(w, keys, i + 1, m);
    OutcomesNext(w, keys, m);
    var front, last := Outcomes(w, keys, m - 1), KeyOutcomes(w, keys, m - 1);
    if i < m - 1 {
      OutcomesSplit(w, keys, i, m - 1);
      var lo := |Outcomes(w, keys, i)|;
      SliceLeft(front, last, lo, lo + |w.expand(keys[i]).value|);
    } else {
      SliceLeft(front, last, 0, 0);
    }
  }

  /** The offset loop of runNativeScenario: recomputed child counts cut the flat list
      back into the keys it came from, also when the sequence stopped early and when
      keys repeat. Needs every key to be known, which is validated up front. */
  method CutTables(w: World, keys: seq<string>, outcomes: seq<Outcome>, ghost m: nat) returns (tables: seq<Table>)
    requires Known(w, keys)
    requires m <= |keys| && Known(w, keys[..m]) && outcomes == Outcomes(w, keys, m)
    ensures tables == Tables(w, keys, m)
  {
    tables := [];
    var offset := 0;
    for i := 0 to |keys|
      invariant i <= m ==> Known(w, keys[..i]) && offset == |Outcomes(w, keys, i)| && tables == Tables(w, keys, i)
      invariant i > m ==> offset == |outcomes| && tables == Tables(w, keys, m)
      invariant offset <= |outcomes|
    {
      var k := keys[i];
      var n := |w.expand(k).value|;
      var end := offset + n;
      if i < m {
        OutcomesSplit(w, keys, i, m);
      }
      if end > |outcomes| {
        end := |outcomes|;
      }
      var rows := outcomes[offset..end];
      offset := end;
      if |rows| == 0 {
        continue;
      }
      tables := tables + [Table(k, rows)];
    }
  }

  function Rows(tables: seq<Table>): seq<Outcome> {
    if tables == [] then [] else Rows(tables[..|tables| - 1]) + tables[|tables| - 1].rows
  }

  /** Nothing is lost or repeated: the tables' rows, in order, are the outcome list. */
  lemma {:induction false} TablesPartition(w: World, keys: seq<string>, m: nat)
    requires m <= |keys| && Known(w, keys[..m])
    ensures Rows(Tables(w, keys, m)) == Outcomes(w, keys, m)
    decreases m
  {
    if m > 0 {
      assert keys[m - 1] == keys[..m][m - 1];
      assert forall k :: k in keys[..m - 1] ==> k in keys[..m];
      TablesPartition(w, keys, m - 1);
      RowsAppend(Tables(w, keys, m - 1), Table(keys[m - 1], KeyOutcomes(w, keys, m - 1)));
    }
  }

  predicate TableOf(w: World, keys: seq<string>, i: nat, t: Table)
    requires i < |keys| && w.expand(keys[i]).Some?
  {
    var labels := w.expand(keys[i]).value;
    t.key == keys[i] && |t.rows| == |labels|
    && forall j :: 0 <= j < |labels| ==> Tells(t.rows[j], labels[j], w.child(i, j))
  }

  /** The p-th table is that of the at[p]-th key, with one row for each child; these keys
      appear in order, and of the first m keys only those without children are left out. */
  predicate TablesAt(w: World, keys: seq<string>, m: nat, tables: seq<Table>, at: seq<nat>)
    requires m <= |keys| && Known(w, keys)
  {
    && |at| == |tables|
    && (forall p :: 0 <= p < |at| ==> at[p] < m && TableOf(w, keys, at[p], tables[p]))
    && (forall p, q :: 0 <= p < q < |at| ==> at[p] < at[q])
    && (forall i :: 0 <= i < m ==> (i in at <==> w.expand(keys[i]).value != []))
  }

  lemma TablesAtMore(w: World, keys: seq<string>, k: nat, tables: seq<Table>, at: seq<nat>, t: Table)
    requires k < |keys| && Known(w, keys) && TablesAt(w, keys, k, tables, at) && TableOf(w, keys, k, t)
    ensures if t.rows == [] then TablesAt(w, keys, k + 1, tables, at)
            else TablesAt(w, keys, k + 1, tables + [t], at + [k])
  {
    assert forall i :: i in at ==> i < k;
    if t.rows != [] {
      assert (at + [k])[|at|] == k;
      assert forall i :: i in at + [k] <==> i in at || i == k;
    }
  }

  lemma RowsTell(w: World, keys: seq<string>, k: nat)
    requires k < |keys| && w.expand(keys[k]).Some?
    ensures TableOf(w, keys, k, Table(keys[k], KeyOutcomes(w, keys, k)))
  {
  }

  lemma TablesNext(w: World, keys: seq<string>, m: nat)
    requires 0 < m <= |keys| && Known(w, keys) && Known(w, keys[..m])
    ensures w.expand(keys[m - 1]).Some? && Known(w, keys[..m - 1])
    ensures var t := Table(keys[m - 1], KeyOutcomes(w, keys, m - 1));
            Tables(w, keys, m) == if t.rows == [] then Tables(w, keys, m - 1) else Tables(w, keys, m - 1) + [t]
  {
    assert keys[m - 1] == keys[..m][m - 1];
    assert forall x :: x in keys[..m - 1] ==> x in keys[..m];
    assert Tables(w, keys, m - 1) + [] == Tables(w, keys, m - 1);
  }

  /** What the tables show. */
  lemma {:induction false} TablesMean(w: World, keys: seq<string>, m: nat) returns (at: seq<nat>)
    requires m <= |keys| && Known(w, keys) && Known(w, keys[..m])
    ensures TablesAt(w, keys, m, Tables(w, keys, m), at)
    decreases m
  {
    at := [];
    if m > 0 {
      var k := m - 1;
      TablesNext(w, keys, m);
      at := TablesMean(w, keys, k);
      var t := Table(keys[k], KeyOutcomes(w, keys, k));
      RowsTell(w, keys, k);
      TablesAtMore(w, keys, k, Tables(w, keys, k), at, t);
      if t.rows != [] {
        at := at + [k];
      }
    }
  }

  lemma RowsAppend(tables: seq<Table>, t: Table)
    ensures Rows(tables + [t]) == Rows(tables) + t.rows
    ensures t.rows == [] ==> Rows(tables) == Rows(tables) + t.rows
    ensures tables + [] == tables
  {
    assert (tables + [t])[..|tables|] == tables;
  }

  // ---------------------------------------------------------------------------
  // The event trace
  // ---------------------------------------------------------------------------

  /** Runs at even positions, resets strictly between them, joining their neighbours. */
  lemma {:induction false} AlternatingAt(keys: seq<string>, m: nat, j: nat)
    requires m <= |keys| && j < |Alternating(keys, m)|
    ensures |Alternating(keys, m)| == 2 * m - 1
    ensures j % 2 == 0 ==> Alternating(keys, m)[j] == RunKey(keys[j / 2])
    ensures j % 2 == 1 ==> Alternating(keys, m)[j] == Reset(keys[j / 2], keys[j / 2 + 1])
    decreases m
  {
    if m == 1 {
    } else if m > 1 {
      AlternatingAt(keys, m - 1, 0);
      if j < |Alternating(keys, m - 1)| {
        AlternatingAt(keys, m - 1, j);
      }
    }
  }

  // ---------------------------------------------------------------------------
  // runNativeScenario
  // ---------------------------------------------------------------------------

  datatype Exit =
    | BadKeys
    | Unknown(key: string)
    | Stopped(err: SeqError)
    | AllFailed
    | Fine

  /** Did every child run of a non-empty list fail? */
  predicate NoneSucceeded(outcomes: seq<Outcome>) {
    outcomes != [] && forall o :: o in outcomes ==> o.failed
  }

  /** No child of the i-th key had its result pushed. */
  predicate NonePushed(w: World, keys: seq<string>, i: nat)
    requires i < |keys| && w.expand(keys[i]).Some?
  {
    forall j :: 0 <= j < |w.expand(keys[i]).value| ==> !w.child(i, j).Pushed?
  }

  /** The first m keys have children, and the result of none was pushed. */
  predicate NothingPushed(w: World, keys: seq<string>, m: nat)
    requires m <= |keys| && Known(w, keys)
  {
    && (exists i :: 0 <= i < m && w.expand(keys[i]).value != [])
    && (forall i :: 0 <= i < m ==> NonePushed(w, keys, i))
  }

  lemma KeyFailed(w: World, keys: seq<string>, i: nat)
    requires i < |keys| && w.expand(keys[i]).Some?
    ensures (forall o :: o in KeyOutcomes(w, keys, i) ==> o.failed) <==> NonePushed(w, keys, i)
  {
    var rows := KeyOutcomes(w, keys, i);
    forall j | 0 <= j < |rows| ensures rows[j] in rows && (rows[j].failed <==> !w.child(i, j).Pushed?) {
    }
  }

  lemma {:induction false} NoneSucceededMeans(w: World, keys: seq<string>, m: nat)
    requires m <= |keys| && Known(w, keys) && Known(w, keys[..m])
    ensures Outcomes(w, keys, m) == [] <==> forall i :: 0 <= i < m ==> w.expand(keys[i]).value == []
    ensures (forall o :: o in Outcomes(w, keys, m) ==> o.failed) <==> forall i :: 0 <= i < m ==> NonePushed(w, keys, i)
    decreases m
  {
    if m > 0 {
      OutcomesNext(w, keys, m);
      NoneSucceededMeans(w, keys, m - 1);
      KeyFailed(w, keys, m - 1);
      AllInConcat(Outcomes(w, keys, m - 1), KeyOutcomes(w, keys, m - 1));
    }
  }

  lemma AllInConcat(a: seq<Outcome>, b: seq<Outcome>)
    ensures (forall o :: o in a + b ==> o.failed)
            <==> (forall o :: o in a ==> o.failed) && (forall o :: o in b ==> o.failed)
  {
    assert forall o :: o in a + b <==> o in a || o in b;
  }

  /** runNativeScenario: bad or unknown keys stop it before any event; otherwise the
      tables show what completed, and the result tells the reset failure first, then
      whether everything failed. */
  method RunNativeScenario(w: World, raw: string)
    returns (exit: Exit, tables: seq<Table>, trace: seq<Event>, ghost m: nat)
    ensures exit.BadKeys? <==> Keys(raw).None?
    ensures exit.Unknown? <==> Keys(raw).Some? && !Known(w, Keys(raw).value)
    ensures exit.BadKeys? || exit.Unknown? ==> trace == [] && tables == []
    ensures !exit.BadKeys? && !exit.Unknown? ==>
      var keys := Keys(raw).value;
      && m <= |keys| && Known(w, keys[..m])
      && tables == Tables(w, keys, m)
      && (exit.Stopped? <==> m < |keys|)
      && (exit.Stopped? ==> 0 < m && exit.err == ResetFailed(keys[m - 1], keys[m]))
      && (exit.AllFailed? <==> m == |keys| && NothingPushed(w, keys, m))
      && trace == Alternating(keys, m) + if m < |keys| then [Reset(keys[m - 1], keys[m])] else []
  {
    tables, trace, m := [], [], 0;
    var parsed := ParseScenarioKeys(raw);
    if parsed.None? {
      return BadKeys, [], [], 0;
    }
    var keys := parsed.value;
    var unknown := FirstUnknown(w, keys);
    if unknown.Some? {
      return Unknown(unknown.value), [], [], 0;
    }
    var outcomes, err;
    outcomes, err, trace, m := RunSequence(w, keys);
    assert m < |keys| ==> keys[m] in keys;
    tables := CutTables(w, keys, outcomes, m);
    if !err.NoError? {
      return Stopped(err), tables, trace, m;
    }
    NoneSucceededMeans(w, keys, m);
    var none := CheckNoneSucceeded(outcomes);
    if none {
      return AllFailed, tables, trace, m;
    }
    return Fine, tables, trace, m;
  }

  /** The up-front validation. */
  method FirstUnknown(w: World, keys: seq<string>) returns (r: Option<string>)
    ensures r.None? <==> Known(w, keys)
    ensures r.Some? ==> r.value in keys && w.expand(r.value).None?
  {
    for i := 0 to |keys|
      invariant Known(w, keys[..i])
    {
      if w.expand(keys[i]).None? {
        assert keys[i] in keys;
        return Some(keys[i]);
      }
      assert keys[..i + 1] == keys[..i] + [keys[i]];
    }
    assert keys[..|keys|] == keys;
    return None;
  }

  method CheckNoneSucceeded(outcomes: seq<Outcome>) returns (r: bool)
    ensures r == NoneSucceeded(outcomes)
  {
    for i := 0 to |outcomes|
      invariant forall k :: 0 <= k < i ==> outcomes[k].failed
    {
      if !outcomes[i].failed {
        assert outcomes[i] in outcomes;
        return false;
      }
    }
    return |outcomes| > 0;
  }
}
