/** The streaming secret redactor: a writer that replaces secrets with a marker and
    holds back a tail so that a secret split across writes is still caught. */
module Redactor {
  import opened Wrappers

  type byte = x: int | 0 <= x < 256

  type Bytes = seq<byte>

  /** "[REDACTED]" in ASCII. */
  const MARKER: Bytes := [91, 82, 69, 68, 65, 67, 84, 69, 68, 93]

  /** What the scanner decides at one point of the stream: pass a byte, or replace
      the next `n` bytes. */
  datatype Seg = Lit(b: byte) | Mask(n: nat)

  function Render(segs: seq<Seg>): Bytes {
    if segs == [] then []
    else (if segs[0].Lit? then [segs[0].b] else MARKER) + Render(segs[1..])
  }

  /** One flag per input byte: was it replaced? */
  function Cover(segs: seq<Seg>): seq<bool> {
    if segs == [] then []
    else (if segs[0].Lit? then [false] else seq(segs[0].n, _ => true)) + Cover(segs[1..])
  }

  function Lits(p: Bytes): seq<Seg> {
    seq(|p|, i requires 0 <= i < |p| => Lit(p[i]))
  }

  function Concat(chunks: seq<Bytes>): Bytes {
    if chunks == [] then [] else chunks[0] + Concat(chunks[1..])
  }

  lemma Regroup(a: Bytes, b: Bytes, c: Bytes)
    ensures a + b + c == a + (b + c)
  {
  }

  // ---------------------------------------------------------------------------
  // The scanner
  // ---------------------------------------------------------------------------

  /** No empty secrets: NewRedactor drops them. */
  predicate AllNonEmpty(secrets: seq<Bytes>) {
    forall s :: s in secrets ==> s != []
  }

  /** Length of the first-listed secret that `rest` starts with; 0 when there is none. */
  function FirstMatch(secrets: seq<Bytes>, rest: Bytes): nat {
    if secrets == [] then 0
    else if secrets[0] <= rest then |secrets[0]|
    else FirstMatch(secrets[1..], rest)
  }

  /** `tail` is a non-empty strict prefix of some secret. */
  predicate PotentialPrefix(secrets: seq<Bytes>, tail: Bytes) {
    tail != [] && exists s :: s in secrets && tail < s
  }

  lemma {:induction false} FirstMatchIndex(secrets: seq<Bytes>, rest: Bytes) returns (a: nat)
    requires AllNonEmpty(secrets)
    ensures a <= |secrets|
    ensures forall b :: 0 <= b < a ==> !(secrets[b] <= rest)
    ensures a == |secrets| ==> FirstMatch(secrets, rest) == 0
    ensures a < |secrets| ==> secrets[a] <= rest && FirstMatch(secrets, rest) == |secrets[a]| > 0
  {
    if secrets == [] {
      a := 0;
    } else if secrets[0] <= rest {
      a := 0;
      assert secrets[0] in secrets;
    } else {
      forall s | s in secrets[1..] ensures s != [] {
        assert s in secrets;
      }
      a := FirstMatchIndex(secrets[1..], rest);
      a := a + 1;
    }
  }

  lemma FirstMatchBound(secrets: seq<Bytes>, rest: Bytes)
    requires AllNonEmpty(secrets)
    ensures FirstMatch(secrets, rest) <= |rest|
    ensures FirstMatch(secrets, rest) > 0 ==> rest[..FirstMatch(secrets, rest)] in secrets
    ensures FirstMatch(secrets, rest) == 0 ==> forall s :: s in secrets ==> !(s <= rest)
  {
    var a := FirstMatchIndex(secrets, rest);
    if a < |secrets| {
      assert rest[..|secrets[a]|] == secrets[a];
    }
  }

  /** One left-to-right pass: the decisions, and the bytes kept back. */
  function Scan(secrets: seq<Bytes>, data: Bytes, final: bool): (seq<Seg>, Bytes)
    requires AllNonEmpty(secrets)
    decreases |data|
  {
    if data == [] then ([], [])
    else
      FirstMatchBound(secrets, data);
      var m := FirstMatch(secrets, data);
      if m > 0 then
        var (segs, keep) := Scan(secrets, data[m..], final);
        ([Mask(m)] + segs, keep)
      else if !final && PotentialPrefix(secrets, data) then ([], data)
      else
        var (segs, keep) := Scan(secrets, data[1..], final);
        ([Lit(data[0])] + segs, keep)
  }

  /** The one-shot reading of a whole stream. */
  function Parse(secrets: seq<Bytes>, data: Bytes): seq<Seg>
    requires AllNonEmpty(secrets)
  {
    Scan(secrets, data, true).0
  }

  function MaxLen(secrets: seq<Bytes>): nat {
    if secrets == [] then 0
    else if |secrets[|secrets| - 1]| > MaxLen(secrets[..|secrets| - 1]) then |secrets[|secrets| - 1]|
    else MaxLen(secrets[..|secrets| - 1])
  }

  /** How many bytes a Write holds back. */
  function Hold(secrets: seq<Bytes>): nat {
    if MaxLen(secrets) > 0 then MaxLen(secrets) - 1 else 0
  }

  lemma {:induction false} MaxLenBound(secrets: seq<Bytes>)
    ensures forall s :: s in secrets ==> |s| <= MaxLen(secrets)
    ensures secrets != [] ==> exists s :: s in secrets && |s| == MaxLen(secrets)
  {
    if secrets != [] {
      var init, last := secrets[..|secrets| - 1], secrets[|secrets| - 1];
      MaxLenBound(init);
      assert secrets == init + [last];
      assert last in secrets && forall s :: s in init ==> s in secrets;
    }
  }

  /** One Write: the decisions it delivers and the new buffer. */
  function WriteStep(secrets: seq<Bytes>, buf: Bytes, p: Bytes): (seq<Seg>, Bytes)
    requires AllNonEmpty(secrets)
  {
    if secrets == [] then (Lits(p), buf)
    else
      var b := buf + p;
      var hold := Hold(secrets);
      if |b| <= hold then ([], b)
      else
        var (segs, keep) := Scan(secrets, b[..|b| - hold], false);
        (segs, keep + b[|b| - hold..])
  }

  /** Write every chunk, then Close. */
  function Feed(secrets: seq<Bytes>, buf: Bytes, chunks: seq<Bytes>): seq<Seg>
    requires AllNonEmpty(secrets)
    decreases |chunks|
  {
    if chunks == [] then Parse(secrets, buf)
    else
      var (segs, buf') := WriteStep(secrets, buf, chunks[0]);
      segs + Feed(secrets, buf', chunks[1..])
  }

  /** A Write scans some front part `x` of what it has and keeps the rest. */
  lemma WriteSplits(secrets: seq<Bytes>, buf: Bytes, p: Bytes) returns (x: Bytes, y: Bytes)
    requires AllNonEmpty(secrets) && secrets != []
    ensures x + y == buf + p
    ensures WriteStep(secrets, buf, p) == (Scan(secrets, x, false).0, Scan(secrets, x, false).1 + y)
  {
    var b := buf + p;
    var hold := Hold(secrets);
    if |b| <= hold {
      x, y := [], b;
    } else {
      x, y := b[..|b| - hold], b[|b| - hold..];
    }
  }

  // ---------------------------------------------------------------------------
  // Space
  // ---------------------------------------------------------------------------

  lemma {:induction false} ScanKeep(secrets: seq<Bytes>, data: Bytes, final: bool)
    requires AllNonEmpty(secrets)
    ensures var keep := Scan(secrets, data, final).1;
            keep == [] || (!final && exists s :: s in secrets && keep < s)
    decreases |data|
  {
    if data != [] {
      FirstMatchBound(secrets, data);
      var m := FirstMatch(secrets, data);
      if m > 0 {
        ScanKeep(secrets, data[m..], final);
      } else if final || !PotentialPrefix(secrets, data) {
        ScanKeep(secrets, data[1..], final);
      }
    }
  }

  /** Whatever was buffered before, a Write leaves at most 2*(maxLen-1) bytes held
      back (and none when there are no secrets). */
  lemma HoldBackBound(secrets: seq<Bytes>, buf: Bytes, p: Bytes)
    requires AllNonEmpty(secrets) && (secrets == [] ==> buf == [])
    ensures |WriteStep(secrets, buf, p).1| <= 2 * (if secrets == [] then 0 else MaxLen(secrets) - 1)
  {
    if secrets != [] {
      MaxLenBound(secrets);
      assert secrets[0] in secrets;
      var b := buf + p;
      var hold := MaxLen(secrets) - 1;
      if |b| > hold {
        ScanKeep(secrets, b[..|b| - hold], false);
      }
    }
  }

  // ---------------------------------------------------------------------------
  // Nothing is lost, nothing leaks (for every chunking and every secret list)
  // ---------------------------------------------------------------------------

  /** `segs` reads `input` left to right: literals are its bytes, in order, taken
      only where no secret starts; masks cover exactly one secret each. */
  predicate Reads(secrets: seq<Bytes>, segs: seq<Seg>, input: Bytes)
    decreases |segs|
  {
    if segs == [] then input == []
    else if segs[0].Lit? then
      input != [] && input[0] == segs[0].b
      && (forall s :: s in secrets ==> !(s <= input))
      && Reads(secrets, segs[1..], input[1..])
    else
      0 < segs[0].n <= |input| && input[..segs[0].n] in secrets
      && Reads(secrets, segs[1..], input[segs[0].n..])
  }

  lemma {:induction false} ScanReads(secrets: seq<Bytes>, x: Bytes, y: Bytes, final: bool, rest: seq<Seg>)
    requires AllNonEmpty(secrets)
    requires final ==> y == []
    requires Reads(secrets, rest, Scan(secrets, x, final).1 + y)
    ensures Reads(secrets, Scan(secrets, x, final).0 + rest, x + y)
    decreases |x|
  {
    var (segs, keep) := Scan(secrets, x, final);
    if x == [] {
      assert segs + rest == rest && keep + y == x + y;
    } else {
      FirstMatchBound(secrets, x);
      var m := FirstMatch(secrets, x);
      if m == 0 && !final && PotentialPrefix(secrets, x) {
        assert segs + rest == rest;
      } else {
        var step := if m > 0 then m else 1;
        ScanReads(secrets, x[step..], y, final, rest);
        var tail := Scan(secrets, x[step..], final).0;
        assert (segs + rest)[1..] == tail + rest;
        assert (x + y)[step..] == x[step..] + y;
        if m > 0 {
          assert (x + y)[..m] == x[..m];
        } else {
          forall s | s in secrets ensures !(s <= x + y) {
            NoLateMatch(secrets, x, y, s, final);
          }
        }
      }
    }
  }

  /** A byte passed by the scanner starts no secret, not even one completed later. */
  lemma NoLateMatch(secrets: seq<Bytes>, x: Bytes, y: Bytes, s: Bytes, final: bool)
    requires s in secrets && x != [] && !(s <= x)
    requires final ==> y == []
    requires !final ==> !PotentialPrefix(secrets, x)
    ensures !(s <= x + y)
  {
    PrefixOfConcat(s, x, y);
  }

  lemma PrefixOfConcat(s: Bytes, x: Bytes, y: Bytes)
    ensures s <= x + y ==> s <= x || x < s
    ensures s <= x ==> s <= x + y
  {
  }

  lemma {:induction false} LitsRead(p: Bytes, rest: seq<Seg>, y: Bytes)
    requires Reads([], rest, y)
    ensures Reads([], Lits(p) + rest, p + y)
    decreases |p|
  {
    if p == [] {
      assert Lits(p) + rest == rest && p + y == y;
    } else {
      LitsRead(p[1..], rest, y);
      assert (Lits(p) + rest)[1..] == Lits(p[1..]) + rest;
      assert (p + y)[1..] == p[1..] + y;
    }
  }

  /** One Write reads what it takes off the buffered stream. */
  lemma WriteReads(secrets: seq<Bytes>, buf: Bytes, p: Bytes, rest: seq<Seg>, later: Bytes)
    requires AllNonEmpty(secrets) && (secrets == [] ==> buf == [])
    requires Reads(secrets, rest, WriteStep(secrets, buf, p).1 + later)
    ensures Reads(secrets, WriteStep(secrets, buf, p).0 + rest, buf + p + later)
  {
    if secrets == [] {
      assert buf + later == later && buf + p + later == p + later;
      LitsRead(p, rest, later);
    } else {
      var x, y := WriteSplits(secrets, buf, p);
      Regroup(Scan(secrets, x, false).1, y, later);
      Regroup(x, y, later);
      ScanReads(secrets, x, y + later, false, rest);
    }
  }

  /** Conservation: for every chunking, the decisions read the whole stream. */
  lemma {:induction false} FeedReads(secrets: seq<Bytes>, buf: Bytes, chunks: seq<Bytes>)
    requires AllNonEmpty(secrets) && (secrets == [] ==> buf == [])
    ensures Reads(secrets, Feed(secrets, buf, chunks), buf + Concat(chunks))
    decreases |chunks|
  {
    if chunks == [] {
      ScanKeep(secrets, buf, true);
      ScanReads(secrets, buf, [], true, []);
      assert Parse(secrets, buf) + [] == Parse(secrets, buf);
      assert buf + [] == buf;
    } else {
      var p, later := chunks[0], Concat(chunks[1..]);
      var buf' := WriteStep(secrets, buf, p).1;
      FeedReads(secrets, buf', chunks[1..]);
      WriteReads(secrets, buf, p, Feed(secrets, buf', chunks[1..]), later);
      Regroup(buf, p, later);
    }
  }

  lemma {:induction false} ReadsCover(secrets: seq<Bytes>, segs: seq<Seg>, input: Bytes, p: nat, s: Bytes)
    requires Reads(secrets, segs, input)
    requires s in secrets && s != [] && p + |s| <= |input| && s <= input[p..]
    ensures |Cover(segs)| == |input|
    ensures Cover(segs)[p]
    decreases |segs|
  {
    CoverLength(secrets, segs, input);
    var n := if segs[0].Lit? then 1 else segs[0].n;
    if p >= n {
      assert input[n..][p - n..] == input[p..];
      ReadsCover(secrets, segs[1..], input[n..], p - n, s);
      CoverLength(secrets, segs[1..], input[n..]);
    } else {
      assert p == 0 ==> input[p..] == input;
    }
  }

  lemma {:induction false} CoverLength(secrets: seq<Bytes>, segs: seq<Seg>, input: Bytes)
    requires Reads(secrets, segs, input)
    ensures |Cover(segs)| == |input|
    decreases |segs|
  {
    if segs != [] {
      CoverLength(secrets, segs[1..], input[if segs[0].Lit? then 1 else segs[0].n..]);
    }
  }

  /** No leak: for every chunking, the first byte of every occurrence of every secret
      is inside a replaced range. */
  lemma EveryOccurrenceMasked(secrets: seq<Bytes>, chunks: seq<Bytes>, p: nat, s: Bytes)
    requires AllNonEmpty(secrets) && s in secrets
    requires p + |s| <= |Concat(chunks)| && s <= Concat(chunks)[p..]
    ensures |Cover(Feed(secrets, [], chunks))| == |Concat(chunks)|
    ensures Cover(Feed(secrets, [], chunks))[p]
  {
    FeedReads(secrets, [], chunks);
    assert [] + Concat(chunks) == Concat(chunks);
    ReadsCover(secrets, Feed(secrets, [], chunks), Concat(chunks), p, s);
  }

  // ---------------------------------------------------------------------------
  // Chunking does not matter, exactly when no reachable secret is shadowed
  // ---------------------------------------------------------------------------

  /** Secret `j` can win a match: no earlier-listed secret is a prefix of it. */
  predicate Live(secrets: seq<Bytes>, j: nat)
    requires j < |secrets|
  {
    forall m :: 0 <= m < j ==> !(secrets[m] <= secrets[j])
  }

  /** No later-listed secret is a proper prefix of a live earlier-listed one. */
  predicate NoShadow(secrets: seq<Bytes>) {
    forall j, k :: 0 <= j < k < |secrets| && Live(secrets, j) ==> !(secrets[k] < secrets[j])
  }

  lemma PrefixTrans(a: Bytes, b: Bytes, c: Bytes)
    requires b <= c
    ensures a <= b ==> a <= c
  {
  }

  /** The secret that wins some match is live. */
  lemma WinnerLive(secrets: seq<Bytes>, data: Bytes, b: nat)
    requires b < |secrets| && secrets[b] <= data && forall m :: 0 <= m < b ==> !(secrets[m] <= data)
    ensures Live(secrets, b)
  {
    forall m | 0 <= m < b ensures !(secrets[m] <= secrets[b]) {
      PrefixTrans(secrets[m], secrets[b], data);
    }
  }

  lemma ProperPrefix(a: Bytes, x: Bytes, c: Bytes)
    requires a <= x
    ensures x < c ==> a < c
  {
  }

  /** Without a shadow, what follows cannot change a match. */
  lemma MatchStable(secrets: seq<Bytes>, x: Bytes, y: Bytes)
    requires AllNonEmpty(secrets) && NoShadow(secrets)
    requires FirstMatch(secrets, x) > 0
    ensures FirstMatch(secrets, x + y) == FirstMatch(secrets, x)
  {
    var a := FirstMatchIndex(secrets, x);
    var b := FirstMatchIndex(secrets, x + y);
    PrefixOfConcat(secrets[a], x, y);
    assert b <= a;
    WinnerLive(secrets, x + y, b);
    PrefixOfConcat(secrets[b], x, y);
    ProperPrefix(secrets[a], x, secrets[b]);
    assert b == a;
  }

  lemma RegroupSegs(a: seq<Seg>, b: seq<Seg>, c: seq<Seg>)
    ensures a + b + c == a + (b + c)
  {
  }

  lemma {:induction false} ScanSplit(secrets: seq<Bytes>, x: Bytes, y: Bytes)
    requires AllNonEmpty(secrets) && NoShadow(secrets)
    ensures Parse(secrets, x + y) == Scan(secrets, x, false).0 + Parse(secrets, Scan(secrets, x, false).1 + y)
    decreases |x|
  {
    var (segs, keep) := Scan(secrets, x, false);
    if x == [] {
      assert x + y == keep + y;
    } else {
      FirstMatchBound(secrets, x);
      FirstMatchBound(secrets, x + y);
      var m := FirstMatch(secrets, x);
      if m > 0 {
        MatchStable(secrets, x, y);
        assert (x + y)[m..] == x[m..] + y;
        ScanSplit(secrets, x[m..], y);
        RegroupSegs([Mask(m)], Scan(secrets, x[m..], false).0, Parse(secrets, keep + y));
      } else if !PotentialPrefix(secrets, x) {
        forall s | s in secrets ensures !(s <= x + y) {
          NoLateMatch(secrets, x, y, s, false);
        }
        var b := FirstMatchIndex(secrets, x + y);
        assert FirstMatch(secrets, x + y) == 0;
        assert (x + y)[1..] == x[1..] + y;
        ScanSplit(secrets, x[1..], y);
        RegroupSegs([Lit(x[0])], Scan(secrets, x[1..], false).0, Parse(secrets, keep + y));
      }
    }
  }

  lemma {:induction false} ParseLits(p: Bytes)
    ensures Parse([], p) == Lits(p)
    decreases |p|
  {
    if p != [] {
      ParseLits(p[1..]);
      assert Lits(p) == [Lit(p[0])] + Lits(p[1..]);
    }
  }

  /** One Write followed by the rest of the stream scans like the rest after it. */
  lemma WriteParse(secrets: seq<Bytes>, buf: Bytes, p: Bytes, later: Bytes)
    requires AllNonEmpty(secrets) && NoShadow(secrets) && (secrets == [] ==> buf == [])
    ensures var (segs, buf') := WriteStep(secrets, buf, p);
            Parse(secrets, buf + p + later) == segs + Parse(secrets, buf' + later)
  {
    if secrets == [] {
      ParseLits(p + later);
      ParseLits(later);
      assert buf + p + later == p + later && buf + later == later;
      assert Lits(p + later) == Lits(p) + Lits(later);
    } else {
      var x, y := WriteSplits(secrets, buf, p);
      ScanSplit(secrets, x, y + later);
      Regroup(x, y, later);
      Regroup(Scan(secrets, x, false).1, y, later);
    }
  }

  /** Refinement: without a shadowed secret, any chunking decides exactly what the
      one-shot scan of the whole stream decides. */
  lemma {:induction false} FeedIsParse(secrets: seq<Bytes>, buf: Bytes, chunks: seq<Bytes>)
    requires AllNonEmpty(secrets) && NoShadow(secrets) && (secrets == [] ==> buf == [])
    ensures Feed(secrets, buf, chunks) == Parse(secrets, buf + Concat(chunks))
    decreases |chunks|
  {
    if chunks == [] {
      assert buf + [] == buf;
    } else {
      var p, later := chunks[0], Concat(chunks[1..]);
      WriteParse(secrets, buf, p, later);
      assert buf + Concat(chunks) == buf + p + later;
      FeedIsParse(secrets, WriteStep(secrets, buf, p).1, chunks[1..]);
    }
  }

  function Filler(n: nat, z: byte): Bytes {
    seq(n, _ => z)
  }

  /** How much filler pushes exactly `shadow` out of the held-back tail. */
  function Room(secrets: seq<Bytes>, j: nat, k: nat): int
    requires j < |secrets| && k < |secrets|
  {
    |secrets[k]| + MaxLen(secrets) - 1 - |secrets[j]|
  }

  lemma FeedOne(secrets: seq<Bytes>, input: Bytes)
    requires AllNonEmpty(secrets)
    ensures Feed(secrets, [], [input])
        == WriteStep(secrets, [], input).0 + Parse(secrets, WriteStep(secrets, [], input).1)
  {
    var chunks: seq<Bytes> := [input];
    assert chunks[1..] == [];
  }

  lemma RoomFits(secrets: seq<Bytes>, j: nat, k: nat)
    requires AllNonEmpty(secrets) && j < |secrets| && k < |secrets|
    ensures Room(secrets, j, k) >= 0
  {
    MaxLenBound(secrets);
    assert secrets[j] in secrets && secrets[k] in secrets;
  }

  /** Written in one piece, a shadowed secret and that much after it flush its shadow
      alone. */
  lemma FlushShadow(secrets: seq<Bytes>, j: nat, k: nat, fill: Bytes)
    requires AllNonEmpty(secrets) && j < |secrets| && k < |secrets| && secrets[k] < secrets[j]
    requires |fill| == Room(secrets, j, k)
    ensures var (segs, keep) := Scan(secrets, secrets[k], false);
            WriteStep(secrets, [], secrets[j] + fill) == (segs, keep + (secrets[j][|secrets[k]|..] + fill))
    ensures |secrets[j][|secrets[k]|..] + fill| == MaxLen(secrets) - 1
  {
    MaxLenBound(secrets);
    assert secrets[j] in secrets && secrets[k] in secrets;
    var hold := MaxLen(secrets) - 1;
    var input := secrets[j] + fill;
    assert [] + input == input;
    assert input[..|input| - hold] == secrets[k];
    assert input[|input| - hold..] == secrets[j][|secrets[k]|..] + fill;
  }

  /** A live secret is matched at least in its whole length, whatever follows it. */
  lemma FirstWide(secrets: seq<Bytes>, j: nat, rest: Bytes)
    requires AllNonEmpty(secrets) && j < |secrets| && Live(secrets, j)
    ensures FirstMatch(secrets, secrets[j] + rest) >= |secrets[j]|
  {
    var b := FirstMatchIndex(secrets, secrets[j] + rest);
    assert secrets[j] <= secrets[j] + rest;
    PrefixOfConcat(secrets[b], secrets[j], rest);
  }

  lemma FirstNarrow(secrets: seq<Bytes>, k: nat)
    requires AllNonEmpty(secrets) && k < |secrets|
    ensures 0 < FirstMatch(secrets, secrets[k]) <= |secrets[k]|
  {
    var a := FirstMatchIndex(secrets, secrets[k]);
    FirstMatchBound(secrets, secrets[k]);
    assert secrets[k] in secrets;
  }

  /** With a shadowed secret there is a stream whose first replaced range depends on
      the chunking: write the shadowed secret and just enough filler for its shadow to
      be flushed alone. */
  lemma ShadowSplits(secrets: seq<Bytes>, j: nat, k: nat, z: byte)
    requires AllNonEmpty(secrets) && j < |secrets| && k < |secrets| && Live(secrets, j) && secrets[k] < secrets[j]
    ensures Room(secrets, j, k) >= 0
    ensures !SameDecisions(secrets, [secrets[j] + Filler(Room(secrets, j, k), z)])
  {
    RoomFits(secrets, j, k);
    var fill := Filler(Room(secrets, j, k), z);
    var input := secrets[j] + fill;
    FlushShadow(secrets, j, k, fill);
    FeedOne(secrets, input);
    FirstNarrow(secrets, k);
    FirstWide(secrets, j, fill);
    assert Feed(secrets, [], [input])[0] == Mask(FirstMatch(secrets, secrets[k]));
    assert Parse(secrets, input)[0] == Mask(FirstMatch(secrets, input));
    var chunks: seq<Bytes> := [input];
    assert chunks[1..] == [] && Concat(chunks) == input + [] == input;
  }

  predicate SameDecisions(secrets: seq<Bytes>, chunks: seq<Bytes>)
    requires AllNonEmpty(secrets)
  {
    Feed(secrets, [], chunks) == Parse(secrets, Concat(chunks))
  }

  /** Chunking never changes which ranges are replaced exactly when no live secret is
      shadowed by a later-listed proper prefix. */
  lemma ChunkingIrrelevantIff(secrets: seq<Bytes>)
    requires AllNonEmpty(secrets)
    ensures (forall chunks :: SameDecisions(secrets, chunks)) <==> NoShadow(secrets)
  {
    if NoShadow(secrets) {
      forall chunks ensures SameDecisions(secrets, chunks) {
        FeedIsParse(secrets, [], chunks);
        assert [] + Concat(chunks) == Concat(chunks);
      }
    } else {
      var j, k :| 0 <= j < k < |secrets| && Live(secrets, j) && secrets[k] < secrets[j];
      ShadowSplits(secrets, j, k, 0);
    }
  }

  // ---------------------------------------------------------------------------
  // The same at the level of delivered bytes
  // ---------------------------------------------------------------------------

  lemma {:induction false} RenderConcat(a: seq<Seg>, b: seq<Seg>)
    ensures Render(a + b) == Render(a) + Render(b)
  {
    if a == [] {
      assert a + b == b;
      assert Render(a) + Render(b) == Render(b);
    } else {
      var piece := if a[0].Lit? then [a[0].b] else MARKER;
      RenderConcat(a[1..], b);
      assert (a + b)[1..] == a[1..] + b && (a + b)[0] == a[0];
      Regroup(piece, Render(a[1..]), Render(b));
    }
  }

  /** The bytes the underlying writer has received after all chunks and Close. */
  function Delivered(secrets: seq<Bytes>, chunks: seq<Bytes>): Bytes
    requires AllNonEmpty(secrets)
  {
    Render(Feed(secrets, [], chunks))
  }

  function OneShot(secrets: seq<Bytes>, data: Bytes): Bytes
    requires AllNonEmpty(secrets)
  {
    Render(Parse(secrets, data))
  }

  predicate SameBytes(secrets: seq<Bytes>, chunks: seq<Bytes>)
    requires AllNonEmpty(secrets)
  {
    Delivered(secrets, chunks) == OneShot(secrets, Concat(chunks))
  }

  // Were the bytes the same for every chunking, then so would the decisions be. Take the
  // first shadowed secret and its shadow, and let `t` be what is left of the secret behind
  // the shadow: some chunking delivers a marker and what follows t, where the one-shot
  // scan delivers a marker and what follows. So t in front of a long enough stream would
  // not show in the output, nor would t repeated any number of times; but the output
  // grows with the input.

  predicate Shadowed(secrets: seq<Bytes>, j: nat)
    requires j < |secrets|
  {
    Live(secrets, j) && exists k :: j < k < |secrets| && secrets[k] < secrets[j]
  }

  /** The first shadowed secret and a live shadow of it. */
  lemma FirstShadowed(secrets: seq<Bytes>) returns (j: nat, k: nat)
    requires AllNonEmpty(secrets) && !NoShadow(secrets)
    ensures j < k < |secrets| && Live(secrets, j) && Live(secrets, k) && secrets[k] < secrets[j]
    ensures forall i :: 0 <= i < j ==> !Shadowed(secrets, i)
  {
    var bad, other :| 0 <= bad < other < |secrets| && Live(secrets, bad) && secrets[other] < secrets[bad];
    assert Shadowed(secrets, bad);
    j := 0;
    while !Shadowed(secrets, j)
      invariant j <= bad && forall i :: 0 <= i < j ==> !Shadowed(secrets, i)
      decreases bad - j
    {
      j := j + 1;
    }
    var shadow :| j < shadow < |secrets| && secrets[shadow] < secrets[j];
    k := FirstMatchIndex(secrets, secrets[shadow]);
    assert secrets[shadow] <= secrets[shadow];
    PrefixTrans(secrets[k], secrets[shadow], secrets[j]);
    WinnerLive(secrets, secrets[shadow], k);
  }

  /** The first shadowed secret wins wherever it stands: a longer match would be a secret
      shadowed earlier. */
  lemma FirstShadowedWins(secrets: seq<Bytes>, j: nat, k: nat, rest: Bytes)
    requires AllNonEmpty(secrets) && j < k < |secrets| && Live(secrets, j) && secrets[k] < secrets[j]
    requires forall i :: 0 <= i < j ==> !Shadowed(secrets, i)
    ensures OneShot(secrets, secrets[j] + rest) == MARKER + OneShot(secrets, rest)
  {
    var b := FirstMatchIndex(secrets, secrets[j] + rest);
    assert secrets[j] <= secrets[j] + rest;
    PrefixOfConcat(secrets[b], secrets[j], rest);
    WinnerLive(secrets, secrets[j] + rest, b);
    if b < j {
      assert secrets[k] < secrets[b];
      assert Shadowed(secrets, b);
    }
    assert (secrets[j] + rest)[|secrets[j]|..] == rest;
  }

  lemma LiveScan(secrets: seq<Bytes>, k: nat)
    requires AllNonEmpty(secrets) && k < |secrets| && Live(secrets, k)
    ensures Scan(secrets, secrets[k], false) == ([Mask(|secrets[k]|)], [])
  {
    var a := FirstMatchIndex(secrets, secrets[k]);
    assert secrets[k] <= secrets[k] && secrets[k] in secrets;
    assert a == k;
    var none := secrets[k][|secrets[k]|..];
    assert none == [] && Scan(secrets, none, false) == ([], []);
    var mask, end: seq<Seg> := [Mask(|secrets[k]|)], [];
    assert mask + end == mask;
  }

  /** Nothing in the output shows the bytes t in front of x. */
  predicate HiddenAt(secrets: seq<Bytes>, t: Bytes, x: Bytes)
    requires AllNonEmpty(secrets)
  {
    OneShot(secrets, t + x) == OneShot(secrets, x)
  }

  ghost predicate Hidden(secrets: seq<Bytes>, t: Bytes, r: nat)
    requires AllNonEmpty(secrets)
  {
    forall x :: |x| >= r ==> HiddenAt(secrets, t, x)
  }

  /** Flushing a shadow alone leaves the rest of the secret to the writes to come. */
  lemma ShadowThenRest(secrets: seq<Bytes>, j: nat, k: nat, front: Bytes, back: Bytes)
    requires AllNonEmpty(secrets) && j < |secrets| && k < |secrets| && Live(secrets, k) && secrets[k] < secrets[j]
    requires |front| == Room(secrets, j, k)
    ensures var t := secrets[j][|secrets[k]|..];
            Delivered(secrets, [secrets[j] + front, back]) == MARKER + Delivered(secrets, [t + front, back])
  {
    var rest := secrets[j][|secrets[k]|..] + front;
    FlushShadow(secrets, j, k, front);
    LiveScan(secrets, k);
    assert [] + rest == rest;
    TwoWrites(secrets, secrets[j] + front, back);
    TwoWrites(secrets, rest, back);
    var later := Feed(secrets, rest, [back]);
    assert Feed(secrets, [], [rest, back]) == [] + later == later;
    RenderConcat([Mask(|secrets[k]|)], later);
    assert Render([Mask(|secrets[k]|)]) == MARKER + [] == MARKER;
  }

  /** Were the bytes the same for these two ways of writing, t would not show. */
  lemma ShadowHides(secrets: seq<Bytes>, a: Bytes, t: Bytes, front: Bytes, back: Bytes, x: Bytes)
    requires AllNonEmpty(secrets) && front + back == x
    requires SameBytes(secrets, [a + front, back]) && SameBytes(secrets, [t + front, back])
    requires Delivered(secrets, [a + front, back]) == MARKER + Delivered(secrets, [t + front, back])
    requires OneShot(secrets, a + x) == MARKER + OneShot(secrets, x)
    ensures HiddenAt(secrets, t, x)
  {
    SplitStream(a, front, back, x);
    SplitStream(t, front, back, x);
    SameBehindMarker(OneShot(secrets, t + x), OneShot(secrets, x));
  }

  lemma SplitStream(a: Bytes, front: Bytes, back: Bytes, x: Bytes)
    requires front + back == x
    ensures Concat([a + front, back]) == a + x
  {
    var two, one := [a + front, back], [back];
    assert two[1..] == one && one[1..] == [];
    assert Concat(one) == back + [] == back;
    Regroup(a, front, back);
  }

  lemma SameBehindMarker(a: Bytes, b: Bytes)
    ensures MARKER + a == MARKER + b ==> a == b
  {
    assert (MARKER + a)[|MARKER|..] == a && (MARKER + b)[|MARKER|..] == b;
  }

  lemma TwoWrites(secrets: seq<Bytes>, a: Bytes, b: Bytes)
    requires AllNonEmpty(secrets)
    ensures Feed(secrets, [], [a, b]) == WriteStep(secrets, [], a).0 + Feed(secrets, WriteStep(secrets, [], a).1, [b])
  {
    var two, one := [a, b], [b];
    assert two[1..] == one;
  }

  function Repeat(t: Bytes, n: nat): Bytes {
    if n == 0 then [] else t + Repeat(t, n - 1)
  }

  lemma NothingHidden(secrets: seq<Bytes>, x: Bytes)
    requires AllNonEmpty(secrets)
    ensures HiddenAt(secrets, [], x)
  {
    assert [] + x == x;
  }

  lemma HiddenTwice(secrets: seq<Bytes>, t: Bytes, u: Bytes, x: Bytes)
    requires AllNonEmpty(secrets) && HiddenAt(secrets, t, u + x) && HiddenAt(secrets, u, x)
    ensures HiddenAt(secrets, t + u, x)
  {
    Regroup(t, u, x);
  }

  lemma {:induction false} RepeatHidden(secrets: seq<Bytes>, t: Bytes, x: Bytes, n: nat)
    requires AllNonEmpty(secrets)
    ensures Hidden(secrets, t, |x|) ==> HiddenAt(secrets, Repeat(t, n), x)
    decreases n
  {
    if n == 0 {
      NothingHidden(secrets, x);
    } else if Hidden(secrets, t, |x|) {
      RepeatHidden(secrets, t, x, n - 1);
      HiddenTwice(secrets, t, Repeat(t, n - 1), x);
    }
  }

  lemma {:induction false} RepeatLength(t: Bytes, n: nat)
    requires t != []
    ensures |Repeat(t, n)| >= n
  {
    if n > 0 {
      RepeatLength(t, n - 1);
    }
  }

  /** Each decision takes at most the longest secret's length and leaves at least a byte. */
  lemma {:induction false} OutputGrows(secrets: seq<Bytes>, segs: seq<Seg>, input: Bytes)
    requires AllNonEmpty(secrets) && secrets != [] && Reads(secrets, segs, input)
    ensures |input| <= MaxLen(secrets) * |Render(segs)|
    decreases |segs|
  {
    if segs != [] {
      MaxLenBound(secrets);
      assert secrets[0] in secrets;
      var n := if segs[0].Lit? then 1 else segs[0].n;
      assert segs[0].Mask? ==> |input[..n]| <= MaxLen(secrets);
      OutputGrows(secrets, segs[1..], input[n..]);
      var later := |Render(segs[1..])|;
      OneMoreMask(MaxLen(secrets), n, |input[n..]|, |Render(segs)| - later, later);
    }
  }

  lemma OneMoreMask(most: nat, n: nat, rest: nat, piece: nat, later: nat)
    requires n <= most && piece >= 1 && rest <= most * later
    ensures n + rest <= most * (piece + later)
  {
    assert most * (piece + later) == most * piece + most * later;
    assert most * piece >= most;
  }

  lemma ParseGrows(secrets: seq<Bytes>, input: Bytes)
    requires AllNonEmpty(secrets) && secrets != []
    ensures |input| <= MaxLen(secrets) * |OneShot(secrets, input)|
  {
    FeedReads(secrets, input, []);
    assert input + Concat([]) == input;
    OutputGrows(secrets, Parse(secrets, input), input);
  }

  lemma NotHidden(secrets: seq<Bytes>, t: Bytes, x: Bytes, most: nat)
    requires AllNonEmpty(secrets) && secrets != [] && t != []
    requires most == MaxLen(secrets) * |OneShot(secrets, x)|
    ensures !Hidden(secrets, t, |x|)
  {
    if Hidden(secrets, t, |x|) {
      RepeatHidden(secrets, t, x, most + 1);
      RepeatLength(t, most + 1);
      ParseGrows(secrets, Repeat(t, most + 1) + x);
    }
  }

  lemma ShadowHidden(secrets: seq<Bytes>, j: nat, k: nat, front: Bytes, back: Bytes)
    requires AllNonEmpty(secrets) && j < k < |secrets| && Live(secrets, j) && Live(secrets, k)
        && secrets[k] < secrets[j]
    requires (forall i :: 0 <= i < j ==> !Shadowed(secrets, i)) && |front| == Room(secrets, j, k)
    requires forall chunks :: SameBytes(secrets, chunks)
    ensures HiddenAt(secrets, secrets[j][|secrets[k]|..], front + back)
  {
    ShadowThenRest(secrets, j, k, front, back);
    FirstShadowedWins(secrets, j, k, front + back);
    ShadowHides(secrets, secrets[j], secrets[j][|secrets[k]|..], front, back, front + back);
  }

  lemma AllHidden(secrets: seq<Bytes>, j: nat, k: nat)
    requires AllNonEmpty(secrets) && j < k < |secrets| && Live(secrets, j) && Live(secrets, k)
        && secrets[k] < secrets[j]
    requires (forall i :: 0 <= i < j ==> !Shadowed(secrets, i)) && Room(secrets, j, k) >= 0
    requires forall chunks :: SameBytes(secrets, chunks)
    ensures Hidden(secrets, secrets[j][|secrets[k]|..], Room(secrets, j, k))
  {
    var t, r := secrets[j][|secrets[k]|..], Room(secrets, j, k);
    forall x | |x| >= r ensures HiddenAt(secrets, t, x) {
      assert x[..r] + x[r..] == x;
      ShadowHidden(secrets, j, k, x[..r], x[r..]);
    }
  }

  /** Byte for byte: the delivered output never depends on the chunking if and only if no
      live secret is shadowed. */
  lemma DeliveredIsOneShotIff(secrets: seq<Bytes>)
    requires AllNonEmpty(secrets)
    ensures (forall chunks :: SameBytes(secrets, chunks)) <==> NoShadow(secrets)
  {
    if NoShadow(secrets) {
      forall chunks ensures SameBytes(secrets, chunks) {
        FeedIsParse(secrets, [], chunks);
        assert [] + Concat(chunks) == Concat(chunks);
      }
    } else {
      var j, k := FirstShadowed(secrets);
      RoomFits(secrets, j, k);
      var x := Filler(Room(secrets, j, k), 0);
      NotHidden(secrets, secrets[j][|secrets[k]|..], x, MaxLen(secrets) * |OneShot(secrets, x)|);
      if forall chunks :: SameBytes(secrets, chunks) {
        AllHidden(secrets, j, k);
      }
    }
  }

  /** The smallest failure: secrets "abc" and "ab" listed in this order, "abcx"
      written in one call. The flushed part "ab" is replaced on its own and the "c"
      of the longer secret is delivered. */
  lemma ShadowWitness()
    ensures var secrets: seq<Bytes> := [[97, 98, 99], [97, 98]];
            && Delivered(secrets, [[97, 98, 99, 120]]) == MARKER + [99, 120]
            && OneShot(secrets, [97, 98, 99, 120]) == MARKER + [120]
  {
    var secrets: seq<Bytes> := [[97, 98, 99], [97, 98]];
    var input, rest: Bytes := [97, 98, 99, 120], [99, 120];
    WitnessRoom();
    FlushShadow(secrets, 0, 1, [120]);
    assert secrets[0] + [120] == input;
    assert secrets[0][|secrets[1]|..] + [120] == rest && [] + rest == rest;
    LiveScan(secrets, 1);
    FeedOne(secrets, input);
    RenderConcat([Mask(2)], Parse(secrets, rest));
    assert Render([Mask(2)]) == MARKER + [] == MARKER;
    FirstShadowedWins(secrets, 0, 1, [120]);
    WitnessTails();
  }

  lemma WitnessTails()
    ensures OneShot([[97, 98, 99], [97, 98]], [120]) == [120]
    ensures OneShot([[97, 98, 99], [97, 98]], [99, 120]) == [99, 120]
  {
    var secrets: seq<Bytes> := [[97, 98, 99], [97, 98]];
    var one: Bytes, two: Bytes := [120], [99, 120];
    assert secrets[1..] == [[97, 98]] && secrets[1..][1..] == [];
    assert !(secrets[0] <= one) && !(secrets[1] <= one) && !(secrets[0] <= two) && !(secrets[1] <= two) by {
      assert one[0] != 97 && two[0] != 97;
    }
    assert FirstMatch(secrets, one) == 0 && FirstMatch(secrets, two) == 0;
    assert one[1..] == [] && two[1..] == one;
    assert Parse(secrets, one) == [Lit(120)] && Parse(secrets, two) == [Lit(99)] + [Lit(120)];
    RenderLits(one);
    RenderLits(two);
    assert Lits(one) == [Lit(120)] && Lits(two) == [Lit(99)] + [Lit(120)];
  }

  lemma WitnessRoom()
    ensures var secrets: seq<Bytes> := [[97, 98, 99], [97, 98]];
            Room(secrets, 0, 1) == 1 && Live(secrets, 1) && secrets[1] < secrets[0]
  {
    var secrets: seq<Bytes> := [[97, 98, 99], [97, 98]];
    assert secrets[..1] == [[97, 98, 99]] && secrets[..1][..0] == [];
    assert MaxLen(secrets[..1]) == 3 && MaxLen(secrets) == 3;
  }

  // ---------------------------------------------------------------------------
  // The writer itself
  // ---------------------------------------------------------------------------

  function NonEmpty(secrets: seq<Bytes>): (r: seq<Bytes>)
    ensures AllNonEmpty(r)
    ensures forall s :: s in r <==> s in secrets && s != []
  {
    if secrets == [] then []
    else
      var last := secrets[|secrets| - 1];
      assert secrets == secrets[..|secrets| - 1] + [last];
      NonEmpty(secrets[..|secrets| - 1]) + if last == [] then [] else [last]
  }

  /** `kept` is `list` without its empty entries, in the given order. */
  ghost predicate KeptInOrder(list: seq<Bytes>, kept: seq<Bytes>) {
    exists at :: Picks(kept, list, at) && forall i :: 0 <= i < |list| ==> (i in at <==> list[i] != [])
  }

  lemma {:induction false} NonEmptyPicks(list: seq<Bytes>) returns (at: seq<nat>)
    ensures Picks(NonEmpty(list), list, at)
    ensures forall i :: 0 <= i < |list| ==> (i in at <==> list[i] != [])
  {
    if list == [] {
      at := [];
    } else {
      var init, last := list[..|list| - 1], list[|list| - 1];
      var front := NonEmptyPicks(init);
      at := PicksMore(NonEmpty(init), init, front, last, last != []);
      assert init + [last] == list;
    }
  }

  lemma NonEmptyKept(list: seq<Bytes>)
    ensures KeptInOrder(list, NonEmpty(list))
  {
    var at := NonEmptyPicks(list);
  }

  /** A list without empty entries is kept as it is. */
  lemma NothingDropped(list: seq<Bytes>, kept: seq<Bytes>)
    requires KeptInOrder(list, kept) && AllNonEmpty(list)
    ensures kept == list
  {
    var at :| Picks(kept, list, at) && forall i :: 0 <= i < |list| ==> (i in at <==> list[i] != []);
    forall i | 0 <= i < |list| ensures i in at {
      assert list[i] in list;
    }
    PicksAll(kept, list, at);
  }

  /** One turn of the scanner at index `i`. */
  lemma ScanNext(secrets: seq<Bytes>, data: Bytes, i: nat, final: bool)
    requires AllNonEmpty(secrets) && i < |data|
    ensures var (segs, keep) := Scan(secrets, data[i..], final);
            var m := FirstMatch(secrets, data[i..]);
            if m > 0 then
              i + m <= |data|
              && Render(segs) == MARKER + Render(Scan(secrets, data[i + m..], final).0)
              && keep == Scan(secrets, data[i + m..], final).1
            else if !final && PotentialPrefix(secrets, data[i..]) then
              Render(segs) == [] && keep == data[i..]
            else
              Render(segs) == [data[i]] + Render(Scan(secrets, data[i + 1..], final).0)
              && keep == Scan(secrets, data[i + 1..], final).1
  {
    FirstMatchBound(secrets, data[i..]);
    var m := FirstMatch(secrets, data[i..]);
    assert i + m <= |data|;
    assert data[i..][m..] == data[i + m..];
    assert data[i..][1..] == data[i + 1..];
  }

  /** How the underlying writer answers one call: it takes everything, or fails after
      some bytes. */
  datatype Reply = Accepted | Refused(after: nat)

  function Taken(reply: Reply, out: Bytes): Bytes {
    if reply.Accepted? || reply.after >= |out| then out else out[..reply.after]
  }

  /** The loop of NewRedactor: the secrets kept, and the longest length. */
  method KeepNonEmpty(list: seq<Bytes>) returns (kept: seq<Bytes>, longest: nat)
    ensures kept == NonEmpty(list) && longest == MaxLen(kept)
  {
    kept, longest := [], 0;
    for i := 0 to |list|
      invariant kept == NonEmpty(list[..i]) && longest == MaxLen(kept)
    {
      assert list[..i + 1][..i] == list[..i];
      if list[i] != [] {
        assert (kept + [list[i]])[..|kept|] == kept;
        kept := kept + [list[i]];
        if |list[i]| > longest {
          longest := |list[i]|;
        }
      }
    }
    assert list[..|list|] == list;
  }

  class Writer {
    var secrets: seq<Bytes>
    var maxLen: nat
    var buf: Bytes
    /** Everything handed to the underlying writer so far. */
    var w: Bytes

    ghost predicate Valid()
      reads this
    {
      AllNonEmpty(secrets) && maxLen == MaxLen(secrets) && (secrets == [] ==> buf == [])
    }

    /** NewRedactor. */
    constructor (list: seq<Bytes>)
      ensures Valid()
      ensures secrets == NonEmpty(list) && KeptInOrder(list, secrets) && buf == [] && w == []
    {
      var kept, longest := KeepNonEmpty(list);
      NonEmptyKept(list);
      secrets, maxLen, buf, w := kept, longest, [], [];
    }

    /** The first-listed secret starting at `data[i]`: its length, or 0. */
    method MatchAt(data: Bytes, i: nat) returns (m: nat)
      requires Valid() && i <= |data|
      ensures m == FirstMatch(secrets, data[i..])
    {
      ghost var rest := data[i..];
      for k := 0 to |secrets|
        invariant FirstMatch(secrets, rest) == FirstMatch(secrets[k..], rest)
      {
        var s := secrets[k];
        assert s <= rest <==> i + |s| <= |data| && data[i..i + |s|] == s;
        assert secrets[k..][1..] == secrets[k + 1..];
        if i + |s| <= |data| && data[i..i + |s|] == s {
          return |s|;
        }
      }
      m := 0;
    }

    /** One scan over `data`: the transformed bytes, and what to keep. */
    method ScanBytes(data: Bytes, final: bool) returns (out: Bytes, keep: Bytes)
      requires Valid()
      ensures out == Render(Scan(secrets, data, final).0)
      ensures keep == Scan(secrets, data, final).1
    {
      out, keep := [], [];
      var i, done := 0, false;
      ghost var total, kept := Render(Scan(secrets, data, final).0), Scan(secrets, data, final).1;
      ghost var rest := total;
      assert data[0..] == data;
      while i < |data| && !done
        invariant 0 <= i <= |data|
        invariant out + rest == total
        invariant done ==> rest == [] && keep == kept
        invariant !done ==> Scan(secrets, data[i..], final).1 == kept && keep == []
        invariant !done ==> rest == Render(Scan(secrets, data[i..], final).0)
        decreases |data| - i, !done
      {
        ScanNext(secrets, data, i, final);
        var m := MatchAt(data, i);
        if m > 0 {
          i := i + m;
          rest := Render(Scan(secrets, data[i..], final).0);
          Regroup(out, MARKER, rest);
          out := out + MARKER;
        } else {
          var prefix := false;
          if !final {
            prefix := IsPotentialPrefix(data[i..]);
          }
          if prefix {
            keep, done := data[i..], true;
          } else {
            ghost var next := Render(Scan(secrets, data[i + 1..], final).0);
            Regroup(out, [data[i]], next);
            rest := next;
            out := out + [data[i]];
            i := i + 1;
          }
        }
      }
    }

    method IsPotentialPrefix(tail: Bytes) returns (r: bool)
      ensures r <==> PotentialPrefix(secrets, tail)
    {
      if |tail| == 0 {
        return false;
      }
      for k := 0 to |secrets|
        invariant forall m :: 0 <= m < k ==> !(tail < secrets[m])
      {
        if |tail| < |secrets[k]| && tail <= secrets[k] {
          assert secrets[k] in secrets && tail < secrets[k];
          return true;
        }
      }
      return false;
    }

    /** Write. When the underlying writer fails, the bytes of p stay in the buffer although
        the call reports 0 of them written; without secrets the answer is passed on. */
    method Write(p: Bytes, reply: Reply) returns (n: nat, ok: bool)
      requires Valid()
      modifies this
      ensures Valid() && secrets == old(secrets)
      ensures ok <==> reply.Accepted? || (secrets != [] && |old(buf) + p| <= Hold(secrets))
      ensures ok ==> n == |p| && w == old(w) + Render(WriteStep(secrets, old(buf), p).0)
      ensures ok ==> buf == WriteStep(secrets, old(buf), p).1
      ensures ok ==> |buf| <= 2 * (if secrets == [] then 0 else MaxLen(secrets) - 1)
      ensures !ok ==> w == old(w) + Taken(reply, Render(WriteStep(secrets, old(buf), p).0))
      ensures !ok ==> if secrets == [] then n == |Taken(reply, p)| && buf == [] else n == 0 && buf == old(buf) + p
    {
      HoldBackBound(secrets, buf, p);
      if |secrets| == 0 {
        RenderLits(p);
        w := w + Taken(reply, p);
        return |Taken(reply, p)|, reply.Accepted?;
      }
      buf := buf + p;
      var hold := if maxLen > 0 then maxLen - 1 else 0;
      if |buf| <= hold {
        return |p|, true;
      }
      var flushable := buf[..|buf| - hold];
      var transformed, kept := ScanBytes(flushable, false);
      w := w + Taken(reply, transformed);
      if reply.Refused? {
        return 0, false;
      }
      buf := kept + buf[|buf| - hold..];
      return |p|, true;
    }

    /** Close. The buffer is emptied whatever the underlying writer answers; a second Close
        delivers nothing. */
    method Close(reply: Reply) returns (ok: bool)
      requires Valid()
      modifies this
      ensures Valid() && secrets == old(secrets) && buf == []
      ensures ok <==> reply.Accepted? || old(buf) == []
      ensures w == old(w) + Taken(reply, Render(Parse(secrets, old(buf))))
    {
      if |buf| == 0 {
        return true;
      }
      var transformed, _ := ScanBytes(buf, true);
      w := w + Taken(reply, transformed);
      buf := [];
      ok := reply.Accepted?;
    }
  }

  lemma {:induction false} RenderLits(p: Bytes)
    ensures Render(Lits(p)) == p
    decreases |p|
  {
    if p != [] {
      RenderLits(p[1..]);
      assert Lits(p)[1..] == Lits(p[1..]);
    }
  }

  lemma FeedNext(secrets: seq<Bytes>, buf: Bytes, chunks: seq<Bytes>, i: nat)
    requires AllNonEmpty(secrets) && i < |chunks|
    ensures var (segs, buf') := WriteStep(secrets, buf, chunks[i]);
            Render(Feed(secrets, buf, chunks[i..])) == Render(segs) + Render(Feed(secrets, buf', chunks[i + 1..]))
  {
    var (segs, buf') := WriteStep(secrets, buf, chunks[i]);
    assert chunks[i..][1..] == chunks[i + 1..];
    RenderConcat(segs, Feed(secrets, buf', chunks[i + 1..]));
  }

  /** Write every chunk to a fresh writer, then Close. */
  method WriteAll(r: Writer, chunks: seq<Bytes>)
    requires r.Valid() && r.buf == [] && r.w == []
    modifies r
    ensures r.Valid() && r.w == Delivered(old(r.secrets), chunks)
  {
    assert chunks[0..] == chunks;
    ghost var secrets, rest := r.secrets, Delivered(r.secrets, chunks);
    for i := 0 to |chunks|
      invariant r.Valid() && r.secrets == secrets
      invariant r.w + rest == Delivered(secrets, chunks)
      invariant rest == Render(Feed(secrets, r.buf, chunks[i..]))
    {
      FeedNext(secrets, r.buf, chunks, i);
      ghost var piece, was := Render(WriteStep(secrets, r.buf, chunks[i]).0), r.w;
      rest := rest[|piece|..];
      assert was + (piece + rest) == (was + piece) + rest;
      var _, _ := r.Write(chunks[i], Accepted);
    }
    var _ := r.Close(Accepted);
  }

  method Session(list: seq<Bytes>, chunks: seq<Bytes>) returns (out: Bytes, ghost kept: seq<Bytes>)
    ensures AllNonEmpty(kept) && KeptInOrder(list, kept)
    ensures out == Delivered(kept, chunks)
  {
    var r := new Writer(list);
    kept := r.secrets;
    WriteAll(r, chunks);
    out := r.w;
  }

  /** A whole session over any chunking equals the one-shot scan of the stream for the
      secrets that are not empty, in the order they were given. */
  method Redact(list: seq<Bytes>, chunks: seq<Bytes>) returns (out: Bytes, ghost kept: seq<Bytes>)
    ensures AllNonEmpty(kept) && KeptInOrder(list, kept)
    ensures NoShadow(kept) ==> out == OneShot(kept, Concat(chunks))
    ensures AllNonEmpty(list) && NoShadow(list) ==> out == OneShot(list, Concat(chunks))
  {
    out, kept := Session(list, chunks);
    DeliveredIsOneShotIff(kept);
    assert NoShadow(kept) ==> SameBytes(kept, chunks);
    if AllNonEmpty(list) {
      NothingDropped(list, kept);
    }
  }
}
