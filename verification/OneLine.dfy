/** The status-line helper oneLine: collapse tool output to one line and truncate it
    without slicing through a multi-byte character. */
module OneLine {
  import opened Wrappers

  type byte = x: int | 0 <= x < 256

  /** A Unicode scalar value. */
  type Rune = x: int | 0 <= x < 0xD800 || 0xE000 <= x < 0x11_0000

  // ---------------------------------------------------------------------------
  // UTF-8, section 3 of RFC 3629
  // ---------------------------------------------------------------------------

  function Encode(r: Rune): (b: seq<byte>)
    ensures 1 <= |b| <= 4
  {
    if r < 0x80 then [r]
    else if r < 0x800 then [0xC0 + r / 64, 0x80 + r % 64]
    else if r < 0x1_0000 then [0xE0 + r / 4096, 0x80 + r / 64 % 64, 0x80 + r % 64]
    else [0xF0 + r / 0x4_0000, 0x80 + r / 4096 % 64, 0x80 + r / 64 % 64, 0x80 + r % 64]
  }

  function EncodeAll(rs: seq<Rune>): seq<byte> {
    if rs == [] then [] else EncodeAll(rs[..|rs| - 1]) + Encode(rs[|rs| - 1])
  }

  /** (b & 0xC0) == 0x80. */
  predicate Continuation(b: byte) {
    0x80 <= b < 0xC0
  }

  /** The payload bits of a byte. */
  function Off(b: byte, base: int): int {
    b - base
  }

  /** The first character of a byte string: its value and its length. Overlong forms,
      surrogates and values beyond 0x10FFFF are no characters. */
  function First(b: seq<byte>): Option<(int, nat)> {
    if b == [] then None
    else if b[0] < 0x80 then Some((b[0], 1))
    else if 0xC0 <= b[0] < 0xE0 then
      if |b| < 2 || !Continuation(b[1]) then None
      else Scalar(Off(b[0], 0xC0) * 64 + Off(b[1], 0x80), 0x80, 2)
    else if 0xE0 <= b[0] < 0xF0 then
      if |b| < 3 || !Continuation(b[1]) || !Continuation(b[2]) then None
      else Scalar(Off(b[0], 0xE0) * 4096 + Off(b[1], 0x80) * 64 + Off(b[2], 0x80), 0x800, 3)
    else if 0xF0 <= b[0] < 0xF8 then
      if |b| < 4 || !Continuation(b[1]) || !Continuation(b[2]) || !Continuation(b[3]) then None
      else Scalar(Off(b[0], 0xF0) * 0x4_0000 + Off(b[1], 0x80) * 4096 + Off(b[2], 0x80) * 64 + Off(b[3], 0x80),
          0x1_0000, 4)
    else None
  }

  function Scalar(v: int, least: int, n: nat): Option<(int, nat)> {
    if least <= v && (v < 0xD800 || 0xE000 <= v < 0x11_0000) then Some((v, n)) else None
  }

  /** Strict decoding; None for ill-formed input. */
  function Decode(b: seq<byte>): Option<seq<Rune>>
    decreases |b|
  {
    if b == [] then Some([])
    else
      var f := First(b);
      if f.None? || f.value.1 == 0 || f.value.1 > |b|
          || !(0 <= f.value.0 < 0xD800 || 0xE000 <= f.value.0 < 0x11_0000) then None
      else
        var rest := Decode(b[f.value.1..]);
        if rest.None? then None else Some([f.value.0] + rest.value)
  }

  lemma TwoBytes(r: int)
    requires 0x80 <= r < 0x800
    ensures 2 <= r / 64 < 32 && 0 <= r % 64 < 64 && r / 64 * 64 + r % 64 == r
  {
  }

  lemma ThreeBytes(r: int)
    requires 0x800 <= r < 0x1_0000
    ensures 0 <= r / 4096 < 16 && 0 <= r / 64 % 64 < 64 && 0 <= r % 64 < 64
    ensures r / 4096 * 4096 + r / 64 % 64 * 64 + r % 64 == r
  {
    assert r / 64 / 64 == r / 4096;
  }

  lemma FourBytes(r: int)
    requires 0x1_0000 <= r < 0x11_0000
    ensures 0 <= r / 0x4_0000 < 8 && 0 <= r / 4096 % 64 < 64 && 0 <= r / 64 % 64 < 64 && 0 <= r % 64 < 64
    ensures r / 0x4_0000 * 0x4_0000 + r / 4096 % 64 * 4096 + r / 64 % 64 * 64 + r % 64 == r
  {
    assert r / 64 / 64 == r / 4096;
    assert r / 4096 / 64 == r / 0x4_0000;
  }

  /** One character, whatever follows it. */
  lemma FirstOfEncoded(r: Rune, tail: seq<byte>)
    ensures First(Encode(r) + tail) == Some((r, |Encode(r)|))
  {
    if 0x80 <= r < 0x800 {
      TwoBytes(r);
    } else if 0x800 <= r < 0x1_0000 {
      ThreeBytes(r);
    } else if 0x1_0000 <= r {
      FourBytes(r);
    }
  }

  /** Lead byte first, continuation bytes after it; no line break but for a line break
      character. */
  lemma EncodedBytes(r: Rune)
    ensures !Continuation(Encode(r)[0])
    ensures forall k :: 1 <= k < |Encode(r)| ==> Continuation(Encode(r)[k])
    ensures r != 10 && r != 13 ==> 10 !in Encode(r) && 13 !in Encode(r)
  {
    if 0x80 <= r < 0x800 {
      TwoBytes(r);
    } else if 0x800 <= r < 0x1_0000 {
      ThreeBytes(r);
    } else if 0x1_0000 <= r {
      FourBytes(r);
    }
  }

  lemma {:induction false} EncodeAllConcat(a: seq<Rune>, b: seq<Rune>)
    ensures EncodeAll(a + b) == EncodeAll(a) + EncodeAll(b)
    decreases |b|
  {
    if b == [] {
      assert a + b == a;
    } else {
      assert (a + b)[..|a + b| - 1] == a + b[..|b| - 1];
      EncodeAllConcat(a, b[..|b| - 1]);
    }
  }

  /** Every encoded text is well formed, and decoding inverts encoding. */
  lemma {:induction false} DecodeEncodeAll(rs: seq<Rune>)
    ensures Decode(EncodeAll(rs)) == Some(rs)
    decreases |rs|
  {
    if rs != [] {
      var head, tail := rs[0], rs[1..];
      assert rs == [head] + tail;
      EncodeAllConcat([head], tail);
      assert [head][..0] == [];
      assert EncodeAll([head]) == Encode(head);
      FirstOfEncoded(head, EncodeAll(tail));
      DecodeEncodeAll(tail);
      assert (Encode(head) + EncodeAll(tail))[|Encode(head)|..] == EncodeAll(tail);
    }
  }

  // ---------------------------------------------------------------------------
  // Flattening and cutting
  // ---------------------------------------------------------------------------

  function Flat(rs: seq<Rune>): seq<Rune> {
    seq(|rs|, i requires 0 <= i < |rs| => if rs[i] == 10 || rs[i] == 13 then 32 else rs[i])
  }

  const MAX := 160
  const ELLIPSIS: Rune := 0x2026

  /** How many leading characters fit into `limit` bytes. */
  function Fitting(rs: seq<Rune>, limit: nat): (k: nat)
    ensures k <= |rs|
  {
    if |EncodeAll(rs)| <= limit then |rs| else Fitting(rs[..|rs| - 1], limit)
  }

  /** It is the longest such prefix. */
  lemma {:induction false} FittingIsLongest(rs: seq<Rune>, limit: nat)
    ensures |EncodeAll(rs[..Fitting(rs, limit)])| <= limit
    ensures Fitting(rs, limit) < |rs| ==> |EncodeAll(rs[..Fitting(rs, limit) + 1])| > limit
    decreases |rs|
  {
    if |EncodeAll(rs)| <= limit {
      assert rs[..|rs|] == rs;
    } else {
      var init, k := rs[..|rs| - 1], Fitting(rs, limit);
      FittingIsLongest(init, limit);
      assert init[..k] == rs[..k];
      if k < |init| {
        assert init[..k + 1] == rs[..k + 1];
      } else {
        assert rs[..k + 1] == rs;
      }
    }
  }

  lemma {:induction false} PrefixBytes(rs: seq<Rune>, k: nat)
    requires k <= |rs|
    ensures EncodeAll(rs[..k]) <= EncodeAll(rs)
    ensures k < |rs| ==> EncodeAll(rs[..k + 1]) == EncodeAll(rs[..k]) + Encode(rs[k])
  {
    EncodeAllConcat(rs[..k], rs[k..]);
    assert rs == rs[..k] + rs[k..];
    if k < |rs| {
      assert rs[..k + 1][..k] == rs[..k];
    }
  }

  /** Around the character at index `k`: its bytes stand between two boundaries, the
      first is a lead byte and the others continue it. */
  lemma Boundary(rs: seq<Rune>, k: nat)
    requires k < |rs|
    ensures var p, q, all := |EncodeAll(rs[..k])|, |EncodeAll(rs[..k + 1])|, EncodeAll(rs);
            && p < q <= |all| && all[..p] == EncodeAll(rs[..k])
            && !Continuation(all[p])
            && forall i :: p < i < q ==> Continuation(all[i])
  {
    PrefixBytes(rs, k);
    PrefixBytes(rs, k + 1);
    EncodedBytes(rs[k]);
    var p, upto, all := |EncodeAll(rs[..k])|, EncodeAll(rs[..k + 1]), EncodeAll(rs);
    forall i | p <= i < |upto| ensures all[i] == Encode(rs[k])[i - p] {
      assert upto[i] == all[i];
    }
  }

  /** The bytes strictly inside the first character that does not fit are continuation
      bytes; the one before them is not. */
  lemma CutBoundary(rs: seq<Rune>, limit: nat)
    requires |EncodeAll(rs)| > limit
    ensures var p := |EncodeAll(rs[..Fitting(rs, limit)])|;
            && p <= limit && EncodeAll(rs)[..p] == EncodeAll(rs[..Fitting(rs, limit)])
            && !Continuation(EncodeAll(rs)[p])
            && forall i :: p < i <= limit ==> Continuation(EncodeAll(rs)[i])
  {
    FittingIsLongest(rs, limit);
    assert rs[..|rs|] == rs;
    Boundary(rs, Fitting(rs, limit));
  }

  lemma {:induction false} NoBreaks(rs: seq<Rune>)
    requires 10 !in rs && 13 !in rs
    ensures 10 !in EncodeAll(rs) && 13 !in EncodeAll(rs)
    decreases |rs|
  {
    if rs != [] {
      assert rs == rs[..|rs| - 1] + [rs[|rs| - 1]];
      NoBreaks(rs[..|rs| - 1]);
      EncodedBytes(rs[|rs| - 1]);
    }
  }

  lemma EncodedEllipsis()
    ensures Encode(ELLIPSIS) == [0xE2, 0x80, 0xA6]
  {
  }

  /** `shown` is the first k characters of `s`, within 160 bytes, with a blank for each line
      break; if that is not all of `s`, one more would not fit, and an ellipsis follows. */
  predicate Abridged(s: seq<Rune>, shown: seq<Rune>, k: int) {
    && 0 <= k <= |s| && |shown| == (if k < |s| then k + 1 else k)
    && (forall i :: 0 <= i < k ==> shown[i] == if s[i] == 10 || s[i] == 13 then 32 else s[i])
    && |EncodeAll(shown[..k])| <= MAX
    && (k < |s| ==>
          && shown[k] == ELLIPSIS
          && |EncodeAll(shown[..k] + [if s[k] == 10 || s[k] == 13 then 32 else s[k]])| > MAX)
  }

  lemma AbridgedWhole(s: seq<Rune>)
    requires |EncodeAll(Flat(s))| <= MAX
    ensures Abridged(s, Flat(s), |s|)
  {
    assert Flat(s)[..|s|] == Flat(s);
  }

  lemma AbridgedCut(s: seq<Rune>, k: nat)
    requires k < |s| && |EncodeAll(Flat(s)[..k])| <= MAX < |EncodeAll(Flat(s)[..k + 1])|
    ensures Abridged(s, Flat(s)[..k] + [ELLIPSIS], k)
  {
    assert (Flat(s)[..k] + [ELLIPSIS])[..k] == Flat(s)[..k];
    assert Flat(s)[..k + 1] == Flat(s)[..k] + [Flat(s)[k]];
  }

  lemma AbridgedAt(s: seq<Rune>, shown: seq<Rune>)
    requires |EncodeAll(Flat(s))| <= MAX ==> shown == Flat(s)
    requires |EncodeAll(Flat(s))| > MAX ==> shown == Flat(s)[..Fitting(Flat(s), MAX)] + [ELLIPSIS]
    ensures exists k :: Abridged(s, shown, k)
  {
    var flat := Flat(s);
    if |EncodeAll(flat)| <= MAX {
      AbridgedWhole(s);
    } else {
      FittingIsLongest(flat, MAX);
      assert flat[..|flat|] == flat;
      AbridgedCut(s, Fitting(flat, MAX));
    }
  }

  /** oneLine. `shown` is the text the result displays: the flattened input, or its
      longest prefix within 160 bytes plus the ellipsis. */
  method OneLine(s: seq<Rune>) returns (r: seq<byte>, ghost shown: seq<Rune>)
    ensures r == EncodeAll(shown) && Decode(r) == Some(shown)
    ensures |r| <= 163 && 10 !in r && 13 !in r
    ensures exists k :: Abridged(s, shown, k)
    ensures |EncodeAll(Flat(s))| <= MAX ==> shown == Flat(s)
    ensures |EncodeAll(Flat(s))| > MAX ==> shown == Flat(s)[..Fitting(Flat(s), MAX)] + [ELLIPSIS]
  {
    var out := Flatten(s);
    ghost var flat := Flat(s);
    assert 10 !in flat && 13 !in flat;
    if |out| > MAX {
      r, shown := Truncate(out, flat);
    } else {
      r, shown := out, flat;
    }
    NoBreaks(shown);
    AbridgedAt(s, shown);
    DecodeEncodeAll(shown);
  }

  /** Walk back from byte 160 to a character boundary, then append the ellipsis. */
  method Truncate(out: seq<byte>, ghost flat: seq<Rune>) returns (r: seq<byte>, ghost shown: seq<Rune>)
    requires out == EncodeAll(flat) && |out| > MAX
    ensures shown == flat[..Fitting(flat, MAX)] + [ELLIPSIS]
    ensures r == EncodeAll(shown) && |r| <= MAX + 3
  {
    var cut := MAX;
    CutBoundary(flat, MAX);
    ghost var kept := flat[..Fitting(flat, MAX)];
    while cut > 0 && Continuation(out[cut])
      invariant |EncodeAll(kept)| <= cut <= MAX
    {
      cut := cut - 1;
    }
    r := out[..cut] + [0xE2, 0x80, 0xA6];
    shown := kept + [ELLIPSIS];
    EncodedEllipsis();
    assert shown[..|kept|] == kept;
  }

  lemma FlatMore(s: seq<Rune>, i: nat)
    requires i < |s|
    ensures EncodeAll(Flat(s[..i + 1])) ==
      EncodeAll(Flat(s[..i])) + if s[i] == 10 || s[i] == 13 then [32] else Encode(s[i])
  {
    assert Flat(s[..i + 1])[..i] == Flat(s[..i]);
  }

  /** The builder loop. */
  method Flatten(s: seq<Rune>) returns (out: seq<byte>)
    ensures out == EncodeAll(Flat(s))
  {
    out := [];
    for i := 0 to |s|
      invariant out == EncodeAll(Flat(s[..i]))
    {
      FlatMore(s, i);
      var piece := if s[i] == 10 || s[i] == 13 then [32] else Encode(s[i]);
      out := out + piece;
    }
    assert s[..|s|] == s;
  }
}
