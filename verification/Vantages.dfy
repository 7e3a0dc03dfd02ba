/** The hand-written in-place sort of the GSLB vantage names, whose input comes out of a
    map in no particular order. */
module Vantages {

  /** Go's `<` on strings: byte-wise lexicographic. */
  predicate Less(a: string, b: string) {
    if b == "" then false
    else if a == "" then true
    else a[0] < b[0] || (a[0] == b[0] && Less(a[1..], b[1..]))
  }

  /** The texts agree up to i, and there a has the smaller character. */
  predicate SmallerAt(a: string, b: string, i: int) {
    0 <= i < |a| && i < |b| && a[i] < b[i] && forall k :: 0 <= k < i ==> a[k] == b[k]
  }

  /** The order, outright: a is a proper prefix of b, or smaller where they first differ. */
  lemma {:induction false} LessMeans(a: string, b: string)
    ensures Less(a, b) <==> a < b || exists i :: SmallerAt(a, b, i)
    decreases |a|
  {
    if a != "" && b != "" {
      var x, y := a[1..], b[1..];
      LessMeans(x, y);
      if a[0] == b[0] {
        assert a < b <==> x < y by {
          assert a == [a[0]] + x && b == [b[0]] + y;
        }
        if i :| SmallerAt(x, y, i) {
          assert forall k :: 0 < k < |a| ==> a[k] == x[k - 1];
          assert forall k :: 0 < k < |b| ==> b[k] == y[k - 1];
          assert SmallerAt(a, b, i + 1);
        }
        if i :| SmallerAt(a, b, i) {
          assert SmallerAt(x, y, i - 1);
        }
      } else if a[0] < b[0] {
        assert SmallerAt(a, b, 0);
      }
    }
  }

  predicate Leq(a: string, b: string) {
    !Less(b, a)
  }

  lemma {:induction false} LeqTransitive(a: string, b: string, c: string)
    requires Leq(a, b) && Leq(b, c)
    ensures Leq(a, c)
    decreases |a|
  {
    if a != "" && b != "" && c != "" && a[0] == b[0] == c[0] {
      LeqTransitive(a[1..], b[1..], c[1..]);
    }
  }

  lemma {:induction false} LessImpliesLeq(a: string, b: string)
    requires Less(a, b)
    ensures Leq(a, b)
    decreases |a|
  {
    if a != "" && a[0] == b[0] {
      LessImpliesLeq(a[1..], b[1..]);
    }
  }

  lemma {:induction false} LeqAntisymmetric(a: string, b: string)
    requires Leq(a, b) && Leq(b, a)
    ensures a == b
    decreases |a|
  {
    if a != "" && b != "" {
      LeqAntisymmetric(a[1..], b[1..]);
      assert a == [a[0]] + a[1..] && b == [b[0]] + b[1..];
    }
  }

  predicate Sorted(s: seq<string>) {
    forall i, j :: 0 <= i < j < |s| ==> Leq(s[i], s[j])
  }

  method Swap(a: array<string>, i: nat, j: nat)
    requires i < a.Length && j < a.Length
    modifies a
    ensures a[..] == old(a[..])[i := old(a[j])][j := old(a[i])]
    ensures multiset(a[..]) == multiset(old(a[..]))
  {
    a[i], a[j] := a[j], a[i];
  }

  /** One outer turn: bring the least of the rest to position `i`. */
  method SelectLeast(a: array<string>, i: nat)
    requires i < a.Length
    modifies a
    ensures multiset(a[..]) == multiset(old(a[..]))
    ensures a[..i] == old(a[..i]) && multiset(a[i..]) == multiset(old(a[i..]))
    ensures forall k :: i < k < a.Length ==> Leq(a[i], a[k])
  {
    for j := i + 1 to a.Length
      invariant a[..i] == old(a[..i]) && multiset(a[..]) == multiset(old(a[..]))
      invariant forall k :: i < k < j ==> Leq(a[i], a[k])
    {
      if Less(a[j], a[i]) {
        ghost var was := a[..];
        LessImpliesLeq(was[j], was[i]);
        forall k | i < k < j ensures Leq(was[j], was[k]) {
          LeqTransitive(was[j], was[i], was[k]);
        }
        Swap(a, i, j);
      }
    }
    SplitMultiset(a[..], old(a[..]), i);
    assert a[..][i..] == a[i..] && old(a[..])[i..] == old(a[i..]);
  }

  lemma SplitMultiset(s: seq<string>, t: seq<string>, i: nat)
    requires |s| == |t| && i <= |s| && s[..i] == t[..i] && multiset(s) == multiset(t)
    ensures multiset(s[i..]) == multiset(t[i..])
  {
    assert s == s[..i] + s[i..] && t == t[..i] + t[i..];
    assert multiset(s[i..]) == multiset(s) - multiset(s[..i]);
    assert multiset(t[i..]) == multiset(t) - multiset(t[..i]);
  }

  lemma StillAbove(s: seq<string>, t: seq<string>, x: string)
    requires multiset(s) == multiset(t) && forall k :: 0 <= k < |s| ==> Leq(x, s[k])
    ensures forall k :: 0 <= k < |t| ==> Leq(x, t[k])
  {
    forall k | 0 <= k < |t| ensures Leq(x, t[k]) {
      assert t[k] in multiset(t);
      assert t[k] in multiset(s);
      assert t[k] in s;
    }
  }

  /** The sort: a sorted permutation. */
  method SortNames(a: array<string>)
    modifies a
    ensures Sorted(a[..]) && multiset(a[..]) == multiset(old(a[..]))
  {
    for i := 0 to a.Length
      invariant multiset(a[..]) == multiset(old(a[..]))
      invariant forall p, q :: 0 <= p < i && p < q < a.Length ==> Leq(a[p], a[q])
    {
      ghost var was := a[..];
      SelectLeast(a, i);
      ghost var now := a[..];
      forall p, q | 0 <= p < i && p < q < a.Length ensures Leq(now[p], now[q]) {
        assert now[p] == was[..i][p];
        if q < i {
          assert now[q] == was[..i][q];
        } else {
          StillAbove(was[i..], now[i..], now[p]);
          assert now[q] == now[i..][q - i];
        }
      }
    }
  }

  /** A sorted permutation is unique, so the result is the same for every iteration order
      of the map the names came from. */
  lemma {:induction false} SortedUnique(s: seq<string>, t: seq<string>)
    requires Sorted(s) && Sorted(t) && multiset(s) == multiset(t)
    ensures s == t
    decreases |s|
  {
    assert |s| == |multiset(s)| == |multiset(t)| == |t|;
    if s != [] {
      LeastFirst(s, t);
      LeastFirst(t, s);
      LeqAntisymmetric(s[0], t[0]);
      TailMultiset(s);
      TailMultiset(t);
      SortedUnique(s[1..], t[1..]);
      assert s == [s[0]] + s[1..] && t == [t[0]] + t[1..];
    }
  }

  lemma LeastFirst(s: seq<string>, t: seq<string>)
    requires Sorted(s) && multiset(s) == multiset(t) && s != [] && t != []
    ensures Leq(s[0], t[0])
  {
    assert t[0] in multiset(t);
    assert t[0] in multiset(s);
    var j :| 0 <= j < |s| && s[j] == t[0];
    LeqReflexive(s[0]);
  }

  lemma {:induction false} LeqReflexive(a: string)
    ensures Leq(a, a)
    decreases |a|
  {
    if a != "" {
      LeqReflexive(a[1..]);
    }
  }

  lemma TailMultiset(s: seq<string>)
    requires s != []
    ensures multiset(s[1..]) == multiset(s) - multiset{s[0]}
  {
    assert s == [s[0]] + s[1..];
  }

  predicate IsSortOf(sorted: seq<string>, names: seq<string>) {
    Sorted(sorted) && multiset(sorted) == multiset(names)
  }

  function Tagged(names: seq<string>): seq<string> {
    seq(|names|, i requires 0 <= i < |names| => "ssh:" + names[i])
  }

  function Specs(sorted: seq<string>, k8s: bool): seq<string> {
    (["local"] + if k8s then ["k8s"] else []) + Tagged(sorted)
  }

  /** Two enumerations of the same targets give the same vantage list. */
  lemma OneOrder(n1: seq<string>, n2: seq<string>, s1: seq<string>, s2: seq<string>, k8s: bool)
    requires multiset(n1) == multiset(n2)
    requires IsSortOf(s1, n1) && IsSortOf(s2, n2)
    ensures Specs(s1, k8s) == Specs(s2, k8s)
  {
    SortedUnique(s1, s2);
  }

  /** The vantage list: local, k8s when reachable, then the targets in sorted order;
      whatever order the map handed the names out in. */
  method VantageSpecs(names: seq<string>, k8s: bool) returns (specs: seq<string>)
    ensures exists sorted :: IsSortOf(sorted, names) && specs == Specs(sorted, k8s)
    ensures forall order, sorted :: multiset(order) == multiset(names) && IsSortOf(sorted, order) ==>
        specs == Specs(sorted, k8s)
  {
    var a := new string[|names|](i requires 0 <= i < |names| => names[i]);
    assert a[..] == names;
    SortNames(a);
    specs := ["local"];
    if k8s {
      specs := specs + ["k8s"];
    }
    ghost var head := specs;
    for i := 0 to a.Length
      invariant specs == head + Tagged(a[..i])
      invariant Sorted(a[..]) && multiset(a[..]) == multiset(names)
    {
      specs := specs + ["ssh:" + a[i]];
      assert a[..i + 1][..i] == a[..i];
    }
    assert a[..a.Length] == a[..];
    assert IsSortOf(a[..], names) && specs == Specs(a[..], k8s);
    forall order, sorted | multiset(order) == multiset(names) && IsSortOf(sorted, order)
      ensures specs == Specs(sorted, k8s)
    {
      OneOrder(names, order, a[..], sorted, k8s);
    }
  }
}
