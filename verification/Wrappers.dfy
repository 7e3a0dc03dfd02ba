/** What several files need: an optional value, picking out of a list in order, the white
    space of strings.TrimSpace, and how the Forge server answers a delete call. */
module Wrappers {

  datatype Option<+T> = None | Some(value: T)

  /** `r` holds the elements of `s` at the indices `at`, which increase: picked out in the
      given order, none twice. */
  predicate Picks<T(==)>(r: seq<T>, s: seq<T>, at: seq<nat>) {
    && |at| == |r| <= |s|
    && (forall k :: 0 <= k < |at| ==> at[k] < |s| && r[k] == s[at[k]])
    && (forall j, k :: 0 <= j < k < |at| ==> at[j] < at[k])
  }

  /** One more element at the end of `s`, picked or not. */
  lemma PicksMore<T>(r: seq<T>, s: seq<T>, at: seq<nat>, x: T, keep: bool) returns (more: seq<nat>)
    requires Picks(r, s, at)
    ensures more == at + (if keep then [|s|] else [])
    ensures Picks(r + (if keep then [x] else []), s + [x], more)
    ensures forall i :: 0 <= i <= |s| ==> (i in more <==> if i == |s| then keep else i in at)
  {
    more := at + (if keep then [|s|] else []);
    assert forall i :: i in at ==> i < |s|;
    assert keep ==> more[|at|] == |s|;
    forall i | 0 <= i <= |s| ensures i in more <==> if i == |s| then keep else i in at {
    }
  }

  /** Picking every index picks everything. */
  lemma PicksAll<T>(r: seq<T>, s: seq<T>, at: seq<nat>)
    requires Picks(r, s, at) && forall i :: 0 <= i < |s| ==> i in at
    ensures r == s
  {
    AllIndices(at, |s|);
  }

  /** Increasing indices below n that leave none out are 0, 1, 2 and so on. */
  lemma {:induction false} AllIndices(at: seq<nat>, n: nat)
    requires |at| <= n && forall k :: 0 <= k < |at| ==> at[k] < n
    requires forall j, k :: 0 <= j < k < |at| ==> at[j] < at[k]
    requires forall i :: 0 <= i < n ==> i in at
    ensures |at| == n && forall k :: 0 <= k < n ==> at[k] == k
    decreases n
  {
    if n > 0 {
      assert n - 1 in at;
      var last := |at| - 1;
      var front := at[..last];
      assert at[last] == n - 1;
      forall i | 0 <= i < n - 1 ensures i in front {
        assert i in at;
      }
      AllIndices(front, n - 1);
    }
  }

  /** unicode.IsSpace. */
  predicate Space(c: char) {
    || c == ' ' || '\t' <= c <= '\r' || c == '\U{85}' || c == '\U{A0}' || c == '\U{1680}'
    || '\U{2000}' <= c <= '\U{200A}' || c == '\U{2028}' || c == '\U{2029}' || c == '\U{202F}' || c == '\U{205F}'
    || c == '\U{3000}'
  }

  /** A delete call gets through, or it answers with an error. `saysNotFound` tells whether
      the code takes that error for "not found": it does so for status 404, which a missing
      record gives and a missing route too, and for any other error whose text carries one of
      the not-found markers. `applied` tells whether the record is gone all the same. */
  datatype Deletion = Gone | Failed(saysNotFound: bool, applied: bool)
  {
    predicate Applied() { Gone? || applied }

    /** Whether the code counts the call as a success. */
    predicate Tolerated() { Gone? || saysNotFound }

    /** A success that left the record where it was. */
    predicate Misled() { Tolerated() && !Applied() }
  }
}
