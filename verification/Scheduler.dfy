/** The scenario scheduler behind `scenarios run --all`: Kahn's algorithm over
    scenario names, its error set, the "core-file-collection goes last" step and
    the fail-fast run loop. */
module Scheduler {
  import opened Wrappers

  datatype Scenario = Scenario(name: string, deps: seq<string>)

  datatype Outcome<+T, +E> = Ok(value: T) | Err(error: E)

  const CORE_FILES := "core-file-collection"

  function Names(s: seq<Scenario>): seq<string> {
    seq(|s|, i requires 0 <= i < |s| => s[i].name)
  }

  function NameSet(s: seq<Scenario>): set<string> {
    set x | x in s :: x.name
  }

  predicate Distinct<T(==)>(s: seq<T>) {
    forall i, j :: 0 <= i < j < |s| ==> s[i] != s[j]
  }

  lemma DistinctAppend<T>(a: seq<T>, b: seq<T>)
    requires Distinct(a) && Distinct(b)
    requires forall x :: x in b ==> x !in a
    ensures Distinct(a + b)
  {
    forall i, j | 0 <= i < j < |a + b| ensures (a + b)[i] != (a + b)[j] {
      if i < |a| <= j {
        assert b[j - |a|] in b;
      }
    }
  }

  /** No two registered scenarios share a name. */
  predicate DistinctNames(s: seq<Scenario>) {
    forall i, j :: 0 <= i < j < |s| ==> s[i].name != s[j].name
  }

  /** The process-wide registry. Registering a taken name panics, which is why the
      list handed to the scheduler has distinct names. */
  class Registry {
    var scenarios: seq<Scenario>

    constructor ()
      ensures scenarios == []
    {
      scenarios := [];
    }

    method Register(s: Scenario) returns (panicked: bool)
      requires DistinctNames(scenarios)
      modifies this
      ensures DistinctNames(scenarios)
      ensures panicked <==> s.name in NameSet(old(scenarios))
      ensures scenarios == if panicked then old(scenarios) else old(scenarios) + [s]
    {
      for i := 0 to |scenarios|
        invariant forall k :: 0 <= k < i ==> scenarios[k].name != s.name
        invariant scenarios == old(scenarios)
      {
        if scenarios[i].name == s.name {
          return true;
        }
      }
      scenarios := scenarios + [s];
      panicked := false;
    }
  }

  // ---------------------------------------------------------------------------
  // The reference notion: walks along dependencies
  // ---------------------------------------------------------------------------

  predicate Edge(all: seq<Scenario>, a: string, b: string) {
    exists s :: s in all && s.name == a && b in s.deps
  }

  predicate Walk(all: seq<Scenario>, p: seq<string>) {
    |p| > 0 && forall i :: 0 <= i < |p| - 1 ==> Edge(all, p[i], p[i + 1])
  }

  /** The walk ends at an unregistered name, or at a name it has visited before
      (that is, it has closed a cycle). */
  predicate Dead(all: seq<Scenario>, p: seq<string>)
    requires |p| > 0
  {
    var last := p[|p| - 1];
    last !in NameSet(all) || last in p[..|p| - 1]
  }

  /** `n` can reach, through dependencies, a cycle or an unregistered name. */
  ghost predicate Doomed(all: seq<Scenario>, n: string) {
    exists p :: Walk(all, p) && p[0] == n && Dead(all, p)
  }

  /** The doomed names of `s`, in order. */
  ghost function DoomedNames(all: seq<Scenario>, s: seq<Scenario>): seq<string> {
    if s == [] then []
    else DoomedNames(all, s[..|s| - 1]) + if Doomed(all, s[|s| - 1].name) then [s[|s| - 1].name] else []
  }

  /** The names are those of the doomed scenarios, in registration order. */
  ghost predicate NamesDoomed(all: seq<Scenario>, names: seq<string>) {
    exists at :: Picks(names, Names(all), at)
                 && forall i :: 0 <= i < |all| ==> (i in at <==> Doomed(all, all[i].name))
  }

  lemma {:induction false} DoomedPicks(all: seq<Scenario>, s: seq<Scenario>) returns (at: seq<nat>)
    ensures Picks(DoomedNames(all, s), Names(s), at)
    ensures forall i :: 0 <= i < |s| ==> (i in at <==> Doomed(all, s[i].name))
    decreases |s|
  {
    if s == [] {
      at := [];
    } else {
      var init, last := s[..|s| - 1], s[|s| - 1];
      var front := DoomedPicks(all, init);
      at := PicksMore(DoomedNames(all, init), Names(init), front, last.name, Doomed(all, last.name));
      assert Names(init) + [last.name] == Names(s);
    }
  }

  lemma DoomedInOrder(all: seq<Scenario>)
    ensures NamesDoomed(all, DoomedNames(all, all))
  {
    var at := DoomedPicks(all, all);
  }

  /** Every dependency of every element stands before that element. */
  predicate DepOrdered(s: seq<Scenario>) {
    forall i, d :: 0 <= i < |s| && d in s[i].deps ==> d in NameSet(s[..i])
  }

  // ---------------------------------------------------------------------------
  // Counting dependency entries (Dependencies() may repeat a name)
  // ---------------------------------------------------------------------------

  /** How many entries of `deps` are not done yet. */
  function Remaining(deps: seq<string>, done: set<string>): nat {
    if deps == [] then 0
    else Remaining(deps[..|deps| - 1], done) + if deps[|deps| - 1] in done then 0 else 1
  }

  function Occurrences(deps: seq<string>, n: string): nat {
    if deps == [] then 0
    else Occurrences(deps[..|deps| - 1], n) + if deps[|deps| - 1] == n then 1 else 0
  }

  lemma {:induction false} RemainingZero(deps: seq<string>, done: set<string>)
    ensures Remaining(deps, done) == 0 <==> forall d :: d in deps ==> d in done
  {
    if deps != [] {
      RemainingZero(deps[..|deps| - 1], done);
      assert deps == deps[..|deps| - 1] + [deps[|deps| - 1]];
    }
  }

  lemma {:induction false} RemainingNoneDone(deps: seq<string>)
    ensures Remaining(deps, {}) == |deps|
  {
    if deps != [] {
      RemainingNoneDone(deps[..|deps| - 1]);
    }
  }

  lemma {:induction false} RemainingStep(deps: seq<string>, done: set<string>, n: string)
    requires n !in done
    ensures Remaining(deps, done) == Remaining(deps, done + {n}) + Occurrences(deps, n)
  {
    if deps != [] {
      RemainingStep(deps[..|deps| - 1], done, n);
    }
  }

  // ---------------------------------------------------------------------------
  // Completeness of the error set
  // ---------------------------------------------------------------------------

  /** Every undone name has an undone or unregistered dependency. */
  predicate Stuck(all: seq<Scenario>, done: set<string>) {
    forall s :: s in all && s.name !in done ==> exists d :: d in s.deps && d !in done
  }

  /** Registered names a walk has not visited yet. */
  function Unvisited(all: seq<Scenario>, p: seq<string>): set<string> {
    set n | n in NameSet(all) && n !in p
  }

  /** A walk over undone, registered, pairwise different names. */
  ghost predicate OpenWalk(all: seq<Scenario>, done: set<string>, p: seq<string>) {
    Walk(all, p) && Distinct(p) && forall n :: n in p ==> n in NameSet(all) && n !in done
  }

  /** A stuck walk goes on by one name; that name is dead, or fresh. */
  lemma StuckStep(all: seq<Scenario>, done: set<string>, p: seq<string>) returns (q: seq<string>)
    requires Stuck(all, done) && OpenWalk(all, done, p)
    ensures Walk(all, q) && q[0] == p[0]
    ensures Dead(all, q) || (OpenWalk(all, done, q) && Unvisited(all, q) < Unvisited(all, p))
  {
    var last := p[|p| - 1];
    assert last in p;
    var s :| s in all && s.name == last;
    var d :| d in s.deps && d !in done;
    assert Edge(all, last, d);
    WalkExtend(all, p, d);
    q := p + [d];
    assert q[..|q| - 1] == p;
    if d in NameSet(all) && d !in p {
      DistinctAppend(p, [d]);
      assert d in Unvisited(all, p) && d !in Unvisited(all, q);
    }
  }

  /** From a stuck name one can keep walking through undone names; the registered
      undone names are finitely many, so the walk leaves the registry or repeats. */
  lemma {:induction false} StuckWalk(all: seq<Scenario>, done: set<string>, p: seq<string>)
    requires Stuck(all, done) && OpenWalk(all, done, p)
    ensures exists q :: Walk(all, q) && q[0] == p[0] && Dead(all, q)
    decreases Unvisited(all, p)
  {
    var q := StuckStep(all, done, p);
    if !Dead(all, q) {
      StuckWalk(all, done, q);
    }
  }

  lemma WalkExtend(all: seq<Scenario>, p: seq<string>, d: string)
    requires Walk(all, p) && Edge(all, p[|p| - 1], d)
    ensures Walk(all, p + [d])
  {
    var q := p + [d];
    forall i | 0 <= i < |q| - 1 ensures Edge(all, q[i], q[i + 1]) {
      if i < |p| - 1 {
        assert Edge(all, p[i], p[i + 1]);
      }
    }
  }

  lemma WalkSuffix(all: seq<Scenario>, p: seq<string>, i: nat)
    requires Walk(all, p) && i < |p|
    ensures Walk(all, p[i..])
  {
    forall j | 0 <= j < |p[i..]| - 1 ensures Edge(all, p[i..][j], p[i..][j + 1]) {
      assert Edge(all, p[i + j], p[i + j + 1]);
    }
  }

  /** Conversely, walks from a dependency-ordered prefix go strictly left, so they
      never leave the prefix and never repeat. */
  lemma {:induction false} OrderedWalk(all: seq<Scenario>, sorted: seq<Scenario>, p: seq<string>, k: nat)
    requires DistinctNames(all) && DepOrdered(sorted)
    requires forall s :: s in sorted ==> s in all
    requires Walk(all, p) && k < |sorted| && sorted[k].name == p[0]
    ensures forall i :: 0 <= i < |p| ==> p[i] in NameSet(sorted[..k + 1])
    ensures forall i :: 0 < i < |p| ==> p[i] in NameSet(sorted[..k])
    decreases |p|
  {
    assert sorted[k] in sorted[..k + 1];
    if |p| > 1 {
      assert Edge(all, p[0], p[1]);
      var s :| s in all && s.name == p[0] && p[1] in s.deps;
      assert s == sorted[k] by { assert sorted[k] in all; }
      assert p[1] in NameSet(sorted[..k]);
      var t :| t in sorted[..k] && t.name == p[1];
      var m :| 0 <= m < k && sorted[m] == t;
      var tail := p[1..];
      WalkSuffix(all, p, 1);
      OrderedWalk(all, sorted, tail, m);
      forall i | 0 < i < |p| ensures p[i] in NameSet(sorted[..k]) {
        assert p[i] == tail[i - 1];
        assert forall x :: x in sorted[..m + 1] ==> x in sorted[..k];
      }
      assert forall x :: x in sorted[..k] ==> x in sorted[..k + 1];
    }
  }

  lemma {:induction false} OrderedNotDoomed(all: seq<Scenario>, sorted: seq<Scenario>, k: nat)
    requires DistinctNames(all) && DepOrdered(sorted) && DistinctNames(sorted)
    requires forall s :: s in sorted ==> s in all
    requires k < |sorted|
    ensures !Doomed(all, sorted[k].name)
  {
    forall p | Walk(all, p) && p[0] == sorted[k].name
      ensures !Dead(all, p)
    {
      OrderedWalk(all, sorted, p, k);
      var last := p[|p| - 1];
      assert last in NameSet(all);
      if last in p[..|p| - 1] {
        var i :| 0 <= i < |p| - 1 && p[i] == last;
        // Restart the walk at the first visit: the second visit must be strictly earlier.
        var t :| t in sorted[..k + 1] && t.name == last;
        var m :| 0 <= m < k + 1 && sorted[m] == t;
        var tail := p[i..];
        WalkSuffix(all, p, i);
        OrderedWalk(all, sorted, tail, m);
        assert false;
      }
    }
  }

  /** When Kahn's loop stops, exactly the doomed names are missing. */
  lemma {:induction false} MissingIffDoomed(all: seq<Scenario>, sorted: seq<Scenario>, s: Scenario)
    requires DistinctNames(all) && DepOrdered(sorted) && DistinctNames(sorted)
    requires forall x :: x in sorted ==> x in all
    requires Stuck(all, NameSet(sorted))
    requires s in all
    ensures s.name !in NameSet(sorted) <==> Doomed(all, s.name)
  {
    if s.name in NameSet(sorted) {
      var t :| t in sorted && t.name == s.name;
      var k :| 0 <= k < |sorted| && sorted[k] == t;
      OrderedNotDoomed(all, sorted, k);
    } else {
      assert Walk(all, [s.name]);
      StuckWalk(all, NameSet(sorted), [s.name]);
    }
  }

  // ---------------------------------------------------------------------------
  // Cardinalities
  // ---------------------------------------------------------------------------

  lemma {:induction false} NameSetSize(s: seq<Scenario>)
    requires DistinctNames(s)
    ensures |NameSet(s)| == |s|
  {
    if s != [] {
      var init, last := s[..|s| - 1], s[|s| - 1];
      NameSetSize(init);
      assert s == init + [last];
      assert NameSet(s) == NameSet(init) + {last.name};
    }
  }

  /** Distinct sequences over the same elements are permutations of each other. */
  lemma {:induction false} SameElements(a: seq<Scenario>, b: seq<Scenario>)
    requires Distinct(a) && Distinct(b)
    requires forall x :: x in a <==> x in b
    ensures multiset(a) == multiset(b)
  {
    forall x ensures multiset(a)[x] == multiset(b)[x] {
      OnceIn(a, x);
      OnceIn(b, x);
    }
  }

  lemma {:induction false} OnceIn(a: seq<Scenario>, x: Scenario)
    requires Distinct(a)
    ensures multiset(a)[x] == if x in a then 1 else 0
  {
    if a != [] {
      var init, last := a[..|a| - 1], a[|a| - 1];
      OnceIn(init, x);
      assert a == init + [last];
    }
  }

  // ---------------------------------------------------------------------------
  // core-file-collection goes last
  // ---------------------------------------------------------------------------

  /** All scenarios but core-file-collection, in order. */
  function WithoutCore(s: seq<Scenario>): seq<Scenario> {
    if s == [] then []
    else WithoutCore(s[..|s| - 1]) + if s[|s| - 1].name == CORE_FILES then [] else [s[|s| - 1]]
  }

  /** The last core-file-collection entry of `s`, if any. */
  function CoreOf(s: seq<Scenario>): seq<Scenario> {
    if s == [] then []
    else if s[|s| - 1].name == CORE_FILES then [s[|s| - 1]]
    else CoreOf(s[..|s| - 1])
  }

  function CoreLast(s: seq<Scenario>): seq<Scenario> {
    WithoutCore(s) + CoreOf(s)
  }

  /** The rearrangement, outright: everything but core-file-collection in the order it had,
      and then core-file-collection, if it is there. */
  ghost predicate MovedLast(s: seq<Scenario>, moved: seq<Scenario>) {
    exists at, rest, core :: CoreMoved(s, moved, at, rest, core)
  }

  predicate CoreMoved(
    s: seq<Scenario>, moved: seq<Scenario>, at: seq<nat>, rest: seq<Scenario>, core: seq<Scenario>)
  {
    && Picks(rest, s, at) && moved == rest + core && |core| <= 1
    && (forall x :: x in core ==> x in s && x.name == CORE_FILES)
    && (forall i :: 0 <= i < |s| ==> (i in at <==> s[i].name != CORE_FILES))
  }

  lemma {:induction false} WithoutCorePicks(s: seq<Scenario>) returns (at: seq<nat>)
    ensures Picks(WithoutCore(s), s, at)
    ensures forall i :: 0 <= i < |s| ==> (i in at <==> s[i].name != CORE_FILES)
    decreases |s|
  {
    if s == [] {
      at := [];
    } else {
      var init, last := s[..|s| - 1], s[|s| - 1];
      var front := WithoutCorePicks(init);
      at := PicksMore(WithoutCore(init), init, front, last, last.name != CORE_FILES);
      assert init + [last] == s;
    }
  }

  lemma CoreLastMoves(s: seq<Scenario>)
    ensures MovedLast(s, CoreLast(s))
  {
    var at := WithoutCorePicks(s);
    CoreOfMembers(s);
    assert CoreMoved(s, CoreLast(s), at, WithoutCore(s), CoreOf(s));
  }

  lemma {:induction false} WithoutCoreMembers(s: seq<Scenario>, x: Scenario)
    ensures x in WithoutCore(s) <==> x in s && x.name != CORE_FILES
  {
    if s != [] {
      WithoutCoreMembers(s[..|s| - 1], x);
      assert s == s[..|s| - 1] + [s[|s| - 1]];
    }
  }

  lemma {:induction false} CoreOfMembers(s: seq<Scenario>)
    ensures |CoreOf(s)| <= 1
    ensures CoreOf(s) == [] <==> CORE_FILES !in NameSet(s)
    ensures CoreOf(s) != [] ==> CoreOf(s)[0] in s && CoreOf(s)[0].name == CORE_FILES
  {
    if s != [] {
      CoreOfMembers(s[..|s| - 1]);
      assert s == s[..|s| - 1] + [s[|s| - 1]];
    }
  }

  /** Relative order survives: each element of WithoutCore(s) comes from an index of
      `s`, and everything before it there is kept before it here. */
  lemma {:induction false} WithoutCoreOrder(s: seq<Scenario>, i: nat) returns (k: nat)
    requires i < |WithoutCore(s)|
    ensures k < |s| && s[k] == WithoutCore(s)[i]
    ensures WithoutCore(s)[..i] == WithoutCore(s[..k])
  {
    var init := s[..|s| - 1];
    if i < |WithoutCore(init)| {
      k := WithoutCoreOrder(init, i);
      assert init[..k] == s[..k];
    } else {
      k := |s| - 1;
    }
  }

  lemma {:induction false} WithoutCoreDistinct(s: seq<Scenario>)
    requires DistinctNames(s)
    ensures DistinctNames(WithoutCore(s))
  {
    if s != [] {
      WithoutCoreDistinct(s[..|s| - 1]);
      forall x | x in WithoutCore(s[..|s| - 1]) ensures x.name != s[|s| - 1].name {
        WithoutCoreMembers(s[..|s| - 1], x);
      }
    }
  }

  /** Moving core-file-collection last only permutes. */
  lemma {:induction false} CoreLastPermutes(s: seq<Scenario>)
    requires DistinctNames(s)
    ensures DistinctNames(CoreLast(s))
    ensures multiset(CoreLast(s)) == multiset(s)
  {
    WithoutCoreDistinct(s);
    CoreOfMembers(s);
    forall x ensures x in CoreLast(s) <==> x in s {
      WithoutCoreMembers(s, x);
      if x.name == CORE_FILES && x in s {
        assert CoreOf(s)[0] == x;
      }
    }
    forall x | x in WithoutCore(s) ensures x.name != CORE_FILES {
      WithoutCoreMembers(s, x);
    }
    SameElements(CoreLast(s), s);
  }

  /** The rearrangement keeps every dependency but core-file-collection first. */
  lemma {:induction false} CoreLastOrdered(s: seq<Scenario>, i: nat, d: string)
    requires DistinctNames(s) && DepOrdered(s)
    requires i < |CoreLast(s)| && d in CoreLast(s)[i].deps && d != CORE_FILES
    ensures d in NameSet(CoreLast(s)[..i])
  {
    var f := CoreLast(s);
    var k: nat;
    CoreOfMembers(s);
    if i < |WithoutCore(s)| {
      k := WithoutCoreOrder(s, i);
      assert f[..i] == WithoutCore(s[..k]);
    } else {
      k :| 0 <= k < |s| && s[k] == f[i];
      assert f[..i] == WithoutCore(s);
    }
    assert s[k] == f[i];
    assert s[k] in s;
    assert d in NameSet(s[..k]);
    var t :| t in s[..k] && t.name == d;
    WithoutCoreMembers(s[..k], t);
    WithoutCoreMembers(s, t);
    assert t in f[..i];
  }

  /** Nothing before another scenario in the final order is core-file-collection. */
  lemma CoreNotBefore(sorted: seq<Scenario>, i: nat)
    requires i < |CoreLast(sorted)|
    ensures CORE_FILES !in NameSet(CoreLast(sorted)[..i])
  {
    CoreOfMembers(sorted);
    forall x | x in CoreLast(sorted)[..i] ensures x.name != CORE_FILES {
      assert x in WithoutCore(sorted);
      WithoutCoreMembers(sorted, x);
    }
  }

  /** A front part of the final order is dependency-ordered if and only if nothing in it
      depends on core-file-collection. */
  lemma FrontOrderedIff(sorted: seq<Scenario>, k: nat)
    requires DistinctNames(sorted) && DepOrdered(sorted) && k <= |CoreLast(sorted)|
    ensures DepOrdered(CoreLast(sorted)[..k]) <==> forall x :: x in CoreLast(sorted)[..k] ==> CORE_FILES !in x.deps
  {
    var front := CoreLast(sorted)[..k];
    if forall x :: x in front ==> CORE_FILES !in x.deps {
      forall i, d | 0 <= i < k && d in front[i].deps ensures d in NameSet(front[..i]) {
        assert front[i] in front && front[..i] == CoreLast(sorted)[..i];
        CoreLastOrdered(sorted, i, d);
      }
    } else {
      var i :| 0 <= i < k && CORE_FILES in front[i].deps;
      CoreNotBefore(sorted, i);
      assert front[..i] == CoreLast(sorted)[..i];
    }
  }

  /** The rearrangement keeps dependencies first exactly when nothing depends on
      core-file-collection. */
  lemma CoreLastKeepsOrder(s: seq<Scenario>)
    requires DistinctNames(s) && DepOrdered(s)
    ensures DepOrdered(CoreLast(s)) <==> forall x :: x in s ==> CORE_FILES !in x.deps
  {
    FrontOrderedIff(s, |CoreLast(s)|);
    assert CoreLast(s)[..|CoreLast(s)|] == CoreLast(s);
    CoreLastPermutes(s);
    SameMembers(CoreLast(s), s);
  }

  // ---------------------------------------------------------------------------
  // topoSort
  // ---------------------------------------------------------------------------

  /** The entries of one scenario: its own count is their number, and names not seen before
      are tracked at 0. */
  method CountEntries(s: Scenario, inDegree: map<string, int>) returns (inDegree': map<string, int>)
    requires s.name in inDegree ==> inDegree[s.name] == 0
    ensures s.name in inDegree' && inDegree'[s.name] == |s.deps|
    ensures forall d :: d in s.deps ==> d in inDegree'
    ensures forall n :: n in inDegree && n != s.name ==> n in inDegree' && inDegree'[n] == inDegree[n]
    ensures forall n :: n in inDegree' && n !in inDegree && n != s.name ==> inDegree'[n] == 0
  {
    inDegree' := inDegree;
    if s.name !in inDegree' {
      inDegree' := inDegree'[s.name := 0];
    }
    for j := 0 to |s.deps|
      invariant s.name in inDegree' && inDegree'[s.name] == j
      invariant forall d :: d in s.deps[..j] ==> d in inDegree'
      invariant forall n :: n in inDegree && n != s.name ==> n in inDegree' && inDegree'[n] == inDegree[n]
      invariant forall n :: n in inDegree' && n !in inDegree && n != s.name ==> inDegree'[n] == 0
    {
      var dep := s.deps[j];
      inDegree' := inDegree'[s.name := inDegree'[s.name] + 1];
      if dep !in inDegree' {
        inDegree' := inDegree'[dep := 0];
      }
    }
    assert s.deps[..|s.deps|] == s.deps;
  }

  /** In-degree of every registered name is its number of dependency entries;
      names that only occur as dependencies are tracked at 0. */
  method BuildInDegree(all: seq<Scenario>) returns (inDegree: map<string, int>)
    requires DistinctNames(all)
    ensures forall s :: s in all ==> s.name in inDegree && inDegree[s.name] == |s.deps|
    ensures forall s, d :: s in all && d in s.deps ==> d in inDegree
    ensures forall n :: n in inDegree && n !in NameSet(all) ==> inDegree[n] == 0
  {
    inDegree := map[];
    for i := 0 to |all|
      invariant forall k :: 0 <= k < i ==> all[k].name in inDegree && inDegree[all[k].name] == |all[k].deps|
      invariant forall k, d :: 0 <= k < i && d in all[k].deps ==> d in inDegree
      invariant forall n :: n in inDegree && n !in NameSet(all[..i]) ==> inDegree[n] == 0
    {
      forall t | t in all[..i] ensures t.name != all[i].name {
        var k :| 0 <= k < i && all[k] == t;
      }
      inDegree := CountEntries(all[i], inDegree);
      assert all[..i + 1] == all[..i] + [all[i]];
    }
    assert all[..|all|] == all;
  }

  /** The names finishing `name` releases: all their other entries are done and at
      least one entry is `name`. In registration order, each once. */
  function Released(s: seq<Scenario>, done: set<string>, name: string): seq<string> {
    if s == [] then []
    else
      var c := s[|s| - 1];
      Released(s[..|s| - 1], done, name)
      + if name in c.deps && Remaining(c.deps, done + {name}) == 0 then [c.name] else []
  }

  lemma {:induction false} ReleasedMembers(s: seq<Scenario>, done: set<string>, name: string)
    ensures forall n :: n in Released(s, done, name) <==>
              exists c :: c in s && c.name == n && name in c.deps && Remaining(c.deps, done + {name}) == 0
  {
    if s != [] {
      ReleasedMembers(s[..|s| - 1], done, name);
      assert s == s[..|s| - 1] + [s[|s| - 1]];
    }
  }

  lemma {:induction false} ReleasedDistinct(s: seq<Scenario>, done: set<string>, name: string)
    requires DistinctNames(s)
    ensures Distinct(Released(s, done, name))
  {
    if s != [] {
      var init, c := s[..|s| - 1], s[|s| - 1];
      ReleasedDistinct(init, done, name);
      ReleasedMembers(init, done, name);
      forall t | t in init ensures t.name != c.name {
        var k :| 0 <= k < |init| && init[k] == t;
      }
      var tail := if name in c.deps && Remaining(c.deps, done + {name}) == 0 then [c.name] else [];
      DistinctAppend(Released(init, done, name), tail);
    }
  }

  lemma {:induction false} OccurrencesZero(deps: seq<string>, n: string)
    ensures Occurrences(deps, n) == 0 <==> n !in deps
  {
    if deps != [] {
      OccurrencesZero(deps[..|deps| - 1], n);
      assert deps == deps[..|deps| - 1] + [deps[|deps| - 1]];
    }
  }

  lemma {:induction false} OccurrencesPrefix(deps: seq<string>, n: string, j: nat)
    requires j <= |deps|
    ensures Occurrences(deps[..j], n) <= Occurrences(deps, n)
    ensures j < |deps| && deps[j] == n ==> Occurrences(deps[..j], n) < Occurrences(deps, n)
  {
    if j == |deps| {
      assert deps[..j] == deps;
    } else {
      OccurrencesPrefix(deps[..|deps| - 1], n, j);
      assert deps[..|deps| - 1][..j] == deps[..j];
    }
  }

  /** What scanning the first j entries of c queues: its name, once the last undone one is
      met. */
  function Zeroed(c: Scenario, name: string, done: set<string>, j: nat): seq<string>
    requires j <= |c.deps|
  {
    var met := Occurrences(c.deps[..j], name);
    if met > 0 && met == Remaining(c.deps, done) then [c.name] else []
  }

  lemma ZeroedNext(c: Scenario, name: string, done: set<string>, j: nat)
    requires j < |c.deps| && name !in done
    ensures var met := Occurrences(c.deps[..j], name);
            && Occurrences(c.deps[..j + 1], name) == met + (if c.deps[j] == name then 1 else 0)
            && Zeroed(c, name, done, j + 1) ==
                 Zeroed(c, name, done, j)
                 + if c.deps[j] == name && Remaining(c.deps, done) == met + 1 then [c.name] else []
  {
    assert c.deps[..j + 1][..j] == c.deps[..j];
    OccurrencesPrefix(c.deps, name, j);
    RemainingStep(c.deps, done, name);
  }

  /** The inner scan for one candidate: one decrement per matching entry; the name
      is queued exactly when its count passes through 0. */
  method RelaxOne(c: Scenario, name: string, ghost done: set<string>,
                  inDegree: map<string, int>, queue: seq<string>)
    returns (inDegree': map<string, int>, queue': seq<string>)
    requires name !in done
    requires c.name in inDegree && inDegree[c.name] == Remaining(c.deps, done)
    ensures inDegree' == inDegree[c.name := Remaining(c.deps, done + {name})]
    ensures queue' == queue + Released([c], done, name)
  {
    inDegree', queue' := inDegree, queue;
    assert c.deps[..0] == [];
    for j := 0 to |c.deps|
      invariant inDegree' == inDegree[c.name := Remaining(c.deps, done) - Occurrences(c.deps[..j], name)]
      invariant queue' == queue + Zeroed(c, name, done, j)
    {
      ZeroedNext(c, name, done, j);
      if c.deps[j] == name {
        inDegree' := inDegree'[c.name := inDegree'[c.name] - 1];
        if inDegree'[c.name] == 0 {
          queue' := queue' + [c.name];
        }
      }
    }
    ZeroedAll(c, name, done);
  }

  lemma ZeroedAll(c: Scenario, name: string, done: set<string>)
    requires name !in done
    ensures Zeroed(c, name, done, |c.deps|) == Released([c], done, name)
    ensures Remaining(c.deps, done) - Occurrences(c.deps[..|c.deps|], name) == Remaining(c.deps, done + {name})
  {
    assert c.deps[..|c.deps|] == c.deps && [c][..0] == [];
    RemainingStep(c.deps, done, name);
    OccurrencesZero(c.deps, name);
  }

  /** One pass over all candidates after `name` has been sorted. */
  method Relax(all: seq<Scenario>, name: string, ghost done: set<string>,
               inDegree: map<string, int>, queue: seq<string>)
    returns (inDegree': map<string, int>, queue': seq<string>)
    requires DistinctNames(all) && name !in done
    requires forall s :: s in all ==> s.name in inDegree && inDegree[s.name] == Remaining(s.deps, done)
    ensures forall s :: s in all ==> s.name in inDegree' && inDegree'[s.name] == Remaining(s.deps, done + {name})
    ensures queue' == queue + Released(all, done, name)
  {
    inDegree', queue' := inDegree, queue;
    for i := 0 to |all|
      invariant forall k :: 0 <= k < i ==>
        all[k].name in inDegree' && inDegree'[all[k].name] == Remaining(all[k].deps, done + {name})
      invariant forall k :: i <= k < |all| ==>
        all[k].name in inDegree' && inDegree'[all[k].name] == Remaining(all[k].deps, done)
      invariant queue' == queue + Released(all[..i], done, name)
    {
      inDegree', queue' := RelaxOne(all[i], name, done, inDegree', queue');
      assert all[..i + 1][..i] == all[..i] && [all[i]][..0] == [];
    }
    assert all[..|all|] == all;
  }

  /** The names queued so far: distinct (so no name is queued twice), registered (so
      the "unregistered, skip" branch is never taken), and exactly those with no
      undone dependency left. */
  ghost predicate Queued(all: seq<Scenario>, done: set<string>, enqueued: seq<string>) {
    && Distinct(enqueued)
    && (forall n :: n in enqueued ==> n in NameSet(all))
    && (forall s :: s in all ==> (s.name in enqueued <==> Remaining(s.deps, done) == 0))
  }

  /** The scenarios sorted so far. */
  ghost predicate Sorted(all: seq<Scenario>, sorted: seq<Scenario>) {
    && (forall s :: s in sorted ==> s in all)
    && DistinctNames(sorted) && DepOrdered(sorted)
  }

  /** All dependencies of the scenarios of that name stand among the first t sorted ones. */
  predicate Ready(all: seq<Scenario>, sorted: seq<Scenario>, n: string, t: int)
    requires 0 <= t <= |sorted|
  {
    forall s, d :: s in all && s.name == n && d in s.deps ==> d in NameSet(sorted[..t])
  }

  /** m becomes ready no later than n. */
  predicate NoLater(all: seq<Scenario>, sorted: seq<Scenario>, m: string, n: string) {
    forall t :: 0 <= t <= |sorted| && Ready(all, sorted, n, t) ==> Ready(all, sorted, m, t)
  }

  predicate RegisteredBefore(all: seq<Scenario>, m: string, n: string) {
    exists i, j :: 0 <= i < j < |all| && all[i].name == m && all[j].name == n
  }

  /** m has its turn before n: it becomes ready earlier, or at the same time and is
      registered first. */
  predicate InTurn(all: seq<Scenario>, sorted: seq<Scenario>, m: string, n: string) {
    NoLater(all, sorted, m, n) && (NoLater(all, sorted, n, m) ==> RegisteredBefore(all, m, n))
  }

  /** First in, first out. */
  predicate Fifo(all: seq<Scenario>, sorted: seq<Scenario>, names: seq<string>) {
    forall a, b :: 0 <= a < b < |names| ==> InTurn(all, sorted, names[a], names[b])
  }

  lemma ReadyStays(all: seq<Scenario>, sorted: seq<Scenario>, n: string, t: nat, u: nat)
    requires t <= u <= |sorted| && Ready(all, sorted, n, t)
    ensures Ready(all, sorted, n, u)
  {
    forall d | d in NameSet(sorted[..t]) ensures d in NameSet(sorted[..u]) {
      var x :| x in sorted[..t] && x.name == d;
      assert x in sorted[..u];
    }
  }

  /** Readiness speaks of the front only, so sorting one more leaves it as it was. */
  lemma ReadySame(all: seq<Scenario>, sorted: seq<Scenario>, s: Scenario, n: string, t: nat)
    requires t <= |sorted|
    ensures Ready(all, sorted + [s], n, t) <==> Ready(all, sorted, n, t)
  {
    assert (sorted + [s])[..t] == sorted[..t];
  }

  lemma ReadyIff(all: seq<Scenario>, sorted: seq<Scenario>, x: Scenario, t: nat)
    requires DistinctNames(all) && x in all && t <= |sorted|
    ensures Ready(all, sorted, x.name, t) <==> Remaining(x.deps, NameSet(sorted[..t])) == 0
  {
    RemainingZero(x.deps, NameSet(sorted[..t]));
    forall s | s in all && s.name == x.name ensures s == x {
      var i :| 0 <= i < |all| && all[i] == s;
      var j :| 0 <= j < |all| && all[j] == x;
      assert all[i].name == all[j].name;
    }
  }

  /** Two names queued before stay in turn. */
  lemma OldInTurn(all: seq<Scenario>, sorted: seq<Scenario>, s: Scenario, m: string, n: string)
    requires InTurn(all, sorted, m, n) && Ready(all, sorted, m, |sorted|)
    ensures InTurn(all, sorted + [s], m, n)
  {
    var more := sorted + [s];
    ReadySame(all, sorted, s, m, |sorted|);
    ReadyStays(all, more, m, |sorted|, |more|);
    forall t | 0 <= t <= |sorted|
      ensures Ready(all, more, m, t) <==> Ready(all, sorted, m, t)
      ensures Ready(all, more, n, t) <==> Ready(all, sorted, n, t)
    {
      ReadySame(all, sorted, s, m, t);
      ReadySame(all, sorted, s, n, t);
    }
    forall t | 0 <= t <= |more| && Ready(all, more, n, t) ensures Ready(all, more, m, t) {
    }
    if NoLater(all, more, n, m) {
      forall t | 0 <= t <= |sorted| && Ready(all, sorted, m, t) ensures Ready(all, sorted, n, t) {
        assert Ready(all, more, m, t);
      }
    }
  }

  /** A name queued before has its turn before one released now. */
  lemma NewAfterOld(all: seq<Scenario>, sorted: seq<Scenario>, s: Scenario, m: string, n: string)
    requires Ready(all, sorted, m, |sorted|) && !Ready(all, sorted, n, |sorted|)
    ensures InTurn(all, sorted + [s], m, n)
  {
    var more := sorted + [s];
    ReadySame(all, sorted, s, m, |sorted|);
    ReadySame(all, sorted, s, n, |sorted|);
    ReadyStays(all, more, m, |sorted|, |more|);
    forall t | 0 <= t <= |more| && Ready(all, more, n, t) ensures Ready(all, more, m, t) {
      if t <= |sorted| {
        ReadyStays(all, more, n, t, |sorted|);
      }
    }
  }

  /** Two names released at the same time are in turn if registered in this order. */
  lemma NewInTurn(all: seq<Scenario>, sorted: seq<Scenario>, s: Scenario, m: string, n: string)
    requires !Ready(all, sorted, n, |sorted|) && Ready(all, sorted + [s], m, |sorted| + 1)
    requires RegisteredBefore(all, m, n)
    ensures InTurn(all, sorted + [s], m, n)
  {
    var more := sorted + [s];
    ReadySame(all, sorted, s, n, |sorted|);
    forall t | 0 <= t <= |more| && Ready(all, more, n, t) ensures Ready(all, more, m, t) {
      if t <= |sorted| {
        ReadyStays(all, more, n, t, |sorted|);
      }
    }
  }

  /** What finishing a scenario releases, it releases in registration order. */
  lemma {:induction false} ReleasedInOrder(s: seq<Scenario>, done: set<string>, name: string, a: nat, b: nat)
    requires a < b < |Released(s, done, name)|
    ensures RegisteredBefore(s, Released(s, done, name)[a], Released(s, done, name)[b])
    decreases |s|
  {
    var init, last := s[..|s| - 1], |s| - 1;
    var front := Released(init, done, name);
    if b < |front| {
      ReleasedInOrder(init, done, name, a, b);
      var i, j :| 0 <= i < j < |init| && init[i].name == front[a] && init[j].name == front[b];
      assert s[i] == init[i] && s[j] == init[j];
    } else {
      ReleasedMembers(init, done, name);
      assert front[a] in front;
      var c :| c in init && c.name == front[a];
      var i :| 0 <= i < |init| && init[i] == c;
      assert s[i] == c && s[last].name == Released(s, done, name)[b];
    }
  }

  ghost predicate KahnInvariant(all: seq<Scenario>, sorted: seq<Scenario>, enqueued: seq<string>) {
    && Sorted(all, sorted)
    && Queued(all, NameSet(sorted), enqueued)
    && Names(sorted) <= enqueued
    && Fifo(all, sorted, enqueued)
  }

  lemma NamesIn(s: seq<Scenario>, n: string)
    ensures n in Names(s) <==> n in NameSet(s)
  {
    if n in Names(s) {
      var i :| 0 <= i < |s| && Names(s)[i] == n;
      assert s[i] in s;
    }
    if n in NameSet(s) {
      var x :| x in s && x.name == n;
      var i :| 0 <= i < |s| && s[i] == x;
      assert Names(s)[i] == n;
    }
  }

  /** Sorting a queued name keeps the sorted list dependency-ordered. */
  lemma {:induction false} SortStep(all: seq<Scenario>, sorted: seq<Scenario>, s: Scenario)
    requires Sorted(all, sorted) && s in all
    requires s.name !in NameSet(sorted) && Remaining(s.deps, NameSet(sorted)) == 0
    ensures Sorted(all, sorted + [s])
  {
    var sorted' := sorted + [s];
    RemainingZero(s.deps, NameSet(sorted));
    forall x | x in sorted ensures x.name != s.name {
      assert x.name in NameSet(sorted);
    }
    forall i, d | 0 <= i < |sorted'| && d in sorted'[i].deps ensures d in NameSet(sorted'[..i]) {
      if i < |sorted| {
        assert sorted'[..i] == sorted[..i];
        assert d in sorted[i].deps;
      } else {
        assert sorted'[..i] == sorted;
      }
    }
  }

  lemma AppendNames(sorted: seq<Scenario>, s: Scenario)
    ensures NameSet(sorted + [s]) == NameSet(sorted) + {s.name}
    ensures Names(sorted + [s]) == Names(sorted) + [s.name]
  {
  }

  /** A released name was waiting before and is not waiting any more. */
  lemma ReleasedIff(all: seq<Scenario>, done: set<string>, name: string, x: Scenario)
    requires DistinctNames(all) && name !in done && x in all
    ensures x.name in Released(all, done, name) <==>
              Remaining(x.deps, done) != 0 && Remaining(x.deps, done + {name}) == 0
    ensures Remaining(x.deps, done) == 0 ==> Remaining(x.deps, done + {name}) == 0
  {
    ReleasedMembers(all, done, name);
    RemainingStep(x.deps, done, name);
    OccurrencesZero(x.deps, name);
    if x.name in Released(all, done, name) {
      var c :| c in all && c.name == x.name && name in c.deps && Remaining(c.deps, done + {name}) == 0;
    }
  }

  /** Releasing keeps the queued names exact and distinct. */
  lemma QueueStep(all: seq<Scenario>, done: set<string>, enqueued: seq<string>, name: string)
    requires DistinctNames(all) && Queued(all, done, enqueued) && name !in done
    ensures Queued(all, done + {name}, enqueued + Released(all, done, name))
  {
    var released := Released(all, done, name);
    ReleasedMembers(all, done, name);
    ReleasedDistinct(all, done, name);
    forall n | n in released ensures n !in enqueued && n in NameSet(all) {
      var c :| c in all && c.name == n && name in c.deps && Remaining(c.deps, done + {name}) == 0;
      ReleasedIff(all, done, name, c);
    }
    DistinctAppend(enqueued, released);
    forall x | x in all
      ensures x.name in enqueued + released <==> Remaining(x.deps, done + {name}) == 0
    {
      ReleasedIff(all, done, name, x);
    }
  }

  /** The next queued name is registered, unsorted and ready. */
  lemma NextReady(all: seq<Scenario>, sorted: seq<Scenario>, enqueued: seq<string>)
    requires KahnInvariant(all, sorted, enqueued) && |sorted| < |enqueued|
    ensures enqueued[|sorted|] in NameSet(all)
    ensures enqueued[|sorted|] !in NameSet(sorted)
    ensures forall s :: s in all && s.name == enqueued[|sorted|] ==> Remaining(s.deps, NameSet(sorted)) == 0
  {
    var name := enqueued[|sorted|];
    assert name in enqueued;
    NamesIn(sorted, name);
  }

  lemma QueuedReady(all: seq<Scenario>, sorted: seq<Scenario>, enqueued: seq<string>, n: string)
    requires DistinctNames(all) && Queued(all, NameSet(sorted), enqueued) && n in enqueued
    ensures Ready(all, sorted, n, |sorted|)
  {
    var x :| x in all && x.name == n;
    assert sorted[..|sorted|] == sorted;
    ReadyIff(all, sorted, x, |sorted|);
  }

  lemma ReleasedReady(all: seq<Scenario>, sorted: seq<Scenario>, s: Scenario, n: string)
    requires DistinctNames(all) && s.name !in NameSet(sorted) && n in Released(all, NameSet(sorted), s.name)
    ensures !Ready(all, sorted, n, |sorted|) && Ready(all, sorted + [s], n, |sorted| + 1)
  {
    var more := sorted + [s];
    ReleasedMembers(all, NameSet(sorted), s.name);
    var x :| x in all && x.name == n;
    AppendNames(sorted, s);
    assert sorted[..|sorted|] == sorted && more[..|more|] == more;
    ReleasedIff(all, NameSet(sorted), s.name, x);
    ReadyIff(all, sorted, x, |sorted|);
    ReadyIff(all, more, x, |more|);
  }

  lemma OldPairs(all: seq<Scenario>, sorted: seq<Scenario>, enqueued: seq<string>, s: Scenario)
    requires DistinctNames(all) && Queued(all, NameSet(sorted), enqueued) && Fifo(all, sorted, enqueued)
    requires s in all && s.name !in NameSet(sorted)
    ensures Fifo(all, sorted + [s], enqueued)
  {
    forall a, b | 0 <= a < b < |enqueued| ensures InTurn(all, sorted + [s], enqueued[a], enqueued[b]) {
      QueuedReady(all, sorted, enqueued, enqueued[a]);
      OldInTurn(all, sorted, s, enqueued[a], enqueued[b]);
    }
  }

  lemma MixedPair(all: seq<Scenario>, sorted: seq<Scenario>, enqueued: seq<string>, s: Scenario, m: string, n: string)
    requires DistinctNames(all) && Queued(all, NameSet(sorted), enqueued)
    requires s in all && s.name !in NameSet(sorted)
    requires m in enqueued && n in Released(all, NameSet(sorted), s.name)
    ensures InTurn(all, sorted + [s], m, n)
  {
    QueuedReady(all, sorted, enqueued, m);
    ReleasedReady(all, sorted, s, n);
    NewAfterOld(all, sorted, s, m, n);
  }

  lemma NewPair(all: seq<Scenario>, sorted: seq<Scenario>, s: Scenario, released: seq<string>, a: nat, b: nat)
    requires DistinctNames(all) && s in all && s.name !in NameSet(sorted)
    requires released == Released(all, NameSet(sorted), s.name) && a < b < |released|
    ensures InTurn(all, sorted + [s], released[a], released[b])
  {
    ReleasedReady(all, sorted, s, released[a]);
    ReleasedReady(all, sorted, s, released[b]);
    ReleasedInOrder(all, NameSet(sorted), s.name, a, b);
    NewInTurn(all, sorted, s, released[a], released[b]);
  }

  lemma NewPairs(all: seq<Scenario>, sorted: seq<Scenario>, s: Scenario)
    requires DistinctNames(all) && s in all && s.name !in NameSet(sorted)
    ensures Fifo(all, sorted + [s], Released(all, NameSet(sorted), s.name))
  {
    var released := Released(all, NameSet(sorted), s.name);
    forall a, b | 0 <= a < b < |released| ensures InTurn(all, sorted + [s], released[a], released[b]) {
      NewPair(all, sorted, s, released, a, b);
    }
  }

  lemma FifoJoin(all: seq<Scenario>, sorted: seq<Scenario>, front: seq<string>, back: seq<string>)
    requires Fifo(all, sorted, front) && Fifo(all, sorted, back)
    requires forall m, n :: m in front && n in back ==> InTurn(all, sorted, m, n)
    ensures Fifo(all, sorted, front + back)
  {
  }

  /** Releasing keeps the queue first in, first out. */
  lemma FifoStep(all: seq<Scenario>, sorted: seq<Scenario>, enqueued: seq<string>, s: Scenario)
    requires DistinctNames(all) && Queued(all, NameSet(sorted), enqueued) && Fifo(all, sorted, enqueued)
    requires s in all && s.name !in NameSet(sorted)
    ensures Fifo(all, sorted + [s], enqueued + Released(all, NameSet(sorted), s.name))
  {
    var released := Released(all, NameSet(sorted), s.name);
    OldPairs(all, sorted, enqueued, s);
    NewPairs(all, sorted, s);
    forall m, n | m in enqueued && n in released ensures InTurn(all, sorted + [s], m, n) {
      MixedPair(all, sorted, enqueued, s, m, n);
    }
    FifoJoin(all, sorted + [s], enqueued, released);
  }

  /** One turn of the main loop keeps the invariant. */
  lemma KahnStep(all: seq<Scenario>, sorted: seq<Scenario>, enqueued: seq<string>, s: Scenario)
    requires DistinctNames(all) && KahnInvariant(all, sorted, enqueued)
    requires |sorted| < |enqueued| && s in all && s.name == enqueued[|sorted|]
    ensures KahnInvariant(all, sorted + [s], enqueued + Released(all, NameSet(sorted), s.name))
  {
    NextReady(all, sorted, enqueued);
    AppendNames(sorted, s);
    SortStep(all, sorted, s);
    QueueStep(all, NameSet(sorted), enqueued, s.name);
    FifoStep(all, sorted, enqueued, s);
    PrefixGrows(Names(sorted), enqueued, Released(all, NameSet(sorted), s.name));
  }

  lemma PrefixGrows(front: seq<string>, enqueued: seq<string>, released: seq<string>)
    requires front <= enqueued && |front| < |enqueued|
    ensures front + [enqueued[|front|]] <= enqueued + released
  {
  }

  /** When the queue is empty, every missing name waits for a missing one. */
  lemma KahnStuck(all: seq<Scenario>, sorted: seq<Scenario>, enqueued: seq<string>)
    requires KahnInvariant(all, sorted, enqueued) && Names(sorted) == enqueued
    ensures Stuck(all, NameSet(sorted))
  {
    forall s | s in all && s.name !in NameSet(sorted) ensures exists d :: d in s.deps && d !in NameSet(sorted) {
      NamesIn(sorted, s.name);
      RemainingZero(s.deps, NameSet(sorted));
    }
  }

  /** The names without dependencies, in registration order. */
  function Sources(s: seq<Scenario>): seq<string> {
    if s == [] then []
    else Sources(s[..|s| - 1]) + if s[|s| - 1].deps == [] then [s[|s| - 1].name] else []
  }

  lemma {:induction false} SourcesMembers(s: seq<Scenario>)
    ensures forall n :: n in Sources(s) <==> exists c :: c in s && c.name == n && c.deps == []
    decreases |s|
  {
    if s != [] {
      SourcesMembers(s[..|s| - 1]);
      assert s == s[..|s| - 1] + [s[|s| - 1]];
    }
  }

  lemma {:induction false} SourcesInOrder(s: seq<Scenario>, a: nat, b: nat)
    requires a < b < |Sources(s)|
    ensures RegisteredBefore(s, Sources(s)[a], Sources(s)[b])
    decreases |s|
  {
    var init, last := s[..|s| - 1], |s| - 1;
    var front := Sources(init);
    if b < |front| {
      SourcesInOrder(init, a, b);
      var i, j :| 0 <= i < j < |init| && init[i].name == front[a] && init[j].name == front[b];
      assert s[i] == init[i] && s[j] == init[j];
    } else {
      SourcesMembers(init);
      assert front[a] in front;
      var c :| c in init && c.name == front[a];
      var i :| 0 <= i < |init| && init[i] == c;
      assert s[i] == c && s[last].name == Sources(s)[b];
    }
  }

  lemma SourcesQueued(all: seq<Scenario>)
    requires DistinctNames(all)
    ensures KahnInvariant(all, [], Sources(all))
  {
    var queue, none: seq<Scenario> := Sources(all), [];
    SourcesMembers(all);
    assert NameSet(none) == {} && Names(none) == [];
    forall a, b | 0 <= a < b < |queue| ensures queue[a] != queue[b] && InTurn(all, none, queue[a], queue[b]) {
      SourcesInOrder(all, a, b);
      assert queue[a] in queue && queue[b] in queue;
      SourceReady(all, queue[a]);
      SourceReady(all, queue[b]);
    }
    forall s | s in all ensures s.name in queue <==> Remaining(s.deps, NameSet(none)) == 0 {
      RemainingNoneDone(s.deps);
      var k :| 0 <= k < |all| && all[k] == s;
    }
  }

  lemma SourceReady(all: seq<Scenario>, n: string)
    requires DistinctNames(all) && exists c :: c in all && c.name == n && c.deps == []
    ensures Ready(all, [], n, 0)
  {
    var c :| c in all && c.name == n && c.deps == [];
    ReadyIff(all, [], c, 0);
  }

  /** The initial queue. */
  method InitialQueue(all: seq<Scenario>, inDegree: map<string, int>) returns (queue: seq<string>)
    requires DistinctNames(all)
    requires forall s :: s in all ==> s.name in inDegree && inDegree[s.name] == |s.deps|
    ensures KahnInvariant(all, [], queue)
  {
    queue := [];
    for i := 0 to |all|
      invariant queue == Sources(all[..i])
    {
      assert all[..i + 1][..i] == all[..i];
      assert all[i] in all;
      if inDegree[all[i].name] == 0 {
        queue := queue + [all[i].name];
      }
    }
    assert all[..|all|] == all;
    SourcesQueued(all);
  }

  /** The names of `all` that did not get sorted, in registration order: exactly the
      doomed ones. */
  method Unresolved(all: seq<Scenario>, sorted: seq<Scenario>) returns (unresolved: seq<string>)
    requires DistinctNames(all) && DepOrdered(sorted) && DistinctNames(sorted)
    requires forall x :: x in sorted ==> x in all
    requires Stuck(all, NameSet(sorted))
    ensures unresolved == DoomedNames(all, all) && NamesDoomed(all, unresolved)
  {
    DoomedInOrder(all);
    var inSorted := NameSet(sorted);
    unresolved := [];
    for i := 0 to |all|
      invariant unresolved == DoomedNames(all, all[..i])
    {
      MissingIffDoomed(all, sorted, all[i]);
      if all[i].name !in inSorted {
        unresolved := unresolved + [all[i].name];
      }
      assert all[..i + 1][..i] == all[..i];
    }
    assert all[..|all|] == all;
  }

  method IndexByName(all: seq<Scenario>) returns (byName: map<string, Scenario>)
    requires DistinctNames(all)
    ensures forall n :: n in NameSet(all) ==> n in byName
    ensures forall n :: n in byName ==> byName[n] in all && byName[n].name == n
  {
    byName := map[];
    for i := 0 to |all|
      invariant forall k :: 0 <= k < i ==> all[k].name in byName
      invariant forall n :: n in byName ==> byName[n] in all && byName[n].name == n
    {
      byName := byName[all[i].name := all[i]];
    }
  }

  /** `inDegree` holds the undone dependency entries of every registered name. */
  ghost predicate Counts(all: seq<Scenario>, inDegree: map<string, int>, done: set<string>) {
    forall s :: s in all ==> s.name in inDegree && inDegree[s.name] == Remaining(s.deps, done)
  }

  lemma Requeue(front: seq<string>, queue: seq<string>, more: seq<string>)
    requires queue != []
    ensures front + queue + more == front + [queue[0]] + (queue[1..] + more)
  {
    assert queue == [queue[0]] + queue[1..];
  }

  /** One turn: pop a name, sort it, relax every candidate. */
  method KahnTurn(all: seq<Scenario>, byName: map<string, Scenario>, inDegree: map<string, int>,
                  queue: seq<string>, sorted: seq<Scenario>, ghost enqueued: seq<string>)
    returns (inDegree': map<string, int>, queue': seq<string>, sorted': seq<Scenario>, ghost enqueued': seq<string>)
    requires DistinctNames(all)
    requires forall n :: n in NameSet(all) ==> n in byName
    requires forall n :: n in byName ==> byName[n] in all && byName[n].name == n
    requires KahnInvariant(all, sorted, enqueued) && Counts(all, inDegree, NameSet(sorted))
    requires enqueued == Names(sorted) + queue && queue != []
    ensures KahnInvariant(all, sorted', enqueued') && Counts(all, inDegree', NameSet(sorted'))
    ensures enqueued' == Names(sorted') + queue'
    ensures queue[0] in NameSet(all) - NameSet(sorted) && NameSet(sorted') == NameSet(sorted) + {queue[0]}
  {
    inDegree', queue', sorted', enqueued' := inDegree, queue, sorted, enqueued;
    var name := queue[0];
    assert name == enqueued[|sorted|];
    NextReady(all, sorted, enqueued);
    queue' := queue'[1..];
    assert name in byName;
    if name in byName {
      var s := byName[name];
      KahnStep(all, sorted, enqueued, s);
      AppendNames(sorted, s);
      Requeue(Names(sorted), queue, Released(all, NameSet(sorted), name));
      enqueued' := enqueued + Released(all, NameSet(sorted), name);
      inDegree', queue' := Relax(all, name, NameSet(sorted), inDegree, queue');
      sorted' := sorted + [s];
    }
  }

  /** The main loop. */
  method KahnLoop(all: seq<Scenario>) returns (sorted: seq<Scenario>, ghost enqueued: seq<string>)
    requires DistinctNames(all)
    ensures KahnInvariant(all, sorted, enqueued) && Names(sorted) == enqueued
  {
    var byName := IndexByName(all);
    var inDegree := BuildInDegree(all);
    var queue := InitialQueue(all, inDegree);
    enqueued := queue;
    sorted := [];
    assert NameSet(sorted) == {};
    forall s | s in all ensures inDegree[s.name] == Remaining(s.deps, {}) {
      RemainingNoneDone(s.deps);
    }
    while |queue| > 0
      invariant KahnInvariant(all, sorted, enqueued) && Counts(all, inDegree, NameSet(sorted))
      invariant enqueued == Names(sorted) + queue
      decreases NameSet(all) - NameSet(sorted)
    {
      inDegree, queue, sorted, enqueued := KahnTurn(all, byName, inDegree, queue, sorted, enqueued);
    }
  }

  method MoveCoreLast(sorted: seq<Scenario>) returns (final: seq<Scenario>)
    ensures final == CoreLast(sorted)
  {
    var core := [];
    final := [];
    for i := 0 to |sorted|
      invariant final == WithoutCore(sorted[..i]) && core == CoreOf(sorted[..i])
    {
      assert sorted[..i + 1][..i] == sorted[..i];
      if sorted[i].name == CORE_FILES {
        core := [sorted[i]];
      } else {
        final := final + [sorted[i]];
      }
    }
    assert sorted[..|sorted|] == sorted;
    if core != [] {
      final := final + core;
    }
  }

  lemma RegisteredOnce(all: seq<Scenario>, m: string, n: string)
    requires DistinctNames(all)
    ensures !(RegisteredBefore(all, m, n) && RegisteredBefore(all, n, m))
  {
  }

  /** Two orders that agree on the first k scenarios: the one that is next in the second
      becomes ready in the first no later than the one next there. */
  lemma NextNoLater(all: seq<Scenario>, s1: seq<Scenario>, s2: seq<Scenario>, k: nat, x: string)
    requires k < |s2| == |s1| && s1[..k] == s2[..k] && DistinctNames(all) && DepOrdered(s2)
    requires s2[k] in all && NoLater(all, s2, s2[k].name, x)
    ensures NoLater(all, s1, s2[k].name, x)
  {
    var y := s2[k];
    RemainingZero(y.deps, NameSet(s2[..k]));
    ReadyIff(all, s2, y, k);
    assert Ready(all, s1, y.name, k);
    forall t | 0 <= t <= |s1| && Ready(all, s1, x, t) ensures Ready(all, s1, y.name, t) {
      if t <= k {
        assert s1[..t] == s1[..k][..t] == s2[..k][..t] == s2[..t];
        assert Ready(all, s2, x, t);
      } else {
        ReadyStays(all, s1, y.name, k, t);
      }
    }
  }

  predicate FifoOrder(all: seq<Scenario>, s: seq<Scenario>) {
    multiset(s) == multiset(all) && DistinctNames(s) && DepOrdered(s) && Fifo(all, s, Names(s))
  }

  /** The registry determines the order: any two dependency orders that are first in, first
      out are the same. */
  lemma {:induction false} OrderDetermined(all: seq<Scenario>, s1: seq<Scenario>, s2: seq<Scenario>, k: nat)
    requires DistinctNames(all) && FifoOrder(all, s1) && FifoOrder(all, s2) && k <= |all|
    ensures |s1| == |s2| == |all| && s1[..k] == s2[..k]
    ensures k == |all| ==> s1 == s2
    decreases k
  {
    assert |multiset(s1)| == |s1| && |multiset(s2)| == |s2| && |multiset(all)| == |all|;
    if k > 0 {
      OrderDetermined(all, s1, s2, k - 1);
      SameMembers(s1, all);
      SameMembers(s2, all);
      if s1[k - 1] != s2[k - 1] {
        LaterName(all, s1, s2, k - 1);
        LaterName(all, s2, s1, k - 1);
        NextNoLater(all, s1, s2, k - 1, s1[k - 1].name);
        NextNoLater(all, s2, s1, k - 1, s2[k - 1].name);
        RegisteredOnce(all, s1[k - 1].name, s2[k - 1].name);
      } else {
        assert s1[..k] == s1[..k - 1] + [s1[k - 1]] && s2[..k] == s2[..k - 1] + [s2[k - 1]];
      }
    }
    assert s1[..|all|] == s1 && s2[..|all|] == s2;
  }

  /** Where two orders first differ, each has its own next one before the other's. */
  lemma LaterName(all: seq<Scenario>, s1: seq<Scenario>, s2: seq<Scenario>, k: nat)
    requires DistinctNames(s2) && k < |s1| == |s2| && s1[..k] == s2[..k] && s1[k] != s2[k]
    requires Fifo(all, s1, Names(s1)) && s2[k] in s1
    ensures InTurn(all, s1, s1[k].name, s2[k].name)
  {
    var j :| 0 <= j < |s1| && s1[j] == s2[k];
    assert forall i :: 0 <= i < k ==> s2[i] == s2[..k][i] == s1[..k][i] == s1[i];
    assert forall i :: 0 <= i < k ==> s2[i].name != s2[k].name;
    assert k < j;
    assert InTurn(all, s1, Names(s1)[k], Names(s1)[j]);
  }

  /** topoSort. It fails exactly when some scenario is doomed, and then reports
      exactly the doomed ones, in registration order; otherwise the result is a permutation
      of the input: the dependency order that takes the scenarios first in, first out, with
      core-file-collection moved last. */
  method TopoSort(all: seq<Scenario>)
    returns (r: Outcome<seq<Scenario>, seq<string>>, ghost sorted: seq<Scenario>)
    requires DistinctNames(all)
    ensures r.Ok? <==> forall s :: s in all ==> !Doomed(all, s.name)
    ensures r.Err? ==> r.error == DoomedNames(all, all) && NamesDoomed(all, r.error)
    ensures r.Ok? ==> FifoOrder(all, sorted) && MovedLast(sorted, r.value)
    ensures r.Ok? ==> DepOrdered(sorted) && DistinctNames(sorted) && r.value == CoreLast(sorted)
    ensures r.Ok? ==> multiset(r.value) == multiset(all) && multiset(sorted) == multiset(all)
  {
    ghost var enqueued;
    var result;
    result, enqueued := KahnLoop(all);
    sorted := result;
    KahnStuck(all, result, enqueued);
    forall s | s in all ensures s.name !in NameSet(result) <==> Doomed(all, s.name) {
      MissingIffDoomed(all, result, s);
    }
    if |result| < |all| {
      SomeMissing(all, result);
      var unresolved := Unresolved(all, result);
      r := Err(unresolved);
    } else {
      AllSorted(all, result);
      CoreLastPermutes(result);
      var final := MoveCoreLast(result);
      CoreLastMoves(result);
      r := Ok(final);
    }
  }

  /** The smallest registry whose order comes out broken: a scenario that depends on
      core-file-collection is moved in front of it. */
  method BrokenOrder() returns (all: seq<Scenario>, r: Outcome<seq<Scenario>, seq<string>>)
    ensures DistinctNames(all) && |all| == 2 && DepOrdered(all)
    ensures r.Ok? && r.value == [all[1], all[0]] && !DepOrdered(r.value)
  {
    var core, x := Scenario(CORE_FILES, []), Scenario("x", [CORE_FILES]);
    all := [core, x];
    assert core.name != x.name by {
      assert |core.name| != |x.name|;
    }
    assert all[..1] == [core];
    assert core in all[..1];
    forall s | s in all ensures !Doomed(all, s.name) {
      var k :| 0 <= k < |all| && all[k] == s;
      OrderedNotDoomed(all, all, k);
    }
    ghost var sorted;
    r, sorted := TopoSort(all);
    CoreLastKeepsOrder(sorted);
    SameMembers(sorted, all);
    OnlyOrder(sorted, core, x);
    TwoMoved(core, x);
  }

  lemma OnlyOrder(sorted: seq<Scenario>, core: Scenario, x: Scenario)
    requires multiset(sorted) == multiset([core, x]) && DepOrdered(sorted) && core != x && x.deps == [core.name]
    ensures sorted == [core, x]
  {
    assert |sorted| == |multiset(sorted)| == 2;
    assert sorted[0] in multiset(sorted) && sorted[1] in multiset(sorted);
    assert sorted == [sorted[0], sorted[1]];
    assert sorted[..0] == [] && core.name in x.deps;
    OnceIn([core, x], core);
    assert multiset(sorted)[core] == 1;
  }

  lemma TwoMoved(core: Scenario, x: Scenario)
    requires core.name == CORE_FILES && x.name != CORE_FILES
    ensures CoreLast([core, x]) == [x, core]
  {
    var two, one := [core, x], [core];
    var none: seq<Scenario> := [];
    assert two[..1] == one && one[..0] == none;
    assert WithoutCore(one) == WithoutCore(none) + [];
    assert WithoutCore(two) == WithoutCore(one) + [x];
    assert CoreOf(two) == CoreOf(one) == [core];
  }

  lemma SomeMissing(all: seq<Scenario>, sorted: seq<Scenario>)
    requires DistinctNames(all) && DistinctNames(sorted)
    requires forall x :: x in sorted ==> x in all
    requires |sorted| < |all|
    ensures exists s :: s in all && s.name !in NameSet(sorted)
  {
    NameSetSize(all);
    NameSetSize(sorted);
    assert NameSet(sorted) != NameSet(all);
    assert NameSet(sorted) <= NameSet(all);
  }

  /** As many sorted names as registered ones means all of them, once each. */
  lemma AllSorted(all: seq<Scenario>, sorted: seq<Scenario>)
    requires DistinctNames(all) && DistinctNames(sorted)
    requires forall x :: x in sorted ==> x in all
    requires |sorted| >= |all|
    ensures NameSet(sorted) == NameSet(all)
    ensures multiset(sorted) == multiset(all)
  {
    NameSetSize(all);
    NameSetSize(sorted);
    assert NameSet(sorted) <= NameSet(all);
    SubsetSize(NameSet(sorted), NameSet(all));
    forall x | x in all ensures x in sorted {
      assert x.name in NameSet(sorted);
      var y :| y in sorted && y.name == x.name;
    }
    SameElements(sorted, all);
  }

  lemma SubsetSize<T>(a: set<T>, b: set<T>)
    requires a <= b && |a| >= |b|
    ensures a == b
  {
    assert b == a + (b - a);
    assert |b| == |a| + |b - a|;
  }

  // ---------------------------------------------------------------------------
  // runAllScenarios
  // ---------------------------------------------------------------------------

  datatype RunResult =
    | AllGreen(ran: seq<Scenario>)
    | Failed(ran: seq<Scenario>, culprit: string)
    | DepCycle(unresolved: seq<string>)
    | NoContext

  /** The scenarios up to and including the first one that does not pass. */
  function UntilFailure(order: seq<Scenario>, passes: string -> bool): seq<Scenario> {
    if order == [] then []
    else if passes(order[0].name) then [order[0]] + UntilFailure(order[1..], passes)
    else [order[0]]
  }

  lemma {:induction false} UntilFailurePrefix(order: seq<Scenario>, passes: string -> bool, k: nat)
    requires k <= |order| && forall i :: 0 <= i < k ==> passes(order[i].name)
    ensures k == |order| ==> UntilFailure(order, passes) == order
    ensures k < |order| && !passes(order[k].name) ==> UntilFailure(order, passes) == order[..k + 1]
    decreases k
  {
    if k > 0 {
      forall i | 0 <= i < k - 1 ensures passes(order[1..][i].name) {
        assert order[1..][i] == order[i + 1];
      }
      UntilFailurePrefix(order[1..], passes, k - 1);
      assert k < |order| ==> order[..k + 1] == [order[0]] + order[1..][..k];
    }
  }

  /** What a run over the sorted list reports, whatever the verdicts: everything up to the
      first failure ran, in dependency order if and only if nothing that ran depends on
      core-file-collection. */
  ghost predicate Reports(r: RunResult, order: seq<Scenario>, passes: string -> bool) {
    && (r.AllGreen? || r.Failed?) && r.ran == UntilFailure(order, passes)
    && (r.AllGreen? ==> r.ran == order && forall s :: s in order ==> passes(s.name))
    && (r.Failed? ==>
         && |r.ran| > 0 && r.ran[|r.ran| - 1].name == r.culprit && !passes(r.culprit)
         && forall i :: 0 <= i < |r.ran| - 1 ==> passes(r.ran[i].name))
    && (DepOrdered(r.ran) <==> forall x :: x in r.ran ==> CORE_FILES !in x.deps)
  }

  /** The loop over the sorted scenarios. */
  method RunSorted(ordered: seq<Scenario>, passes: string -> bool, ghost sorted: seq<Scenario>) returns (r: RunResult)
    requires DistinctNames(sorted) && DepOrdered(sorted) && ordered == CoreLast(sorted)
    ensures Reports(r, ordered, passes)
  {
    for i := 0 to |ordered|
      invariant forall k :: 0 <= k < i ==> passes(ordered[k].name)
    {
      if !passes(ordered[i].name) {
        UntilFailurePrefix(ordered, passes, i);
        FrontOrderedIff(sorted, i + 1);
        return RunResult.Failed(ordered[..i + 1], ordered[i].name);
      }
    }
    UntilFailurePrefix(ordered, passes, |ordered|);
    FrontOrderedIff(sorted, |ordered|);
    assert ordered[..|ordered|] == ordered;
    r := AllGreen(ordered);
  }

  /** runAllScenarios with the scenarios' verdicts and the outcome of building their
      context as parameters: it runs the sorted list up to and including the first failure,
      and nothing after it; with no scenarios registered it builds no context. What ran, it
      ran in dependency order, each scenario after all its dependencies had run and passed,
      if and only if nothing that ran depends on core-file-collection. */
  method RunAllScenarios(all: seq<Scenario>, contextOk: bool, passes: string -> bool)
    returns (r: RunResult, ghost order: seq<Scenario>)
    requires DistinctNames(all)
    ensures r.DepCycle? <==> exists s :: s in all && Doomed(all, s.name)
    ensures r.DepCycle? ==> r.unresolved == DoomedNames(all, all)
    ensures r.NoContext? <==> all != [] && !contextOk && forall s :: s in all ==> !Doomed(all, s.name)
    ensures !r.DepCycle? && !r.NoContext? ==> multiset(order) == multiset(all) && Reports(r, order, passes)
  {
    order := [];
    if |all| == 0 {
      return AllGreen([]), order;
    }
    var res;
    ghost var sorted;
    res, sorted := TopoSort(all);
    if res.Err? {
      return DepCycle(res.error), order;
    }
    if !contextOk {
      return NoContext, order;
    }
    order := res.value;
    r := RunSorted(res.value, passes, sorted);
  }

  lemma SameMembers(a: seq<Scenario>, b: seq<Scenario>)
    requires multiset(a) == multiset(b)
    ensures forall x :: x in a <==> x in b
  {
    forall x ensures x in a <==> x in b {
      assert x in a <==> x in multiset(a);
      assert x in b <==> x in multiset(b);
    }
  }
}
