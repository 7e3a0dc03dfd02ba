/** Deleting benchmark artifacts from Forge: the down-path cleanup of one cluster and
    the operator's full purge. Any call may fail; failures are collected and the rest is
    still attempted. */
module Cleanup {
  import opened Wrappers

  /** The records the cleanup can delete. */
  datatype Rec =
    | Target(id: int, cluster: int)
    | Proxy(id: int, target: int)
    | Agent(id: int, name: string)
    | Credential(id: int, name: string)
    | Config(id: int, name: string)

  /** How a by-name lookup's list call answers. The code takes any error text that
      contains "not found" for "no such record". */
  datatype ListReply = Listed | Failed(saysNotFound: bool)

  /** The replies one cleanup run meets. */
  datatype Replies = Replies(
    listTargets: bool, listProxies: int -> bool, login: bool,
    agents: ListReply, credentials: ListReply, configs: ListReply,
    delete: Rec -> Deletion)

  predicate Distinct<T(==)>(s: seq<T>) {
    forall i, j :: 0 <= i < j < |s| ==> s[i] != s[j]
  }

  // ---------------------------------------------------------------------------
  // Selections
  // ---------------------------------------------------------------------------

  /** What a list call plus its client-side filter picks out. */
  datatype Query =
    | ClusterTargets(cluster: int)
    | TargetProxies(target: int)
    | AgentsNamed(name: string)
    | CredentialsNamed(name: string)
    | AgentsWithPrefix
    | CredentialsWithPrefix
    | ConfigsWithPrefix
    | NotIn(gone: set<Rec>)

  const PREFIX := "awsbnkctl-"

  predicate Matches(x: Rec, q: Query) {
    match q
    case ClusterTargets(c) => x.Target? && x.cluster == c
    case TargetProxies(t) => x.Proxy? && x.target == t
    case AgentsNamed(n) => x.Agent? && x.name == n
    case CredentialsNamed(n) => x.Credential? && x.name == n
    case AgentsWithPrefix => x.Agent? && PREFIX <= x.name
    case CredentialsWithPrefix => x.Credential? && PREFIX <= x.name
    case ConfigsWithPrefix => x.Config? && PREFIX <= x.name
    case NotIn(gone) => x !in gone
  }

  function Select(db: seq<Rec>, q: Query): seq<Rec> {
    if db == [] then []
    else Select(db[..|db| - 1], q) + if Matches(db[|db| - 1], q) then [db[|db| - 1]] else []
  }

  lemma {:induction false} SelectMembers(db: seq<Rec>, p: Query, x: Rec)
    ensures x in Select(db, p) <==> x in db && Matches(x, p)
  {
    if db != [] {
      SelectMembers(db[..|db| - 1], p, x);
      assert db == db[..|db| - 1] + [db[|db| - 1]];
    }
  }

  /** A selection holds the matching records, each as often and in the order it is listed. */
  lemma {:induction false} SelectPicks(db: seq<Rec>, q: Query) returns (at: seq<nat>)
    ensures Picks(Select(db, q), db, at)
    ensures forall i :: 0 <= i < |db| ==> (i in at <==> Matches(db[i], q))
  {
    if db == [] {
      at := [];
    } else {
      var init, last := db[..|db| - 1], db[|db| - 1];
      var front := SelectPicks(init, q);
      at := PicksMore(Select(init, q), init, front, last, Matches(last, q));
      assert init + [last] == db;
    }
  }

  lemma {:induction false} SelectDistinct(db: seq<Rec>, p: Query)
    requires Distinct(db)
    ensures Distinct(Select(db, p))
  {
    if db != [] {
      SelectDistinct(db[..|db| - 1], p);
      SelectMembers(db[..|db| - 1], p, db[|db| - 1]);
    }
  }

  lemma SelectLast(s: seq<Rec>, x: Rec, q: Query)
    ensures Select(s + [x], q) == Select(s, q) + if Matches(x, q) then [x] else []
  {
    assert (s + [x])[..|s|] == s;
  }

  /** Selecting from a selection. */
  lemma {:induction false} SelectTwice(db: seq<Rec>, p: Query, q: Query, both: Query)
    requires forall x :: x in db ==> (Matches(x, both) <==> Matches(x, p) && Matches(x, q))
    ensures Select(Select(db, p), q) == Select(db, both)
  {
    if db != [] {
      var init, last := db[..|db| - 1], db[|db| - 1];
      assert last in db && forall x :: x in init ==> x in db;
      SelectTwice(init, p, q, both);
      if Matches(last, p) {
        SelectLast(Select(init, p), last, q);
      } else {
        assert Select(db, p) == Select(init, p);
      }
    }
  }

  /** What remains of `db` without the records in `gone`, in order. */
  function Without(db: seq<Rec>, gone: set<Rec>): seq<Rec> {
    Select(db, NotIn(gone))
  }

  function Deleted(plan: seq<Rec>, r: Replies): set<Rec> {
    set x | x in plan && r.delete(x).Applied()
  }

  /** Every delete in `items` counts as a success. */
  predicate AllTolerated(items: seq<Rec>, r: Replies) {
    forall x :: x in items ==> r.delete(x).Tolerated()
  }

  lemma AllToleratedConcat(a: seq<Rec>, b: seq<Rec>, r: Replies)
    ensures AllTolerated(a + b, r) <==> AllTolerated(a, r) && AllTolerated(b, r)
  {
    if AllTolerated(a + b, r) {
      assert forall x :: x in a ==> x in a + b;
      assert forall x :: x in b ==> x in a + b;
    }
  }

  /** Every proxy list of `ts` can be read. */
  predicate AllListed(ts: seq<Rec>, r: Replies)
    requires forall t :: t in ts ==> t.Target?
  {
    forall t :: t in ts ==> r.listProxies(t.id)
  }

  lemma AllListedMore(ts: seq<Rec>, i: nat, r: Replies)
    requires i < |ts| && forall t :: t in ts ==> t.Target?
    ensures AllListed(ts[..i + 1], r) <==> AllListed(ts[..i], r) && r.listProxies(ts[i].id)
  {
    assert ts[..i + 1] == ts[..i] + [ts[i]];
  }

  function Targets(db: seq<Rec>, cluster: int): seq<Rec> {
    Select(db, ClusterTargets(cluster))
  }

  function Proxies(db: seq<Rec>, target: int): seq<Rec> {
    Select(db, TargetProxies(target))
  }

  function JumphostName(instance: string): string {
    "awsbnkctl-jumphost-" + instance
  }

  // ---------------------------------------------------------------------------
  // The plan: what is attempted, in order
  // ---------------------------------------------------------------------------

  function TargetPlan(db: seq<Rec>, t: Rec, r: Replies): seq<Rec>
    requires t.Target?
  {
    (if r.listProxies(t.id) then Proxies(db, t.id) else []) + [t]
  }

  function TargetsPlan(db: seq<Rec>, ts: seq<Rec>, r: Replies): seq<Rec>
    requires forall t :: t in ts ==> t.Target?
  {
    if ts == [] then []
    else TargetsPlan(db, ts[..|ts| - 1], r) + TargetPlan(db, ts[|ts| - 1], r)
  }

  lemma TargetsAre(db: seq<Rec>, cluster: int)
    ensures forall t :: t in Targets(db, cluster) <==> t in db && t.Target? && t.cluster == cluster
  {
    forall t ensures t in Targets(db, cluster) <==> t in db && t.Target? && t.cluster == cluster {
      SelectMembers(db, ClusterTargets(cluster), t);
    }
  }

  lemma ProxiesAre(db: seq<Rec>, target: int)
    ensures forall p :: p in Proxies(db, target) <==> p in db && p.Proxy? && p.target == target
  {
    forall p ensures p in Proxies(db, target) <==> p in db && p.Proxy? && p.target == target {
      SelectMembers(db, TargetProxies(target), p);
    }
  }

  /** The attempts of deleteTargetsAndProxies. */
  function ClusterPlan(db: seq<Rec>, cluster: int, r: Replies): seq<Rec> {
    TargetsAre(db, cluster);
    if r.listTargets then TargetsPlan(db, Targets(db, cluster), r) else []
  }

  /** A record is attempted exactly if it is a listed target or a proxy in a list that
      was read. */
  lemma {:induction false} PlanMembers(db: seq<Rec>, ts: seq<Rec>, r: Replies, x: Rec)
    requires forall t :: t in ts ==> t.Target?
    ensures x in TargetsPlan(db, ts, r) <==>
      x in ts || (x in db && x.Proxy? && r.listProxies(x.target) && exists t :: t in ts && t.id == x.target)
  {
    if ts != [] {
      var init, last := ts[..|ts| - 1], ts[|ts| - 1];
      assert ts == init + [last];
      PlanMembers(db, init, r, x);
      ProxiesAre(db, last.id);
    }
  }

  /** Distinct target records of one cluster have distinct ids. */
  predicate SameCluster(ts: seq<Rec>, cluster: int) {
    Distinct(ts) && forall t :: t in ts ==> t.Target? && t.cluster == cluster
  }

  lemma DistinctConcat(a: seq<Rec>, b: seq<Rec>)
    requires Distinct(a) && Distinct(b) && forall x :: x in b ==> x !in a
    ensures Distinct(a + b)
  {
    forall i, j | 0 <= i < j < |a + b| ensures (a + b)[i] != (a + b)[j] {
      if i < |a| <= j {
        assert b[j - |a|] in b;
      }
    }
  }

  /** No record is attempted twice. */
  lemma {:induction false} PlanDistinct(db: seq<Rec>, ts: seq<Rec>, r: Replies, cluster: int)
    requires Distinct(db) && SameCluster(ts, cluster)
    ensures Distinct(TargetsPlan(db, ts, r))
  {
    if ts != [] {
      var init, last := ts[..|ts| - 1], ts[|ts| - 1];
      assert ts == init + [last] && last in ts;
      assert SameCluster(init, cluster) by {
        assert forall t :: t in init ==> t in ts;
      }
      PlanDistinct(db, init, r, cluster);
      var proxies := if r.listProxies(last.id) then Proxies(db, last.id) else [];
      SelectDistinct(db, TargetProxies(last.id));
      ProxiesAre(db, last.id);
      DistinctConcat(proxies, [last]);
      forall x | x in proxies + [last] ensures x !in TargetsPlan(db, init, r) {
        PlanMembers(db, init, r, x);
      }
      DistinctConcat(TargetsPlan(db, init, r), proxies + [last]);
    }
  }

  /** Every proxy is attempted before its target. */
  lemma {:induction false} ProxiesFirst(db: seq<Rec>, ts: seq<Rec>, r: Replies, cluster: int, i: nat, j: nat)
    requires SameCluster(ts, cluster)
    requires i < |TargetsPlan(db, ts, r)| && j < |TargetsPlan(db, ts, r)|
    requires TargetsPlan(db, ts, r)[i].Proxy? && TargetsPlan(db, ts, r)[j].Target?
    requires TargetsPlan(db, ts, r)[i].target == TargetsPlan(db, ts, r)[j].id
    ensures i < j
  {
    var init, last := ts[..|ts| - 1], ts[|ts| - 1];
    assert ts == init + [last] && last in ts;
    assert SameCluster(init, cluster) by {
      assert forall t :: t in init ==> t in ts;
    }
    var before, plan := TargetsPlan(db, init, r), TargetsPlan(db, ts, r);
    ProxiesAre(db, last.id);
    assert plan[i] in plan && plan[j] in plan;
    if j < |before| {
      if i < |before| {
        ProxiesFirst(db, init, r, cluster, i, j);
      } else {
        // A proxy of the last target; a target planned before it has another id.
        PlanMembers(db, init, r, before[j]);
      }
    } else {
      var tail := TargetPlan(db, last, r);
      forall k | 0 <= k < |tail| - 1 ensures tail[k].Proxy? {
        assert tail[k] in Proxies(db, last.id);
      }
      assert plan[j] == tail[j - |before|];
    }
  }

  /** The by-name step: the first match, when the list call answers. */
  function FirstOf(db: seq<Rec>, q: Query, reply: ListReply): seq<Rec> {
    if reply.Listed? && Select(db, q) != [] then [Select(db, q)[0]] else []
  }

  lemma FirstOfMatches(db: seq<Rec>, q: Query, reply: ListReply)
    ensures forall x :: x in FirstOf(db, q, reply) ==> x in db && Matches(x, q)
  {
    if FirstOf(db, q, reply) != [] {
      assert Select(db, q)[0] in Select(db, q);
      SelectMembers(db, q, Select(db, q)[0]);
    }
  }

  /** A prefix step: all matches, when the list call answers. */
  function AllOf(db: seq<Rec>, q: Query, listed: bool): seq<Rec> {
    if listed then Select(db, q) else []
  }

  lemma AllOfMatches(db: seq<Rec>, q: Query, listed: bool)
    ensures forall x :: x in AllOf(db, q, listed) ==> x in db && Matches(x, q)
  {
    forall x | x in AllOf(db, q, listed) ensures x in db && Matches(x, q) {
      SelectMembers(db, q, x);
    }
  }

  lemma ClusterPlanKinds(db: seq<Rec>, cluster: int, r: Replies)
    ensures forall x :: x in ClusterPlan(db, cluster, r) ==> x.Target? || x.Proxy?
  {
    TargetsAre(db, cluster);
    forall x | x in ClusterPlan(db, cluster, r) ensures x.Target? || x.Proxy? {
      PlanMembers(db, Targets(db, cluster), r, x);
    }
  }

  /** The attempts of the down-path cleanup. */
  function DownPlan(db: seq<Rec>, cluster: int, instance: string, r: Replies): seq<Rec> {
    var name := JumphostName(instance);
    ClusterPlan(db, cluster, r)
    + if instance == "" || !r.login then []
      else FirstOf(db, AgentsNamed(name), r.agents) + FirstOf(db, CredentialsNamed(name), r.credentials)
  }

  /** The target list and all proxy lists were read. */
  predicate TargetsListed(db: seq<Rec>, cluster: int, r: Replies) {
    TargetsAre(db, cluster);
    r.listTargets && AllListed(Targets(db, cluster), r)
  }

  predicate LookupClean(reply: ListReply) {
    reply.Failed? ==> reply.saysNotFound
  }

  /** When the down-path cleanup reports no error. */
  predicate DownClean(db: seq<Rec>, cluster: int, instance: string, r: Replies) {
    && TargetsListed(db, cluster, r)
    && AllTolerated(DownPlan(db, cluster, instance, r), r)
    && (instance != "" ==> r.login && LookupClean(r.agents) && LookupClean(r.credentials))
  }

  /** The attempts of the full purge. */
  function PurgePlan(db: seq<Rec>, cluster: int, r: Replies): seq<Rec> {
    ClusterPlan(db, cluster, r) + if !r.login then [] else PrefixPlan(db, r)
  }

  function PrefixPlan(db: seq<Rec>, r: Replies): seq<Rec> {
    AllOf(db, AgentsWithPrefix, r.agents.Listed?) + AllOf(db, CredentialsWithPrefix, r.credentials.Listed?)
    + AllOf(db, ConfigsWithPrefix, r.configs.Listed?)
  }

  predicate PurgeClean(db: seq<Rec>, cluster: int, r: Replies) {
    && TargetsListed(db, cluster, r)
    && AllTolerated(PurgePlan(db, cluster, r), r)
    && r.login && r.agents.Listed? && r.credentials.Listed? && r.configs.Listed?
  }

  // ---------------------------------------------------------------------------
  // The code
  // ---------------------------------------------------------------------------

  lemma WithoutMore(db: seq<Rec>, gone: set<Rec>, x: Rec)
    ensures Without(Without(db, gone), {x}) == Without(db, gone + {x})
  {
    SelectTwice(db, NotIn(gone), NotIn({x}), NotIn(gone + {x}));
  }

  lemma WithoutNothing(db: seq<Rec>)
    ensures Without(db, {}) == db
  {
    if db != [] {
      WithoutNothing(db[..|db| - 1]);
    }
  }

  /** One more attempt. */
  lemma DeletedMore(db0: seq<Rec>, plan: seq<Rec>, x: Rec, r: Replies)
    ensures var before := Without(db0, Deleted(plan, r));
            Without(db0, Deleted(plan + [x], r)) == if r.delete(x).Applied() then Without(before, {x}) else before
  {
    var gone := Deleted(plan, r);
    assert Deleted(plan + [x], r) == gone + if r.delete(x).Applied() then {x} else {};
    if r.delete(x).Applied() {
      WithoutMore(db0, gone, x);
    } else {
      assert gone + {} == gone;
    }
  }

  /** Deleting records other than the proxies of `target` does not change what its
      proxy list shows. */
  lemma ProxiesStay(db: seq<Rec>, gone: set<Rec>, target: int)
    requires forall x :: x in gone && x.Proxy? ==> x.target != target
    ensures Proxies(Without(db, gone), target) == Proxies(db, target)
  {
    SelectTwice(db, NotIn(gone), TargetProxies(target), TargetProxies(target));
  }

  lemma Regroup(p: seq<Rec>, a: seq<Rec>, b: seq<Rec>, c: seq<Rec>)
    ensures p + a + b + c == p + (a + b + c)
  {
  }

  class Forge {
    var db: seq<Rec>
    /** Every delete call, in order. */
    var log: seq<Rec>

    constructor (db: seq<Rec>)
      ensures this.db == db && log == []
    {
      this.db, this.log := db, [];
    }

    /** restDelete with what Is404 takes for "not found" counted as success. */
    method Delete(x: Rec, r: Replies) returns (ok: bool)
      modifies this
      ensures ok == r.delete(x).Tolerated()
      ensures log == old(log) + [x]
      ensures db == if r.delete(x).Applied() then Without(old(db), {x}) else old(db)
    {
      log := log + [x];
      ok := r.delete(x).Tolerated();
      if r.delete(x).Applied() {
        db := Without(db, {x});
      }
    }

    /** Delete a list of records, counting failures; `plan` is what was attempted since
        the database was `db0`. */
    method DeleteAll(items: seq<Rec>, r: Replies, ghost db0: seq<Rec>, ghost plan: seq<Rec>) returns (errs: nat)
      requires db == Without(db0, Deleted(plan, r))
      modifies this
      ensures db == Without(db0, Deleted(plan + items, r))
      ensures log == old(log) + items
      ensures errs == 0 <==> AllTolerated(items, r)
    {
      errs := 0;
      assert plan + items[..0] == plan;
      for i := 0 to |items|
        invariant db == Without(db0, Deleted(plan + items[..i], r))
        invariant log == old(log) + items[..i]
        invariant errs == 0 <==> AllTolerated(items[..i], r)
      {
        var ok := Delete(items[i], r);
        DeletedMore(db0, plan + items[..i], items[i], r);
        assert plan + items[..i + 1] == plan + items[..i] + [items[i]];
        assert items[..i + 1] == items[..i] + [items[i]];
        if !ok {
          errs := errs + 1;
        }
      }
      assert items[..|items|] == items;
    }

    /** deleteTargetsAndProxies. */
    method DeleteTargetsAndProxies(cluster: int, r: Replies) returns (errs: nat)
      requires Distinct(db)
      modifies this
      ensures db == Without(old(db), Deleted(ClusterPlan(old(db), cluster, r), r))
      ensures log == old(log) + ClusterPlan(old(db), cluster, r)
      ensures errs == 0 <==>
        TargetsListed(old(db), cluster, r) && AllTolerated(ClusterPlan(old(db), cluster, r), r)
    {
      ghost var db0 := db;
      WithoutNothing(db0);
      if !r.listTargets {
        assert Deleted([], r) == {};
        return 1;
      }
      var ts := Targets(db, cluster);
      TargetsAre(db0, cluster);
      SelectDistinct(db0, ClusterTargets(cluster));
      errs := DeleteEachTarget(ts, cluster, r);
    }

    method DeleteEachTarget(ts: seq<Rec>, cluster: int, r: Replies) returns (errs: nat)
      requires SameCluster(ts, cluster)
      modifies this
      ensures db == Without(old(db), Deleted(TargetsPlan(old(db), ts, r), r))
      ensures log == old(log) + TargetsPlan(old(db), ts, r)
      ensures errs == 0 <==> AllListed(ts, r) && AllTolerated(TargetsPlan(old(db), ts, r), r)
    {
      ghost var db0, log0 := db, log;
      WithoutNothing(db0);
      errs := 0;
      ghost var plan := [];
      assert ts[..0] == [] && Deleted(plan, r) == {} && log0 + plan == log0;
      for i := 0 to |ts|
        invariant plan == TargetsPlan(db0, ts[..i], r)
        invariant db == Without(db0, Deleted(plan, r))
        invariant log == log0 + plan
        invariant errs == 0 <==> AllListed(ts[..i], r) && AllTolerated(plan, r)
      {
        var more := DeleteOneTarget(ts, i, cluster, r, db0);
        ghost var step := TargetPlan(db0, ts[i], r);
        AllToleratedConcat(plan, step, r);
        Regroup(log0, plan, step, []);
        assert plan + step + [] == plan + step && log0 + plan + step + [] == log0 + plan + step;
        plan := plan + step;
        errs := errs + more;
        AllListedMore(ts, i, r);
      }
      assert ts[..|ts|] == ts;
    }

    /** The body of the loop: the proxies of one target, then the target. */
    method DeleteOneTarget(ts: seq<Rec>, i: nat, cluster: int, r: Replies, ghost db0: seq<Rec>) returns (errs: nat)
      requires SameCluster(ts, cluster) && i < |ts|
      requires db == Without(db0, Deleted(TargetsPlan(db0, ts[..i], r), r))
      modifies this
      ensures db == Without(db0, Deleted(TargetsPlan(db0, ts[..i + 1], r), r))
      ensures log == old(log) + TargetPlan(db0, ts[i], r)
      ensures TargetsPlan(db0, ts[..i + 1], r) == TargetsPlan(db0, ts[..i], r) + TargetPlan(db0, ts[i], r)
      ensures errs == 0 <==> r.listProxies(ts[i].id) && AllTolerated(TargetPlan(db0, ts[i], r), r)
    {
      ghost var plan := TargetsPlan(db0, ts[..i], r);
      var t := ts[i];
      assert ts[..i + 1][..i] == ts[..i] && ts[..i + 1][i] == t;
      forall x | x in Deleted(plan, r) && x.Proxy? ensures x.target != t.id {
        PlanMembers(db0, ts[..i], r, x);
      }
      ProxiesStay(db0, Deleted(plan, r), t.id);
      var items, listErr := [], 0;
      if r.listProxies(t.id) {
        items := Proxies(db, t.id);
      } else {
        listErr := 1;
      }
      var proxyErrs := DeleteAll(items, r, db0, plan);
      var targetErrs := DeleteAll([t], r, db0, plan + items);
      assert plan + items + [t] == plan + (items + [t]);
      assert old(log) + items + [t] == old(log) + (items + [t]);
      errs := listErr + proxyErrs + targetErrs;
    }

    /** Look a record up by name and delete it: the first match of the list, nothing when
        there is none, and nothing when the list call fails (which counts as an error
        unless its text contains "not found"). */
    method DeleteNamed(q: Query, reply: ListReply, r: Replies, ghost db0: seq<Rec>, ghost plan: seq<Rec>)
      returns (errs: nat)
      requires db == Without(db0, Deleted(plan, r))
      requires forall x :: x in plan ==> !Matches(x, q)
      modifies this
      ensures db == Without(db0, Deleted(plan + FirstOf(db0, q, reply), r))
      ensures log == old(log) + FirstOf(db0, q, reply)
      ensures errs == 0 <==>
        LookupClean(reply) && AllTolerated(FirstOf(db0, q, reply), r)
    {
      errs := 0;
      SelectTwice(db0, NotIn(Deleted(plan, r)), q, q);
      var items := [];
      match reply {
        case Listed =>
          var found := Select(db, q);
          if |found| > 0 {
            items := [found[0]];
          }
        case Failed(saysNotFound) =>
          if !saysNotFound {
            errs := 1;
          }
      }
      var more := DeleteAll(items, r, db0, plan);
      errs := errs + more;
    }

    /** Delete every record a list call and its prefix filter pick out. */
    method DeleteListed(q: Query, listed: bool, r: Replies, ghost db0: seq<Rec>, ghost plan: seq<Rec>)
      returns (errs: nat)
      requires db == Without(db0, Deleted(plan, r))
      requires forall x :: x in plan ==> !Matches(x, q)
      modifies this
      ensures db == Without(db0, Deleted(plan + AllOf(db0, q, listed), r))
      ensures log == old(log) + AllOf(db0, q, listed)
      ensures errs == 0 <==> listed && AllTolerated(AllOf(db0, q, listed), r)
    {
      SelectTwice(db0, NotIn(Deleted(plan, r)), q, q);
      errs := 0;
      var items := [];
      if listed {
        items := Select(db, q);
      } else {
        errs := 1;
      }
      var more := DeleteAll(items, r, db0, plan);
      errs := errs + more;
    }

    /** DeleteClusterBenchmarkArtifacts. */
    method DeleteClusterBenchmarkArtifacts(cluster: int, instance: string, r: Replies) returns (errs: nat)
      requires Distinct(db)
      modifies this
      ensures db == Without(old(db), Deleted(DownPlan(old(db), cluster, instance, r), r))
      ensures log == old(log) + DownPlan(old(db), cluster, instance, r)
      ensures errs == 0 <==> DownClean(old(db), cluster, instance, r)
    {
      ghost var db0, log0 := db, log;
      ghost var plan := ClusterPlan(db0, cluster, r);
      errs := DeleteTargetsAndProxies(cluster, r);
      ClusterPlanKinds(db0, cluster, r);
      if instance == "" {
        assert plan + [] == plan;
        return;
      }
      var name := JumphostName(instance);
      if !r.login {
        errs := errs + 1;
        assert plan + [] == plan;
        return;
      }
      var agentErrs := DeleteNamed(AgentsNamed(name), r.agents, r, db0, plan);
      ghost var agents := FirstOf(db0, AgentsNamed(name), r.agents);
      FirstOfMatches(db0, AgentsNamed(name), r.agents);
      var credErrs := DeleteNamed(CredentialsNamed(name), r.credentials, r, db0, plan + agents);
      ghost var creds := FirstOf(db0, CredentialsNamed(name), r.credentials);
      assert plan + agents + creds == plan + (agents + creds);
      assert log0 + plan + agents + creds == log0 + (plan + (agents + creds));
      errs := errs + agentErrs + credErrs;
    }

    /** Steps 3 to 5 of the full purge. */
    method DeleteByPrefix(r: Replies, ghost db0: seq<Rec>, ghost plan: seq<Rec>) returns (errs: nat)
      requires db == Without(db0, Deleted(plan, r))
      requires forall x :: x in plan ==> x.Target? || x.Proxy?
      modifies this
      ensures db == Without(db0, Deleted(plan + PrefixPlan(db0, r), r))
      ensures log == old(log) + PrefixPlan(db0, r)
      ensures errs == 0 <==> r.agents.Listed? && r.credentials.Listed? && r.configs.Listed?
                             && AllTolerated(PrefixPlan(db0, r), r)
    {
      ghost var log0 := log;
      ghost var agents := AllOf(db0, AgentsWithPrefix, r.agents.Listed?);
      ghost var creds := AllOf(db0, CredentialsWithPrefix, r.credentials.Listed?);
      ghost var configs := AllOf(db0, ConfigsWithPrefix, r.configs.Listed?);
      AllOfMatches(db0, AgentsWithPrefix, r.agents.Listed?);
      AllOfMatches(db0, CredentialsWithPrefix, r.credentials.Listed?);
      Regroup(plan, agents, creds, configs);
      Regroup(log0, agents, creds, configs);
      AllToleratedConcat(agents, creds, r);
      AllToleratedConcat(agents + creds, configs, r);
      var agentErrs := DeleteListed(AgentsWithPrefix, r.agents.Listed?, r, db0, plan);
      var credErrs := DeleteListed(CredentialsWithPrefix, r.credentials.Listed?, r, db0, plan + agents);
      var configErrs := DeleteListed(ConfigsWithPrefix, r.configs.Listed?, r, db0, plan + agents + creds);
      errs := agentErrs + credErrs + configErrs;
    }

    /** DeleteAllClusterBenchmarkArtifacts. */
    method DeleteAllClusterBenchmarkArtifacts(cluster: int, r: Replies) returns (errs: nat)
      requires Distinct(db)
      modifies this
      ensures db == Without(old(db), Deleted(PurgePlan(old(db), cluster, r), r))
      ensures log == old(log) + PurgePlan(old(db), cluster, r)
      ensures errs == 0 <==> PurgeClean(old(db), cluster, r)
    {
      ghost var db0, log0 := db, log;
      ghost var plan := ClusterPlan(db0, cluster, r);
      errs := DeleteTargetsAndProxies(cluster, r);
      if !r.login {
        errs := errs + 1;
        assert plan + [] == plan;
        return;
      }
      ClusterPlanKinds(db0, cluster, r);
      var more := DeleteByPrefix(r, db0, plan);
      assert log0 + plan + PrefixPlan(db0, r) == log0 + (plan + PrefixPlan(db0, r));
      errs := errs + more;
    }
  }

  // ---------------------------------------------------------------------------
  // What a clean run means
  // ---------------------------------------------------------------------------

  /** A record goes only if it was attempted and the delete took effect; the others stay,
      each in its place. */
  lemma Frame(db: seq<Rec>, plan: seq<Rec>, r: Replies, x: Rec)
    ensures x in Without(db, Deleted(plan, r)) <==> x in db && !(x in plan && r.delete(x).Applied())
  {
    SelectMembers(db, NotIn(Deleted(plan, r)), x);
  }

  /** A target of the cluster, or a proxy of one. */
  predicate OfCluster(db: seq<Rec>, cluster: int, x: Rec) {
    || (x.Target? && x.cluster == cluster)
    || (x.Proxy? && exists t :: t in db && t.Target? && t.cluster == cluster && t.id == x.target)
  }

  /** What both cleanups attempt of targets and proxies: once the target list was read, the
      targets of the cluster and those of their proxies whose list was read; no others. */
  lemma ClusterScope(db: seq<Rec>, cluster: int, r: Replies, x: Rec)
    ensures x in ClusterPlan(db, cluster, r) <==>
              r.listTargets && x in db && OfCluster(db, cluster, x) && (x.Proxy? ==> r.listProxies(x.target))
  {
    TargetsAre(db, cluster);
    if r.listTargets {
      PlanMembers(db, Targets(db, cluster), r, x);
    }
  }

  /** The first listed agent of the name. */
  predicate FirstAgent(db: seq<Rec>, name: string, x: Rec) {
    exists i :: 0 <= i < |db| && db[i] == x && x.Agent? && x.name == name
                && forall j :: 0 <= j < i ==> !(db[j].Agent? && db[j].name == name)
  }

  predicate FirstCredential(db: seq<Rec>, name: string, x: Rec) {
    exists i :: 0 <= i < |db| && db[i] == x && x.Credential? && x.name == name
                && forall j :: 0 <= j < i ==> !(db[j].Credential? && db[j].name == name)
  }

  lemma FirstOfIs(db: seq<Rec>, q: Query, reply: ListReply, x: Rec)
    ensures x in FirstOf(db, q, reply) <==>
              reply.Listed? && exists i :: 0 <= i < |db| && db[i] == x && Matches(x, q)
                                           && forall j :: 0 <= j < i ==> !Matches(db[j], q)
  {
    var at := SelectPicks(db, q);
    if at != [] {
      var first := at[0];
      assert first in at && Select(db, q)[0] == db[first];
      forall j | 0 <= j < |db| && Matches(db[j], q) ensures first <= j {
        assert j in at;
      }
    } else {
      forall i | 0 <= i < |db| ensures !Matches(db[i], q) {
        assert i in at <==> Matches(db[i], q);
      }
    }
  }

  /** What the down-path cleanup attempts, exactly: the cluster's part, and, with an instance
      and a login, the first agent and the first credential of the jumphost's exact name. */
  lemma DownScope(db: seq<Rec>, cluster: int, instance: string, r: Replies, x: Rec)
    ensures var name, byName := "awsbnkctl-jumphost-" + instance, instance != "" && r.login;
            x in DownPlan(db, cluster, instance, r) <==>
              || x in ClusterPlan(db, cluster, r)
              || (byName && r.agents.Listed? && FirstAgent(db, name, x))
              || (byName && r.credentials.Listed? && FirstCredential(db, name, x))
  {
    FirstOfIs(db, AgentsNamed(JumphostName(instance)), r.agents, x);
    FirstOfIs(db, CredentialsNamed(JumphostName(instance)), r.credentials, x);
  }

  lemma DownTouches(db: seq<Rec>, cluster: int, instance: string, r: Replies, x: Rec)
    requires x in DownPlan(db, cluster, instance, r)
    ensures x in db && (OfCluster(db, cluster, x) || ((x.Agent? || x.Credential?) && x.name == JumphostName(instance)))
  {
    DownScope(db, cluster, instance, r, x);
    ClusterScope(db, cluster, r, x);
  }

  /** What the full purge attempts, exactly: the cluster's part, and, with a login, every
      agent, credential and config whose list was read and whose name starts with
      "awsbnkctl-". */
  lemma PurgeScope(db: seq<Rec>, cluster: int, r: Replies, x: Rec)
    ensures x in PurgePlan(db, cluster, r) <==>
              || x in ClusterPlan(db, cluster, r)
              || (r.login && x in db && x.Agent? && r.agents.Listed? && "awsbnkctl-" <= x.name)
              || (r.login && x in db && x.Credential? && r.credentials.Listed? && "awsbnkctl-" <= x.name)
              || (r.login && x in db && x.Config? && r.configs.Listed? && "awsbnkctl-" <= x.name)
  {
    SelectMembers(db, AgentsWithPrefix, x);
    SelectMembers(db, CredentialsWithPrefix, x);
    SelectMembers(db, ConfigsWithPrefix, x);
  }

  predicate ProxyOf(p: Rec, t: Rec) {
    p.Proxy? && t.Target? && p.target == t.id
  }

  predicate ProxiesBeforeTargets(plan: seq<Rec>) {
    forall i, j :: 0 <= i < |plan| && 0 <= j < |plan| && ProxyOf(plan[i], plan[j]) ==> i < j
  }

  /** Once the target list is read, every target of the cluster and every proxy whose
      list was read is attempted exactly once, proxies before their target. */
  lemma DownComplete(db: seq<Rec>, cluster: int, r: Replies)
    requires Distinct(db) && r.listTargets
    ensures Distinct(ClusterPlan(db, cluster, r))
    ensures forall t :: t in db && t.Target? && t.cluster == cluster ==> t in ClusterPlan(db, cluster, r)
    ensures forall p, t :: p in db && t in db && ProxyOf(p, t) && t.cluster == cluster && r.listProxies(t.id) ==>
              p in ClusterPlan(db, cluster, r)
    ensures ProxiesBeforeTargets(ClusterPlan(db, cluster, r))
  {
    var ts, plan := Targets(db, cluster), ClusterPlan(db, cluster, r);
    TargetsAre(db, cluster);
    SelectDistinct(db, ClusterTargets(cluster));
    PlanDistinct(db, ts, r, cluster);
    forall x ensures x in plan <==>
      x in ts || (x in db && x.Proxy? && r.listProxies(x.target) && exists t :: t in ts && t.id == x.target)
    {
      PlanMembers(db, ts, r, x);
    }
    forall i, j | 0 <= i < |plan| && 0 <= j < |plan| && ProxyOf(plan[i], plan[j])
      ensures i < j
    {
      ProxiesFirst(db, ts, r, cluster, i, j);
    }
  }

  lemma ClusterPlanHas(db: seq<Rec>, cluster: int, r: Replies, x: Rec)
    requires TargetsListed(db, cluster, r) && x in db
    requires (x.Target? && x.cluster == cluster)
             || (x.Proxy? && exists t :: t in db && t.Target? && t.cluster == cluster && t.id == x.target)
    ensures x in ClusterPlan(db, cluster, r)
  {
    TargetsAre(db, cluster);
    PlanMembers(db, Targets(db, cluster), r, x);
  }

  /** After a clean down-path cleanup, what remains of the cluster's targets and their
      proxies is exactly what a delete answered "not found" and left. */
  lemma CleanMeansNoTargets(db: seq<Rec>, cluster: int, instance: string, r: Replies, x: Rec)
    requires Distinct(db) && DownClean(db, cluster, instance, r) && x in db && OfCluster(db, cluster, x)
    ensures x in Without(db, Deleted(DownPlan(db, cluster, instance, r), r)) <==> r.delete(x).Misled()
  {
    Frame(db, DownPlan(db, cluster, instance, r), r, x);
    ClusterPlanHas(db, cluster, r, x);
  }

  const ONE_TARGET: seq<Rec> := [Target(1, 7)]

  /** Such a run: one target, whose delete route is missing. No error is reported, and the
      target is still there. */
  lemma MisledCleanRun()
    ensures var r := Replies(true, _ => true, true, Listed, Listed, Listed, _ => Deletion.Failed(true, false));
            && DownClean(ONE_TARGET, 7, "", r)
            && Without(ONE_TARGET, Deleted(DownPlan(ONE_TARGET, 7, "", r), r)) == ONE_TARGET
  {
    var r := Replies(true, _ => true, true, Listed, Listed, Listed, _ => Deletion.Failed(true, false));
    assert Deleted(DownPlan(ONE_TARGET, 7, "", r), r) == {};
    WithoutNothing(ONE_TARGET);
  }

  /** No record that q picks out is there, or the only one was looked up, and its delete
      took effect. */
  predicate OnlyOneAndGone(db: seq<Rec>, q: Query, reply: ListReply, r: Replies) {
    Select(db, q) == [] || (reply.Listed? && |Select(db, q)| == 1 && !r.delete(Select(db, q)[0]).Misled())
  }

  /** A clean down-path cleanup removes the first agent of the exact jumphost name, so none
      remains exactly when there was none, or only one that was looked up and whose delete
      was not a misleading "not found". When the list call failed with a "not found" text
      the run still counts as clean although nothing was looked at. */
  lemma CleanAgentsGoneIff(db: seq<Rec>, cluster: int, instance: string, r: Replies)
    requires Distinct(db) && instance != "" && DownClean(db, cluster, instance, r)
    ensures var q := AgentsNamed(JumphostName(instance));
            Select(Without(db, Deleted(DownPlan(db, cluster, instance, r), r)), q) == [] <==>
            OnlyOneAndGone(db, q, r.agents, r)
  {
    DownNamed(db, cluster, instance, r);
    NamedGone(db, DownPlan(db, cluster, instance, r), r, AgentsNamed(JumphostName(instance)), r.agents);
  }

  /** The same for the SSH credential. */
  lemma CleanCredentialsGoneIff(db: seq<Rec>, cluster: int, instance: string, r: Replies)
    requires Distinct(db) && instance != "" && DownClean(db, cluster, instance, r)
    ensures var q := CredentialsNamed(JumphostName(instance));
            Select(Without(db, Deleted(DownPlan(db, cluster, instance, r), r)), q) == [] <==>
            OnlyOneAndGone(db, q, r.credentials, r)
  {
    DownNamed(db, cluster, instance, r);
    NamedGone(db, DownPlan(db, cluster, instance, r), r, CredentialsNamed(JumphostName(instance)), r.credentials);
  }

  /** `first` is exactly what the plan holds of the records `q` picks out. */
  predicate OnlyFirst(plan: seq<Rec>, q: Query, first: seq<Rec>) {
    && (forall x :: x in plan && Matches(x, q) ==> x in first)
    && (forall x :: x in first ==> x in plan && Matches(x, q))
  }

  /** Among the records of the exact name, the plan holds just the first match. */
  lemma DownNamed(db: seq<Rec>, cluster: int, instance: string, r: Replies)
    requires instance != "" && r.login
    ensures var (name, plan) := (JumphostName(instance), DownPlan(db, cluster, instance, r));
            && OnlyFirst(plan, AgentsNamed(name), FirstOf(db, AgentsNamed(name), r.agents))
            && OnlyFirst(plan, CredentialsNamed(name), FirstOf(db, CredentialsNamed(name), r.credentials))
  {
    ClusterPlanKinds(db, cluster, r);
    FirstOfMatches(db, AgentsNamed(JumphostName(instance)), r.agents);
    FirstOfMatches(db, CredentialsNamed(JumphostName(instance)), r.credentials);
  }

  lemma NamedGone(db: seq<Rec>, plan: seq<Rec>, r: Replies, q: Query, reply: ListReply)
    requires Distinct(db) && AllTolerated(plan, r) && OnlyFirst(plan, q, FirstOf(db, q, reply))
    ensures Select(Without(db, Deleted(plan, r)), q) == [] <==> OnlyOneAndGone(db, q, reply, r)
  {
    var all, gone := Select(db, q), Deleted(plan, r);
    NoneLeftIff(db, q, gone);
    SelectDistinct(db, q);
    forall i | 0 <= i < |all| ensures all[i] in gone <==> i == 0 && reply.Listed? && !r.delete(all[0]).Misled() {
      SelectMembers(db, q, all[i]);
      assert all[i] in all;
    }
    if |all| > 1 {
      assert all[1] in all && all[1] !in gone;
    }
  }

  lemma NoneLeftIff(db: seq<Rec>, q: Query, gone: set<Rec>)
    ensures Select(Without(db, gone), q) == [] <==> forall x :: x in Select(db, q) ==> x in gone
  {
    var left := Select(Without(db, gone), q);
    forall x ensures x in left <==> x in Select(db, q) && x !in gone {
      SelectMembers(Without(db, gone), q, x);
      SelectMembers(db, NotIn(gone), x);
      SelectMembers(db, q, x);
    }
    if left != [] {
      assert left[0] in left;
    }
  }

  /** A rerun after a clean run attempts nothing, whatever its replies, if and only if no
      target's delete was misled and the agent and the credential of the jumphost's name
      are gone. (A proxy left behind is not attempted again once its target is gone.) */
  lemma RerunIsNoOp(db: seq<Rec>, cluster: int, instance: string, r: Replies)
    requires Distinct(db) && DownClean(db, cluster, instance, r)
    ensures var after := Without(db, Deleted(DownPlan(db, cluster, instance, r), r));
            (forall r' :: DownPlan(after, cluster, instance, r') == []) <==>
            && (forall t :: t in Targets(db, cluster) ==> !r.delete(t).Misled())
            && (instance != "" ==> OnlyOneAndGone(db, AgentsNamed(JumphostName(instance)), r.agents, r)
                                   && OnlyOneAndGone(db, CredentialsNamed(JumphostName(instance)), r.credentials, r))
  {
    var after := Without(db, Deleted(DownPlan(db, cluster, instance, r), r));
    RerunPlans(after, cluster, instance);
    TargetsLeft(db, cluster, instance, r);
    if instance != "" {
      CleanAgentsGoneIff(db, cluster, instance, r);
      CleanCredentialsGoneIff(db, cluster, instance, r);
    }
  }

  lemma TargetsLeft(db: seq<Rec>, cluster: int, instance: string, r: Replies)
    requires Distinct(db) && DownClean(db, cluster, instance, r)
    ensures Targets(Without(db, Deleted(DownPlan(db, cluster, instance, r), r)), cluster) == [] <==>
            forall t :: t in Targets(db, cluster) ==> !r.delete(t).Misled()
  {
    var after := Without(db, Deleted(DownPlan(db, cluster, instance, r), r));
    TargetsAre(db, cluster);
    TargetsAre(after, cluster);
    forall t | t in Targets(db, cluster) ensures t in Targets(after, cluster) <==> r.delete(t).Misled() {
      CleanMeansNoTargets(db, cluster, instance, r, t);
    }
    if Targets(after, cluster) != [] {
      var t := Targets(after, cluster)[0];
      assert t in Targets(after, cluster);
      Frame(db, DownPlan(db, cluster, instance, r), r, t);
    }
  }

  /** No cleanup of `db` attempts anything exactly when it holds nothing to attempt. */
  lemma RerunPlans(db: seq<Rec>, cluster: int, instance: string)
    ensures (forall r :: DownPlan(db, cluster, instance, r) == []) <==>
            && Targets(db, cluster) == []
            && (instance != "" ==> Select(db, AgentsNamed(JumphostName(instance))) == []
                                   && Select(db, CredentialsNamed(JumphostName(instance))) == [])
  {
    TargetsAre(db, cluster);
    var r := Replies(true, _ => true, true, Listed, Listed, Listed, _ => Gone);
    if Targets(db, cluster) != [] {
      var t := Targets(db, cluster)[0];
      assert t in Targets(db, cluster);
      PlanMembers(db, Targets(db, cluster), r, t);
      assert t in DownPlan(db, cluster, instance, r);
    } else if DownPlan(db, cluster, instance, r) == [] {
      assert ClusterPlan(db, cluster, r) == [];
    }
  }

  lemma PrefixPlanHas(db: seq<Rec>, r: Replies, x: Rec)
    requires r.agents.Listed? && r.credentials.Listed? && x in db
    requires Matches(x, AgentsWithPrefix) || Matches(x, CredentialsWithPrefix)
    ensures x in PrefixPlan(db, r)
  {
    SelectMembers(db, AgentsWithPrefix, x);
    SelectMembers(db, CredentialsWithPrefix, x);
  }

  /** Everything a down-path cleanup may attempt, a purge with all its lists attempts. */
  lemma DownWithinPurge(db: seq<Rec>, cluster: int, r: Replies, instance: string, r': Replies, x: Rec)
    requires TargetsListed(db, cluster, r) && r.login && r.agents.Listed? && r.credentials.Listed?
    requires x in DownPlan(db, cluster, instance, r')
    ensures x in ClusterPlan(db, cluster, r) || x in PrefixPlan(db, r)
  {
    DownTouches(db, cluster, instance, r', x);
    if x.Agent? || x.Credential? {
      PrefixOfName(instance);
      PrefixPlanHas(db, r, x);
    } else {
      ClusterPlanHas(db, cluster, r, x);
    }
  }

  /** A clean full purge leaves no more than a down-path cleanup of the same cluster
      leaves, whatever that one's replies, if and only if no record that the latter removes
      is one whose delete the purge was misled about. */
  lemma PurgeLeavesSubset(db: seq<Rec>, cluster: int, r: Replies, instance: string, r': Replies)
    requires Distinct(db) && PurgeClean(db, cluster, r)
    ensures var down := DownPlan(db, cluster, instance, r');
            (forall x :: x in Without(db, Deleted(PurgePlan(db, cluster, r), r)) ==>
                x in Without(db, Deleted(down, r')))
            <==> forall x :: x in down && r'.delete(x).Applied() ==> !r.delete(x).Misled()
  {
    var down, purge := DownPlan(db, cluster, instance, r'), PurgePlan(db, cluster, r);
    forall x | x in db
      ensures x in Without(db, Deleted(purge, r)) && x !in Without(db, Deleted(down, r')) <==>
              x in down && r'.delete(x).Applied() && r.delete(x).Misled()
    {
      PurgeLeavesMore(db, cluster, r, instance, r', x);
    }
    forall x ensures x in Without(db, Deleted(purge, r)) ==> x in db {
      Frame(db, purge, r, x);
    }
    forall x | x in down ensures x in db {
      DownTouches(db, cluster, instance, r', x);
    }
  }

  lemma PurgeLeavesMore(db: seq<Rec>, cluster: int, r: Replies, instance: string, r': Replies, x: Rec)
    requires PurgeClean(db, cluster, r) && x in db
    ensures var down := DownPlan(db, cluster, instance, r');
            x in Without(db, Deleted(PurgePlan(db, cluster, r), r)) && x !in Without(db, Deleted(down, r')) <==>
            x in down && r'.delete(x).Applied() && r.delete(x).Misled()
  {
    Frame(db, PurgePlan(db, cluster, r), r, x);
    Frame(db, DownPlan(db, cluster, instance, r'), r', x);
    if x in DownPlan(db, cluster, instance, r') {
      DownWithinPurge(db, cluster, r, instance, r', x);
    }
  }

  lemma PrefixOfName(instance: string)
    ensures PREFIX <= JumphostName(instance)
  {
    assert "awsbnkctl-jumphost-" == PREFIX + "jumphost-";
    assert JumphostName(instance) == PREFIX + ("jumphost-" + instance);
  }
}
