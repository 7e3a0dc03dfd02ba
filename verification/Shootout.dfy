/** The proxy shootout: resolving front-ends fail-closed, and running each one. */
module Shootout {
  import opened Wrappers

  datatype Deployment = Deployment(id: int, proxyType: string, externalURL: string)

  datatype FrontEnd = FrontEnd(proxyType: string, vip: string, deploymentID: int, resolved: bool)

  const BNK := "f5-bnk"
  const NODEPORT := "nodeport"
  const VALID_TYPES: set<string> := {"envoy", "nginx", "haproxy", BNK, NODEPORT}

  /** FindProxyDeployment: the first of that type. */
  function Find(known: seq<Deployment>, proxyType: string): (r: Option<Deployment>)
    ensures r.Some? ==> r.value in known && r.value.proxyType == proxyType
    ensures r.None? <==> forall d :: d in known ==> d.proxyType != proxyType
  {
    if known == [] then None
    else if known[0].proxyType == proxyType then Some(known[0])
    else Find(known[1..], proxyType)
  }

  /** The k-th listed deployment is the first one of its type. */
  predicate FirstOfType(known: seq<Deployment>, proxyType: string, k: int) {
    0 <= k < |known| && known[k].proxyType == proxyType && forall j :: 0 <= j < k ==> known[j].proxyType != proxyType
  }

  lemma {:induction false} FindsFirst(known: seq<Deployment>, proxyType: string, k: int)
    requires FirstOfType(known, proxyType, k)
    ensures Find(known, proxyType) == Some(known[k])
    decreases |known|
  {
    if k > 0 {
      assert forall j :: 0 <= j < k - 1 ==> known[1..][j] == known[j + 1];
      FindsFirst(known[1..], proxyType, k - 1);
    }
  }

  lemma {:induction false} FirstExists(known: seq<Deployment>, d: Deployment) returns (k: nat)
    requires d in known
    ensures FirstOfType(known, d.proxyType, k)
    decreases |known|
  {
    k := 0;
    if known[0].proxyType != d.proxyType {
      var rest := FirstExists(known[1..], d);
      k := rest + 1;
      assert forall j :: 0 < j < |known| ==> known[j] == known[1..][j - 1];
    }
  }

  /** The id of the first deployment of that type; 0 when there is none. */
  ghost predicate RightID(known: seq<Deployment>, proxyType: string, id: int) {
    && (forall k :: FirstOfType(known, proxyType, k) ==> id == known[k].id)
    && ((forall d :: d in known ==> d.proxyType != proxyType) ==> id == 0)
  }

  /** What the leg of one listed type must be. f5-bnk's probes the global address. Any other
      runs if and only if the first deployment of its own type has a URL, and then probes
      exactly that URL. */
  ghost predicate RightLeg(leg: Leg, proxyType: string, known: seq<Deployment>, globalVIP: string) {
    && leg.fe.proxyType == proxyType && RightID(known, proxyType, leg.fe.deploymentID)
    && (if proxyType == BNK then leg.Ran? && leg.probedVIP == globalVIP
        else
          && (leg.Ran? <==> exists k :: FirstOfType(known, proxyType, k) && known[k].externalURL != "")
          && (leg.Ran? ==> forall k :: FirstOfType(known, proxyType, k) ==> leg.probedVIP == known[k].externalURL))
  }

  lemma FoundRight(known: seq<Deployment>, proxyType: string)
    ensures var dep := Find(known, proxyType);
            && (dep.Some? ==> exists k :: FirstOfType(known, proxyType, k))
            && (forall k :: FirstOfType(known, proxyType, k) ==> dep == Some(known[k]))
            && RightID(known, proxyType, if dep.Some? then dep.value.id else 0)
  {
    forall k | FirstOfType(known, proxyType, k) ensures Find(known, proxyType) == Some(known[k]) {
      FindsFirst(known, proxyType, k);
    }
    var dep := Find(known, proxyType);
    if dep.Some? {
      var k := FirstExists(known, dep.value);
    }
  }

  /** The front-end of one listed type: f5-bnk's has no address, any other the first
      deployment's URL; it counts as resolved exactly when that is not empty. */
  ghost predicate RightFrontEnd(fe: FrontEnd, proxyType: string, known: seq<Deployment>) {
    && fe.proxyType == proxyType && RightID(known, proxyType, fe.deploymentID)
    && (if proxyType == BNK then fe.resolved && fe.vip == ""
        else
          && (fe.resolved <==> exists k :: FirstOfType(known, proxyType, k) && known[k].externalURL != "")
          && (fe.resolved ==> forall k :: FirstOfType(known, proxyType, k) ==> fe.vip == known[k].externalURL))
  }

  lemma ResolvedRight(known: seq<Deployment>, pt: string)
    ensures RightFrontEnd(Resolve(known, pt), pt, known)
  {
    FoundRight(known, pt);
    if pt != BNK && Find(known, pt).Some? {
      var k :| FirstOfType(known, pt, k);
      assert known[k] == Find(known, pt).value;
    }
  }

  /** One entry of --proxies. */
  function Resolve(known: seq<Deployment>, pt: string): FrontEnd {
    var dep := Find(known, pt);
    var id := if dep.Some? then dep.value.id else 0;
    if pt == BNK then FrontEnd(pt, "", id, true)
    else if dep.None? || dep.value.externalURL == "" then FrontEnd(pt, "", id, false)
    else FrontEnd(pt, dep.value.externalURL, id, true)
  }

  function DirectPod(known: seq<Deployment>, podIP: string): seq<FrontEnd> {
    if podIP == "" then []
    else
      var dep := Find(known, NODEPORT);
      [FrontEnd(NODEPORT, podIP, if dep.Some? then dep.value.id else 0, true)]
  }

  /** resolveShootoutFrontEnds over the parsed type list and whatever Forge listed
      (nothing, when discovery is skipped or fails). */
  method ResolveFrontEnds(types: seq<string>, known: seq<Deployment>, podIP: string)
    returns (r: Option<seq<FrontEnd>>)
    ensures r.None? <==> exists t :: t in types && t !in VALID_TYPES
    ensures r.Some? ==>
      && |r.value| == |types| + (if podIP == "" then 0 else 1)
      && (forall i :: 0 <= i < |types| ==> RightFrontEnd(r.value[i], types[i], known))
      && (forall i :: 0 <= i < |types| ==> r.value[i] == Resolve(known, types[i]))
      && r.value[|types|..] == DirectPod(known, podIP)
      && FailClosed(r.value)
  {
    for i := 0 to |types|
      invariant forall k :: 0 <= k < i ==> types[k] in VALID_TYPES
    {
      if types[i] !in VALID_TYPES {
        return None;
      }
    }
    var frontEnds: seq<FrontEnd> := [];
    for i := 0 to |types|
      invariant |frontEnds| == i
      invariant forall k :: 0 <= k < i ==> frontEnds[k] == Resolve(known, types[k])
    {
      var pt := types[i];
      var dep := Find(known, pt);
      var fe := FrontEnd(pt, "", 0, true);
      if dep.Some? {
        fe := fe.(deploymentID := dep.value.id);
      }
      if pt != BNK {
        if dep.None? || dep.value.externalURL == "" {
          fe := fe.(resolved := false);
        } else {
          fe := fe.(vip := dep.value.externalURL);
        }
      }
      frontEnds := frontEnds + [fe];
    }
    if podIP != "" {
      var dep := Find(known, NODEPORT);
      var id := 0;
      if dep.Some? {
        id := dep.value.id;
      }
      frontEnds := frontEnds + [FrontEnd(NODEPORT, podIP, id, true)];
    }
    forall i | 0 <= i < |types| ensures RightFrontEnd(Resolve(known, types[i]), types[i], known) {
      ResolvedRight(known, types[i]);
    }
    return Some(frontEnds);
  }

  /** A leg that ran, and the address it probed; or one that never ran. */
  datatype Leg = Ran(fe: FrontEnd, probedVIP: string, ok: bool) | ResolveFailed(fe: FrontEnd)

  predicate LegFailed(l: Leg) {
    l.ResolveFailed? || !l.ok
  }

  datatype Exit = UnknownType | NothingToDo | AllFailed | Done

  /** The leg of a front-end: an unresolved one never runs; a resolved one probes its own
      address, f5-bnk the global one. */
  function LegOf(fe: FrontEnd, globalVIP: string, works: (FrontEnd, string) -> bool): Leg {
    if !fe.resolved then ResolveFailed(fe)
    else
      var vip := if fe.proxyType == BNK then globalVIP else fe.vip;
      Ran(fe, vip, works(fe, vip))
  }

  /** Resolved front-ends have an address of their own unless they are f5-bnk, and f5-bnk
      has none. */
  predicate FailClosed(frontEnds: seq<FrontEnd>) {
    forall fe :: fe in frontEnds && fe.resolved ==> (fe.vip == "" <==> fe.proxyType == BNK)
  }

  method RunLegs(frontEnds: seq<FrontEnd>, globalVIP: string, works: (FrontEnd, string) -> bool)
    returns (legs: seq<Leg>)
    requires FailClosed(frontEnds)
    ensures |legs| == |frontEnds|
    ensures forall i :: 0 <= i < |legs| ==> legs[i] == LegOf(frontEnds[i], globalVIP, works)
  {
    legs := [];
    for i := 0 to |frontEnds|
      invariant |legs| == i
      invariant forall k :: 0 <= k < i ==> legs[k] == LegOf(frontEnds[k], globalVIP, works)
    {
      var fe := frontEnds[i];
      assert fe in frontEnds;
      if !fe.resolved {
        legs := legs + [ResolveFailed(fe)];
        continue;
      }
      var vip := globalVIP;
      if fe.vip != "" {
        vip := fe.vip;
      }
      legs := legs + [Ran(fe, vip, works(fe, vip))];
    }
  }

  /** runProxyShootout. `globalVIP` is the --vip flag, `works` how a leg ends at an
      address. Every listed type gets its own leg, in order, and the pod, if given, the last
      one; the command fails exactly when no leg ran and worked. */
  method RunShootout(types: seq<string>, known: seq<Deployment>, podIP: string, globalVIP: string,
                     works: (FrontEnd, string) -> bool)
    returns (exit: Exit, legs: seq<Leg>)
    ensures exit.UnknownType? <==> exists t :: t in types && t !in {"envoy", "nginx", "haproxy", "f5-bnk", "nodeport"}
    ensures exit.NothingToDo? <==> !exit.UnknownType? && types == [] && podIP == ""
    ensures exit.UnknownType? ==> legs == []
    ensures !exit.UnknownType? ==> |legs| == |types| + (if podIP == "" then 0 else 1)
    ensures !exit.UnknownType? ==> forall i :: 0 <= i < |types| ==> RightLeg(legs[i], types[i], known, globalVIP)
    ensures !exit.UnknownType? && podIP != "" ==>
      var pod := legs[|types|];
      && pod.Ran? && pod.probedVIP == podIP && pod.fe.proxyType == "nodeport"
      && RightID(known, "nodeport", pod.fe.deploymentID)
    ensures forall l :: l in legs && l.Ran? ==> l.ok == works(l.fe, l.probedVIP)
    ensures forall l :: l in legs && l.Ran? && l.fe.proxyType != BNK ==> l.probedVIP == l.fe.vip != ""
    ensures exit.AllFailed? <==> legs != [] && forall l :: l in legs ==> l.ResolveFailed? || !l.ok
  {
    var resolved := ResolveFrontEnds(types, known, podIP);
    if resolved.None? {
      return UnknownType, [];
    }
    var frontEnds := resolved.value;
    if |frontEnds| == 0 {
      return NothingToDo, [];
    }
    legs := RunLegs(frontEnds, globalVIP, works);
    forall l | l in legs && l.Ran? && l.fe.proxyType != BNK ensures l.probedVIP == l.fe.vip != "" {
      var k :| 0 <= k < |legs| && legs[k] == l;
      assert frontEnds[k] in frontEnds;
    }
    forall i | 0 <= i < |types| ensures RightLeg(legs[i], types[i], known, globalVIP) {
      assert RightFrontEnd(frontEnds[i], types[i], known);
    }
    FoundRight(known, NODEPORT);
    assert podIP != "" ==> frontEnds[|types|] == frontEnds[|types|..][0];
    var failed := AllLegsFailed(legs);
    exit := if failed then AllFailed else Done;
  }

  method AllLegsFailed(legs: seq<Leg>) returns (allFailed: bool)
    ensures allFailed <==> forall l :: l in legs ==> LegFailed(l)
  {
    for i := 0 to |legs|
      invariant forall k :: 0 <= k < i ==> LegFailed(legs[k])
    {
      if !LegFailed(legs[i]) {
        assert legs[i] in legs;
        return false;
      }
    }
    return true;
  }
}
