/** The failover controller: the grace period, promotion and demotion. */
module Failover {
  import opened Strings
  import opened Resources
  import opened Selection

  /** A claim's settings and annotations as a pass reads them. */
  datatype Claim = Claim(
    key: string, volumeKey: string, bound: bool, grace: int, maxStaleness: int, priority: seq<string>,
    annotatedActive: string, selectedNode: string)

  /** What a pass sees and what its API calls answer. `workloads` is whether a controller wants a
      consumer of the claim; `available` is what the nodes have left; `initialNode` is the first
      placement it would choose. */
  datatype World = World(
    now: int, podsOk: bool, pods: seq<Pod>, workloadsOk: bool, workloads: bool,
    agents: set<string>, ready: set<string>, available: Available, initialNode: string,
    recordOk: bool, labelsOk: bool, promoteOk: bool, promoteLabelsOk: bool, deleteOk: seq<bool>)

  /** Node of the first running claim pod on a ready node, or the empty string. */
  function HealthyPodNode(pods: seq<Pod>, ready: set<string>): string {
    if pods == [] then ""
    else if pods[0].phase == Running && pods[0].node != "" && pods[0].node in ready then pods[0].node
    else HealthyPodNode(pods[1..], ready)
  }

  predicate HasHealthyPod(w: World) { HealthyPodNode(w.pods, w.ready) != "" }

  predicate HasDemand(w: World) { w.pods != [] || w.workloads }

  function ActiveNode(claim: Claim, w: World): string {
    var healthy := HealthyPodNode(w.pods, w.ready);
    if healthy != "" then healthy
    else if claim.annotatedActive != "" then claim.annotatedActive
    else if claim.selectedNode != "" then claim.selectedNode
    else if HasDemand(w) then w.initialNode
    else ""
  }

  /** No call failed before the demand check. */
  predicate Reaches(claim: Claim, w: World) {
    && w.podsOk && (w.pods != [] || w.workloadsOk)
    && (ActiveNode(claim, w) != "" ==> w.recordOk) && w.labelsOk
  }

  datatype Outcome =
    | Errored | NoDemand | HealthyPod | FirstSeen | Waiting | Blocked
    | Attempted(target: string, complete: bool)

  type Seen = map<string, int>

  datatype Result = Result(seen: Seen, outcome: Outcome)

  /** The pods a promotion removes: scheduled, and not on the target. */
  predicate IsStale(pod: Pod, target: string) { pod.node != "" && pod.node != target }

  /** The node hosts a pod that a promotion removes. */
  ghost predicate IsStaleNode(pods: seq<Pod>, target: string, node: string) {
    node != "" && node != target && exists i :: 0 <= i < |pods| && pods[i].node == node
  }

  predicate DeleteOk(w: World, i: nat) { i < |w.deleteOk| && w.deleteOk[i] }

  /** Every stale pod is deleted. */
  predicate DeletesAll(w: World, target: string) {
    forall i :: 0 <= i < |w.pods| && IsStale(w.pods[i], target) ==> DeleteOk(w, i)
  }

  /** The pass up to the choice of a target: where it ends, or None when it goes on. */
  function BeforeChoice(seen: Seen, claim: Claim, w: World): Option<Result> {
    if !Reaches(claim, w) then Some(Result(seen, Errored))
    else if !HasDemand(w) then Some(Result(seen - {claim.key}, NoDemand))
    else if HasHealthyPod(w) then Some(Result(seen - {claim.key}, HealthyPod))
    else if claim.key !in seen then Some(Result(seen[claim.key := w.now], FirstSeen))
    else if w.now - seen[claim.key] < claim.grace then Some(Result(seen, Waiting))
    else None
  }

  function Reconcile(seen: Seen, claim: Claim, w: World, d: Decision): Result {
    match BeforeChoice(seen, claim, w)
    case Some(r) => r
    case None =>
      match d
      case NoReadyReplicaNode => Result(seen, Blocked)
      case Promote(target, _) =>
        if Completes(claim, w, target) then Result(seen - {claim.key}, Attempted(target, true))
        else Result(seen, Attempted(target, false))
  }

  /** Every write and delete of a promotion succeeds. */
  predicate Completes(claim: Claim, w: World, target: string) {
    claim.bound && w.promoteOk && w.promoteLabelsOk && DeletesAll(w, target)
  }

  function ClusterOf(claim: Claim, w: World, freshness: map<string, Freshness>, demoted: set<string>): Cluster {
    Cluster(w.pods, w.agents, w.ready, freshness, demoted, claim.maxStaleness, w.now, RequestsOf(w.pods), w.available)
  }

  /** The decision the pass takes is the documented one among exactly the eligible nodes. */
  ghost predicate Decides(c: Cluster, priority: seq<string>, d: Decision) {
    exists candidates :: IsCandidateList(c, candidates) && IsDecision(candidates, priority, d)
  }

  function VolumeKey(namespace: string, volume: string): string { namespace + "/" + volume }

  class FailoverController {
    var seen: Seen
    var freshness: map<string, map<string, Freshness>>
    var demoted: map<string, set<string>>

    constructor ()
      ensures seen == map[] && freshness == map[] && demoted == map[]
    {
      seen, freshness, demoted := map[], map[], map[];
    }

    function FreshnessFor(volumeKey: string): map<string, Freshness>
      reads this`freshness
    {
      if volumeKey in freshness then freshness[volumeKey] else map[]
    }

    function DemotedFor(volumeKey: string): set<string>
      reads this`demoted
    {
      if volumeKey in demoted then demoted[volumeKey] else {}
    }

    method RecordReplicaFreshness(namespace: string, volume: string, node: string, lastSync: Option<int>, healthy: bool)
      modifies this`freshness
      ensures forall k :: k != VolumeKey(namespace, volume) ==> FreshnessFor(k) == old(FreshnessFor(k))
      ensures FreshnessFor(VolumeKey(namespace, volume)) ==
                if volume == "" || node == "" || lastSync.None? then old(FreshnessFor(VolumeKey(namespace, volume)))
                else old(FreshnessFor(VolumeKey(namespace, volume)))[node := Freshness(lastSync, healthy)]
    {
      if volume == "" || node == "" || lastSync.None? {
        return;
      }
      var key := VolumeKey(namespace, volume);
      freshness := freshness[key := FreshnessFor(key)[node := Freshness(lastSync, healthy)]];
    }

    method ShouldBackupBeforeRestore(volumeKey: string, node: string) returns (backup: bool)
      ensures backup == (node in DemotedFor(volumeKey))
    {
      backup := node in DemotedFor(volumeKey);
    }

    method MarkRestored(volumeKey: string, node: string)
      modifies this`demoted
      ensures DemotedFor(volumeKey) == old(DemotedFor(volumeKey)) - {node}
      ensures forall k :: k != volumeKey ==> DemotedFor(k) == old(DemotedFor(k))
    {
      if volumeKey !in demoted {
        return;
      }
      var nodes := demoted[volumeKey] - {node};
      if nodes == {} {
        demoted := demoted - {volumeKey};
      } else {
        demoted := demoted[volumeKey := nodes];
      }
    }

    method RecordDemoted(claim: Claim, node: string)
      modifies this`demoted
      ensures DemotedFor(claim.volumeKey) ==
                old(DemotedFor(claim.volumeKey)) + (if node == "" || !claim.bound then {} else {node})
      ensures forall k :: k != claim.volumeKey ==> DemotedFor(k) == old(DemotedFor(k))
    {
      if node == "" || !claim.bound {
        return;
      }
      demoted := demoted[claim.volumeKey := DemotedFor(claim.volumeKey) + {node}];
    }

    /** The last loop of a promotion: each stale pod's node is demoted, then the pod is deleted. */
    method DeleteStalePods(claim: Claim, w: World, target: string) returns (ok: bool, deleted: seq<Pod>)
      requires claim.bound
      modifies this`demoted
      ensures ok == DeletesAll(w, target)
      ensures old(DemotedFor(claim.volumeKey)) <= DemotedFor(claim.volumeKey)
      ensures forall n :: n in DemotedFor(claim.volumeKey) - old(DemotedFor(claim.volumeKey)) ==> IsStaleNode(w.pods, target, n)
      ensures forall k :: k != claim.volumeKey ==> DemotedFor(k) == old(DemotedFor(k))
      ensures forall p :: p in deleted ==> p in w.pods && IsStaleNode(w.pods, target, p.node) && p.node in DemotedFor(claim.volumeKey)
      ensures ok ==> forall p :: p in w.pods && p.node != "" && p.node != target ==> p in deleted
    {
      deleted := [];
      for i := 0 to |w.pods|
        invariant forall k :: 0 <= k < i && IsStale(w.pods[k], target) ==> DeleteOk(w, k) && w.pods[k] in deleted
        invariant old(DemotedFor(claim.volumeKey)) <= DemotedFor(claim.volumeKey)
        invariant forall n :: n in DemotedFor(claim.volumeKey) - old(DemotedFor(claim.volumeKey)) ==>
                    IsStaleNode(w.pods, target, n)
        invariant forall k :: k != claim.volumeKey ==> DemotedFor(k) == old(DemotedFor(k))
        invariant forall p :: p in deleted ==>
                    p in w.pods && IsStaleNode(w.pods, target, p.node) && p.node in DemotedFor(claim.volumeKey)
      {
        var pod := w.pods[i];
        if IsStale(pod, target) {
          assert IsStaleNode(w.pods, target, pod.node);
          RecordDemoted(claim, pod.node);
          if !DeleteOk(w, i) {
            return false, deleted;
          }
          deleted := deleted + [pod];
        }
      }
      ok := true;
    }

    /** The marks of a promotion to `target`: only nodes of stale pods are new, none is cleared. */
    twostate predicate MarksOnlyStale(claim: Claim, pods: seq<Pod>, target: string)
      reads this`demoted
    {
      && old(DemotedFor(claim.volumeKey)) <= DemotedFor(claim.volumeKey)
      && (forall n :: n in DemotedFor(claim.volumeKey) - old(DemotedFor(claim.volumeKey)) ==> IsStaleNode(pods, target, n))
      && (forall k :: k != claim.volumeKey ==> DemotedFor(k) == old(DemotedFor(k)))
    }

    /** What a pass does once a target is chosen. */
    method Promote(claim: Claim, w: World, target: string) returns (complete: bool, deleted: seq<Pod>)
      modifies this`seen, this`demoted
      ensures complete == Completes(claim, w, target)
      ensures seen == if complete then old(seen) - {claim.key} else old(seen)
      ensures MarksOnlyStale(claim, w.pods, target)
      ensures forall p :: p in deleted ==> IsStaleNode(w.pods, target, p.node) && p.node in DemotedFor(claim.volumeKey)
      ensures complete ==> forall p :: p in w.pods && p.node != "" && p.node != target ==> p in deleted
    {
      if !claim.bound || !w.promoteOk || !w.promoteLabelsOk {
        return false, [];
      }
      complete, deleted := DeleteStalePods(claim, w, target);
      if complete {
        seen := seen - {claim.key};
      }
    }

    /** The candidates of a pass. */
    method Candidates(claim: Claim, w: World) returns (candidates: seq<Candidate>)
      ensures IsCandidateList(ClusterOf(claim, w, FreshnessFor(claim.volumeKey), DemotedFor(claim.volumeKey)), candidates)
    {
      var requests := FailoverWorkloadRequests(w.pods);
      var cluster := Cluster(w.pods, w.agents, w.ready, FreshnessFor(claim.volumeKey), DemotedFor(claim.volumeKey),
                             claim.maxStaleness, w.now, requests, w.available);
      candidates := FailoverCandidates(cluster);
    }

    /** The pass up to the choice of a target. */
    method Wait(claim: Claim, w: World) returns (end: Option<Outcome>)
      modifies this`seen
      ensures match BeforeChoice(old(seen), claim, w)
              case Some(r) => end == Some(r.outcome) && seen == r.seen
              case None => end == None && seen == old(seen)
    {
      if !w.podsOk || (w.pods == [] && !w.workloadsOk) {
        return Some(Errored);
      }
      if (ActiveNode(claim, w) != "" && !w.recordOk) || !w.labelsOk {
        return Some(Errored);
      }
      if !HasDemand(w) {
        seen := seen - {claim.key};
        return Some(NoDemand);
      }
      if HasHealthyPod(w) {
        seen := seen - {claim.key};
        return Some(HealthyPod);
      }
      if claim.key !in seen {
        seen := seen[claim.key := w.now];
        return Some(FirstSeen);
      }
      end := if w.now - seen[claim.key] < claim.grace then Some(Waiting) else None;
    }

    /** One pass over one claim. It marks only nodes of stale pods of this volume, and clears no mark. */
    method ReconcilePVC(claim: Claim, w: World) returns (outcome: Outcome, deleted: seq<Pod>, ghost d: Decision)
      modifies this`seen, this`demoted
      ensures outcome.Blocked? || outcome.Attempted? ==>
                Decides(ClusterOf(claim, w, FreshnessFor(claim.volumeKey), old(DemotedFor(claim.volumeKey))), claim.priority, d)
      ensures Result(seen, outcome) == Reconcile(old(seen), claim, w, d)
      ensures !outcome.Attempted? ==> demoted == old(demoted) && deleted == []
      ensures outcome.Attempted? ==> MarksOnlyStale(claim, w.pods, outcome.target)
      ensures outcome.Attempted? && outcome.complete ==>
                forall p :: p in w.pods && p.node != "" && p.node != outcome.target ==> p in deleted
      ensures outcome.Attempted? ==> forall p :: p in deleted ==>
                IsStaleNode(w.pods, outcome.target, p.node) && p.node in DemotedFor(claim.volumeKey)
    {
      d := NoReadyReplicaNode;
      var candidates := Candidates(claim, w);
      ghost var cluster := ClusterOf(claim, w, FreshnessFor(claim.volumeKey), DemotedFor(claim.volumeKey));
      var end := Wait(claim, w);
      if end.Some? {
        return end.value, [], d;
      }
      var decision := SelectFailoverTarget(candidates, claim.priority);
      d := decision;
      assert Decides(cluster, claim.priority, d);
      if decision.NoReadyReplicaNode? {
        return Blocked, [], d;
      }
      var complete;
      complete, deleted := Promote(claim, w, decision.node);
      outcome := Attempted(decision.node, complete);
    }
  }

  // ----- promotion safety over runs -----

  /** One pass over one claim: its inputs, the freshness and demotion marks it read, and the
      decision it would take. */
  datatype Pass = Pass(claim: Claim, w: World, freshness: map<string, Freshness>, demoted: set<string>, d: Decision)

  ghost predicate IsTrace(states: seq<Seen>, passes: seq<Pass>) {
    && |states| == |passes| + 1 && states[0] == map[]
    && forall i :: 0 <= i < |passes| ==>
         states[i + 1] == Reconcile(states[i], passes[i].claim, passes[i].w, passes[i].d).seen
  }

  ghost predicate Decided(p: Pass) {
    Decides(ClusterOf(p.claim, p.w, p.freshness, p.demoted), p.claim.priority, p.d)
  }

  ghost predicate IsRun(states: seq<Seen>, passes: seq<Pass>) {
    IsTrace(states, passes) && forall i :: 0 <= i < |passes| ==> Decided(passes[i])
  }

  function OutcomeAt(states: seq<Seen>, passes: seq<Pass>, t: nat): Outcome
    requires t < |passes| && t < |states|
  {
    Reconcile(states[t], passes[t].claim, passes[t].w, passes[t].d).outcome
  }

  /** The pass belongs to the claim and got as far as the demand check. */
  ghost predicate Checked(p: Pass, key: string) { p.claim.key == key && AllAnswered(p) }

  /** Every call up to the demand check succeeded: the pods, the workloads where no pod uses the claim,
      the record of an active node if there is one, and the labels. */
  ghost predicate AllAnswered(p: Pass) {
    && p.w.podsOk && (p.w.pods == [] ==> p.w.workloadsOk)
    && (ActiveNode(p.claim, p.w) == "" || p.w.recordOk) && p.w.labelsOk
  }

  /** Somebody wants the claim, and no pod of it runs on a ready node. */
  ghost predicate Unserved(p: Pass) {
    && (p.w.pods != [] || p.w.workloads)
    && forall i :: 0 <= i < |p.w.pods| ==> !IsHealthy(p.w.pods[i], p.w.ready)
  }

  lemma UnservedIs(p: Pass)
    ensures Unserved(p) <==> HasDemand(p.w) && !HasHealthyPod(p.w)
  {
    HealthyPodNodeFinds(p.w.pods, p.w.ready);
  }

  /** The node may take the claim over: a ready agent on a ready node, no pod of the claim, no mark, a
      healthy sync that is not too old, and room for the workload. */
  ghost predicate MayServe(p: Pass, node: string) {
    && node in p.w.agents && node in p.w.ready && node !in p.demoted
    && (forall i :: 0 <= i < |p.w.pods| ==> p.w.pods[i].node != node || node == "")
    && node in p.freshness && p.freshness[node].healthy && p.freshness[node].lastSync.Some?
    && (p.claim.maxStaleness <= 0 || p.w.now - p.freshness[node].lastSync.value <= p.claim.maxStaleness)
    && NodeFitsRequests(node, RequestsOf(p.w.pods), p.w.available)
  }

  lemma EligibleIff(p: Pass, node: string)
    ensures Eligible(ClusterOf(p.claim, p.w, p.freshness, p.demoted), node) <==> MayServe(p, node)
  {}

  /** From pass `s` on, every pass of the claim that reached the check saw demand and no healthy
      pod, and `s` is one of them. */
  ghost predicate UnservedSince(passes: seq<Pass>, key: string, s: nat, n: nat) {
    && s < n <= |passes| && Checked(passes[s], key)
    && forall k :: s <= k < n && Checked(passes[k], key) ==> Unserved(passes[k])
  }

  /** A time survives a pass that finds the claim unserved or stops early, and is set by one that finds
      it unserved. */
  lemma SeenStep(seen: Seen, p: Pass, key: string)
    requires key in Reconcile(seen, p.claim, p.w, p.d).seen
    ensures Checked(p, key) ==> Unserved(p)
    ensures key in seen ==> Reconcile(seen, p.claim, p.w, p.d).seen[key] == seen[key]
    ensures key !in seen ==> Checked(p, key) && Reconcile(seen, p.claim, p.w, p.d).seen[key] == p.w.now
  {
    UnservedIs(p);
  }

  /** What the memory of the controller means: the claim has been unserved since that time. */
  lemma {:induction false} SeenMeansUnserved(states: seq<Seen>, passes: seq<Pass>, n: nat, key: string) returns (s: nat)
    requires IsTrace(states, passes) && n <= |passes| && key in states[n]
    ensures UnservedSince(passes, key, s, n) && passes[s].w.now == states[n][key]
  {
    SeenStep(states[n - 1], passes[n - 1], key);
    if key in states[n - 1] {
      s := SeenMeansUnserved(states, passes, n - 1, key);
    } else {
      s := n - 1;
    }
  }

  /** Every promotion attempt at pass `t` has an earlier pass `s` at least the grace period before
      it, the claim was unserved in every pass between that reached the check, and the target is
      eligible: ready agent and node, no claim pod, no demotion mark, a healthy sync within the
      allowed staleness, and room for the workload. */
  lemma PromotionIsSafe(states: seq<Seen>, passes: seq<Pass>, t: nat) returns (s: nat)
    requires IsRun(states, passes) && t < |passes| && OutcomeAt(states, passes, t).Attempted?
    ensures s < t && passes[t].w.now - passes[s].w.now >= passes[t].claim.grace
    ensures UnservedSince(passes, passes[t].claim.key, s, t + 1)
    ensures MayServe(passes[t], OutcomeAt(states, passes, t).target)
  {
    var p := passes[t];
    var c := ClusterOf(p.claim, p.w, p.freshness, p.demoted);
    s := SeenMeansUnserved(states, passes, t, p.claim.key);
    UnservedIs(p);
    DecidedIsEligible(c, p.claim.priority, p.d);
    EligibleIff(p, OutcomeAt(states, passes, t).target);
  }

  lemma DecidedIsEligible(c: Cluster, priority: seq<string>, d: Decision)
    requires Decides(c, priority, d)
    ensures d.NoReadyReplicaNode? <==> forall n :: !Eligible(c, n)
    ensures d.Promote? ==> Eligible(c, d.node)
  {
    var candidates :| IsCandidateList(c, candidates) && IsDecision(candidates, priority, d);
    BlockedIffNoCandidate(c, candidates, priority, d);
  }

  /** Where the ledger of the pass shows something left on the target, running the claim's pods there
      does not overcommit it. */
  lemma PromotionFits(states: seq<Seen>, passes: seq<Pass>, t: nat, start: Available, allPods: seq<Pod>, r: Resource)
    requires IsRun(states, passes) && t < |passes| && OutcomeAt(states, passes, t).Attempted?
    requires IsLedger(start, allPods, passes[t].w.available)
    requires var target := OutcomeAt(states, passes, t).target;
             target in start && r in start[target] && passes[t].w.available[target][r] > 0
    ensures var target := OutcomeAt(states, passes, t).target;
            Used(allPods + MovedTo(passes[t].w.pods, target), target, r) <= start[target][r]
  {
    var s := PromotionIsSafe(states, passes, t);
    var w, target := passes[t].w, OutcomeAt(states, passes, t).target;
    PromotedWorkloadFits(start, allPods, w.available, w.pods, target, r);
  }

  ghost predicate IsHealthy(pod: Pod, ready: set<string>) { pod.phase == Running && pod.node != "" && pod.node in ready }

  /** The node found is that of the first running pod on a ready node, if there is one. */
  lemma {:induction false} HealthyPodNodeFinds(pods: seq<Pod>, ready: set<string>)
    ensures HealthyPodNode(pods, ready) == "" <==> forall i :: 0 <= i < |pods| ==> !IsHealthy(pods[i], ready)
    ensures forall i :: 0 <= i < |pods| && IsHealthy(pods[i], ready) && (forall k :: 0 <= k < i ==> !IsHealthy(pods[k], ready)) ==>
              HealthyPodNode(pods, ready) == pods[i].node
  {
    if pods != [] {
      var tail := pods[1..];
      HealthyPodNodeFinds(tail, ready);
      assert forall i :: 0 < i < |pods| ==> pods[i] == tail[i - 1];
      assert forall i :: 0 <= i < |tail| ==> tail[i] == pods[i + 1];
      forall i | 0 <= i < |pods| && IsHealthy(pods[i], ready) && (forall k :: 0 <= k < i ==> !IsHealthy(pods[k], ready))
        ensures HealthyPodNode(pods, ready) == pods[i].node
      {
        if i > 0 {
          assert !IsHealthy(pods[0], ready);
          assert IsHealthy(tail[i - 1], ready) && forall k :: 0 <= k < i - 1 ==> !IsHealthy(tail[k], ready);
        }
      }
    }
  }

  /** Which node a pass records: a serving pod's before the annotations, these in their order, and a
      first placement only when somebody wants the claim. */
  lemma ActiveNodeIs(claim: Claim, w: World)
    ensures HasHealthyPod(w) ==> ActiveNode(claim, w) == HealthyPodNode(w.pods, w.ready)
    ensures !HasHealthyPod(w) && claim.annotatedActive != "" ==> ActiveNode(claim, w) == claim.annotatedActive
    ensures !HasHealthyPod(w) && claim.annotatedActive == "" && claim.selectedNode != "" ==>
              ActiveNode(claim, w) == claim.selectedNode
    ensures !HasHealthyPod(w) && claim.annotatedActive == "" && claim.selectedNode == "" ==>
              ActiveNode(claim, w) == if HasDemand(w) then w.initialNode else ""
  {}

  // ----- an overdue claim is promoted -----

  /** A time is kept by passes that stop early or find the claim unserved, until a promotion completes. */
  lemma {:induction false} TimeIsKept(states: seq<Seen>, passes: seq<Pass>, m: nat, n: nat, key: string)
    requires IsTrace(states, passes) && m <= n <= |passes| && key in states[m]
    requires forall k :: m <= k < n && Checked(passes[k], key) ==> Unserved(passes[k])
    requires forall k :: m <= k < n && passes[k].claim.key == key ==> !Finishes(states, passes, k)
    ensures key in states[n] && states[n][key] == states[m][key]
    decreases n
  {
    if m < n {
      TimeIsKept(states, passes, m, n - 1, key);
      TimeStep(states[n - 1], passes[n - 1], key);
    }
  }

  /** Pass `k` completes a promotion. */
  ghost predicate Finishes(states: seq<Seen>, passes: seq<Pass>, k: nat)
    requires k < |passes| && k < |states|
  {
    OutcomeAt(states, passes, k).Attempted? && OutcomeAt(states, passes, k).complete
  }

  lemma TimeStep(seen: Seen, p: Pass, key: string)
    requires key in seen && (Checked(p, key) ==> Unserved(p))
    requires var r := Reconcile(seen, p.claim, p.w, p.d);
             p.claim.key == key ==> !(r.outcome.Attempted? && r.outcome.complete)
    ensures var seen' := Reconcile(seen, p.claim, p.w, p.d).seen; key in seen' && seen'[key] == seen[key]
  {
    UnservedIs(p);
  }

  /** What a pass does once the claim has been unserved for the grace period: it attempts a promotion to
      the documented choice when some node may serve, which completes exactly when every write and delete
      succeeds. */
  lemma DueIsAttempted(seen: Seen, p: Pass)
    requires Decided(p) && AllAnswered(p) && Unserved(p)
    requires p.claim.key in seen && p.w.now - seen[p.claim.key] >= p.claim.grace
    ensures var outcome := Reconcile(seen, p.claim, p.w, p.d).outcome;
            && (outcome.Blocked? <==> forall n :: !MayServe(p, n))
            && (outcome.Attempted? <==> exists n :: MayServe(p, n))
            && (outcome.Attempted? ==> p.d == Promote(outcome.target, p.d.preferred))
            && (outcome.Attempted? ==> (outcome.complete <==>
                  && p.claim.bound && p.w.promoteOk && p.w.promoteLabelsOk
                  && forall i :: 0 <= i < |p.w.pods| && p.w.pods[i].node != "" && p.w.pods[i].node != outcome.target ==>
                       i < |p.w.deleteOk| && p.w.deleteOk[i]))
  {
    UnservedIs(p);
    DecidedIsEligible(ClusterOf(p.claim, p.w, p.freshness, p.demoted), p.claim.priority, p.d);
    forall n ensures Eligible(ClusterOf(p.claim, p.w, p.freshness, p.demoted), n) <==> MayServe(p, n) {
      EligibleIff(p, n);
    }
    if p.d.Promote? {
      assert MayServe(p, p.d.node);
    }
  }

  /** A claim first found unserved at pass `s`, and unserved in every pass since, is promoted by a pass
      after the grace period that gets so far, unless no node may serve. */
  lemma OverdueIsPromoted(states: seq<Seen>, passes: seq<Pass>, s: nat, t: nat, key: string)
    requires IsRun(states, passes) && s < t < |passes| && key !in states[s] && Checked(passes[s], key) && Checked(passes[t], key)
    requires forall k :: s <= k <= t && Checked(passes[k], key) ==> Unserved(passes[k])
    requires forall k :: s < k < t && passes[k].claim.key == key ==> !Finishes(states, passes, k)
    requires passes[t].w.now - passes[s].w.now >= passes[t].claim.grace
    ensures OutcomeAt(states, passes, t).Attempted? <==> exists n :: MayServe(passes[t], n)
    ensures OutcomeAt(states, passes, t).Blocked? <==> forall n :: !MayServe(passes[t], n)
  {
    UnservedIs(passes[s]);
    assert states[s + 1] == Reconcile(states[s], passes[s].claim, passes[s].w, passes[s].d).seen;
    TimeIsKept(states, passes, s + 1, t, key);
    DueIsAttempted(states[t], passes[t]);
  }
}
