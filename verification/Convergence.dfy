/** Whole failover sweeps: labels and annotations settle on one active node for every claim. */
module Convergence {
  import opened Strings
  import opened Labels
  import Selection
  import Failover

  /** What a pass reads from an annotation: the trimmed value, empty when absent. */
  function Read(a: Annotations, key: string): string { if key in a then TrimSpace(a[key]) else "" }

  /** The pass of one claim in a sweep: its annotations before, the names of its labels, the failover
      pass with the waiting times it starts from, and the previous active node it would remember. */
  datatype Visit = Visit(storage: Storage, labels: Call, pass: Failover.Pass, seen: Failover.Seen, previous: string)

  const ALL_OK := Api(true, true, true, true)

  function Active(v: Visit): string { Failover.ActiveNode(v.pass.claim, v.pass.w) }

  /** How the failover pass ends. */
  function OutcomeOf(v: Visit): Failover.Outcome {
    Failover.Reconcile(v.seen, v.pass.claim, v.pass.w, v.pass.d).outcome
  }

  function ClusterOf(v: Visit): Selection.Cluster {
    Failover.ClusterOf(v.pass.claim, v.pass.w, v.pass.freshness, v.pass.demoted)
  }

  /** The candidates the failover pass finds. */
  function CandidatesOf(v: Visit): set<string> {
    set n | n in v.pass.w.agents && Selection.Eligible(ClusterOf(v), n)
  }

  predicate Promoted(v: Visit) { OutcomeOf(v).Attempted? && OutcomeOf(v).complete }

  /** The node the claim is recorded on when the pass ends. */
  function Final(v: Visit): string { if Promoted(v) then OutcomeOf(v).target else Active(v) }

  /** The label call before the demand check, and the one of a promotion, which names no candidates. */
  function FirstCall(v: Visit): Call { v.labels.(active := Active(v), candidates := CandidatesOf(v)) }

  function LastCall(v: Visit): Call {
    if Promoted(v) then v.labels.(active := Final(v), candidates := {}) else FirstCall(v)
  }

  function StorageAfter(v: Visit): Storage {
    var recorded := if Active(v) != "" then RecordActiveNode(v.storage, v.pass.claim.bound, Active(v), "", ALL_OK).storage
                    else v.storage;
    if Promoted(v) then PromoteStorage(recorded, v.pass.claim.bound, Final(v), v.previous, ALL_OK).storage else recorded
  }

  /** The label calls of a pass: one, or two when it promotes. */
  datatype LabelPass = LabelPass(first: Call, last: Call, twice: bool)

  function PassOf(v: Visit): LabelPass { LabelPass(FirstCall(v), LastCall(v), Promoted(v)) }

  function PassesOf(visits: seq<Visit>): (passes: seq<LabelPass>)
    ensures |passes| == |visits|
  {
    seq(|visits|, i requires 0 <= i < |visits| => PassOf(visits[i]))
  }

  function LabelsAfter(node: string, labels: NodeLabels, p: LabelPass): NodeLabels {
    Relabel(node, if p.twice then Relabel(node, labels, p.first) else labels, p.last)
  }

  function PassOn(node: string): (NodeLabels, LabelPass) -> NodeLabels { (labels, p) => LabelsAfter(node, labels, p) }

  /** A pass relabels every node once or twice. */
  lemma PassIsCalls(nodes: Nodes, p: LabelPass, node: string)
    requires node in nodes
    ensures LabelsAfter(node, nodes[node], p) == Relabelled(if p.twice then Relabelled(nodes, p.first) else nodes, p.last)[node]
  {}

  /** The nodes after a sweep. */
  function SweepNodes(nodes: Nodes, passes: seq<LabelPass>): Nodes {
    map node | node in nodes :: Fold(nodes[node], passes, PassOn(node), |passes|)
  }

  /** Node names and the like carry no spaces around them. */
  ghost predicate Tidy(s: string) { TrimSpace(s) == s }

  /** The pass read the claim's own annotations, used its own labels, decided as documented, and ended
      without error. */
  ghost predicate ErrorFree(v: Visit) {
    && Proper(v.labels) && Failover.Decided(v.pass)
    && v.pass.claim.annotatedActive == Read(v.storage.pvc, ACTIVE_NODE)
    && v.pass.claim.selectedNode == Read(v.storage.pvc, SELECTED_NODE)
    && Tidy(Failover.HealthyPodNode(v.pass.w.pods, v.pass.w.ready)) && Tidy(v.pass.w.initialNode)
    && (forall n :: n in v.pass.w.agents ==> Tidy(n))
    && (OutcomeOf(v).Attempted? ==> OutcomeOf(v).complete) && !OutcomeOf(v).Errored?
  }

  /** A promotion binds the claim's volume to an eligible node. */
  lemma PromotedIsEligible(v: Visit)
    requires Failover.Decided(v.pass) && Promoted(v)
    ensures v.pass.claim.bound && Selection.Eligible(ClusterOf(v), Final(v)) && Final(v) in v.pass.w.agents
  {
    Failover.DecidedIsEligible(ClusterOf(v), v.pass.claim.priority, v.pass.d);
  }

  lemma TrimTwice(s: string)
    ensures Tidy(TrimSpace(s))
  {
    TrimFacts(s, IsSpace);
    TrimKeeps(TrimSpace(s), IsSpace);
  }

  lemma EmptyIsTidy()
    ensures Tidy("")
  {
    TrimKeeps("", IsSpace);
  }

  lemma ReadIsTidy(a: Annotations, key: string)
    ensures Tidy(Read(a, key))
  {
    if key in a {
      TrimTwice(a[key]);
    } else {
      EmptyIsTidy();
    }
  }

  lemma FinalIsTidy(v: Visit)
    requires ErrorFree(v)
    ensures Tidy(Final(v)) && Tidy(Active(v))
  {
    EmptyIsTidy();
    if Promoted(v) {
      PromotedIsEligible(v);
    }
    ReadIsTidy(v.storage.pvc, ACTIVE_NODE);
    ReadIsTidy(v.storage.pvc, SELECTED_NODE);
  }

  lemma RecordedReads(s: Storage, bound: bool, target: string, previous: string)
    requires Tidy(target)
    ensures var r := RecordActiveNode(s, bound, target, previous, ALL_OK);
            Read(r.storage.pvc, ACTIVE_NODE) == target && (bound ==> r.ok && Agrees(r.storage, target))
  {
    AnnotationKeysDiffer();
    if bound {
      PromotionAgrees(s, bound, target, previous, ALL_OK);
    }
  }

  /** When the pass ends, the claim reads as recorded on the final node; a bound claim and its
      volume agree on it. */
  lemma StorageSettles(v: Visit)
    requires ErrorFree(v)
    ensures Read(StorageAfter(v).pvc, ACTIVE_NODE) == Final(v)
    ensures v.pass.claim.bound && Final(v) != "" ==> Agrees(StorageAfter(v), Final(v))
  {
    FinalIsTidy(v);
    var recorded := if Active(v) != "" then RecordActiveNode(v.storage, v.pass.claim.bound, Active(v), "", ALL_OK).storage
                    else v.storage;
    if Active(v) != "" {
      RecordedReads(v.storage, v.pass.claim.bound, Active(v), "");
    }
    if Promoted(v) {
      PromotedIsEligible(v);
      RecordedReads(recorded, true, Final(v), v.previous);
    }
  }

  /** Both calls of a pass use the two labels of its claim. */
  predicate OwnLabels(p: LabelPass) {
    p.first.role == p.last.role && p.first.candidate == p.last.candidate && p.last.role != p.last.candidate
  }

  /** Passes over different claims, with their own labels. */
  ghost predicate IsSweep(passes: seq<LabelPass>) {
    && (forall i :: 0 <= i < |passes| ==> OwnLabels(passes[i]))
    && (forall i, k :: 0 <= i < k < |passes| ==> ClaimsApart(passes[i].last, passes[k].last))
  }

  lemma PassKeeps(node: string, labels: NodeLabels, p: LabelPass, other: Call)
    requires OwnLabels(p) && ClaimsApart(other, p.last) && Settled(node, labels, other)
    ensures Settled(node, LabelsAfter(node, labels, p), other)
  {
    OtherClaimKeeps(node, labels, other, p.first);
    OtherClaimKeeps(node, if p.twice then Relabel(node, labels, p.first) else labels, other, p.last);
  }

  lemma PassSettles(node: string, labels: NodeLabels, p: LabelPass)
    requires OwnLabels(p)
    ensures Settled(node, LabelsAfter(node, labels, p), p.last)
  {
    CallSettles(node, if p.twice then Relabel(node, labels, p.first) else labels, p.last);
  }

  predicate SamePass(a: LabelPass, b: LabelPass) { !ClaimsApart(a.last, b.last) }

  lemma PassesSettle(node: string, labels: NodeLabels, passes: seq<LabelPass>, j: nat)
    requires j < |passes| && IsSweep(passes)
    ensures Settled(node, Fold(labels, passes, PassOn(node), |passes|), passes[j].last)
  {
    var step, settled := PassOn(node), (l: NodeLabels, p: LabelPass) => Settled(node, l, p.last);
    forall l, i | 0 <= i < |passes| ensures settled(step(l, passes[i]), passes[i]) {
      PassSettles(node, l, passes[i]);
    }
    forall l, i, k | 0 <= i < |passes| && 0 <= k < |passes| && !SamePass(passes[i], passes[k]) && settled(l, passes[i])
      ensures settled(step(l, passes[k]), passes[i])
    {
      PassKeeps(node, l, passes[k], passes[i].last);
    }
    LastCallsSettle(labels, passes, step, settled, SamePass, j, |passes|);
  }

  /** Error-free passes over distinct claims. */
  ghost predicate IsErrorFreeSweep(visits: seq<Visit>) {
    && (forall i :: 0 <= i < |visits| ==> ErrorFree(visits[i]))
    && (forall i, k :: 0 <= i < k < |visits| ==> !SameClaim(visits[i].labels, visits[k].labels))
  }

  lemma ErrorFreeIsSweep(visits: seq<Visit>)
    requires IsErrorFreeSweep(visits)
    ensures IsSweep(PassesOf(visits))
  {
    var passes := PassesOf(visits);
    forall i | 0 <= i < |passes| ensures OwnLabels(passes[i]) {
      OwnLabelsDiffer(visits[i].labels);
    }
    forall i, k | 0 <= i < k < |passes| ensures ClaimsApart(passes[i].last, passes[k].last) {
      ProperApart(visits[i].labels, visits[k].labels);
    }
  }

  /** A node that carries what the last label call of a pass wanted agrees with the annotations. */
  lemma SettledAgrees(v: Visit, n: string, labels: NodeLabels)
    requires ErrorFree(v) && Settled(n, labels, LastCall(v))
    ensures v.labels.role in labels <==> n != "" && n == Read(StorageAfter(v).pvc, ACTIVE_NODE)
    ensures v.labels.candidate in labels <==> !Promoted(v) && Selection.Eligible(ClusterOf(v), n)
    ensures v.pass.claim.bound && Final(v) != "" ==> Agrees(StorageAfter(v), Final(v))
  {
    StorageSettles(v);
  }

  /** After an error-free sweep over distinct claims, from any labels and annotations and for all
      claims at once: a listed node carries a claim's role label exactly when the claim's own
      annotation names it, bound claims agree with their volumes, and candidate labels are on
      exactly the nodes eligible in the claim's own pass, or on none after a promotion. */
  lemma SweepAgrees(nodes: Nodes, visits: seq<Visit>, j: nat, n: string)
    requires j < |visits| && n in nodes && IsErrorFreeSweep(visits)
    ensures var v, labels := visits[j], SweepNodes(nodes, PassesOf(visits))[n];
            && (v.labels.role in labels <==> n != "" && n == Read(StorageAfter(v).pvc, ACTIVE_NODE))
            && (v.labels.candidate in labels <==> !Promoted(v) && Selection.Eligible(ClusterOf(v), n))
            && (v.pass.claim.bound && Final(v) != "" ==> Agrees(StorageAfter(v), Final(v)))
  {
    var passes := PassesOf(visits);
    ErrorFreeIsSweep(visits);
    PassesSettle(n, nodes[n], passes, j);
    assert passes[j].last == LastCall(visits[j]);
    SettledAgrees(visits[j], n, SweepNodes(nodes, passes)[n]);
  }

  /** Where a pod of the claim serves, the first such pod's node ends up recorded and alone carries the
      role label. */
  lemma ServingNodeIsActive(nodes: Nodes, visits: seq<Visit>, j: nat, n: string)
    requires j < |visits| && n in nodes && IsErrorFreeSweep(visits) && Failover.HasHealthyPod(visits[j].pass.w)
    ensures var v := visits[j];
            var serving := Failover.HealthyPodNode(v.pass.w.pods, v.pass.w.ready);
            && Read(StorageAfter(v).pvc, ACTIVE_NODE) == serving
            && (v.labels.role in SweepNodes(nodes, PassesOf(visits))[n] <==> n == serving)
  {
    var v := visits[j];
    assert !Promoted(v);
    Failover.ActiveNodeIs(v.pass.claim, v.pass.w);
    StorageSettles(v);
    SweepAgrees(nodes, visits, j, n);
  }
}
