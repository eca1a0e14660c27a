/** Failover candidates and the choice among them. */
module Selection {
  import opened Strings
  import opened Resources

  /** Go's zero time is None. */
  datatype Freshness = Freshness(lastSync: Option<int>, healthy: bool)

  /** What one pass knows about the cluster: the pods of the claim and what they request, and what the
      nodes have left. */
  datatype Cluster = Cluster(
    pods: seq<Pod>, agents: set<string>, ready: set<string>, freshness: map<string, Freshness>,
    demoted: set<string>, maxStaleness: int, now: int, requests: Requests, available: Available)

  datatype Candidate = Candidate(node: string, lastSync: int)

  function FreshnessOf(c: Cluster, node: string): Freshness {
    if node in c.freshness then c.freshness[node] else Freshness(None, false)
  }

  predicate Hosts(pods: seq<Pod>, node: string) {
    exists i :: 0 <= i < |pods| && pods[i].node == node
  }

  /** A ready agent on a ready schedulable node without a claim pod or demotion mark, with a healthy
      sync within the allowed staleness and room for the workload. */
  predicate Eligible(c: Cluster, node: string) {
    var f := FreshnessOf(c, node);
    && node in c.agents && node in c.ready && !(node != "" && Hosts(c.pods, node)) && node !in c.demoted
    && f.healthy && f.lastSync.Some?
    && !(c.maxStaleness > 0 && c.now - f.lastSync.value > c.maxStaleness)
    && NodeFitsRequests(node, c.requests, c.available)
  }

  ghost predicate DistinctNodes(candidates: seq<Candidate>) {
    forall i, j :: 0 <= i < j < |candidates| ==> candidates[i].node != candidates[j].node
  }

  predicate HasNode(candidates: seq<Candidate>, node: string) {
    exists i :: 0 <= i < |candidates| && candidates[i].node == node
  }

  /** Exactly the eligible nodes, each once, with its last sync. */
  ghost predicate IsCandidateList(c: Cluster, candidates: seq<Candidate>) {
    && DistinctNodes(candidates)
    && (forall n :: HasNode(candidates, n) <==> Eligible(c, n))
    && (forall i :: 0 <= i < |candidates| ==> FreshnessOf(c, candidates[i].node).lastSync == Some(candidates[i].lastSync))
  }

  method FailoverCandidates(c: Cluster) returns (candidates: seq<Candidate>)
    ensures IsCandidateList(c, candidates)
  {
    var blocked: set<string> := {};
    for i := 0 to |c.pods|
      invariant forall n :: n in blocked <==> n != "" && Hosts(c.pods[..i], n)
    {
      HostsSnoc(c.pods, i);
      if c.pods[i].node != "" {
        blocked := blocked + {c.pods[i].node};
      }
    }
    assert c.pods[..|c.pods|] == c.pods;
    candidates := [];
    var rest := c.agents;
    while rest != {}
      invariant rest <= c.agents
      invariant DistinctNodes(candidates)
      invariant forall n :: HasNode(candidates, n) <==> n !in rest && Eligible(c, n)
      invariant forall i :: 0 <= i < |candidates| ==>
                  FreshnessOf(c, candidates[i].node).lastSync == Some(candidates[i].lastSync)
      decreases |rest|
    {
      var node :| node in rest;
      rest := rest - {node};
      if node !in c.ready || node in blocked || node in c.demoted {
        continue;
      }
      var f := FreshnessOf(c, node);
      if !f.healthy || f.lastSync.None? {
        continue;
      }
      if c.maxStaleness > 0 && c.now - f.lastSync.value > c.maxStaleness {
        continue;
      }
      if !NodeFitsRequests(node, c.requests, c.available) {
        continue;
      }
      HasNodeSnoc(candidates, Candidate(node, f.lastSync.value));
      assert !HasNode(candidates, node);
      candidates := candidates + [Candidate(node, f.lastSync.value)];
    }
  }

  lemma HostsSnoc(pods: seq<Pod>, i: nat)
    requires i < |pods|
    ensures forall n :: Hosts(pods[..i + 1], n) <==> Hosts(pods[..i], n) || pods[i].node == n
  {
    var a, b := pods[..i], pods[..i + 1];
    assert |a| == i && |b| == i + 1 && b[i] == pods[i];
    forall n ensures Hosts(b, n) <==> Hosts(a, n) || pods[i].node == n {
      if Hosts(b, n) {
        var k :| 0 <= k < |b| && b[k].node == n;
        assert k < i ==> a[k] == b[k];
      }
      if Hosts(a, n) {
        var k :| 0 <= k < |a| && a[k].node == n;
        assert b[k] == a[k];
      }
    }
  }

  lemma HasNodeSnoc(candidates: seq<Candidate>, x: Candidate)
    ensures forall n :: HasNode(candidates + [x], n) <==> HasNode(candidates, n) || x.node == n
  {
    var all := candidates + [x];
    assert all[|candidates|] == x && forall k :: 0 <= k < |candidates| ==> all[k] == candidates[k];
  }

  // ----- the choice -----

  datatype Decision = Promote(node: string, preferred: bool) | NoReadyReplicaNode

  /** The order of the stable sort: fresher first, ties by name. */
  predicate Better(a: Candidate, b: Candidate) {
    a.lastSync > b.lastSync || (a.lastSync == b.lastSync && Less(a.node, b.node))
  }

  /** Synced later or, at the same time, first by name. */
  ghost predicate Fresher(a: Candidate, b: Candidate) {
    if a.lastSync == b.lastSync then Less(a.node, b.node) else b.lastSync < a.lastSync
  }

  /** The decision as the documentation states it: the first preferred node that is a candidate,
      else the freshest candidate, ties by name, else none. */
  ghost predicate IsDecision(candidates: seq<Candidate>, priority: seq<string>, d: Decision) {
    match d
    case Promote(node, true) =>
      exists i :: 0 <= i < |priority| && priority[i] == node && HasNode(candidates, node)
               && forall k :: 0 <= k < i ==> !HasNode(candidates, priority[k])
    case Promote(node, false) =>
      && (forall k :: 0 <= k < |priority| ==> !HasNode(candidates, priority[k]))
      && exists i :: 0 <= i < |candidates| && candidates[i].node == node
                  && forall j :: 0 <= j < |candidates| && j != i ==> Fresher(candidates[i], candidates[j])
    case NoReadyReplicaNode => candidates == []
  }

  method SortCandidates(candidates: seq<Candidate>) returns (sorted: seq<Candidate>)
    requires DistinctNodes(candidates)
    ensures multiset(sorted) == multiset(candidates)
    ensures Ranked(sorted)
  {
    sorted := [];
    for n := 0 to |candidates|
      invariant multiset(sorted) == multiset(candidates[..n])
      invariant Ranked(sorted)
    {
      assert candidates[..n + 1] == candidates[..n] + [candidates[n]];
      forall i | 0 <= i < |sorted| ensures sorted[i].node != candidates[n].node {
        assert sorted[i] in multiset(sorted);
        assert sorted[i] in candidates[..n];
      }
      sorted := InsertCandidate(sorted, candidates[n]);
    }
    assert candidates[..|candidates|] == candidates;
  }

  ghost predicate Ranked(candidates: seq<Candidate>) {
    forall i, j :: 0 <= i < j < |candidates| ==> Better(candidates[i], candidates[j])
  }

  method InsertCandidate(sorted: seq<Candidate>, x: Candidate) returns (r: seq<Candidate>)
    requires Ranked(sorted) && forall i :: 0 <= i < |sorted| ==> sorted[i].node != x.node
    ensures multiset(r) == multiset(sorted) + multiset{x}
    ensures Ranked(r)
  {
    var k := 0;
    while k < |sorted| && Better(sorted[k], x)
      invariant k <= |sorted| && forall i :: 0 <= i < k ==> Better(sorted[i], x)
    {
      k := k + 1;
    }
    forall j | k <= j < |sorted| ensures Better(x, sorted[j]) {
      BetterTotal(sorted[k], x);
      if k < j {
        BetterTransitive(x, sorted[k], sorted[j]);
      }
    }
    InsertRanked(sorted, k, x);
    InsertedMultiset(sorted, k, x);
    r := sorted[..k] + [x] + sorted[k..];
  }

  lemma InsertRanked(sorted: seq<Candidate>, k: nat, x: Candidate)
    requires Ranked(sorted) && k <= |sorted|
    requires (forall i :: 0 <= i < k ==> Better(sorted[i], x)) && (forall j :: k <= j < |sorted| ==> Better(x, sorted[j]))
    ensures Ranked(sorted[..k] + [x] + sorted[k..])
  {
    var r := sorted[..k] + [x] + sorted[k..];
    forall i, j | 0 <= i < j < |r| ensures Better(r[i], r[j]) {
      InsertedAt(sorted, k, x, i);
      InsertedAt(sorted, k, x, j);
    }
  }

  lemma InsertedAt(sorted: seq<Candidate>, k: nat, x: Candidate, i: nat)
    requires k <= |sorted| && i <= |sorted|
    ensures var r := sorted[..k] + [x] + sorted[k..];
            r[i] == if i < k then sorted[i] else if i == k then x else sorted[i - 1]
  {}

  lemma InsertedMultiset(sorted: seq<Candidate>, k: nat, x: Candidate)
    requires k <= |sorted|
    ensures multiset(sorted[..k] + [x] + sorted[k..]) == multiset(sorted) + multiset{x}
  {
    assert sorted == sorted[..k] + sorted[k..];
  }

  lemma BetterTotal(a: Candidate, b: Candidate)
    requires a.node != b.node
    ensures Better(a, b) || Better(b, a)
    ensures !(Better(a, b) && Better(b, a))
  {
    LessTotal(a.node, b.node);
  }

  lemma BetterTransitive(a: Candidate, b: Candidate, c: Candidate)
    requires Better(a, b) && Better(b, c)
    ensures Better(a, c)
  {
    if a.lastSync == b.lastSync == c.lastSync {
      LessTransitive(a.node, b.node, c.node);
    }
  }

  method SelectFailoverTarget(candidates: seq<Candidate>, priority: seq<string>) returns (d: Decision)
    requires DistinctNodes(candidates)
    ensures IsDecision(candidates, priority, d)
  {
    var byNode: map<string, Candidate> := map[];
    for i := 0 to |candidates|
      invariant forall n :: n in byNode <==> exists k :: 0 <= k < i && candidates[k].node == n
    {
      byNode := byNode[candidates[i].node := candidates[i]];
    }
    for i := 0 to |priority|
      invariant forall k :: 0 <= k < i ==> !HasNode(candidates, priority[k])
    {
      if priority[i] in byNode {
        return Promote(priority[i], true);
      }
    }
    var sorted := SortCandidates(candidates);
    if |sorted| == 0 {
      assert |multiset(candidates)| == 0;
      return NoReadyReplicaNode;
    }
    d := Promote(sorted[0].node, false);
    assert sorted[0] in multiset(candidates);
    var i :| 0 <= i < |candidates| && candidates[i] == sorted[0];
    forall j | 0 <= j < |candidates| && j != i ensures Fresher(candidates[i], candidates[j]) {
      assert candidates[j] in multiset(sorted);
      assert candidates[j] in sorted;
      assert candidates[j] != sorted[0];
    }
  }

  lemma SameNodes(a: seq<Candidate>, b: seq<Candidate>, n: string)
    requires multiset(a) == multiset(b) && HasNode(a, n)
    ensures HasNode(b, n)
  {
    var i :| 0 <= i < |a| && a[i].node == n;
    assert a[i] in multiset(b);
    var j :| 0 <= j < |b| && b[j] == a[i];
  }

  /** Whatever order the candidates come in, the decision is the same. */
  lemma DecisionIsOrderFree(a: seq<Candidate>, b: seq<Candidate>, priority: seq<string>, d1: Decision, d2: Decision)
    requires multiset(a) == multiset(b) && DistinctNodes(a) && DistinctNodes(b)
    requires IsDecision(a, priority, d1) && IsDecision(b, priority, d2)
    ensures d1 == d2
  {
    forall n ensures HasNode(a, n) <==> HasNode(b, n) {
      if HasNode(a, n) {
        SameNodes(a, b, n);
      }
      if HasNode(b, n) {
        SameNodes(b, a, n);
      }
    }
    assert |a| == |multiset(a)| == |b|;
    if d1.Promote? && d2.Promote? && !d1.preferred && !d2.preferred {
      BestIsUnique(a, b, d1.node, d2.node);
    }
  }

  ghost predicate IsBest(candidates: seq<Candidate>, node: string) {
    exists i :: 0 <= i < |candidates| && candidates[i].node == node
             && forall j :: 0 <= j < |candidates| && j != i ==> Fresher(candidates[i], candidates[j])
  }

  lemma BestIsUnique(a: seq<Candidate>, b: seq<Candidate>, m: string, n: string)
    requires multiset(a) == multiset(b) && DistinctNodes(a) && DistinctNodes(b) && IsBest(a, m) && IsBest(b, n)
    ensures m == n
  {
    var i :| 0 <= i < |a| && a[i].node == m && forall j :: 0 <= j < |a| && j != i ==> Fresher(a[i], a[j]);
    var k :| 0 <= k < |b| && b[k].node == n && forall j :: 0 <= j < |b| && j != k ==> Fresher(b[k], b[j]);
    assert a[i] in multiset(b) && b[k] in multiset(a);
    var i' :| 0 <= i' < |b| && b[i'] == a[i];
    var k' :| 0 <= k' < |a| && a[k'] == b[k];
    if m != n {
      BetterTotal(a[i], b[k]);
    }
  }

  /** Promotion fails exactly when there is no candidate, whatever the preferences. */
  lemma BlockedIffNoCandidate(c: Cluster, candidates: seq<Candidate>, priority: seq<string>, d: Decision)
    requires IsCandidateList(c, candidates) && IsDecision(candidates, priority, d)
    ensures d.NoReadyReplicaNode? <==> forall n :: !Eligible(c, n)
    ensures d.Promote? ==> Eligible(c, d.node)
  {
    if candidates != [] {
      assert HasNode(candidates, candidates[0].node);
    }
    if d.Promote? {
      assert HasNode(candidates, d.node);
    }
    assert candidates == [] ==> forall n :: !HasNode(candidates, n);
  }
}
