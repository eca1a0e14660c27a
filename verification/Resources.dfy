/** CPU and memory: what nodes have left, what a workload asks for, and whether it fits. */
module Resources {

  datatype Resource = CPU | Memory

  const NAMES: seq<Resource> := [CPU, Memory]

  /** Requested amounts; Kubernetes admits no negative ones. */
  type Requests = map<Resource, nat>

  /** Amounts left on a node; an overcommitted node has less than nothing left. */
  type Amounts = map<Resource, int>

  datatype Phase = Pending | Running | Succeeded | Failed | Unknown

  /** A pod; its node is empty while it is unscheduled. */
  datatype Pod = Pod(name: string, node: string, phase: Phase, containers: seq<Requests>, inits: seq<Requests>)

  datatype Node = Node(name: string, allocatable: Amounts)

  function Value(list: Requests, r: Resource): nat { if r in list then list[r] else 0 }

  // ----- the reference amounts -----

  function Max(a: nat, b: nat): nat { if a < b then b else a }

  function SumOf(lists: seq<Requests>, r: Resource): nat {
    if lists == [] then 0 else SumOf(lists[..|lists| - 1], r) + Value(lists[|lists| - 1], r)
  }

  function LargestOf(lists: seq<Requests>, r: Resource): nat {
    if lists == [] then 0 else Max(LargestOf(lists[..|lists| - 1], r), Value(lists[|lists| - 1], r))
  }

  /** A pod needs all its containers together, or its largest init container before them. */
  function RequestOf(pod: Pod, r: Resource): nat {
    Max(SumOf(pod.containers, r), LargestOf(pod.inits, r))
  }

  predicate LiveOn(pod: Pod, node: string) {
    pod.node == node && pod.node != "" && pod.phase != Succeeded && pod.phase != Failed
  }

  function Share(pod: Pod, node: string, r: Resource): nat { if LiveOn(pod, node) then RequestOf(pod, r) else 0 }

  /** What the live pods of a node ask for. */
  function Used(pods: seq<Pod>, node: string, r: Resource): nat {
    if pods == [] then 0 else Used(pods[..|pods| - 1], node, r) + Share(pods[|pods| - 1], node, r)
  }

  function Workload(pods: seq<Pod>, r: Resource): nat {
    if pods == [] then 0 else Workload(pods[..|pods| - 1], r) + RequestOf(pods[|pods| - 1], r)
  }

  lemma AllNamed()
    ensures NAMES[..|NAMES|] == NAMES && forall r: Resource :: r in NAMES
  {
    assert NAMES[0] == CPU && NAMES[1] == Memory;
    forall r: Resource ensures r in NAMES {
      match r
      case CPU => assert NAMES[0] == r;
      case Memory => assert NAMES[1] == r;
    }
  }

  /** The workload as a request list. */
  function RequestsOf(pods: seq<Pod>): Requests {
    map r | r in NAMES && Workload(pods, r) > 0 :: Workload(pods, r)
  }

  lemma RequestsAre(pods: seq<Pod>, list: Requests)
    ensures list == RequestsOf(pods) <==> Trimmed(list) && forall r :: Value(list, r) == Workload(pods, r)
  {
    AllNamed();
    var all := RequestsOf(pods);
    assert forall r :: r in all <==> Workload(pods, r) > 0;
    if Trimmed(list) && forall r :: Value(list, r) == Workload(pods, r) {
      assert forall r :: r in list <==> Value(list, r) > 0;
    }
  }

  // ----- the source's loops over the two resource names -----

  /** No entry of a request list is zero. */
  ghost predicate Trimmed(list: Requests) { forall r :: r in list ==> list[r] > 0 }

  method AddResourceList(target: Requests, source: Requests) returns (sum: Requests)
    requires Trimmed(target)
    ensures Trimmed(sum)
    ensures forall r :: Value(sum, r) == Value(target, r) + Value(source, r)
  {
    sum := target;
    for i := 0 to |NAMES|
      invariant Trimmed(sum)
      invariant forall r :: Value(sum, r) == Value(target, r) + if r in NAMES[..i] then Value(source, r) else 0
    {
      var name := NAMES[i];
      assert NAMES[..i + 1] == NAMES[..i] + [name] && name !in NAMES[..i];
      if name in source && source[name] != 0 {
        sum := sum[name := Value(sum, name) + source[name]];
      }
    }
    assert forall r: Resource :: r in NAMES[..|NAMES|] by { AllNamed(); }
  }

  method MaxResourceList(target: Requests, source: Requests) returns (max: Requests)
    requires Trimmed(target)
    ensures Trimmed(max)
    ensures forall r :: Value(max, r) == Max(Value(target, r), Value(source, r))
  {
    max := target;
    for i := 0 to |NAMES|
      invariant Trimmed(max)
      invariant forall r :: Value(max, r) == if r in NAMES[..i] then Max(Value(target, r), Value(source, r)) else Value(target, r)
    {
      var name := NAMES[i];
      assert NAMES[..i + 1] == NAMES[..i] + [name] && name !in NAMES[..i];
      if name in source && source[name] != 0 {
        if Value(max, name) < source[name] {
          max := max[name := source[name]];
        }
      }
    }
    assert forall r: Resource :: r in NAMES[..|NAMES|] by { AllNamed(); }
  }

  method SubtractResourceList(target: Amounts, source: Requests) returns (rest: Amounts)
    ensures rest.Keys == target.Keys
    ensures forall r :: r in target ==> rest[r] == target[r] - Value(source, r)
  {
    rest := target;
    for i := 0 to |NAMES|
      invariant rest.Keys == target.Keys
      invariant forall r :: r in target ==> rest[r] == target[r] - if r in NAMES[..i] then Value(source, r) else 0
    {
      var name := NAMES[i];
      assert NAMES[..i + 1] == NAMES[..i] + [name] && name !in NAMES[..i];
      if name in source && source[name] != 0 && name in rest {
        rest := rest[name := rest[name] - source[name]];
      }
    }
    assert forall r: Resource :: r in NAMES[..|NAMES|] by { AllNamed(); }
  }

  /** podRequest: the sum of the containers or the largest init container, whichever is more. */
  method PodRequest(pod: Pod) returns (out: Requests)
    ensures Trimmed(out) && forall r :: Value(out, r) == RequestOf(pod, r)
  {
    out := map[];
    for i := 0 to |pod.containers|
      invariant Trimmed(out) && forall r :: Value(out, r) == SumOf(pod.containers[..i], r)
    {
      assert pod.containers[..i + 1][..i] == pod.containers[..i];
      out := AddResourceList(out, pod.containers[i]);
    }
    assert pod.containers[..|pod.containers|] == pod.containers;
    for i := 0 to |pod.inits|
      invariant Trimmed(out)
      invariant forall r :: Value(out, r) == Max(SumOf(pod.containers, r), LargestOf(pod.inits[..i], r))
    {
      assert pod.inits[..i + 1][..i] == pod.inits[..i];
      out := MaxResourceList(out, pod.inits[i]);
    }
    assert pod.inits[..|pod.inits|] == pod.inits;
  }

  method FailoverWorkloadRequests(pods: seq<Pod>) returns (out: Requests)
    ensures out == RequestsOf(pods)
  {
    out := map[];
    for i := 0 to |pods|
      invariant Trimmed(out) && forall r :: Value(out, r) == Workload(pods[..i], r)
    {
      assert pods[..i + 1][..i] == pods[..i];
      var request := PodRequest(pods[i]);
      out := AddResourceList(out, request);
    }
    assert pods[..|pods|] == pods;
    RequestsAre(pods, out);
  }

  // ----- the ledger -----

  type Available = map<string, Amounts>

  /** What the nodes have before any pod is subtracted; a name listed twice counts as listed last. */
  function Allocatable(nodes: seq<Node>): Available {
    if nodes == [] then map[]
    else
      var last := nodes[|nodes| - 1];
      Allocatable(nodes[..|nodes| - 1])[last.name := last.allocatable]
  }

  /** On every listed node and for every resource it reports, what is left and what its live pods
      ask for add up to the allocatable amount. */
  ghost predicate IsLedger(start: Available, pods: seq<Pod>, left: Available) {
    && left.Keys == start.Keys
    && forall n :: n in start ==>
         && left[n].Keys == start[n].Keys
         && forall r :: r in start[n] ==> left[n][r] + Used(pods, n, r) == start[n][r]
  }

  method NodeAvailableResources(nodes: seq<Node>, pods: seq<Pod>) returns (out: Available)
    ensures IsLedger(Allocatable(nodes), pods, out)
  {
    out := map[];
    for i := 0 to |nodes|
      invariant out == Allocatable(nodes[..i])
    {
      assert nodes[..i + 1][..i] == nodes[..i];
      out := out[nodes[i].name := nodes[i].allocatable];
    }
    assert nodes[..|nodes|] == nodes;
    ghost var start := out;
    for i := 0 to |pods|
      invariant IsLedger(start, pods[..i], out)
    {
      var pod := pods[i];
      assert pods[..i + 1][..i] == pods[..i];
      if pod.node == "" || pod.phase == Succeeded || pod.phase == Failed || pod.node !in out {
        LedgerSkip(start, pods[..i], out, pod);
        assert pods[..i + 1] == pods[..i] + [pod];
        continue;
      }
      var request := PodRequest(pod);
      var rest := SubtractResourceList(out[pod.node], request);
      LedgerSubtract(start, pods[..i], out, pod, rest);
      assert pods[..i + 1] == pods[..i] + [pod];
      out := out[pod.node := rest];
    }
    assert pods[..|pods|] == pods;
  }

  lemma UsedSnoc(pods: seq<Pod>, pod: Pod, n: string, r: Resource)
    ensures Used(pods + [pod], n, r) == Used(pods, n, r) + Share(pod, n, r)
  {
    assert (pods + [pod])[..|pods|] == pods;
  }

  lemma LedgerSkip(start: Available, pods: seq<Pod>, left: Available, pod: Pod)
    requires IsLedger(start, pods, left) && forall n :: n in start ==> !LiveOn(pod, n)
    ensures IsLedger(start, pods + [pod], left)
  {
    forall n, r | n in start && r in start[n] ensures left[n][r] + Used(pods + [pod], n, r) == start[n][r] {
      UsedSnoc(pods, pod, n, r);
    }
  }

  lemma LedgerSubtract(start: Available, pods: seq<Pod>, left: Available, pod: Pod, rest: Amounts)
    requires IsLedger(start, pods, left) && pod.node in left && LiveOn(pod, pod.node)
    requires rest.Keys == left[pod.node].Keys
    requires forall r :: r in rest ==> rest[r] == left[pod.node][r] - RequestOf(pod, r)
    ensures IsLedger(start, pods + [pod], left[pod.node := rest])
  {
    var left' := left[pod.node := rest];
    forall n, r | n in start && r in start[n] ensures left'[n][r] + Used(pods + [pod], n, r) == start[n][r] {
      UsedSnoc(pods, pod, n, r);
    }
  }

  // ----- the order of the pods does not matter -----

  lemma {:induction false} UsedConcat(a: seq<Pod>, b: seq<Pod>, n: string, r: Resource)
    ensures Used(a + b, n, r) == Used(a, n, r) + Used(b, n, r)
    decreases |b|
  {
    if b == [] {
      assert a + b == a;
    } else {
      var last := |b| - 1;
      assert a + b == (a + b[..last]) + [b[last]];
      UsedSnoc(a + b[..last], b[last], n, r);
      UsedConcat(a, b[..last], n, r);
    }
  }

  lemma UsedWithout(pods: seq<Pod>, i: nat, n: string, r: Resource)
    requires i < |pods|
    ensures Used(pods, n, r) == Used(pods[..i] + pods[i + 1..], n, r) + Share(pods[i], n, r)
  {
    assert pods == (pods[..i] + [pods[i]]) + pods[i + 1..];
    UsedConcat(pods[..i] + [pods[i]], pods[i + 1..], n, r);
    UsedSnoc(pods[..i], pods[i], n, r);
    UsedConcat(pods[..i], pods[i + 1..], n, r);
  }

  lemma FindInOrder<T>(a: seq<T>, b: seq<T>) returns (i: nat)
    requires multiset(a) == multiset(b) && a != []
    ensures i < |b| && b[i] == a[|a| - 1]
    ensures multiset(a[..|a| - 1]) == multiset(b[..i] + b[i + 1..])
  {
    var last := |a| - 1;
    assert a[last] in multiset(b);
    i :| 0 <= i < |b| && b[i] == a[last];
    MultisetWithout(a, last);
    MultisetWithout(b, i);
    assert a[..last] + a[last + 1..] == a[..last];
  }

  lemma MultisetWithout<T>(s: seq<T>, i: nat)
    requires i < |s|
    ensures multiset(s[..i] + s[i + 1..]) == multiset(s) - multiset{s[i]}
  {
    assert s == s[..i] + [s[i]] + s[i + 1..];
  }

  lemma {:induction false} UsedIsOrderFree(a: seq<Pod>, b: seq<Pod>, n: string, r: Resource)
    requires multiset(a) == multiset(b)
    ensures Used(a, n, r) == Used(b, n, r)
    decreases |a|
  {
    assert |a| == |multiset(a)| == |multiset(b)| == |b|;
    if a != [] {
      var i := FindInOrder(a, b);
      UsedIsOrderFree(a[..|a| - 1], b[..i] + b[i + 1..], n, r);
      UsedWithout(b, i, n, r);
    }
  }

  /** Any two orders of the pods lead to the same ledger. */
  lemma LedgerIsOrderFree(start: Available, a: seq<Pod>, left: Available, b: seq<Pod>, left': Available)
    requires IsLedger(start, a, left) && IsLedger(start, b, left') && multiset(a) == multiset(b)
    ensures left == left'
  {
    forall n | n in start ensures left[n] == left'[n] {
      forall r | r in start[n] ensures left[n][r] == left'[n][r] {
        UsedIsOrderFree(a, b, n, r);
      }
    }
  }

  // ----- fitting a workload -----

  predicate Fits(requests: Requests, left: Amounts, r: Resource) {
    r !in requests || requests[r] == 0 || r !in left || left[r] == 0 || left[r] >= requests[r]
  }

  /** nodeFitsRequests. */
  predicate NodeFitsRequests(node: string, requests: Requests, available: Available) {
    || |requests| == 0 || |available| == 0 || node !in available || |available[node]| == 0
    || (Fits(requests, available[node], CPU) && Fits(requests, available[node], Memory))
  }

  /** What acceptance means for one resource the node reports: the node has room for the whole
      workload exactly when something is left, or nothing is left and nothing is asked for. */
  lemma AcceptedNodeCovers(start: Available, pods: seq<Pod>, left: Available, claimPods: seq<Pod>, node: string, r: Resource)
    requires IsLedger(start, pods, left) && node in start && r in start[node]
    requires NodeFitsRequests(node, RequestsOf(claimPods), left)
    ensures Used(pods, node, r) + Workload(claimPods, r) <= start[node][r]
       <==> left[node][r] > 0 || (left[node][r] == 0 && Workload(claimPods, r) == 0)
  {
    var requests := RequestsOf(claimPods);
    RequestsAre(claimPods, requests);
    AcceptedIff(node, requests, left);
    assert left[node][r] + Used(pods, node, r) == start[node][r];
    assert Value(requests, r) == Workload(claimPods, r);
    if Workload(claimPods, r) > 0 && left[node][r] > 0 {
      assert r in requests && r in left[node] && requests[r] > 0;
    }
  }

  /** A node is accepted exactly when no requested amount exceeds a known, non-zero rest. */
  lemma AcceptedIff(node: string, requests: Requests, available: Available)
    ensures NodeFitsRequests(node, requests, available) <==>
            (node in available ==>
              forall r :: r in requests && r in available[node] && requests[r] > 0 && available[node][r] != 0 ==>
                requests[r] <= available[node][r])
  {
    if node in available {
      var left := available[node];
      assert available != map[];
      assert forall r :: Fits(requests, left, r) <==>
               (r in requests && r in left && requests[r] > 0 && left[r] != 0 ==> requests[r] <= left[r]);
      FitsAll(requests, left);
      if |requests| == 0 || |left| == 0 {
        assert requests == map[] || left == map[];
      }
    }
  }

  lemma FitsAll(requests: Requests, left: Amounts)
    ensures (Fits(requests, left, CPU) && Fits(requests, left, Memory)) <==> forall r :: Fits(requests, left, r)
  {
    if Fits(requests, left, CPU) && Fits(requests, left, Memory) {
      forall r: Resource ensures Fits(requests, left, r) {
        match r
        case CPU =>
        case Memory =>
      }
    }
  }

  /** A node whose pods ask for exactly what it has is accepted for every workload: a rest of zero
      reads as unknown. */
  lemma FullNodeIsAccepted(start: Available, pods: seq<Pod>, left: Available, node: string, requests: Requests)
    requires IsLedger(start, pods, left) && node in start
    requires forall r :: r in start[node] ==> Used(pods, node, r) == start[node][r]
    ensures NodeFitsRequests(node, requests, left)
  {
    assert forall r :: r in left[node] ==> left[node][r] == 0;
  }

  function MovedTo(pods: seq<Pod>, node: string): (r: seq<Pod>)
    ensures |r| == |pods|
  {
    seq(|pods|, i requires 0 <= i < |pods| => pods[i].(node := node, phase := Running))
  }

  lemma {:induction false} UsedByMoved(pods: seq<Pod>, node: string, r: Resource)
    ensures Used(MovedTo(pods, node), node, r) == if node == "" then 0 else Workload(pods, r)
    decreases |pods|
  {
    if pods != [] {
      var last := |pods| - 1;
      assert MovedTo(pods, node)[..last] == MovedTo(pods[..last], node);
      UsedByMoved(pods[..last], node, r);
    }
  }

  /** Running the whole workload on an accepted node that has something left does not overcommit it. */
  lemma PromotedWorkloadFits(start: Available, pods: seq<Pod>, left: Available, claimPods: seq<Pod>, node: string, r: Resource)
    requires IsLedger(start, pods, left) && node in start && r in start[node]
    requires NodeFitsRequests(node, RequestsOf(claimPods), left) && left[node][r] > 0
    ensures Used(pods + MovedTo(claimPods, node), node, r) <= start[node][r]
  {
    AcceptedNodeCovers(start, pods, left, claimPods, node, r);
    UsedConcat(pods, MovedTo(claimPods, node), node, r);
    UsedByMoved(claimPods, node, r);
  }
}
