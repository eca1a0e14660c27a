/** Per-volume node labels and the annotations of volumes and claims. */
module Labels {
  import opened Strings

  const PREFIX := "simple-volume.shipstuff.io"
  const MAX_ID := 45

  // ----- label names -----

  function LowerChar(c: char): char {
    if 'A' <= c <= 'Z' then 'a' + (c - 'A') else c
  }

  function Lower(s: string): (r: string)
    ensures |r| == |s| && forall i :: 0 <= i < |s| ==> r[i] == LowerChar(s[i])
  {
    seq(|s|, i requires 0 <= i < |s| => LowerChar(s[i]))
  }

  predicate IsLabelChar(c: char) {
    'a' <= c <= 'z' || '0' <= c <= '9' || 'A' <= c <= 'Z' || c == '_' || c == '.' || c == '-'
  }

  function SkipUnsafe(s: string): (r: string)
    ensures |r| <= |s|
  {
    if s == "" || IsLabelChar(s[0]) then s else SkipUnsafe(s[1..])
  }

  /** Every run of other characters becomes one dash. */
  function ReplaceUnsafe(s: string): string
    decreases |s|
  {
    if s == "" then ""
    else if IsLabelChar(s[0]) then [s[0]] + ReplaceUnsafe(s[1..])
    else "-" + ReplaceUnsafe(SkipUnsafe(s[1..]))
  }

  predicate IsEdge(c: char) { c == '-' || c == '.' }

  /** What is left of an identifier: its first 45 characters without dashes and dots at the ends. */
  function Kept(id: string): string { if |id| > MAX_ID then Trim(id[..MAX_ID], IsEdge) else id }

  function Capped(id: string): string { if id == "" then "volume" else Kept(id) }

  function RawId(namespace: string, name: string): string {
    if namespace == "" then name else namespace + "." + name
  }

  function VolumeLabelID(namespace: string, name: string): string {
    Capped(Trim(ReplaceUnsafe(ReplaceChar(Lower(RawId(namespace, name)), '/', '.')), IsEdge))
  }

  function RoleLabel(namespace: string, name: string): string { PREFIX + "/" + VolumeLabelID(namespace, name) + "-role" }

  function CandidateLabel(namespace: string, name: string): string {
    PREFIX + "/" + VolumeLabelID(namespace, name) + "-candidate"
  }

  predicate IsDnsChar(c: char) { 'a' <= c <= 'z' || '0' <= c <= '9' || c == '-' || c == '.' }

  /** A lower-case DNS name: letters, digits, dashes and dots, with no dash or dot at an end. */
  ghost predicate DnsName(s: string) {
    s != "" && (forall c :: c in s ==> IsDnsChar(c)) && !IsEdge(s[0]) && !IsEdge(s[|s| - 1])
  }

  /** A namespace is one label of such a name. */
  ghost predicate DnsLabel(s: string) { DnsName(s) && '.' !in s }

  lemma {:induction false} ReplaceUnsafeKeeps(s: string)
    requires forall c :: c in s ==> IsLabelChar(c)
    ensures ReplaceUnsafe(s) == s
  {
    if s != "" {
      assert s[0] in s;
      ReplaceUnsafeKeeps(s[1..]);
      assert s == [s[0]] + s[1..];
    }
  }

  lemma LowerKeeps(s: string)
    requires forall i :: 0 <= i < |s| ==> !('A' <= s[i] <= 'Z')
    ensures Lower(s) == s
  {}

  lemma NormalIdKept(id: string)
    requires DnsName(id)
    ensures Trim(ReplaceUnsafe(ReplaceChar(Lower(id), '/', '.')), IsEdge) == id
  {
    assert forall i :: 0 <= i < |id| ==> id[i] in id;
    LowerKeeps(id);
    ReplaceCharKeeps(id, '/', '.');
    ReplaceUnsafeKeeps(id);
    TrimKeeps(id, IsEdge);
  }

  lemma JoinedIsDns(namespace: string, name: string, dot: string)
    requires DnsName(namespace) && DnsName(name) && |dot| == 1 && IsDnsChar(dot[0])
    ensures DnsName(namespace + dot + name)
  {
    var id := namespace + dot + name;
    assert id[0] == namespace[0] && id[|id| - 1] == name[|name| - 1];
  }

  /** On Kubernetes names the identifier is the joined name, cut to its maximal length. */
  lemma LabelIdOfDns(namespace: string, name: string)
    requires DnsLabel(namespace) && DnsName(name)
    ensures VolumeLabelID(namespace, name) == Capped(namespace + "." + name)
  {
    JoinedIsDns(namespace, name, ".");
    NormalIdKept(namespace + "." + name);
  }

  /** Upper and lower case make no difference. */
  lemma LabelIgnoresCase(namespace: string, name: string)
    ensures VolumeLabelID(Lower(namespace), Lower(name)) == VolumeLabelID(namespace, name)
  {
    var raw := RawId(namespace, name);
    assert Lower(RawId(Lower(namespace), Lower(name))) == Lower(raw);
  }

  /** A claim whose identifier fits. */
  ghost predicate Fits(namespace: string, name: string) {
    DnsLabel(namespace) && DnsName(name) && |namespace| + 1 + |name| <= MAX_ID
  }

  lemma DotSplits(n1: string, c1: string, n2: string, c2: string)
    requires '.' !in n1 && '.' !in n2 && n1 + "." + c1 == n2 + "." + c2
    ensures n1 == n2 && c1 == c2
  {
    var s, t := n1 + "." + c1, n2 + "." + c2;
    assert s[|n1|] == '.' && t[|n2|] == '.';
    assert (forall i :: 0 <= i < |n1| ==> s[i] == n1[i]) && (forall i :: 0 <= i < |n2| ==> t[i] == n2[i]);
    assert n1 == s[..|n1|] && n2 == t[..|n2|];
    assert c1 == s[|n1| + 1..] && c2 == t[|n2| + 1..];
  }

  /** Claims whose identifiers fit never share one. */
  lemma LabelIdInjective(n1: string, c1: string, n2: string, c2: string)
    requires Fits(n1, c1) && Fits(n2, c2) && VolumeLabelID(n1, c1) == VolumeLabelID(n2, c2)
    ensures n1 == n2 && c1 == c2
  {
    LabelIdOfDns(n1, c1);
    LabelIdOfDns(n2, c2);
    DotSplits(n1, c1, n2, c2);
  }

  lemma SuffixesDiffer(a: string, b: string)
    ensures a + "-role" != b + "-candidate"
  {
    var s, t := a + "-role", b + "-candidate";
    assert s[|s| - 2] == 'l' && t[|t| - 2] == 't';
  }

  lemma MiddleCancels(p: string, a: string, b: string, q: string)
    requires p + a + q == p + b + q
    ensures a == b
  {
    assert |a| == |b|;
    assert a == (p + a + q)[|p|..|p| + |a|] && b == (p + b + q)[|p|..|p| + |b|];
  }

  lemma LabelIdKept(namespace: string, name: string)
    requires DnsLabel(namespace) && DnsName(name)
    ensures VolumeLabelID(namespace, name) == Kept(namespace + "." + name)
  {
    LabelIdOfDns(namespace, name);
  }

  /** Two claims share their labels exactly when the kept parts of their identifiers agree. */
  lemma LabelsCollideIff(n1: string, c1: string, n2: string, c2: string)
    requires DnsLabel(n1) && DnsName(c1) && DnsLabel(n2) && DnsName(c2)
    ensures RoleLabel(n1, c1) == RoleLabel(n2, c2) <==> Kept(n1 + "." + c1) == Kept(n2 + "." + c2)
    ensures CandidateLabel(n1, c1) == CandidateLabel(n2, c2) <==> Kept(n1 + "." + c1) == Kept(n2 + "." + c2)
  {
    LabelIdKept(n1, c1);
    LabelIdKept(n2, c2);
    var a, b := VolumeLabelID(n1, c1), VolumeLabelID(n2, c2);
    if RoleLabel(n1, c1) == RoleLabel(n2, c2) {
      MiddleCancels(PREFIX + "/", a, b, "-role");
    }
    if CandidateLabel(n1, c1) == CandidateLabel(n2, c2) {
      MiddleCancels(PREFIX + "/", a, b, "-candidate");
    }
  }

  /** Identifiers that are both cut collide as soon as they agree on the kept part. */
  lemma LongIdsCollide(namespace: string, c1: string, c2: string)
    requires DnsLabel(namespace) && DnsName(c1) && DnsName(c2)
    requires |namespace| + 1 + |c1| > MAX_ID && |namespace| + 1 + |c2| > MAX_ID
    requires (namespace + "." + c1)[..MAX_ID] == (namespace + "." + c2)[..MAX_ID]
    ensures RoleLabel(namespace, c1) == RoleLabel(namespace, c2)
  {
    LabelsCollideIff(namespace, c1, namespace, c2);
  }

  lemma TrimEdgeAtEnd(id: string, c: char)
    requires DnsName(id) && IsEdge(c)
    ensures Trim(id + [c], IsEdge) == id
  {
    var s := id + [c];
    assert s[0] == id[0] && s[|s| - 1] == c && s[..|s| - 1] == id;
    assert TrimLeft(s, IsEdge) == s;
    assert TrimRight(s, IsEdge) == TrimRight(id, IsEdge) == id;
  }

  /** An identifier of 44 characters fits, and collides with its extensions by a dash or a dot. */
  lemma FittingIdCollides(namespace: string, name: string, edge: char, rest: string)
    requires DnsLabel(namespace) && DnsName(name) && |namespace| + 1 + |name| == MAX_ID - 1
    requires IsEdge(edge) && DnsName(name + [edge] + rest) && rest != ""
    ensures Fits(namespace, name) && RoleLabel(namespace, name) == RoleLabel(namespace, name + [edge] + rest)
  {
    var id := namespace + "." + name;
    var long := namespace + "." + (name + [edge] + rest);
    JoinedIsDns(namespace, name, ".");
    assert long == id + [edge] + rest && long[..MAX_ID] == id + [edge];
    TrimEdgeAtEnd(id, edge);
    LabelsCollideIff(namespace, name, namespace, name + [edge] + rest);
  }

  /** Namespaces that agree on 45 characters collide for all their claims. */
  lemma LongNamespacesCollide(n1: string, n2: string, c1: string, c2: string)
    requires DnsLabel(n1) && DnsLabel(n2) && DnsName(c1) && DnsName(c2)
    requires |n1| >= MAX_ID && |n2| >= MAX_ID && n1[..MAX_ID] == n2[..MAX_ID]
    ensures RoleLabel(n1, c1) == RoleLabel(n2, c2)
  {
    assert (n1 + "." + c1)[..MAX_ID] == n1[..MAX_ID];
    assert (n2 + "." + c2)[..MAX_ID] == n2[..MAX_ID];
    LabelsCollideIff(n1, c1, n2, c2);
  }

  /** The two labels of one claim differ, and differ from those of every other claim. */
  lemma LabelsApart(n1: string, c1: string, n2: string, c2: string)
    requires Fits(n1, c1) && Fits(n2, c2)
    ensures RoleLabel(n1, c1) != CandidateLabel(n2, c2)
    ensures (n1, c1) != (n2, c2) ==> RoleLabel(n1, c1) != RoleLabel(n2, c2)
    ensures (n1, c1) != (n2, c2) ==> CandidateLabel(n1, c1) != CandidateLabel(n2, c2)
  {
    var a, b := VolumeLabelID(n1, c1), VolumeLabelID(n2, c2);
    SuffixesDiffer(PREFIX + "/" + a, PREFIX + "/" + b);
    if RoleLabel(n1, c1) == RoleLabel(n2, c2) {
      MiddleCancels(PREFIX + "/", a, b, "-role");
      LabelIdInjective(n1, c1, n2, c2);
    }
    if CandidateLabel(n1, c1) == CandidateLabel(n2, c2) {
      MiddleCancels(PREFIX + "/", a, b, "-candidate");
      LabelIdInjective(n1, c1, n2, c2);
    }
  }

  // ----- patching one node -----

  type NodeLabels = map<string, string>

  /** A merge patch: None removes a label. */
  type Patch = map<string, Option<string>>

  /** What one call of reconcileNodeLabels wants for one claim, and the labels it uses. */
  datatype Call = Call(namespace: string, name: string, role: string, candidate: string,
                       active: string, candidates: set<string>)

  /** The call uses its claim's own labels, and its identifier fits. */
  ghost predicate Proper(call: Call) {
    && Fits(call.namespace, call.name)
    && call.role == RoleLabel(call.namespace, call.name) && call.candidate == CandidateLabel(call.namespace, call.name)
  }

  function TagPatch(labels: NodeLabels, tag: string, wanted: bool, value: string): Patch {
    if wanted then
      if tag !in labels || labels[tag] != value then map[tag := Some(value)] else map[]
    else if tag in labels then map[tag := None] else map[]
  }

  predicate IsActive(call: Call, node: string) { node == call.active && call.active != "" }

  function NodePatch(node: string, labels: NodeLabels, call: Call): Patch {
    TagPatch(labels, call.role, IsActive(call, node), "active")
    + TagPatch(labels, call.candidate, node in call.candidates, "true")
  }

  function Patched(labels: NodeLabels, patch: Patch): NodeLabels {
    (map l | l in labels && l !in patch :: labels[l]) + (map l | l in patch && patch[l].Some? :: patch[l].value)
  }

  /** The node carries the claim's labels exactly as the call wants them. */
  ghost predicate Settled(node: string, labels: NodeLabels, call: Call) {
    && (call.role in labels <==> IsActive(call, node))
    && (call.role in labels ==> labels[call.role] == "active")
    && (call.candidate in labels <==> node in call.candidates)
    && (call.candidate in labels ==> labels[call.candidate] == "true")
  }

  ghost predicate SameExcept(a: NodeLabels, b: NodeLabels, role: string, candidate: string) {
    forall l :: l != role && l != candidate ==> (l in a <==> l in b) && (l in a ==> a[l] == b[l])
  }

  lemma PatchSettles(node: string, labels: NodeLabels, call: Call)
    requires call.role != call.candidate
    ensures var labels' := Patched(labels, NodePatch(node, labels, call));
            Settled(node, labels', call) && SameExcept(labels, labels', call.role, call.candidate)
  {}

  /** A node needs no patch exactly when it is settled. */
  lemma NoPatchIffSettled(node: string, labels: NodeLabels, call: Call)
    requires call.role != call.candidate
    ensures NodePatch(node, labels, call) == map[] <==> Settled(node, labels, call)
  {
    var role := TagPatch(labels, call.role, IsActive(call, node), "active");
    var candidate := TagPatch(labels, call.candidate, node in call.candidates, "true");
    var patch := role + candidate;
    assert role.Keys <= patch.Keys && candidate.Keys <= patch.Keys;
    if Settled(node, labels, call) {
      assert role == map[] && candidate == map[];
    } else {
      assert call.role in patch || call.candidate in patch;
    }
  }

  // ----- one call over all nodes -----

  type Nodes = map<string, NodeLabels>

  function Relabel(n: string, labels: NodeLabels, call: Call): NodeLabels {
    Patched(labels, NodePatch(n, labels, call))
  }

  function Relabelled(nodes: Nodes, call: Call): Nodes {
    map n | n in nodes :: Relabel(n, nodes[n], call)
  }

  predicate NeedsPatch(n: string, labels: NodeLabels, call: Call) { NodePatch(n, labels, call) != map[] }

  /** The call has dealt with all the listed nodes but `rest`: those that needed a patch got it, and
      none of them was refused. */
  ghost predicate Midway(listed: Nodes, nodes: Nodes, rest: set<string>, patched: set<string>, refused: set<string>, call: Call)
  {
    && nodes.Keys == listed.Keys && rest <= listed.Keys && patched <= listed.Keys - rest && patched !! refused
    && (forall n :: n in listed ==> nodes[n] == if n in patched then Relabel(n, listed[n], call) else listed[n])
    && (forall n :: n in listed && n !in rest ==> (n in patched <==> NeedsPatch(n, listed[n], call)))
  }

  class Cluster {
    var nodes: Nodes

    constructor (initial: Nodes)
      ensures nodes == initial
    {
      nodes := initial;
    }

    /** reconcileNodeLabels. `listOk` is whether the nodes can be listed, and `refused` are the nodes
        whose patch the API refuses; the first refusal ends the call. Only nodes that need a patch
        are sent one. */
    method ReconcileNodeLabels(call: Call, listOk: bool, refused: set<string>) returns (ok: bool, patched: set<string>)
      modifies this
      ensures ok <==> listOk && forall n :: n in refused && n in old(nodes) ==> !NeedsPatch(n, old(nodes)[n], call)
      ensures ok ==> nodes == Relabelled(old(nodes), call)
      ensures ok ==> forall n :: n in patched <==> n in old(nodes) && NeedsPatch(n, old(nodes)[n], call)
      ensures patched <= nodes.Keys && nodes.Keys == old(nodes).Keys
      ensures forall n :: n in nodes ==>
                nodes[n] == if n in patched then Relabel(n, old(nodes)[n], call) else old(nodes)[n]
    {
      patched := {};
      if !listOk {
        return false, patched;
      }
      var listed := nodes;
      var rest, updated := listed.Keys, listed;
      while rest != {}
        invariant nodes == listed && Midway(listed, updated, rest, patched, refused, call)
        decreases |rest|
      {
        var n :| n in rest;
        if NeedsPatch(n, listed[n], call) {
          if n in refused {
            nodes := updated;
            return false, patched;
          }
          MidwayPatch(listed, updated, rest, patched, refused, call, n);
          updated, patched := updated[n := Relabel(n, listed[n], call)], patched + {n};
        } else {
          MidwaySkip(listed, updated, rest, patched, refused, call, n);
        }
        rest := rest - {n};
      }
      MidwayEnds(listed, updated, patched, refused, call);
      nodes := updated;
      ok := true;
    }
  }

  lemma MidwaySkip(listed: Nodes, nodes: Nodes, rest: set<string>, patched: set<string>, refused: set<string>, call: Call, n: string)
    requires Midway(listed, nodes, rest, patched, refused, call) && n in rest && !NeedsPatch(n, listed[n], call)
    ensures Midway(listed, nodes, rest - {n}, patched, refused, call)
  {}

  lemma MidwayPatch(listed: Nodes, nodes: Nodes, rest: set<string>, patched: set<string>, refused: set<string>, call: Call, n: string)
    requires Midway(listed, nodes, rest, patched, refused, call) && n in rest && NeedsPatch(n, listed[n], call) && n !in refused
    ensures Midway(listed, nodes[n := Relabel(n, listed[n], call)], rest - {n}, patched + {n}, refused, call)
  {}

  lemma MidwayEnds(listed: Nodes, nodes: Nodes, patched: set<string>, refused: set<string>, call: Call)
    requires Midway(listed, nodes, {}, patched, refused, call)
    ensures nodes == Relabelled(listed, call)
    ensures forall n :: n in refused && n in listed ==> !NeedsPatch(n, listed[n], call)
  {
    forall n | n in listed ensures nodes[n] == Relabel(n, listed[n], call) {
      if n !in patched {
        EmptyPatch(listed[n]);
      }
    }
  }

  lemma EmptyPatch(labels: NodeLabels)
    ensures Patched(labels, map[]) == labels
  {}

  /** Repeating a call patches no node. */
  lemma RepeatPatchesNothing(nodes: Nodes, call: Call, n: string)
    requires call.role != call.candidate && n in nodes
    ensures NodePatch(n, Relabelled(nodes, call)[n], call) == map[]
    ensures Relabelled(Relabelled(nodes, call), call)[n] == Relabelled(nodes, call)[n]
  {
    PatchSettles(n, nodes[n], call);
    NoPatchIffSettled(n, Relabelled(nodes, call)[n], call);
    EmptyPatch(Relabelled(nodes, call)[n]);
  }

  // ----- a sweep over all claims -----

  /** The state after the first `n` calls. */
  function Fold<L, C>(first: L, calls: seq<C>, step: (L, C) -> L, n: nat): L
    requires n <= |calls|
  {
    if n == 0 then first else step(Fold(first, calls, step, n - 1), calls[n - 1])
  }

  /** Call `j` is the last of its kind among the first `n`. */
  ghost predicate IsLastCall<C(!new)>(calls: seq<C>, same: (C, C) -> bool, j: nat, n: nat) {
    j < n <= |calls| && forall k :: j < k < n ==> !same(calls[j], calls[k])
  }

  /** If every call settles what it is about, and no call unsettles what another kind is about, then
      what the last call of every kind is about stays settled. */
  lemma {:induction false} LastCallsSettle<L(!new), C(!new)>(first: L, calls: seq<C>, step: (L, C) -> L, settled: (L, C) -> bool,
                                                            same: (C, C) -> bool, j: nat, n: nat)
    requires IsLastCall(calls, same, j, n)
    requires forall l, i :: 0 <= i < |calls| ==> settled(step(l, calls[i]), calls[i])
    requires forall l, i, k :: 0 <= i < |calls| && 0 <= k < |calls| && !same(calls[i], calls[k]) && settled(l, calls[i]) ==>
               settled(step(l, calls[k]), calls[i])
    ensures settled(Fold(first, calls, step, n), calls[j])
    decreases n
  {
    if j < n - 1 {
      LastCallsSettle(first, calls, step, settled, same, j, n - 1);
    }
  }

  function RelabelOf(node: string): (NodeLabels, Call) -> NodeLabels { (labels, call) => Relabel(node, labels, call) }

  /** The nodes after a sequence of calls. */
  function Sweep(nodes: Nodes, calls: seq<Call>): Nodes {
    map node | node in nodes :: Fold(nodes[node], calls, RelabelOf(node), |calls|)
  }

  predicate SameClaim(a: Call, b: Call) { a.namespace == b.namespace && a.name == b.name }

  lemma OwnLabelsDiffer(call: Call)
    requires Proper(call)
    ensures call.role != call.candidate
  {
    LabelsApart(call.namespace, call.name, call.namespace, call.name);
  }

  /** The labels of the two calls are different ones. */
  predicate ClaimsApart(a: Call, b: Call) {
    a.role != b.role && a.role != b.candidate && a.candidate != b.role && a.candidate != b.candidate
  }

  lemma ProperApart(a: Call, b: Call)
    requires Proper(a) && Proper(b) && !SameClaim(a, b)
    ensures ClaimsApart(a, b)
  {
    LabelsApart(a.namespace, a.name, b.namespace, b.name);
    LabelsApart(b.namespace, b.name, a.namespace, a.name);
  }

  lemma OtherClaimKeeps(node: string, labels: NodeLabels, a: Call, b: Call)
    requires b.role != b.candidate && ClaimsApart(a, b) && Settled(node, labels, a)
    ensures Settled(node, Relabel(node, labels, b), a)
  {
    PatchSettles(node, labels, b);
  }

  lemma CallSettles(node: string, labels: NodeLabels, call: Call)
    requires call.role != call.candidate
    ensures Settled(node, Relabel(node, labels, call), call)
  {
    PatchSettles(node, labels, call);
  }

  /** Calls for different claims use different labels. */
  ghost predicate AllApart(calls: seq<Call>) {
    && (forall i :: 0 <= i < |calls| ==> calls[i].role != calls[i].candidate)
    && (forall i, k :: 0 <= i < |calls| && 0 <= k < |calls| ==> SameClaim(calls[i], calls[k]) || ClaimsApart(calls[i], calls[k]))
  }

  lemma ProperAreApart(calls: seq<Call>)
    requires forall i :: 0 <= i < |calls| ==> Proper(calls[i])
    ensures AllApart(calls)
  {
    forall i | 0 <= i < |calls| ensures calls[i].role != calls[i].candidate {
      OwnLabelsDiffer(calls[i]);
    }
    forall i, k | 0 <= i < |calls| && 0 <= k < |calls|
      ensures SameClaim(calls[i], calls[k]) || ClaimsApart(calls[i], calls[k])
    {
      if !SameClaim(calls[i], calls[k]) {
        ProperApart(calls[i], calls[k]);
      }
    }
  }

  lemma {:induction false} FoldOfPrefix<L, C>(first: L, calls: seq<C>, more: seq<C>, step: (L, C) -> L, n: nat)
    requires n <= |calls|
    ensures Fold(first, calls + more, step, n) == Fold(first, calls, step, n)
  {
    if n > 0 {
      FoldOfPrefix(first, calls, more, step, n - 1);
    }
  }

  lemma FoldSnoc<L, C>(first: L, calls: seq<C>, call: C, step: (L, C) -> L)
    ensures Fold(first, calls + [call], step, |calls| + 1) == step(Fold(first, calls, step, |calls|), call)
  {
    FoldOfPrefix(first, calls, [call], step, |calls|);
  }

  lemma RelabelledAt(nodes: Nodes, call: Call, node: string)
    requires node in nodes
    ensures Relabelled(nodes, call)[node] == RelabelOf(node)(nodes[node], call)
  {}

  /** One more call relabels all nodes once more. */
  lemma SweepSnoc(nodes: Nodes, calls: seq<Call>, call: Call, node: string)
    requires node in nodes
    ensures Sweep(nodes, calls + [call])[node] == Relabelled(Sweep(nodes, calls), call)[node]
  {
    FoldSnoc(nodes[node], calls, call, RelabelOf(node));
    RelabelledAt(Sweep(nodes, calls), call, node);
  }

  lemma {:induction false} CallsSettle(node: string, labels: NodeLabels, calls: seq<Call>, j: nat)
    requires AllApart(calls) && IsLastCall(calls, SameClaim, j, |calls|)
    ensures Settled(node, Fold(labels, calls, RelabelOf(node), |calls|), calls[j])
  {
    var step, settled := RelabelOf(node), (l: NodeLabels, c: Call) => Settled(node, l, c);
    forall l, i | 0 <= i < |calls| ensures settled(step(l, calls[i]), calls[i]) {
      CallSettles(node, l, calls[i]);
    }
    forall l, i, k | 0 <= i < |calls| && 0 <= k < |calls| && !SameClaim(calls[i], calls[k]) && settled(l, calls[i])
      ensures settled(step(l, calls[k]), calls[i])
    {
      OtherClaimKeeps(node, l, calls[i], calls[k]);
    }
    LastCallsSettle(labels, calls, step, settled, SameClaim, j, |calls|);
  }

  /** After any sequence of error-free calls, from any labels, every node carries for every claim exactly
      what the claim's last call wanted: the role label on the recorded active node alone, and
      candidate labels on the last set passed. */
  lemma SweepConverges(nodes: Nodes, calls: seq<Call>, node: string, j: nat)
    requires node in nodes && IsLastCall(calls, SameClaim, j, |calls|)
    requires forall i :: 0 <= i < |calls| ==> Proper(calls[i])
    ensures Settled(node, Sweep(nodes, calls)[node], calls[j])
  {
    ProperAreApart(calls);
    CallsSettle(node, nodes[node], calls, j);
  }

  // ----- annotations -----

  const ACTIVE_NODE := PREFIX + "/active-node"
  const PREVIOUS_ACTIVE := PREFIX + "/previous-active-node"
  const SELECTED_NODE := "volume.kubernetes.io/selected-node"

  type Annotations = map<string, string>

  /** The annotations of a claim and of its volume. */
  datatype Storage = Storage(pv: Annotations, pvc: Annotations)

  datatype Api = Api(getPvOk: bool, updatePvOk: bool, getPvcOk: bool, updatePvcOk: bool)

  datatype Written = Written(storage: Storage, ok: bool)

  function WithActive(a: Annotations, target: string, previous: string): Annotations {
    if previous == "" then a[ACTIVE_NODE := target] else a[ACTIVE_NODE := target][PREVIOUS_ACTIVE := previous]
  }

  function PromotePvc(s: Storage, target: string, previous: string, api: Api): Written {
    var updated := WithActive(s.pvc, target, previous) - {SELECTED_NODE};
    if !api.getPvcOk then Written(s, false)
    else if updated == s.pvc then Written(s, true)
    else if !api.updatePvcOk then Written(s, false)
    else Written(s.(pvc := updated), true)
  }

  function PromoteStorage(s: Storage, bound: bool, target: string, previous: string, api: Api): Written {
    if !bound || !api.getPvOk then Written(s, false)
    else
      var updated := WithActive(s.pv, target, previous);
      if updated != s.pv && !api.updatePvOk then Written(s, false)
      else PromotePvc(s.(pv := updated), target, previous, api)
  }

  function RecordActiveNode(s: Storage, bound: bool, target: string, previous: string, api: Api): Written {
    if bound then PromoteStorage(s, bound, target, previous, api) else PromotePvc(s, target, previous, api)
  }

  ghost predicate Agrees(s: Storage, target: string) {
    && ACTIVE_NODE in s.pv && s.pv[ACTIVE_NODE] == target
    && ACTIVE_NODE in s.pvc && s.pvc[ACTIVE_NODE] == target
    && SELECTED_NODE !in s.pvc
  }

  ghost predicate Remembers(a: Annotations, previous: string) {
    PREVIOUS_ACTIVE in a && a[PREVIOUS_ACTIVE] == previous
  }

  lemma AnnotationKeysDiffer()
    ensures ACTIVE_NODE != PREVIOUS_ACTIVE && ACTIVE_NODE != SELECTED_NODE && PREVIOUS_ACTIVE != SELECTED_NODE
  {
    assert ACTIVE_NODE[0] == 's' && PREVIOUS_ACTIVE[0] == 's' && SELECTED_NODE[0] == 'v';
    assert |ACTIVE_NODE| != |PREVIOUS_ACTIVE|;
  }

  /** A successful write leaves volume and claim naming the same active node, without the stale
      scheduling hint; a failed write leaves the claim as it was. Whatever an earlier attempt left
      behind, the next successful one repairs it. */
  lemma PromotionAgrees(s: Storage, bound: bool, target: string, previous: string, api: Api)
    ensures var r := PromoteStorage(s, bound, target, previous, api);
            && (r.ok ==> Agrees(r.storage, target))
            && (r.ok && previous != "" ==> Remembers(r.storage.pv, previous) && Remembers(r.storage.pvc, previous))
            && (!r.ok ==> r.storage.pvc == s.pvc)
  {
    AnnotationKeysDiffer();
  }

  /** Recording the same node again writes nothing. */
  lemma RecordingAgainWritesNothing(s: Storage, target: string, api: Api)
    requires Agrees(s, target)
    ensures RecordActiveNode(s, true, target, "", api).storage == s
    ensures RecordActiveNode(s, true, target, "", api).ok == (api.getPvOk && api.getPvcOk)
  {
    assert s.pv[ACTIVE_NODE := target] == s.pv;
    assert s.pvc[ACTIVE_NODE := target] - {SELECTED_NODE} == s.pvc;
  }
}
