/** Walking a volume: directories are pruned, files are selected. */
module Walk {
  import opened Strings
  import opened Paths
  import opened Filter

  datatype Node = Directory(mode: nat, entries: seq<Entry>) | Regular(mode: nat, data: seq<bv8>) | Symlink(target: string)
  datatype Entry = Entry(name: string, node: Node)
  datatype Visit = Visit(path: string, node: Node)

  /** The callback's choice: enter this directory, take this file. */
  type Keep = Visit -> bool

  function Child(prefix: string, name: string): string {
    if prefix == "" then name else prefix + "/" + name
  }

  /** Every node below a directory, parents first. */
  function All(entries: seq<Entry>, prefix: string): seq<Visit>
    decreases entries
  {
    if entries == [] then []
    else
      var p, node := Child(prefix, entries[0].name), entries[0].node;
      [Visit(p, node)] + (if node.Directory? then All(node.entries, p) else []) + All(entries[1..], prefix)
  }

  /** filepath.WalkDir with the source's callback: refused directories are not entered. */
  function PrunedWalk(entries: seq<Entry>, prefix: string, keep: Keep): seq<Visit>
    decreases entries, 0
  {
    if entries == [] then []
    else
      PrunedEntry(Visit(Child(prefix, entries[0].name), entries[0].node), keep) + PrunedWalk(entries[1..], prefix, keep)
  }

  function PrunedEntry(v: Visit, keep: Keep): seq<Visit>
    decreases v.node, 1
  {
    if keep(v) then [v] + Below(v, keep) else []
  }

  function Below(v: Visit, keep: Keep): seq<Visit>
    decreases v.node, 0
  {
    if v.node.Directory? then PrunedWalk(v.node.entries, v.path, keep) else []
  }

  function Select(keep: Keep, visits: seq<Visit>): seq<Visit> {
    if visits == [] then []
    else if keep(visits[0]) then [visits[0]] + Select(keep, visits[1..])
    else Select(keep, visits[1..])
  }

  function Leaves(visits: seq<Visit>): seq<Visit> {
    if visits == [] then []
    else if visits[0].node.Directory? then Leaves(visits[1..])
    else [visits[0]] + Leaves(visits[1..])
  }

  /** Every path of the tree is plain. */
  ghost predicate PlainTree(entries: seq<Entry>, prefix: string) {
    forall v :: v in All(entries, prefix) ==> Plain(v.path)
  }

  // ----- list facts -----

  lemma {:induction false} SelectConcat(keep: Keep, xs: seq<Visit>, ys: seq<Visit>)
    ensures Select(keep, xs + ys) == Select(keep, xs) + Select(keep, ys)
  {
    if xs == [] {
      assert xs + ys == ys;
    } else {
      assert (xs + ys)[1..] == xs[1..] + ys;
      SelectConcat(keep, xs[1..], ys);
    }
  }

  lemma {:induction false} LeavesConcat(xs: seq<Visit>, ys: seq<Visit>)
    ensures Leaves(xs + ys) == Leaves(xs) + Leaves(ys)
  {
    if xs == [] {
      assert xs + ys == ys;
    } else {
      assert (xs + ys)[1..] == xs[1..] + ys;
      LeavesConcat(xs[1..], ys);
    }
  }

  lemma {:induction false} SelectNone(keep: Keep, visits: seq<Visit>)
    requires forall v :: v in visits ==> !keep(v)
    ensures Select(keep, visits) == []
  {
    if visits != [] {
      assert visits[0] in visits;
      SelectNone(keep, visits[1..]);
    }
  }

  lemma {:induction false} SelectMembers(keep: Keep, visits: seq<Visit>, v: Visit)
    ensures v in Select(keep, visits) <==> v in visits && keep(v)
  {
    if visits != [] {
      SelectMembers(keep, visits[1..], v);
      assert visits == [visits[0]] + visits[1..];
    }
  }

  lemma {:induction false} LeavesMembers(visits: seq<Visit>, v: Visit)
    ensures v in Leaves(visits) <==> v in visits && !v.node.Directory?
  {
    if visits != [] {
      LeavesMembers(visits[1..], v);
      assert visits == [visits[0]] + visits[1..];
    }
  }

  // ----- tree facts -----

  lemma PlainParts(entries: seq<Entry>, prefix: string)
    requires entries != [] && PlainTree(entries, prefix)
    ensures var p, node := Child(prefix, entries[0].name), entries[0].node;
            && Plain(p) && PlainTree(entries[1..], prefix)
            && (node.Directory? ==> PlainTree(node.entries, p))
  {
    var p, node := Child(prefix, entries[0].name), entries[0].node;
    assert Visit(p, node) in All(entries, prefix);
    if node.Directory? {
      assert forall v :: v in All(node.entries, p) ==> v in All(entries, prefix);
    }
    assert forall v :: v in All(entries[1..], prefix) ==> v in All(entries, prefix);
  }

  /** `q` lies at or below one of the entries. */
  ghost predicate UnderEntry(entries: seq<Entry>, prefix: string, q: string) {
    exists i :: 0 <= i < |entries| && AtOrBelow(Child(prefix, entries[i].name), q)
  }

  lemma UnderEntryIsBelow(entries: seq<Entry>, prefix: string, q: string)
    requires prefix != "" && UnderEntry(entries, prefix, q)
    ensures StrictlyBelow(prefix, q)
  {
    var i :| 0 <= i < |entries| && AtOrBelow(Child(prefix, entries[i].name), q);
    assert StrictlyBelow(prefix, Child(prefix, entries[i].name));
  }

  lemma UnderTail(entries: seq<Entry>, prefix: string, q: string)
    requires entries != [] && UnderEntry(entries[1..], prefix, q)
    ensures UnderEntry(entries, prefix, q)
  {
    var i :| 0 <= i < |entries[1..]| && AtOrBelow(Child(prefix, entries[1..][i].name), q);
    assert entries[i + 1] == entries[1..][i];
  }

  lemma {:induction false} AllUnder(entries: seq<Entry>, prefix: string, v: Visit)
    requires PlainTree(entries, prefix) && v in All(entries, prefix)
    ensures UnderEntry(entries, prefix, v.path)
    decreases entries
  {
    PlainParts(entries, prefix);
    var p, node := Child(prefix, entries[0].name), entries[0].node;
    if v == Visit(p, node) {
      assert AtOrBelow(Child(prefix, entries[0].name), v.path);
    } else if node.Directory? && v in All(node.entries, p) {
      AllUnder(node.entries, p, v);
      UnderEntryIsBelow(node.entries, p, v.path);
      assert AtOrBelow(Child(prefix, entries[0].name), v.path);
    } else {
      AllUnder(entries[1..], prefix, v);
      UnderTail(entries, prefix, v.path);
    }
  }

  lemma AllBelow(entries: seq<Entry>, prefix: string, v: Visit)
    requires PlainTree(entries, prefix) && v in All(entries, prefix) && prefix != ""
    ensures StrictlyBelow(prefix, v.path)
  {
    AllUnder(entries, prefix, v);
    UnderEntryIsBelow(entries, prefix, v.path);
  }

  // ----- proper trees -----

  /** Names are single path segments, unique in their directory, and make plain paths. */
  ghost predicate ProperTree(entries: seq<Entry>, prefix: string)
    decreases entries
  {
    entries == [] ||
    var name, node := entries[0].name, entries[0].node;
    && '/' !in name && Plain(Child(prefix, name))
    && (forall i :: 0 < i < |entries| ==> entries[i].name != name)
    && (node.Directory? ==> ProperTree(node.entries, Child(prefix, name)))
    && ProperTree(entries[1..], prefix)
  }

  lemma {:induction false} ProperIsPlain(entries: seq<Entry>, prefix: string)
    requires ProperTree(entries, prefix)
    ensures PlainTree(entries, prefix)
    decreases entries
  {
    if entries != [] {
      var p, node := Child(prefix, entries[0].name), entries[0].node;
      ProperIsPlain(entries[1..], prefix);
      if node.Directory? {
        ProperIsPlain(node.entries, p);
      }
    }
  }

  lemma {:induction false} ProperNames(entries: seq<Entry>, prefix: string, i: nat)
    requires ProperTree(entries, prefix) && i < |entries|
    ensures '/' !in entries[i].name
    decreases entries
  {
    if i > 0 {
      ProperNames(entries[1..], prefix, i - 1);
    }
  }

  lemma AboveChild(prefix: string, name: string, a: string)
    requires '/' !in name
    ensures StrictlyBelow(a, Child(prefix, name)) <==> prefix != "" && AtOrBelow(a, prefix)
  {
    var p := Child(prefix, name);
    assert prefix != "" ==> forall k :: |prefix| < k < |p| ==> p[k] == name[k - |prefix| - 1];
    if StrictlyBelow(a, p) {
      assert p[|a|] == '/';
      assert prefix != "" && |a| <= |prefix|;
      assert a == p[..|a|] == prefix[..|a|];
      if |a| < |prefix| {
        assert prefix[..|a| + 1] == p[..|a| + 1];
      }
    }
  }

  lemma ChildInjective(prefix: string, n1: string, n2: string)
    requires n1 != n2
    ensures Child(prefix, n1) != Child(prefix, n2)
  {
    if prefix != "" {
      assert n1 == Child(prefix, n1)[|prefix| + 1..];
      assert n2 == Child(prefix, n2)[|prefix| + 1..];
    }
  }

  lemma SiblingsApart(prefix: string, n1: string, n2: string, q: string)
    requires '/' !in n1 && '/' !in n2 && n1 != n2
    requires AtOrBelow(Child(prefix, n1), q)
    ensures !AtOrBelow(Child(prefix, n2), q)
  {
    var p1, p2 := Child(prefix, n1), Child(prefix, n2);
    ChildInjective(prefix, n1, n2);
    AboveChild(prefix, n1, p2);
    AboveChild(prefix, n2, p1);
    if AtOrBelow(p2, q) {
      AncestorsCompare(p1, p2, q);
      assert false;
    }
  }

  /** What the other entries hold does not lie at or below the first. */
  lemma TailApart(entries: seq<Entry>, prefix: string, y: Visit)
    requires entries != [] && ProperTree(entries, prefix)
    requires y in All(entries[1..], prefix)
    ensures !AtOrBelow(Child(prefix, entries[0].name), y.path)
  {
    ProperIsPlain(entries[1..], prefix);
    AllUnder(entries[1..], prefix, y);
    TailUnderApart(entries, prefix, y.path);
  }

  lemma TailUnderApart(entries: seq<Entry>, prefix: string, q: string)
    requires entries != [] && ProperTree(entries, prefix) && UnderEntry(entries[1..], prefix, q)
    ensures !AtOrBelow(Child(prefix, entries[0].name), q)
  {
    var tail := entries[1..];
    var i :| 0 <= i < |tail| && AtOrBelow(Child(prefix, tail[i].name), q);
    var first, other := entries[0].name, entries[i + 1].name;
    assert tail[i] == entries[i + 1];
    ProperNames(entries, prefix, i + 1);
    SiblingsApart(prefix, other, first, q);
  }

  // ----- the pruned walk is complete -----

  /** A kept node's directories are kept: for files only, or for every node. */
  ghost predicate Closed(keep: Keep, filesOnly: bool) {
    forall d: Visit, v: Visit ::
      && d.node.Directory? && Plain(d.path) && Plain(v.path) && StrictlyBelow(d.path, v.path)
      && keep(v) && (filesOnly ==> !v.node.Directory?)
      ==> keep(d)
  }

  /** Nothing below a refused directory is kept. */
  lemma RefusedFiles(d: Visit, keep: Keep)
    requires d.node.Directory? && Plain(d.path) && PlainTree(d.node.entries, d.path)
    requires Closed(keep, true) && !keep(d)
    ensures Select(keep, Leaves(All(d.node.entries, d.path))) == []
  {
    var below := All(d.node.entries, d.path);
    forall v | v in Leaves(below) ensures !keep(v) {
      LeavesMembers(below, v);
      AllBelow(d.node.entries, d.path, v);
    }
    SelectNone(keep, Leaves(below));
  }

  lemma RefusedNodes(d: Visit, keep: Keep)
    requires d.node.Directory? && Plain(d.path) && PlainTree(d.node.entries, d.path)
    requires Closed(keep, false) && !keep(d)
    ensures Select(keep, All(d.node.entries, d.path)) == []
  {
    var below := All(d.node.entries, d.path);
    forall v | v in below ensures !keep(v) {
      AllBelow(d.node.entries, d.path, v);
    }
    SelectNone(keep, below);
  }

  /** The walk returns exactly the kept files, in order. */
  lemma {:induction false} WalkFindsAllFiles(entries: seq<Entry>, prefix: string, keep: Keep)
    requires PlainTree(entries, prefix) && Closed(keep, true)
    ensures Leaves(PrunedWalk(entries, prefix, keep)) == Select(keep, Leaves(All(entries, prefix)))
    decreases entries
  {
    if entries != [] {
      PlainParts(entries, prefix);
      var v := Visit(Child(prefix, entries[0].name), entries[0].node);
      var below := if v.node.Directory? then All(v.node.entries, v.path) else [];
      var rest, tail := PrunedWalk(entries[1..], prefix, keep), All(entries[1..], prefix);
      WalkFindsAllFiles(entries[1..], prefix, keep);
      LeavesConcat([v] + below, tail);
      LeavesConcat([v], below);
      SelectConcat(keep, Leaves([v]) + Leaves(below), Leaves(tail));
      SelectConcat(keep, Leaves([v]), Leaves(below));
      LeavesConcat(PrunedEntry(v, keep), rest);
      LeavesConcat([v], Below(v, keep));
      if v.node.Directory? {
        WalkFindsAllFiles(v.node.entries, v.path, keep);
        if !keep(v) {
          RefusedFiles(v, keep);
        }
      }
    }
  }

  /** With all directories closed upwards, the walk returns exactly the kept nodes. */
  lemma {:induction false} WalkFindsAllNodes(entries: seq<Entry>, prefix: string, keep: Keep)
    requires PlainTree(entries, prefix) && Closed(keep, false)
    ensures PrunedWalk(entries, prefix, keep) == Select(keep, All(entries, prefix))
    decreases entries
  {
    if entries != [] {
      PlainParts(entries, prefix);
      var v := Visit(Child(prefix, entries[0].name), entries[0].node);
      var below := if v.node.Directory? then All(v.node.entries, v.path) else [];
      var tail := All(entries[1..], prefix);
      WalkFindsAllNodes(entries[1..], prefix, keep);
      SelectConcat(keep, [v] + below, tail);
      SelectConcat(keep, [v], below);
      assert Select(keep, [v]) == if keep(v) then [v] else [];
      if v.node.Directory? {
        WalkFindsAllNodes(v.node.entries, v.path, keep);
        if !keep(v) {
          RefusedNodes(v, keep);
        }
      }
      assert PrunedEntry(v, keep) == Select(keep, [v]) + Select(keep, below);
    }
  }

  // ----- the source's callbacks -----

  /** The archive's callback. */
  predicate Archived(f: PathFilter, v: Visit) {
    if v.node.Directory? then ShouldTraverse(f, v.path) else ShouldReplicate(f, v.path)
  }

  /** The snapshot's callback. A path that starts with two dots is taken to lie outside the volume:
      its files are ignored, though its directories are entered. */
  predicate Watched(f: PathFilter, v: Visit) {
    if v.node.Directory? then ".." <= v.path || ShouldTraverse(f, v.path)
    else !(".." <= v.path) && ShouldReplicate(f, v.path)
  }

  function ArchiveKeep(f: PathFilter): Keep { v => Archived(f, v) }

  function SnapshotKeep(f: PathFilter): Keep { v => Watched(f, v) }

  lemma ArchiveKeepCloses(f: PathFilter)
    requires WellPruned(f)
    ensures Closed(ArchiveKeep(f), false)
  {
    var keep := ArchiveKeep(f);
    forall d: Visit, v: Visit | d.node.Directory? && Plain(d.path) && Plain(v.path)
                             && StrictlyBelow(d.path, v.path) && keep(v)
      ensures keep(d)
    {
      TraverseCloses(f, d.path, v.path);
    }
  }

  lemma SnapshotKeepCloses(f: PathFilter)
    requires PrunesNothing(f)
    ensures Closed(SnapshotKeep(f), true)
  {
    var keep := SnapshotKeep(f);
    forall d: Visit, v: Visit | d.node.Directory? && Plain(d.path) && Plain(v.path)
                             && StrictlyBelow(d.path, v.path) && keep(v) && !v.node.Directory?
      ensures keep(d)
    {
      assert ShouldReplicate(f, v.path);
    }
  }

  // ----- snapshots -----

  function FilesOf(visits: seq<Visit>): map<string, Node> {
    if visits == [] then map[]
    else if visits[0].node.Directory? then FilesOf(visits[1..])
    else map[visits[0].path := visits[0].node] + FilesOf(visits[1..])
  }

  lemma {:induction false} FilesOfConcat(xs: seq<Visit>, ys: seq<Visit>)
    ensures FilesOf(xs + ys) == FilesOf(xs) + FilesOf(ys)
  {
    if xs == [] {
      assert xs + ys == ys;
    } else {
      assert (xs + ys)[1..] == xs[1..] + ys;
      FilesOfConcat(xs[1..], ys);
      UnionAssociative(map[xs[0].path := xs[0].node], FilesOf(xs[1..]), FilesOf(ys));
    }
  }

  /** The walk fills the snapshot map entry by entry. */
  method WalkSnapshot(entries: seq<Entry>, prefix: string, keep: Keep, before: map<string, Node>)
    returns (snapshot: map<string, Node>)
    ensures snapshot == before + FilesOf(PrunedWalk(entries, prefix, keep))
    decreases entries, 0
  {
    snapshot := before;
    if entries != [] {
      var v := Visit(Child(prefix, entries[0].name), entries[0].node);
      snapshot := WalkSnapshotEntry(v, keep, snapshot);
      snapshot := WalkSnapshot(entries[1..], prefix, keep, snapshot);
      ghost var first, rest := PrunedEntry(v, keep), PrunedWalk(entries[1..], prefix, keep);
      FilesOfConcat(first, rest);
      UnionAssociative(before, FilesOf(first), FilesOf(rest));
    }
  }

  method WalkSnapshotEntry(v: Visit, keep: Keep, before: map<string, Node>) returns (snapshot: map<string, Node>)
    ensures snapshot == before + FilesOf(PrunedEntry(v, keep))
    decreases v.node, 1
  {
    snapshot := before;
    if keep(v) {
      assert ([v] + Below(v, keep))[1..] == Below(v, keep);
      if v.node.Directory? {
        snapshot := WalkSnapshot(v.node.entries, v.path, keep, snapshot);
      } else {
        snapshot := snapshot[v.path := v.node];
      }
    }
  }

  /** The files a walk of the volume finds. */
  function SnapshotOf(entries: seq<Entry>, f: PathFilter): map<string, Node> {
    FilesOf(PrunedWalk(entries, "", SnapshotKeep(f)))
  }

  method SnapshotWatchedFiles(entries: seq<Entry>, f: PathFilter) returns (snapshot: map<string, Node>)
    ensures snapshot == SnapshotOf(entries, f)
  {
    snapshot := WalkSnapshot(entries, "", SnapshotKeep(f), map[]);
    assert map[] + SnapshotOf(entries, f) == SnapshotOf(entries, f);
  }

  lemma {:induction false} FilesOfMembers(visits: seq<Visit>, p: string)
    ensures p in FilesOf(visits) <==> exists v :: v in Leaves(visits) && v.path == p
    ensures p in FilesOf(visits) ==> Visit(p, FilesOf(visits)[p]) in Leaves(visits)
  {
    if visits != [] {
      FilesOfMembers(visits[1..], p);
    }
  }

  /** The snapshot holds a path exactly when it is an accepted file of the tree that does not start
      with two dots, and holds it with the state of such a file. */
  lemma SnapshotIsComplete(entries: seq<Entry>, f: PathFilter, p: string)
    requires PlainTree(entries, "") && PrunesNothing(f)
    ensures var snapshot := SnapshotOf(entries, f);
            && (p in snapshot <==>
                  exists v :: v in All(entries, "") && !v.node.Directory? && v.path == p
                           && ShouldReplicate(f, p) && !(".." <= p))
            && (p in snapshot ==> Visit(p, snapshot[p]) in All(entries, "") && !snapshot[p].Directory?)
  {
    var keep := SnapshotKeep(f);
    var walk, all := PrunedWalk(entries, "", keep), All(entries, "");
    SnapshotKeepCloses(f);
    WalkFindsAllFiles(entries, "", keep);
    FilesOfMembers(walk, p);
    forall v ensures v in Leaves(walk) <==> v in all && !v.node.Directory? && Watched(f, v) {
      SelectMembers(keep, Leaves(all), v);
      LeavesMembers(all, v);
    }
  }

  // ----- no file lies below a file -----

  /** The visits of the first entry lie at or below it, those of the others do not. */
  lemma FirstEntryApart(entries: seq<Entry>, prefix: string, u: Visit)
    requires entries != [] && ProperTree(entries, prefix) && u in All(entries, prefix)
    ensures var p, node := Child(prefix, entries[0].name), entries[0].node;
            || u == Visit(p, node)
            || (node.Directory? && u in All(node.entries, p) && StrictlyBelow(p, u.path))
            || (u in All(entries[1..], prefix) && !AtOrBelow(p, u.path))
  {
    var p, node := Child(prefix, entries[0].name), entries[0].node;
    if u in All(entries[1..], prefix) {
      TailApart(entries, prefix, u);
    } else if u != Visit(p, node) {
      ProperIsPlain(node.entries, p);
      ChildNotEmpty(prefix, entries[0].name);
      AllBelow(node.entries, p, u);
    }
  }

  lemma ChildNotEmpty(prefix: string, name: string)
    requires Plain(Child(prefix, name))
    ensures Child(prefix, name) != ""
  {}

  lemma {:induction false} NothingBelowLeaf(entries: seq<Entry>, prefix: string, v: Visit, u: Visit)
    requires ProperTree(entries, prefix) && v in All(entries, prefix) && u in All(entries, prefix)
    requires !v.node.Directory?
    ensures !StrictlyBelow(v.path, u.path)
    decreases entries
  {
    var p, node := Child(prefix, entries[0].name), entries[0].node;
    FirstEntryApart(entries, prefix, v);
    FirstEntryApart(entries, prefix, u);
    if v in All(entries[1..], prefix) {
      if u in All(entries[1..], prefix) {
        NothingBelowLeaf(entries[1..], prefix, v, u);
      } else {
        LeafOutside(entries, prefix, v, u.path);
      }
    } else if AtOrBelow(p, u.path) {
      if node.Directory? && v in All(node.entries, p) && u in All(node.entries, p) {
        NothingBelowLeaf(node.entries, p, v, u);
      }
    } else if StrictlyBelow(v.path, u.path) {
      AtOrBelowTransitive(p, v.path, u.path);
    }
  }

  /** A path at or below the first entry lies below nothing of the others. */
  lemma LeafOutside(entries: seq<Entry>, prefix: string, v: Visit, q: string)
    requires entries != [] && ProperTree(entries, prefix) && v in All(entries[1..], prefix)
    requires AtOrBelow(Child(prefix, entries[0].name), q)
    ensures !StrictlyBelow(v.path, q)
  {
    var tail := entries[1..];
    ProperIsPlain(tail, prefix);
    AllUnder(tail, prefix, v);
    var i :| 0 <= i < |tail| && AtOrBelow(Child(prefix, tail[i].name), v.path);
    if StrictlyBelow(v.path, q) {
      AtOrBelowTransitive(Child(prefix, tail[i].name), v.path, q);
      TailUnderApart(entries, prefix, q);
    }
  }

  lemma {:induction false} WalkWithinAll(entries: seq<Entry>, prefix: string, keep: Keep, v: Visit)
    requires v in PrunedWalk(entries, prefix, keep)
    ensures v in All(entries, prefix) && keep(v)
    decreases entries
  {
    var first := Visit(Child(prefix, entries[0].name), entries[0].node);
    if v in PrunedEntry(first, keep) {
      assert keep(first) && PrunedEntry(first, keep) == [first] + Below(first, keep);
      if v != first {
        assert v in Below(first, keep) && first.node.Directory?;
        WalkWithinAll(first.node.entries, first.path, keep, v);
      }
    } else {
      WalkWithinAll(entries[1..], prefix, keep, v);
    }
  }

  lemma SnapshotMember(entries: seq<Entry>, f: PathFilter, p: string) returns (v: Visit)
    requires p in SnapshotOf(entries, f)
    ensures v.path == p && v in All(entries, "") && !v.node.Directory? && Watched(f, v)
  {
    var walk := PrunedWalk(entries, "", SnapshotKeep(f));
    v := Visit(p, SnapshotOf(entries, f)[p]);
    FilesOfMembers(walk, p);
    LeavesMembers(walk, v);
    WalkWithinAll(entries, "", SnapshotKeep(f), v);
  }

  /** A snapshot of a proper tree holds plain accepted paths, and no file below a file. */
  lemma SnapshotIsPrefixFree(entries: seq<Entry>, f: PathFilter, p: string, q: string)
    requires ProperTree(entries, "") && p in SnapshotOf(entries, f) && q in SnapshotOf(entries, f)
    ensures Plain(p) && ShouldReplicate(f, p) && !StrictlyBelow(p, q)
  {
    var v := SnapshotMember(entries, f, p);
    var u := SnapshotMember(entries, f, q);
    ProperIsPlain(entries, "");
    NothingBelowLeaf(entries, "", v, u);
  }
}
