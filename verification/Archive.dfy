/** The tar writer and reader: extracting an archive rebuilds the filtered tree. */
module Archive {
  import opened Strings
  import opened Paths
  import opened Filter
  import opened Walk

  /** A file system entry, with the permission bits chmod sets. */
  datatype FsEntry = DirEntry(perm: nat) | FileEntry(perm: nat, data: seq<bv8>) | LinkEntry(target: string)

  type FsTree = map<string, FsEntry>

  datatype Header =
    | DirHeader(name: string, mode: nat)
    | FileHeader(name: string, mode: nat, data: seq<bv8>)
    | LinkHeader(name: string, target: string)

  /** os.FileMode.Perm: the lowest nine bits. */
  function Perm(mode: nat): nat { mode % 512 }

  const PARENT_PERM := 493 // 0755

  // ----- writing -----

  function HeaderOf(v: Visit): Header {
    match v.node
    case Directory(mode, _) => DirHeader(v.path, mode)
    case Regular(mode, data) => FileHeader(v.path, mode, data)
    case Symlink(target) => LinkHeader(v.path, target)
  }

  function Headers(visits: seq<Visit>): seq<Header> {
    if visits == [] then [] else [HeaderOf(visits[0])] + Headers(visits[1..])
  }

  lemma {:induction false} HeadersConcat(xs: seq<Visit>, ys: seq<Visit>)
    ensures Headers(xs + ys) == Headers(xs) + Headers(ys)
  {
    if xs == [] {
      assert xs + ys == ys;
    } else {
      assert (xs + ys)[1..] == xs[1..] + ys;
      HeadersConcat(xs[1..], ys);
    }
  }

  /** The archive so far, and what the walk below `prefix` appends to it. */
  method WriteTarArchive(entries: seq<Entry>, prefix: string, keep: Keep, before: seq<Header>)
    returns (archive: seq<Header>)
    ensures archive == before + Headers(PrunedWalk(entries, prefix, keep))
    decreases entries, 0
  {
    archive := before;
    if entries != [] {
      var v := Visit(Child(prefix, entries[0].name), entries[0].node);
      archive := WriteEntry(v, keep, archive);
      archive := WriteTarArchive(entries[1..], prefix, keep, archive);
      HeadersConcat(PrunedEntry(v, keep), PrunedWalk(entries[1..], prefix, keep));
    }
  }

  method WriteEntry(v: Visit, keep: Keep, before: seq<Header>) returns (archive: seq<Header>)
    ensures archive == before + Headers(PrunedEntry(v, keep))
    decreases v.node, 1
  {
    archive := before;
    if keep(v) {
      HeadersConcat([v], Below(v, keep));
      archive := archive + [HeaderOf(v)];
      if v.node.Directory? {
        archive := WriteTarArchive(v.node.entries, v.path, keep, archive);
      }
    }
  }

  // ----- reading -----

  /** os.MkdirAll on the directory of `p`: missing ancestors appear with the given bits. */
  function WithParents(t: FsTree, p: string, perm: nat): FsTree {
    t + map a | a in Ancestors(p) && a !in t :: DirEntry(perm)
  }

  predicate Blocked(t: FsTree, p: string) {
    exists a :: a in Ancestors(p) && a in t && !t[a].DirEntry?
  }

  /** One archive entry, or None when extraction stops with an error. */
  function ExtractOne(t: FsTree, h: Header): Option<FsTree> {
    match NormalizeEventPath(h.name)
    case None => None
    case Some(p) =>
      if Blocked(t, p) then None
      else match h
        case DirHeader(_, mode) =>
          if p in t && !t[p].DirEntry? then None
          else Some(WithParents(t, p, Perm(mode))[p := DirEntry(Perm(mode))])
        case LinkHeader(_, target) =>
          var cleared := map q | q in t && !AtOrBelow(p, q) :: t[q];
          Some(WithParents(cleared, p, PARENT_PERM)[p := LinkEntry(target)])
        case FileHeader(_, mode, data) =>
          if p in t && !t[p].FileEntry? then None
          else Some(WithParents(t, p, PARENT_PERM)[p := FileEntry(Perm(mode), data)])
  }

  function ExtractAll(t: FsTree, headers: seq<Header>): Option<FsTree>
    decreases |headers|
  {
    if headers == [] then Some(t)
    else match ExtractOne(t, headers[0])
      case None => None
      case Some(t') => ExtractAll(t', headers[1..])
  }

  class Volume {
    var entries: FsTree

    constructor (initial: FsTree)
      ensures entries == initial
    {
      entries := initial;
    }

    /** The extraction loop. A refused header ends it; what the headers before it made stays. */
    method ExtractTarArchive(headers: seq<Header>) returns (ok: bool, done: nat)
      modifies this
      ensures ok == ExtractAll(old(entries), headers).Some?
      ensures done <= |headers| && (ok ==> done == |headers|)
      ensures ExtractAll(old(entries), headers[..done]) == Some(entries)
      ensures !ok ==> done < |headers| && ExtractOne(entries, headers[done]).None?
    {
      for i := 0 to |headers|
        invariant ExtractAll(entries, headers[i..]) == ExtractAll(old(entries), headers)
        invariant ExtractAll(old(entries), headers[..i]) == Some(entries)
      {
        assert headers[i..][1..] == headers[i + 1..];
        var next := ExtractOne(entries, headers[i]);
        if next.None? {
          return false, i;
        }
        ExtractConcat(old(entries), headers[..i], [headers[i]]);
        assert [headers[i]][1..] == [];
        assert headers[..i + 1] == headers[..i] + [headers[i]];
        entries := next.value;
      }
      assert headers[..|headers|] == headers;
      ok, done := true, |headers|;
    }
  }

  lemma {:induction false} ExtractConcat(t: FsTree, xs: seq<Header>, ys: seq<Header>)
    requires ExtractAll(t, xs).Some?
    ensures ExtractAll(t, xs + ys) == ExtractAll(ExtractAll(t, xs).value, ys)
    decreases |xs|
  {
    if xs == [] {
      assert xs + ys == ys;
    } else {
      assert (xs + ys)[1..] == xs[1..] + ys;
      ExtractConcat(ExtractOne(t, xs[0]).value, xs[1..], ys);
    }
  }

  // ----- the round trip -----

  function EntryOf(node: Node): FsEntry {
    match node
    case Directory(mode, _) => DirEntry(Perm(mode))
    case Regular(mode, data) => FileEntry(Perm(mode), data)
    case Symlink(target) => LinkEntry(target)
  }

  function TreeOf(visits: seq<Visit>): FsTree {
    if visits == [] then map[] else map[visits[0].path := EntryOf(visits[0].node)] + TreeOf(visits[1..])
  }

  lemma {:induction false} TreeOfConcat(xs: seq<Visit>, ys: seq<Visit>)
    ensures TreeOf(xs + ys) == TreeOf(xs) + TreeOf(ys)
  {
    if xs == [] {
      assert xs + ys == ys;
    } else {
      assert (xs + ys)[1..] == xs[1..] + ys;
      TreeOfConcat(xs[1..], ys);
      UnionAssociative(map[xs[0].path := EntryOf(xs[0].node)], TreeOf(xs[1..]), TreeOf(ys));
    }
  }

  /** The directory a walk stands in exists, with everything above it. */
  ghost predicate Ready(t: FsTree, prefix: string) {
    prefix != "" ==> forall a :: AtOrBelow(a, prefix) ==> a in t && t[a].DirEntry?
  }

  /** Nothing of these entries has been extracted yet. */
  ghost predicate Fresh(t: FsTree, entries: seq<Entry>, prefix: string) {
    forall i, q :: 0 <= i < |entries| && q in t ==> !AtOrBelow(Child(prefix, entries[i].name), q)
  }

  lemma ParentsExist(t: FsTree, p: string, perm: nat)
    requires forall a :: a in Ancestors(p) ==> a in t && t[a].DirEntry?
    ensures WithParents(t, p, perm) == t && !Blocked(t, p)
  {}

  /** A header for a new entry of a ready directory adds that entry and nothing else. */
  lemma ExtractNew(t: FsTree, prefix: string, name: string, node: Node)
    requires '/' !in name && Ready(t, prefix) && Plain(Child(prefix, name))
    requires forall q :: q in t ==> !AtOrBelow(Child(prefix, name), q)
    ensures var p := Child(prefix, name);
            ExtractOne(t, HeaderOf(Visit(p, node))) == Some(t[p := EntryOf(node)])
  {
    var p := Child(prefix, name);
    PlainNormalizes(p);
    forall a | a in Ancestors(p) ensures a in t && t[a].DirEntry? {
      AncestorsAre(p, a);
      AboveChild(prefix, name, a);
    }
    assert (map q | q in t && !AtOrBelow(p, q) :: t[q]) == t;
    ParentsExist(t, p, PARENT_PERM);
    if node.Directory? {
      ParentsExist(t, p, Perm(node.mode));
    }
  }

  /** What an entry does to one that is already there: files replace files, directories keep their
      contents, and the two refuse each other. */
  lemma ExtractOver(t: FsTree, p: string, mode: nat, data: seq<bv8>)
    requires Plain(p) && p in t && forall a :: a in Ancestors(p) ==> a in t && t[a].DirEntry?
    ensures t[p].FileEntry? ==>
              && ExtractOne(t, FileHeader(p, mode, data)) == Some(t[p := FileEntry(mode % 512, data)])
              && ExtractOne(t, DirHeader(p, mode)) == None
    ensures t[p].DirEntry? ==>
              && ExtractOne(t, DirHeader(p, mode)) == Some(t[p := DirEntry(mode % 512)])
              && ExtractOne(t, FileHeader(p, mode, data)) == None
  {
    assert NormalizeEventPath(p) == Some(p) by {
      PlainNormalizes(p);
    }
    ParentsExist(t, p, PARENT_PERM);
    ParentsExist(t, p, Perm(mode));
  }

  /** A link replaces whatever is there, with everything below it. */
  lemma ExtractLinkOver(t: FsTree, p: string, target: string)
    requires Plain(p) && forall a :: a in Ancestors(p) ==> a in t && t[a].DirEntry?
    ensures ExtractOne(t, LinkHeader(p, target)) ==
              Some((map q | q in t && !AtOrBelow(p, q) :: t[q])[p := LinkEntry(target)])
  {
    assert NormalizeEventPath(p) == Some(p) by {
      PlainNormalizes(p);
    }
    ParentsExist(t, p, PARENT_PERM);
    var cleared := map q | q in t && !AtOrBelow(p, q) :: t[q];
    forall a | a in Ancestors(p) ensures a in cleared && cleared[a].DirEntry? {
      AncestorsAre(p, a);
    }
    ParentsExist(cleared, p, PARENT_PERM);
  }

  /** Names that leave the root are refused, whatever the entry. */
  lemma ExtractRefusesEscapes(t: FsTree, p: string, mode: nat, data: seq<bv8>, target: string)
    requires Plain(p)
    ensures var up := "../" + p;
            && ExtractOne(t, FileHeader(up, mode, data)) == None && ExtractOne(t, DirHeader(up, mode)) == None
            && ExtractOne(t, LinkHeader(up, target)) == None
  {
    assert NormalizeEventPath("../" + p) == None by {
      NormalizeRefuses(p);
    }
  }

  // ----- extracting what the walk wrote -----

  /** Everything the walk adds lies at or below the walked entries. */
  lemma {:induction false} WalkUnder(entries: seq<Entry>, prefix: string, keep: Keep, q: string)
    requires ProperTree(entries, prefix) && q in TreeOf(PrunedWalk(entries, prefix, keep))
    ensures UnderEntry(entries, prefix, q)
    decreases entries, 0
  {
    var v := Visit(Child(prefix, entries[0].name), entries[0].node);
    TreeOfConcat(PrunedEntry(v, keep), PrunedWalk(entries[1..], prefix, keep));
    if q in TreeOf(PrunedEntry(v, keep)) {
      EntryUnder(v, keep, q);
      assert AtOrBelow(Child(prefix, entries[0].name), q);
    } else {
      WalkUnder(entries[1..], prefix, keep, q);
      UnderTail(entries, prefix, q);
    }
  }

  lemma {:induction false} EntryUnder(v: Visit, keep: Keep, q: string)
    requires v.path != "" && q in TreeOf(PrunedEntry(v, keep))
    requires v.node.Directory? ==> ProperTree(v.node.entries, v.path)
    ensures AtOrBelow(v.path, q)
    decreases v.node, 1
  {
    assert ([v] + Below(v, keep))[1..] == Below(v, keep);
    if q != v.path {
      WalkUnder(v.node.entries, v.path, keep, q);
      UnderEntryIsBelow(v.node.entries, v.path, q);
    }
  }

  /** Entries the walk has finished do not get in the way of their siblings. */
  lemma StillFresh(t: FsTree, entries: seq<Entry>, prefix: string, keep: Keep)
    requires entries != [] && ProperTree(entries, prefix)
    requires Fresh(t, entries, prefix)
    ensures Fresh(t + TreeOf(PrunedEntry(Visit(Child(prefix, entries[0].name), entries[0].node), keep)), entries[1..], prefix)
  {
    var v := Visit(Child(prefix, entries[0].name), entries[0].node);
    var added := TreeOf(PrunedEntry(v, keep));
    forall i, q | 0 <= i < |entries[1..]| && q in t + added
      ensures !AtOrBelow(Child(prefix, entries[1..][i].name), q)
    {
      assert entries[1..][i] == entries[i + 1];
      if q in added {
        EntryUnder(v, keep, q);
        ProperNames(entries, prefix, i + 1);
        SiblingsApart(prefix, entries[0].name, entries[i + 1].name, q);
      }
    }
  }

  /** Extracting these visits adds exactly their entries. */
  ghost predicate Extracts(t: FsTree, visits: seq<Visit>) {
    ExtractAll(t, Headers(visits)) == Some(t + TreeOf(visits))
  }

  lemma ExtractsConcat(t: FsTree, xs: seq<Visit>, ys: seq<Visit>)
    requires Extracts(t, xs) && Extracts(t + TreeOf(xs), ys)
    ensures Extracts(t, xs + ys)
  {
    HeadersConcat(xs, ys);
    TreeOfConcat(xs, ys);
    ExtractConcat(t, Headers(xs), Headers(ys));
    UnionAssociative(t, TreeOf(xs), TreeOf(ys));
  }

  lemma ExtractsOne(t: FsTree, v: Visit)
    requires ExtractOne(t, HeaderOf(v)) == Some(t[v.path := EntryOf(v.node)])
    ensures Extracts(t, [v]) && t + TreeOf([v]) == t[v.path := EntryOf(v.node)]
  {
    var headers, none: seq<Visit> := Headers([v]), [v][1..];
    assert none == [] && Headers(none) == [];
    assert headers == [HeaderOf(v)] + Headers(none) == [HeaderOf(v)];
    assert headers[1..] == [];
    assert TreeOf([v]) == map[v.path := EntryOf(v.node)] + TreeOf([]) == map[v.path := EntryOf(v.node)];
    assert t + TreeOf([v]) == t[v.path := EntryOf(v.node)];
    assert ExtractAll(t, headers) == ExtractAll(t[v.path := EntryOf(v.node)], []);
  }

  lemma ExtractsNone(t: FsTree)
    ensures Extracts(t, [])
  {
    assert t + map[] == t;
  }

  /** Extracting an entry does not disturb the directory it lies in. */
  lemma StillReady(t: FsTree, prefix: string, v: Visit, keep: Keep)
    requires Ready(t, prefix) && |v.path| > |prefix| && v.path != ""
    requires v.node.Directory? ==> ProperTree(v.node.entries, v.path)
    ensures Ready(t + TreeOf(PrunedEntry(v, keep)), prefix)
  {
    var added := TreeOf(PrunedEntry(v, keep));
    forall a | prefix != "" && AtOrBelow(a, prefix) ensures a in t + added && (t + added)[a].DirEntry? {
      if a in added {
        EntryUnder(v, keep, a);
      }
    }
  }

  lemma {:induction false} ExtractWalk(t: FsTree, entries: seq<Entry>, prefix: string, keep: Keep)
    requires ProperTree(entries, prefix) && Ready(t, prefix) && Fresh(t, entries, prefix)
    ensures Extracts(t, PrunedWalk(entries, prefix, keep))
    decreases entries, 0
  {
    if entries == [] {
      ExtractsNone(t);
    } else {
      var v := Visit(Child(prefix, entries[0].name), entries[0].node);
      var first, rest := PrunedEntry(v, keep), PrunedWalk(entries[1..], prefix, keep);
      assert forall q :: q in t ==> !AtOrBelow(Child(prefix, entries[0].name), q);
      ExtractEntry(t, prefix, entries[0], keep);
      StillFresh(t, entries, prefix, keep);
      StillReady(t, prefix, v, keep);
      ExtractWalk(t + TreeOf(first), entries[1..], prefix, keep);
      ExtractsConcat(t, first, rest);
    }
  }

  lemma {:induction false} ExtractEntry(t: FsTree, prefix: string, e: Entry, keep: Keep)
    requires '/' !in e.name && Plain(Child(prefix, e.name)) && Ready(t, prefix)
    requires e.node.Directory? ==> ProperTree(e.node.entries, Child(prefix, e.name))
    requires forall q :: q in t ==> !AtOrBelow(Child(prefix, e.name), q)
    ensures Extracts(t, PrunedEntry(Visit(Child(prefix, e.name), e.node), keep))
    decreases e.node, 1
  {
    var v := Visit(Child(prefix, e.name), e.node);
    if !keep(v) {
      ExtractsNone(t);
    } else {
      var t1 := t[v.path := EntryOf(v.node)];
      ExtractNew(t, prefix, e.name, e.node);
      ExtractsOne(t, v);
      if e.node.Directory? {
        DirectoryReady(t, prefix, e, t1);
        ExtractWalk(t1, e.node.entries, v.path, keep);
      } else {
        ExtractsNone(t1);
      }
      ExtractsConcat(t, [v], Below(v, keep));
    }
  }

  lemma DirectoryReady(t: FsTree, prefix: string, e: Entry, t1: FsTree)
    requires '/' !in e.name && e.node.Directory? && Ready(t, prefix) && Child(prefix, e.name) != ""
    requires t1 == t[Child(prefix, e.name) := EntryOf(e.node)]
    requires forall q :: q in t ==> !AtOrBelow(Child(prefix, e.name), q)
    ensures Ready(t1, Child(prefix, e.name)) && Fresh(t1, e.node.entries, Child(prefix, e.name))
  {
    var p := Child(prefix, e.name);
    forall a | AtOrBelow(a, p) ensures a in t1 && t1[a].DirEntry? {
      AboveChild(prefix, e.name, a);
    }
    forall i, q | 0 <= i < |e.node.entries| && q in t1
      ensures !AtOrBelow(Child(p, e.node.entries[i].name), q)
    {
      assert StrictlyBelow(p, Child(p, e.node.entries[i].name));
    }
  }

  // ----- the filtered tree -----

  ghost predicate DistinctVisits(visits: seq<Visit>) {
    forall i, j :: 0 <= i < j < |visits| ==> visits[i].path != visits[j].path
  }

  lemma DistinctConcat(xs: seq<Visit>, ys: seq<Visit>)
    requires DistinctVisits(xs) && DistinctVisits(ys)
    requires forall x, y :: x in xs && y in ys ==> x.path != y.path
    ensures DistinctVisits(xs + ys)
  {
    var all := xs + ys;
    forall i, j | 0 <= i < j < |all| ensures all[i].path != all[j].path {
      if i < |xs| <= j {
        assert all[i] in xs && all[j] in ys;
      }
    }
  }

  lemma {:induction false} AllDistinct(entries: seq<Entry>, prefix: string)
    requires ProperTree(entries, prefix)
    ensures DistinctVisits(All(entries, prefix))
    decreases entries
  {
    if entries != [] {
      var p, node := Child(prefix, entries[0].name), entries[0].node;
      var below := if node.Directory? then All(node.entries, p) else [];
      var tail := All(entries[1..], prefix);
      AllDistinct(entries[1..], prefix);
      if node.Directory? {
        AllDistinct(node.entries, p);
        ProperIsPlain(node.entries, p);
        forall v | v in below ensures StrictlyBelow(p, v.path) {
          AllBelow(node.entries, p, v);
        }
      }
      DistinctConcat([Visit(p, node)], below);
      forall x, y | x in [Visit(p, node)] + below && y in tail ensures x.path != y.path {
        TailApart(entries, prefix, y);
      }
      DistinctConcat([Visit(p, node)] + below, tail);
    }
  }

  lemma {:induction false} SelectDistinct(keep: Keep, visits: seq<Visit>)
    requires DistinctVisits(visits)
    ensures DistinctVisits(Select(keep, visits))
  {
    if visits != [] {
      SelectDistinct(keep, visits[1..]);
      var rest := Select(keep, visits[1..]);
      forall v | v in rest ensures v.path != visits[0].path {
        SelectMembers(keep, visits[1..], v);
      }
      assert forall i :: 0 <= i < |rest| ==> rest[i] in rest;
    }
  }

  lemma {:induction false} TreeOfMember(visits: seq<Visit>, v: Visit)
    requires DistinctVisits(visits) && v in visits
    ensures v.path in TreeOf(visits) && TreeOf(visits)[v.path] == EntryOf(v.node)
  {
    if v == visits[0] {
      if v.path in TreeOf(visits[1..]) {
        var w := TreeOfOrigin(visits[1..], v.path);
      }
    } else {
      TreeOfMember(visits[1..], v);
    }
  }

  lemma {:induction false} TreeOfOrigin(visits: seq<Visit>, p: string) returns (v: Visit)
    requires p in TreeOf(visits)
    ensures v in visits && v.path == p
  {
    if p in TreeOf(visits[1..]) {
      v := TreeOfOrigin(visits[1..], p);
    } else {
      v := visits[0];
    }
  }

  /** Exactly the wanted nodes of the tree, each with its own kind, content, link target and
      permission bits. */
  ghost predicate IsFilteredTree(t: FsTree, entries: seq<Entry>, f: PathFilter) {
    && (forall v :: v in All(entries, "") && Wanted(f, v) ==> v.path in t && Rebuilds(t[v.path], v.node))
    && (forall p :: p in t ==> exists v :: v in All(entries, "") && Wanted(f, v) && v.path == p)
  }

  /** An entered directory or a replicated file. */
  ghost predicate Wanted(f: PathFilter, v: Visit) {
    (v.node.Directory? && ShouldTraverse(f, v.path)) || (!v.node.Directory? && ShouldReplicate(f, v.path))
  }

  /** The entry is the node's, with the lowest nine bits of its mode. */
  ghost predicate Rebuilds(e: FsEntry, node: Node) {
    match node
    case Directory(mode, _) => e == DirEntry(mode % 512)
    case Regular(mode, data) => e == FileEntry(mode % 512, data)
    case Symlink(target) => e == LinkEntry(target)
  }

  /** Extracting the archive of a tree into an empty volume rebuilds the filtered tree. */
  lemma ArchiveRoundTrip(entries: seq<Entry>, f: PathFilter)
    requires ProperTree(entries, "") && WellPruned(f)
    ensures var archive := Headers(PrunedWalk(entries, "", ArchiveKeep(f)));
            ExtractAll(map[], archive).Some? && IsFilteredTree(ExtractAll(map[], archive).value, entries, f)
  {
    var keep := ArchiveKeep(f);
    var walk, all := PrunedWalk(entries, "", keep), All(entries, "");
    ExtractWalk(map[], entries, "", keep);
    assert map[] + TreeOf(walk) == TreeOf(walk);
    ArchiveKeepCloses(f);
    ProperIsPlain(entries, "");
    WalkFindsAllNodes(entries, "", keep);
    AllDistinct(entries, "");
    SelectDistinct(keep, all);
    forall v | v in all && Wanted(f, v)
      ensures v.path in TreeOf(walk) && Rebuilds(TreeOf(walk)[v.path], v.node)
    {
      SelectMembers(keep, all, v);
      TreeOfMember(walk, v);
    }
    forall p | p in TreeOf(walk) ensures exists v :: v in all && Wanted(f, v) && v.path == p {
      var v := TreeOfOrigin(walk, p);
      SelectMembers(keep, all, v);
    }
  }
}
