/** The replication data path: events are staged into a shadow tree, and replicas replay the
    staged batch by pulling from that shadow. What the operating system, rclone and WebDAV answer
    is an explicit input of every step. */
module Shadow {
  import opened Strings
  import opened Paths
  import opened Filter
  import opened Coalesce

  /** A directory tree: the value of each file or link, and the directories, empty ones included. */
  datatype Tree<T> = Tree(files: map<string, T>, dirs: set<string>)

  /** The directories above whatever is stored are there, and no file is a directory. */
  ghost predicate WellFormed<T>(t: Tree<T>) {
    && (forall q :: q in t.files ==> q !in t.dirs)
    && (forall q, a :: q in t.files && StrictlyBelow(a, q) ==> a in t.dirs)
    && (forall d, a :: d in t.dirs && StrictlyBelow(a, d) ==> a in t.dirs)
  }

  function Without<T>(files: map<string, T>, p: string): map<string, T> {
    map q | q in files && !AtOrBelow(p, q) :: files[q]
  }

  /** os.RemoveAll: the path and everything below it go; the directories above it stay. */
  function Removed<T>(t: Tree<T>, p: string): Tree<T> {
    Tree(Without(t.files, p), set d | d in t.dirs && !AtOrBelow(p, d))
  }

  /** os.MkdirAll of the directory of `p`. */
  function WithParents<T>(t: Tree<T>, p: string): Tree<T> { t.(dirs := t.dirs + Ancestors(p)) }

  function Put<T>(t: Tree<T>, p: string, value: T): Tree<T> {
    Tree(t.files[p := value], t.dirs + Ancestors(p))
  }

  /** What stands above `p` are directories or nothing: none of it is a file. Otherwise no call on `p`
      finds its way, and the error is not that `p` is missing. */
  predicate Reachable<T>(t: Tree<T>, p: string) { forall a :: a in Ancestors(p) ==> a !in t.files }

  predicate IsDirectoryIn<T>(t: Tree<T>, p: string) {
    p in t.dirs || exists q :: q in t.files && StrictlyBelow(p, q)
  }

  /** A file can be written at `p`: `p` is no directory, not even an empty one, and lies below no
      file. */
  predicate CanPut<T>(t: Tree<T>, p: string) { Reachable(t, p) && !IsDirectoryIn(t, p) }

  /** What a failed operation on `p` may leave behind: anything at or below `p`, and directories
      above it. */
  function Scarred<T>(t: Tree<T>, p: string, debris: Tree<T>): Tree<T> {
    Tree(Without(t.files, p) + map q | q in debris.files && AtOrBelow(p, q) :: debris.files[q],
         Removed(t, p).dirs + set d | d in debris.dirs && (AtOrBelow(p, d) || d in Ancestors(p)))
  }

  /** What a failed os.MkdirAll may leave behind. */
  function HalfMade<T>(t: Tree<T>, p: string, debris: Tree<T>): Tree<T> {
    t.(dirs := t.dirs + (Ancestors(p) * debris.dirs))
  }

  /** Both trees hold the same file at `x`. */
  ghost predicate SameFile<T>(a: Tree<T>, b: Tree<T>, x: string) { Same(a.files, b.files, x) }

  // ----- staging on the source -----

  datatype Lstat = Gone | LstatFails | IsDirectory | IsLeaf
  datatype Copy<T> = Copied(value: T) | CopySourceGone | CopyFails

  /** The answers one event gets while it is staged. */
  datatype StageWorld<T> = StageWorld(removeOk: bool, lstat: Lstat, mkdirOk: bool, copy: Copy<T>, debris: Tree<T>)

  datatype StageResult<T> = Staged(tree: Tree<T>, out: seq<FileEvent>) | StageError(tree: Tree<T>)

  function StageRemoval<T>(t: Tree<T>, p: string, w: StageWorld<T>): StageResult<T> {
    if w.removeOk && Reachable(t, p) then Staged(Removed(t, p), [FileEvent(p, Delete)]) else StageError(Scarred(t, p, w.debris))
  }

  function StageEvent<T>(t: Tree<T>, e: FileEvent, w: StageWorld<T>): StageResult<T> {
    if e.op.Delete? then StageRemoval(t, e.path, w)
    else match w.lstat
      case Gone => StageRemoval(t, e.path, w)
      case LstatFails => StageError(t)
      case IsDirectory => Staged(t, [])
      case IsLeaf =>
        if !w.mkdirOk || !Reachable(t, e.path) then StageError(HalfMade(t, e.path, w.debris))
        else StageCopy(WithParents(t, e.path), e.path, w)
  }

  function StageCopy<T>(t: Tree<T>, p: string, w: StageWorld<T>): StageResult<T> {
    match w.copy
    case CopySourceGone => StageRemoval(t, p, w)
    case CopyFails => StageError(Scarred(t, p, w.debris))
    case Copied(v) =>
      if CanPut(t, p) then Staged(Put(t, p, v), [FileEvent(p, Upsert)]) else StageError(Scarred(t, p, w.debris))
  }

  function StageAll<T>(t: Tree<T>, events: seq<FileEvent>, ws: seq<StageWorld<T>>): StageResult<T>
    requires |ws| == |events|
    decreases |events|
  {
    if events == [] then Staged(t, [])
    else match StageEvent(t, events[0], ws[0])
      case StageError(t') => StageError(t')
      case Staged(t', o) =>
        match StageAll(t', events[1..], ws[1..])
        case StageError(t'') => StageError(t'')
        case Staged(t'', rest) => Staged(t'', o + rest)
  }

  // ----- replay on a replica -----

  datatype Head = Yes | No | Unknown | HeadFails
  datatype Pull = Pulled | PullSourceGone | PullFails

  /** The answers one event gets while it is replayed. */
  datatype PullWorld<T> = PullWorld(removeOk: bool, head: Head, pull: Pull, headAgain: Head, ownershipOk: bool,
                                    debris: Tree<T>)

  datatype ReplayResult<T> = Applied(tree: Tree<T>) | Failed(tree: Tree<T>)

  function ReplayEvent<T>(r: Tree<T>, e: FileEvent, shadow: Tree<T>, authoritative: bool, w: PullWorld<T>)
    : ReplayResult<T>
  {
    if e.op.Delete? then
      if !authoritative then Applied(r)
      else if w.removeOk && Reachable(r, e.path) then Applied(Removed(r, e.path))
      else Failed(Scarred(r, e.path, w.debris))
    else if w.head.HeadFails? then Failed(r)
    else if w.head.No? then Applied(r)
    else if w.pull.Pulled? then
      if e.path in shadow.files && !CanPut(r, e.path) then Failed(Scarred(r, e.path, w.debris))
      else
        var r' := if e.path in shadow.files then Put(r, e.path, shadow.files[e.path]) else Scarred(r, e.path, w.debris);
        if w.ownershipOk then Applied(r') else Failed(r')
    else if w.headAgain.HeadFails? then Failed(Scarred(r, e.path, w.debris))
    else if w.headAgain.No? || w.pull.PullSourceGone? then Applied(r)
    else Failed(Scarred(r, e.path, w.debris))
  }

  /** The shadow's server calls a file missing only when the shadow has no file there. */
  ghost predicate Honest<T>(e: FileEvent, shadow: Tree<T>, w: PullWorld<T>) {
    !e.op.Delete? && e.path in shadow.files ==> !w.head.No? && !w.headAgain.No? && !w.pull.PullSourceGone?
  }

  ghost predicate AllHonest<T>(events: seq<FileEvent>, shadow: Tree<T>, ws: seq<PullWorld<T>>)
    requires |ws| == |events|
  {
    forall i :: 0 <= i < |events| ==> Honest(events[i], shadow, ws[i])
  }

  function ReplayAll<T>(r: Tree<T>, events: seq<FileEvent>, shadow: Tree<T>, authoritative: bool,
                        ws: seq<PullWorld<T>>): ReplayResult<T>
    requires |ws| == |events|
    decreases |events|
  {
    if events == [] then Applied(r)
    else match ReplayEvent(r, events[0], shadow, authoritative, ws[0])
      case Failed(r') => Failed(r')
      case Applied(r') => ReplayAll(r', events[1..], shadow, authoritative, ws[1..])
  }

  // ----- the loops of the source -----

  /** A directory tree the agent changes in place. */
  class Directory<T> {
    var tree: Tree<T>

    constructor (initial: Tree<T>)
      ensures tree == initial
    {
      tree := initial;
    }

    /** os.RemoveAll forgives a missing path, and not one below a file. */
    method RemoveAll(p: string, removeOk: bool, debris: Tree<T>) returns (ok: bool)
      modifies this
      ensures ok == (removeOk && Reachable(old(tree), p))
      ensures tree == if ok then Removed(old(tree), p) else Scarred(old(tree), p, debris)
    {
      ok := removeOk && Reachable(tree, p);
      tree := if ok then Removed(tree, p) else Scarred(tree, p, debris);
    }

    /** rclone copyto: a faithful copy, or an error when the path is blocked. */
    method CopyTo(p: string, value: T, debris: Tree<T>) returns (ok: bool)
      modifies this
      ensures ok == CanPut(old(tree), p)
      ensures tree == if ok then Put(old(tree), p, value) else Scarred(old(tree), p, debris)
    {
      ok := CanPut(tree, p);
      tree := if ok then Put(tree, p, value) else Scarred(tree, p, debris);
    }
  }

  /** Puts the events already staged in front of a later result. */
  function After<T>(out: seq<FileEvent>, r: StageResult<T>): StageResult<T> {
    match r case StageError(t) => r case Staged(t, rest) => Staged(t, out + rest)
  }

  /** The body of the staging loop. */
  method StageOne<T>(shadow: Directory<T>, e: FileEvent, w: StageWorld<T>) returns (ok: bool, out: seq<FileEvent>)
    modifies shadow
    ensures StageEvent(old(shadow.tree), e, w)
         == if ok then Staged(shadow.tree, out) else StageError(shadow.tree)
  {
    out := [];
    if !e.op.Delete? && w.lstat.LstatFails? {
      return false, out;
    }
    if !e.op.Delete? && w.lstat.IsDirectory? {
      return true, out;
    }
    if !e.op.Delete? && w.lstat.IsLeaf? {
      if !w.mkdirOk || !Reachable(shadow.tree, e.path) {
        shadow.tree := HalfMade(shadow.tree, e.path, w.debris);
        return false, out;
      }
      shadow.tree := WithParents(shadow.tree, e.path);
      match w.copy {
        case Copied(value) =>
          ok := shadow.CopyTo(e.path, value, w.debris);
          return ok, [FileEvent(e.path, Upsert)];
        case CopyFails =>
          shadow.tree := Scarred(shadow.tree, e.path, w.debris);
          return false, out;
        case CopySourceGone =>
      }
    }
    ok := shadow.RemoveAll(e.path, w.removeOk, w.debris);
    out := [FileEvent(e.path, Delete)];
  }

  method ApplyShadowEventBatch<T>(shadow: Directory<T>, events: seq<FileEvent>, filter: PathFilter,
                                  ws: seq<StageWorld<T>>)
    returns (ok: bool, out: seq<FileEvent>)
    requires |ws| == |Coalesced(events, filter)|
    modifies shadow
    ensures StageAll(old(shadow.tree), Coalesced(events, filter), ws)
         == if ok then Staged(shadow.tree, out) else StageError(shadow.tree)
  {
    var kept := CoalesceEvents(events, filter);
    out := [];
    ghost var before := shadow.tree;
    for i := 0 to |kept|
      invariant StageAll(before, kept, ws) == After(out, StageAll(shadow.tree, kept[i..], ws[i..]))
    {
      ghost var tree := shadow.tree;
      StageCons(tree, kept[i..], ws[i..]);
      var o;
      ok, o := StageOne(shadow, kept[i], ws[i]);
      if !ok {
        return false, out;
      }
      assert kept[i..][1..] == kept[i + 1..] && ws[i..][1..] == ws[i + 1..];
      AfterAfter(out, o, StageAll(shadow.tree, kept[i + 1..], ws[i + 1..]));
      out := out + o;
    }
    ok := true;
  }

  lemma StageCons<T>(t: Tree<T>, events: seq<FileEvent>, ws: seq<StageWorld<T>>)
    requires |ws| == |events| && events != []
    ensures var step := StageEvent(t, events[0], ws[0]);
            StageAll(t, events, ws) == if step.Staged? then After(step.out, StageAll(step.tree, events[1..], ws[1..])) else step
  {}

  lemma AfterAfter<T>(a: seq<FileEvent>, b: seq<FileEvent>, r: StageResult<T>)
    ensures After(a, After(b, r)) == After(a + b, r)
  {
    if r.Staged? {
      assert a + (b + r.out) == (a + b) + r.out;
    }
  }

  method ApplyEventBatch<T>(replica: Directory<T>, events: seq<FileEvent>, shadow: Tree<T>, authoritative: bool,
                            ws: seq<PullWorld<T>>)
    returns (ok: bool)
    requires |ws| == |Coalesced(events, NoFilter)|
    modifies replica
    ensures var result := ReplayAll(old(replica.tree), Coalesced(events, NoFilter), shadow, authoritative, ws);
            result == if ok then Applied(replica.tree) else Failed(replica.tree)
  {
    var kept := CoalesceEvents(events, NoFilter);
    ghost var goal := ReplayAll(replica.tree, kept, shadow, authoritative, ws);
    for i := 0 to |kept|
      invariant goal == ReplayAll(replica.tree, kept[i..], shadow, authoritative, ws[i..])
    {
      assert kept[i..][1..] == kept[i + 1..] && ws[i..][1..] == ws[i + 1..];
      var e, w := kept[i], ws[i];
      if e.op.Delete? {
        if authoritative {
          ok := replica.RemoveAll(e.path, w.removeOk, w.debris);
          if !ok {
            return false;
          }
        }
        continue;
      }
      if w.head.HeadFails? {
        return false;
      }
      if w.head.No? {
        continue;
      }
      if !w.pull.Pulled? {
        if w.headAgain.HeadFails? {
          replica.tree := Scarred(replica.tree, e.path, w.debris);
          return false;
        }
        if w.headAgain.No? || w.pull.PullSourceGone? {
          continue;
        }
        replica.tree := Scarred(replica.tree, e.path, w.debris);
        return false;
      }
      if e.path in shadow.files {
        ok := replica.CopyTo(e.path, shadow.files[e.path], w.debris);
        if !ok {
          return false;
        }
      } else {
        replica.tree := Scarred(replica.tree, e.path, w.debris);
      }
      if !w.ownershipOk {
        return false;
      }
    }
    ok := true;
  }

  // ----- what a batch touches -----

  ghost predicate TouchedBy(events: seq<FileEvent>, x: string) {
    exists i :: 0 <= i < |events| && AtOrBelow(events[i].path, x)
  }

  lemma TouchedCons(e: FileEvent, events: seq<FileEvent>, x: string)
    ensures TouchedBy([e] + events, x) <==> AtOrBelow(e.path, x) || TouchedBy(events, x)
  {
    var all := [e] + events;
    assert all[0] == e;
    assert forall i :: 0 <= i < |events| ==> events[i] == all[i + 1];
  }

  lemma TouchedAbove(events: seq<FileEvent>, p: string, x: string)
    requires TouchedBy(events, p) && AtOrBelow(p, x)
    ensures TouchedBy(events, x)
  {
    var i :| 0 <= i < |events| && AtOrBelow(events[i].path, p);
    AtOrBelowTransitive(events[i].path, p, x);
  }

  lemma StageEventFrame<T>(t: Tree<T>, e: FileEvent, w: StageWorld<T>, x: string)
    requires !AtOrBelow(e.path, x)
    ensures SameFile(t, StageEvent(t, e, w).tree, x)
  {}

  lemma {:induction false} StageAllFrame<T>(t: Tree<T>, events: seq<FileEvent>, ws: seq<StageWorld<T>>, x: string)
    requires |ws| == |events| && !TouchedBy(events, x)
    ensures SameFile(t, StageAll(t, events, ws).tree, x)
    decreases |events|
  {
    if events != [] {
      assert events == [events[0]] + events[1..];
      TouchedCons(events[0], events[1..], x);
      StageEventFrame(t, events[0], ws[0], x);
      var step := StageEvent(t, events[0], ws[0]);
      if step.Staged? {
        StageAllFrame(step.tree, events[1..], ws[1..], x);
      }
    }
  }

  /** Events on live directories change nothing, so only the emitted events count. */
  lemma {:induction false} StagedFrame<T>(t: Tree<T>, events: seq<FileEvent>, ws: seq<StageWorld<T>>, x: string)
    requires |ws| == |events| && StageAll(t, events, ws).Staged?
    requires !TouchedBy(StageAll(t, events, ws).out, x)
    ensures SameFile(t, StageAll(t, events, ws).tree, x)
    decreases |events|
  {
    if events != [] {
      var step := StageEvent(t, events[0], ws[0]);
      var rest := StageAll(step.tree, events[1..], ws[1..]);
      if step.out == [] {
        assert step.out + rest.out == rest.out;
      } else {
        assert step.out == [step.out[0]];
        TouchedCons(step.out[0], rest.out, x);
        StageEventFrame(t, events[0], ws[0], x);
      }
      StagedFrame(step.tree, events[1..], ws[1..], x);
    }
  }

  lemma ReplayEventFrame<T>(r: Tree<T>, e: FileEvent, shadow: Tree<T>, authoritative: bool, w: PullWorld<T>, x: string)
    requires !AtOrBelow(e.path, x)
    ensures SameFile(r, ReplayEvent(r, e, shadow, authoritative, w).tree, x)
  {}

  lemma {:induction false} ReplayAllFrame<T>(r: Tree<T>, events: seq<FileEvent>, shadow: Tree<T>, authoritative: bool,
                                             ws: seq<PullWorld<T>>, x: string)
    requires |ws| == |events| && !TouchedBy(events, x)
    ensures SameFile(r, ReplayAll(r, events, shadow, authoritative, ws).tree, x)
    decreases |events|
  {
    if events != [] {
      assert events == [events[0]] + events[1..];
      TouchedCons(events[0], events[1..], x);
      ReplayEventFrame(r, events[0], shadow, authoritative, ws[0], x);
      var step := ReplayEvent(r, events[0], shadow, authoritative, ws[0]);
      if step.Applied? {
        ReplayAllFrame(step.tree, events[1..], shadow, authoritative, ws[1..], x);
      }
    }
  }

  /** Staging keeps the tree well formed: no file ends up at or above a directory. */
  lemma StagedWellFormed<T>(t: Tree<T>, e: FileEvent, w: StageWorld<T>)
    requires WellFormed(t) && StageEvent(t, e, w).Staged?
    ensures WellFormed(StageEvent(t, e, w).tree)
  {
    RemovedWellFormed(t, e.path);
    if Reachable(t, e.path) {
      ParentsWellFormed(t, e.path);
      RemovedWellFormed(WithParents(t, e.path), e.path);
      if w.copy.Copied? && CanPut(WithParents(t, e.path), e.path) {
        PutWellFormed(WithParents(t, e.path), e.path, w.copy.value);
      }
    }
  }

  lemma RemovedWellFormed<T>(t: Tree<T>, p: string)
    requires WellFormed(t)
    ensures WellFormed(Removed(t, p))
  {
    forall q, a | !AtOrBelow(p, q) && StrictlyBelow(a, q) ensures !AtOrBelow(p, a) {
      if AtOrBelow(p, a) {
        AtOrBelowTransitive(p, a, q);
      }
    }
  }

  lemma ParentsWellFormed<T>(t: Tree<T>, p: string)
    requires WellFormed(t) && Reachable(t, p)
    ensures WellFormed(WithParents(t, p))
  {
    forall d, a | d in Ancestors(p) && StrictlyBelow(a, d) ensures a in Ancestors(p) {
      AncestorsAre(p, d);
      AncestorsAre(p, a);
      AtOrBelowTransitive(a, d, p);
    }
  }

  lemma PutWellFormed<T>(t: Tree<T>, p: string, value: T)
    requires WellFormed(t) && CanPut(t, p)
    ensures WellFormed(Put(t, p, value))
  {
    ParentsWellFormed(t, p);
    var t' := Put(t, p, value);
    AncestorsAre(p, p);
    forall a | StrictlyBelow(a, p) ensures a in t'.dirs {
      AncestorsAre(p, a);
    }
    assert forall q :: q in t'.files ==> q == p || q in t.files;
    assert t'.dirs == WithParents(t, p).dirs;
  }

  // ----- a replica follows the shadow -----

  /** One staged event `e` and its replay against the finished shadow agree at `x`, when the
      event's own path is final wherever it matters for `x`. */
  lemma StepAgrees<T>(s: Tree<T>, r: Tree<T>, e: FileEvent, w: StageWorld<T>, s': Tree<T>, o: FileEvent,
                      final: Tree<T>, pw: PullWorld<T>, x: string)
    requires StageEvent(s, e, w) == Staged(s', [o])
    requires Honest(o, final, pw) && ReplayEvent(r, o, final, true, pw).Applied?
    requires if AtOrBelow(e.path, x) then SameFile(s', final, e.path) else SameFile(s, r, x)
    ensures SameFile(s', ReplayEvent(r, o, final, true, pw).tree, x)
  {
    assert o.path == e.path;
    if !AtOrBelow(e.path, x) {
      StageEventFrame(s, e, w, x);
      ReplayEventFrame(r, o, final, true, pw, x);
    }
  }

  /** Wherever shadow and replica agreed before a batch, or the batch acts, they agree after it. */
  lemma {:induction false} BatchAgrees<T>(s: Tree<T>, r: Tree<T>, events: seq<FileEvent>, ws: seq<StageWorld<T>>,
                                          final: Tree<T>, out: seq<FileEvent>, pws: seq<PullWorld<T>>, x: string)
    requires |ws| == |events| && StageAll(s, events, ws) == Staged(final, out)
    requires |pws| == |out| && AllHonest(out, final, pws) && ReplayAll(r, out, final, true, pws).Applied?
    requires SameFile(s, r, x) || TouchedBy(out, x)
    ensures SameFile(final, ReplayAll(r, out, final, true, pws).tree, x)
    decreases |events|
  {
    if events != [] {
      var step := StageEvent(s, events[0], ws[0]);
      var rest := StageAll(step.tree, events[1..], ws[1..]).out;
      if step.out == [] {
        assert out == rest;
        BatchAgrees(step.tree, r, events[1..], ws[1..], final, rest, pws, x);
      } else {
        assert step.out == [out[0]] && out == [out[0]] + rest && out[1..] == rest;
        TouchedCons(out[0], rest, x);
        if !TouchedBy(rest, x) {
          PathIsFinal(step.tree, events[1..], ws[1..], events[0].path, x);
          StepAgrees(s, r, events[0], ws[0], step.tree, out[0], final, pws[0], x);
        }
        var r' := ReplayEvent(r, out[0], final, true, pws[0]).tree;
        BatchAgrees(step.tree, r', events[1..], ws[1..], final, rest, pws[1..], x);
      }
    }
  }

  /** When no later event touches `x`, none touches a path above `x` either. */
  lemma PathIsFinal<T>(t: Tree<T>, events: seq<FileEvent>, ws: seq<StageWorld<T>>, p: string, x: string)
    requires |ws| == |events| && StageAll(t, events, ws).Staged?
    requires !TouchedBy(StageAll(t, events, ws).out, x)
    ensures AtOrBelow(p, x) ==> SameFile(t, StageAll(t, events, ws).tree, p)
  {
    var out := StageAll(t, events, ws).out;
    if AtOrBelow(p, x) && !TouchedBy(out, p) {
      StagedFrame(t, events, ws, p);
    } else if AtOrBelow(p, x) {
      TouchedAbove(out, p, x);
    }
  }

  // ----- what success means -----

  /** Every call staging made for the event succeeded. */
  ghost predicate StageCallsOk<T>(e: FileEvent, w: StageWorld<T>) {
    if e.op.Delete? then w.removeOk
    else match w.lstat
      case Gone => w.removeOk
      case LstatFails => false
      case IsDirectory => true
      case IsLeaf => w.mkdirOk && !w.copy.CopyFails? && (w.copy.CopySourceGone? ==> w.removeOk)
  }

  /** The event is no upsert of a live directory, which staging skips. */
  predicate Touches<T>(e: FileEvent, w: StageWorld<T>) { e.op.Delete? || !w.lstat.IsDirectory? }

  predicate Stores<T>(e: FileEvent, w: StageWorld<T>) { !e.op.Delete? && w.lstat.IsLeaf? && w.copy.Copied? }

  /** An event is staged exactly when its calls succeed, no file lies above its path, and it stores
      nothing on a directory. */
  lemma StagedIff<T>(t: Tree<T>, e: FileEvent, w: StageWorld<T>)
    ensures StageEvent(t, e, w).Staged?
       <==> && StageCallsOk(e, w) && (Touches(e, w) ==> Reachable(t, e.path))
            && (Stores(e, w) ==> !IsDirectoryIn(t, e.path))
  {
    AncestorsAre(e.path, e.path);
  }

  /** A batch reported as staged had no failing call, however many events it has. */
  lemma {:induction false} StagedMeansCallsOk<T>(t: Tree<T>, events: seq<FileEvent>, ws: seq<StageWorld<T>>, i: nat)
    requires |ws| == |events| && StageAll(t, events, ws).Staged? && i < |events|
    ensures StageCallsOk(events[i], ws[i])
    decreases |events|
  {
    StagedIff(t, events[0], ws[0]);
    if i > 0 {
      StagedMeansCallsOk(StageEvent(t, events[0], ws[0]).tree, events[1..], ws[1..], i - 1);
    }
  }

  /** Every call the replica made for the event succeeded, or found the source gone. */
  ghost predicate PullCallsOk<T>(e: FileEvent, authoritative: bool, w: PullWorld<T>) {
    if e.op.Delete? then authoritative ==> w.removeOk
    else
      && !w.head.HeadFails?
      && (w.head.No? || (if w.pull.Pulled? then w.ownershipOk
                         else !w.headAgain.HeadFails? && (w.headAgain.No? || w.pull.PullSourceGone?)))
  }

  /** A batch a replica acknowledges had no failing call. */
  lemma {:induction false} AcknowledgedMeansCallsOk<T>(r: Tree<T>, events: seq<FileEvent>, shadow: Tree<T>, authoritative: bool,
                                                       ws: seq<PullWorld<T>>, i: nat)
    requires |ws| == |events| && ReplayAll(r, events, shadow, authoritative, ws).Applied? && i < |events|
    ensures PullCallsOk(events[i], authoritative, ws[i])
    decreases |events|
  {
    if i > 0 {
      AcknowledgedMeansCallsOk(ReplayEvent(r, events[0], shadow, authoritative, ws[0]).tree, events[1..], shadow,
                               authoritative, ws[1..], i - 1);
    }
  }

  // ----- what an acknowledged batch leaves -----

  /** Nothing from position `i` on reaches `x`. */
  ghost predicate LeftAloneFrom(events: seq<FileEvent>, i: nat, x: string) {
    forall k :: i <= k < |events| ==> !AtOrBelow(events[k].path, x)
  }

  lemma LeftAloneTail(events: seq<FileEvent>, i: nat, x: string)
    requires events != [] && LeftAloneFrom(events, i + 1, x)
    ensures LeftAloneFrom(events[1..], i, x)
  {
    assert forall k :: 0 <= k < |events[1..]| ==> events[1..][k] == events[k + 1];
  }

  /** With or without authority to delete: a file the batch names last in an upsert, and the source has,
      arrives with the source's value; with authority, what it names last in a delete is gone. */
  lemma {:induction false} AcknowledgedValue<T>(r: Tree<T>, events: seq<FileEvent>, shadow: Tree<T>, authoritative: bool,
                                                ws: seq<PullWorld<T>>, i: nat, x: string)
    requires |ws| == |events| && AllHonest(events, shadow, ws) && ReplayAll(r, events, shadow, authoritative, ws).Applied?
    requires i < |events| && AtOrBelow(events[i].path, x) && LeftAloneFrom(events, i + 1, x)
    ensures var r' := ReplayAll(r, events, shadow, authoritative, ws).tree;
            && (!events[i].op.Delete? && events[i].path == x && x in shadow.files ==> x in r'.files && r'.files[x] == shadow.files[x])
            && (events[i].op.Delete? && authoritative ==> x !in r'.files)
    decreases |events|
  {
    var step := ReplayEvent(r, events[0], shadow, authoritative, ws[0]);
    assert Honest(events[0], shadow, ws[0]);
    if i > 0 {
      LeftAloneTail(events, i, x);
      AcknowledgedValue(step.tree, events[1..], shadow, authoritative, ws[1..], i - 1, x);
    } else {
      LeftAloneTail(events, 0, x);
      ReplayAllFrame(step.tree, events[1..], shadow, authoritative, ws[1..], x);
    }
  }

  // ----- deletes of a watch without a shadow are advisory -----

  /** Only deletes reach `x`. */
  ghost predicate OnlyDeletesReach(events: seq<FileEvent>, x: string) {
    forall i :: 0 <= i < |events| && AtOrBelow(events[i].path, x) ==> events[i].op.Delete?
  }

  /** Without authority to delete, a batch leaves every file alone that it names only in deletes,
      whatever its outcome. */
  lemma {:induction false} AdvisoryDeletesKeep<T>(r: Tree<T>, events: seq<FileEvent>, shadow: Tree<T>, ws: seq<PullWorld<T>>, x: string)
    requires |ws| == |events| && OnlyDeletesReach(events, x)
    ensures SameFile(r, ReplayAll(r, events, shadow, false, ws).tree, x)
    decreases |events|
  {
    if events != [] {
      var step := ReplayEvent(r, events[0], shadow, false, ws[0]);
      if !AtOrBelow(events[0].path, x) {
        ReplayEventFrame(r, events[0], shadow, false, ws[0], x);
      }
      if step.Applied? {
        assert forall i :: 0 <= i < |events[1..]| ==> events[1..][i] == events[i + 1];
        AdvisoryDeletesKeep(step.tree, events[1..], shadow, ws[1..], x);
      }
    }
  }

  /** A batch of such deletes succeeds and changes nothing at all. */
  lemma {:induction false} AdvisoryDeletesOnly<T>(r: Tree<T>, events: seq<FileEvent>, shadow: Tree<T>, ws: seq<PullWorld<T>>)
    requires |ws| == |events| && forall e :: e in events ==> e.op.Delete?
    ensures ReplayAll(r, events, shadow, false, ws) == Applied(r)
    decreases |events|
  {
    if events != [] {
      assert events[0] in events;
      AdvisoryDeletesOnly(r, events[1..], shadow, ws[1..]);
    }
  }

  // ----- a replica keeps up -----

  /** All that is on the replica is also in the shadow, at least by name. */
  ghost predicate Within<T>(r: Tree<T>, s: Tree<T>) { r.files.Keys <= s.files.Keys && r.dirs <= s.dirs }

  /** No call fails: files of the shadow are found and pulled, and what it does not have is reported
      gone, at the first question or after the pull. */
  ghost predicate Calm<T>(e: FileEvent, shadow: Tree<T>, w: PullWorld<T>) {
    if e.op.Delete? then w.removeOk
    else if e.path in shadow.files then (w.head.Yes? || w.head.Unknown?) && w.pull.Pulled? && w.ownershipOk && !w.headAgain.No?
    else
      || w.head.No?
      || (!w.head.HeadFails? && !w.pull.Pulled? && !w.headAgain.HeadFails? && (w.headAgain.No? || w.pull.PullSourceGone?))
  }

  ghost predicate AllCalm<T>(events: seq<FileEvent>, shadow: Tree<T>, ws: seq<PullWorld<T>>)
    requires |ws| == |events|
  {
    forall i :: 0 <= i < |events| ==> Calm(events[i], shadow, ws[i])
  }

  lemma CalmIsHonest<T>(events: seq<FileEvent>, shadow: Tree<T>, ws: seq<PullWorld<T>>)
    requires |ws| == |events| && AllCalm(events, shadow, ws)
    ensures AllHonest(events, shadow, ws)
  {}

  lemma WithinCanPut<T>(r: Tree<T>, s: Tree<T>, p: string)
    requires Within(r, s)
    ensures (Reachable(s, p) ==> Reachable(r, p)) && (CanPut(s, p) ==> CanPut(r, p))
  {
    assert forall q :: q in r.files ==> q in s.files.Keys;
  }

  lemma CalmStep<T>(s: Tree<T>, r: Tree<T>, e: FileEvent, w: StageWorld<T>, s': Tree<T>, o: FileEvent, final: Tree<T>, pw: PullWorld<T>)
    requires StageEvent(s, e, w) == Staged(s', [o]) && Within(r, s) && Calm(o, final, pw)
    ensures ReplayEvent(r, o, final, true, pw).Applied? && Within(ReplayEvent(r, o, final, true, pw).tree, s')
  {
    WithinCanPut(r, s, e.path);
    WithinCanPut(r, WithParents(s, e.path), e.path);
    assert forall q :: q in r.files ==> q in s.files.Keys;
  }

  /** A replica that holds nothing the shadow does not acknowledges every staged batch when no call
      fails, and again holds nothing the shadow does not. */
  lemma {:induction false} CalmBatchApplies<T>(s: Tree<T>, r: Tree<T>, events: seq<FileEvent>, ws: seq<StageWorld<T>>,
                                               final: Tree<T>, out: seq<FileEvent>, pws: seq<PullWorld<T>>)
    requires |ws| == |events| && StageAll(s, events, ws) == Staged(final, out) && Within(r, s)
    requires |pws| == |out| && AllCalm(out, final, pws)
    ensures ReplayAll(r, out, final, true, pws).Applied? && Within(ReplayAll(r, out, final, true, pws).tree, final)
    decreases |events|
  {
    if events != [] {
      var step := StageEvent(s, events[0], ws[0]);
      var rest := StageAll(step.tree, events[1..], ws[1..]).out;
      if step.out == [] {
        assert out == rest;
        CalmBatchApplies(step.tree, r, events[1..], ws[1..], final, rest, pws);
      } else {
        assert step.out == [out[0]] && out[1..] == rest;
        CalmStep(s, r, events[0], ws[0], step.tree, out[0], final, pws[0]);
        CalmBatchApplies(step.tree, ReplayEvent(r, out[0], final, true, pws[0]).tree, events[1..], ws[1..], final, rest, pws[1..]);
      }
    }
  }
}
