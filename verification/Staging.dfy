/** Staging a coalesced batch against staging the raw events, over a live tree that stands still. */
module Staging {
  import opened Strings
  import opened Paths
  import opened Filter
  import opened Coalesce
  import opened Shadow

  datatype LiveNode<T> = LiveDirectory | LiveLeaf(value: T)

  type Live<T> = map<string, LiveNode<T>>

  function Nothing<T>(): Tree<T> { Tree(map[], {}) }

  /** The path lies below a live file, where looking it up is an error and not a miss. */
  predicate BelowLeaf<T>(live: Live<T>, p: string) {
    p !in live && exists a :: a in Ancestors(p) && a in live && live[a].LiveLeaf?
  }

  /** What an event at `p` meets in a still live tree when no call fails by itself. */
  function LiveWorld<T>(live: Live<T>, p: string): StageWorld<T> {
    if BelowLeaf(live, p) then StageWorld(true, LstatFails, true, CopySourceGone, Nothing())
    else if p !in live then StageWorld(true, Gone, true, CopySourceGone, Nothing())
    else match live[p]
      case LiveDirectory => StageWorld(true, IsDirectory, true, CopySourceGone, Nothing())
      case LiveLeaf(v) => StageWorld(true, IsLeaf, true, Copied(v), Nothing())
  }

  function LiveWorlds<T>(live: Live<T>, events: seq<FileEvent>): (ws: seq<StageWorld<T>>)
    ensures |ws| == |events|
  {
    seq(|events|, i requires 0 <= i < |events| => LiveWorld(live, events[i].path))
  }

  function StageLive<T>(t: Tree<T>, events: seq<FileEvent>, live: Live<T>): StageResult<T> {
    StageAll(t, events, LiveWorlds(live, events))
  }

  lemma StageLiveCons<T>(t: Tree<T>, events: seq<FileEvent>, live: Live<T>)
    requires events != []
    ensures var step := StageEvent(t, events[0], LiveWorld(live, events[0].path));
            && (step.StageError? ==> StageLive(t, events, live) == step)
            && (step.Staged? ==> StageLive(t, events, live) == After(step.out, StageLive(step.tree, events[1..], live)))
  {
    assert LiveWorlds(live, events)[1..] == LiveWorlds(live, events[1..]);
  }

  // ----- what a successful staging leaves at a path -----

  datatype Verdict<T> = Untouched | Absent | Present(value: T)

  function IsLiveDirectory<T>(live: Live<T>, p: string): bool { p in live && live[p].LiveDirectory? }

  function Effect<T>(live: Live<T>, e: FileEvent, x: string): Verdict<T> {
    if !AtOrBelow(e.path, x) then Untouched
    else if e.op.Delete? || e.path !in live then Absent
    else if live[e.path].LiveDirectory? then Untouched
    else if e.path == x then Present(live[x].value)
    else Absent
  }

  function LastEffect<T>(live: Live<T>, events: seq<FileEvent>, x: string): Verdict<T> {
    if events == [] then Untouched
    else
      var later := LastEffect(live, events[1..], x);
      if later.Untouched? then Effect(live, events[0], x) else later
  }

  ghost predicate Shows<T>(before: Tree<T>, after: Tree<T>, x: string, v: Verdict<T>) {
    match v
    case Untouched => SameFile(before, after, x)
    case Absent => x !in after.files
    case Present(value) => x in after.files && after.files[x] == value
  }

  lemma EventEffect<T>(t: Tree<T>, e: FileEvent, live: Live<T>, x: string)
    requires StageEvent(t, e, LiveWorld(live, e.path)).Staged?
    ensures Shows(t, StageEvent(t, e, LiveWorld(live, e.path)).tree, x, Effect(live, e, x))
  {}

  /** Only the last event that acts at or above a path decides what is staged there. */
  lemma {:induction false} StagedValue<T>(t: Tree<T>, events: seq<FileEvent>, live: Live<T>, x: string)
    requires StageLive(t, events, live).Staged?
    ensures Shows(t, StageLive(t, events, live).tree, x, LastEffect(live, events, x))
    decreases |events|
  {
    if events != [] {
      StageLiveCons(t, events, live);
      EventEffect(t, events[0], live, x);
      var step := StageEvent(t, events[0], LiveWorld(live, events[0].path));
      StagedValue(step.tree, events[1..], live, x);
    }
  }

  // ----- coalescing keeps the last acting event -----

  /** A delete of a live directory is followed by an upsert of it: coalescing keeps only the
      upsert, and staging skips directories. */
  ghost predicate HidesDelete<T>(live: Live<T>, events: seq<FileEvent>) {
    exists i, j :: 0 <= i < j < |events| && events[i].path == events[j].path
                && events[i].op.Delete? && !events[j].op.Delete? && IsLiveDirectory(live, events[i].path)
  }

  // ----- exactly when coalescing is visible -----

  /** The event changes what is staged at `x`: it lies at or above it, and is no upsert of a live
      directory. */
  predicate Acts<T>(live: Live<T>, e: FileEvent, x: string) {
    AtOrBelow(e.path, x) && (e.op.Delete? || !IsLiveDirectory(live, e.path))
  }

  /** The event stages the file `x` itself. */
  predicate Writes<T>(live: Live<T>, e: FileEvent, x: string) {
    e.path == x && !e.op.Delete? && x in live && live[x].LiveLeaf?
  }

  lemma EffectByKind<T>(live: Live<T>, e: FileEvent, x: string)
    ensures Effect(live, e, x).Untouched? <==> !Acts(live, e, x)
    ensures Effect(live, e, x).Present? <==> Writes(live, e, x)
    ensures Writes(live, e, x) ==> Effect(live, e, x) == Present(live[x].value)
  {}

  /** The last event that acts on `x`, or the number of events when none does. */
  lemma {:induction false} LastActing<T>(live: Live<T>, events: seq<FileEvent>, from: nat, x: string) returns (k: nat)
    requires from <= |events|
    ensures from <= k <= |events|
    ensures k < |events| ==> Acts(live, events[k], x) && LastEffect(live, events[from..], x) == Effect(live, events[k], x)
    ensures k == |events| ==> LastEffect(live, events[from..], x).Untouched?
    ensures forall m :: from <= m < |events| && (k == |events| || k < m) ==> !Acts(live, events[m], x)
    decreases |events| - from
  {
    k := |events|;
    if from < |events| {
      k := LastActing(live, events, from + 1, x);
      assert events[from..][1..] == events[from + 1..];
      EffectByKind(live, events[from], x);
      if k < |events| {
        EffectByKind(live, events[k], x);
      } else if Acts(live, events[from], x) {
        k := from;
      }
    }
  }

  /** The last event that acts on `x` among those coalescing keeps. */
  lemma {:induction false} LastKeptActing<T>(live: Live<T>, events: seq<FileEvent>, from: nat, x: string) returns (k: nat)
    requires from <= |events|
    ensures from <= k <= |events|
    ensures k < |events| ==> IsLast(events, k) && Acts(live, events[k], x)
    ensures k < |events| ==> LastEffect(live, LastWins(events[from..]), x) == Effect(live, events[k], x)
    ensures k == |events| ==> LastEffect(live, LastWins(events[from..]), x).Untouched?
    ensures forall m :: from <= m < |events| && (k == |events| || k < m) && IsLast(events, m) ==> !Acts(live, events[m], x)
    decreases |events| - from
  {
    k := |events|;
    if from < |events| {
      k := LastKeptActing(live, events, from + 1, x);
      assert events[from..][1..] == events[from + 1..];
      MentionedLater(events, from);
      if IsLast(events, from) {
        var rest := LastWins(events[from + 1..]);
        assert LastWins(events[from..]) == [events[from]] + rest && ([events[from]] + rest)[1..] == rest;
        EffectByKind(live, events[from], x);
        if k < |events| {
          EffectByKind(live, events[k], x);
        } else if Acts(live, events[from], x) {
          k := from;
        }
      }
    }
  }

  /** Event `k` deletes a live directory at or above `x`, a later event upserts that directory, and
      nothing later acts on `x`: coalescing drops the delete, and staging skips the upsert. */
  ghost predicate HiddenAt<T>(live: Live<T>, events: seq<FileEvent>, k: nat, x: string) {
    && k < |events| && events[k].op.Delete? && AtOrBelow(events[k].path, x) && IsLiveDirectory(live, events[k].path)
    && (exists j :: k < j < |events| && events[j].path == events[k].path && !events[j].op.Delete?)
    && (forall m :: k < m < |events| ==> !Acts(live, events[m], x))
  }

  /** Before `k`, the last kept event that acts on `x` writes it, or there is none and `x` is stored. */
  ghost predicate Shown<T>(t: Tree<T>, events: seq<FileEvent>, live: Live<T>, k: nat, x: string)
    requires k < |events|
  {
    || (exists i :: 0 <= i < k && IsLast(events, i) && Writes(live, events[i], x)
                 && forall m :: i < m < k && IsLast(events, m) ==> !Acts(live, events[m], x))
    || (x in t.files && forall m :: 0 <= m < k && IsLast(events, m) ==> !Acts(live, events[m], x))
  }

  /** A path the raw events remove and the coalesced batch leaves or writes. */
  ghost predicate Resurfaces<T>(t: Tree<T>, events: seq<FileEvent>, live: Live<T>, x: string) {
    exists k: nat :: HiddenAt(live, events, k, x) && Shown(t, events, live, k, x)
  }

  /** An acting event that coalescing drops without a later one that acts is a hidden delete. */
  lemma DroppedIsHidden<T>(live: Live<T>, events: seq<FileEvent>, k: nat, x: string)
    requires k < |events| && Acts(live, events[k], x) && !IsLast(events, k)
    requires forall m :: k < m < |events| ==> !Acts(live, events[m], x)
    ensures HiddenAt(live, events, k, x)
  {
    var j :| k < j < |events| && events[j].path == events[k].path;
    assert !Acts(live, events[j], x);
  }

  /** What the two lists leave at `x` differs exactly when `x` resurfaces. */
  lemma DiffersIffResurfaces<T>(t: Tree<T>, events: seq<FileEvent>, live: Live<T>, x: string)
    requires StageLive(t, events, live).Staged? && StageLive(t, LastWins(events), live).Staged?
    ensures SameFile(StageLive(t, events, live).tree, StageLive(t, LastWins(events), live).tree, x)
       <==> !Resurfaces(t, events, live, x)
  {
    StagedValue(t, events, live, x);
    StagedValue(t, LastWins(events), live, x);
    var k := LastActing(live, events, 0, x);
    var i := LastKeptActing(live, events, 0, x);
    assert events[0..] == events;
    if k == |events| {
      assert i == |events|;
    } else if IsLast(events, k) {
      assert i == k;
      NotHidden(live, events, k, x);
    } else {
      DroppedIsHidden(live, events, k, x);
      HiddenShows(t, events, live, k, i, x);
    }
  }

  lemma NotHidden<T>(live: Live<T>, events: seq<FileEvent>, k: nat, x: string)
    requires k < |events| && IsLast(events, k) && Acts(live, events[k], x)
    requires forall m :: k < m < |events| ==> !Acts(live, events[m], x)
    ensures forall h: nat :: !HiddenAt(live, events, h, x)
  {
    forall h: nat ensures !HiddenAt(live, events, h, x) {
      if HiddenAt(live, events, h, x) {
        assert Acts(live, events[h], x);
        assert false;
      }
    }
  }

  lemma HiddenShows<T>(t: Tree<T>, events: seq<FileEvent>, live: Live<T>, k: nat, i: nat, x: string)
    requires HiddenAt(live, events, k, x) && !IsLast(events, k) && i <= |events|
    requires i < |events| ==> IsLast(events, i) && Acts(live, events[i], x)
    requires forall m :: 0 <= m < |events| && (i == |events| || i < m) && IsLast(events, m) ==> !Acts(live, events[m], x)
    ensures Resurfaces(t, events, live, x) <==> if i < |events| then Writes(live, events[i], x) else x in t.files
  {}

  /** Where both succeed, the two lists leave the same files exactly when no path resurfaces. */
  lemma CoalescingVisibleIff<T>(t: Tree<T>, events: seq<FileEvent>, live: Live<T>)
    requires StageLive(t, events, live).Staged? && StageLive(t, LastWins(events), live).Staged?
    ensures StageLive(t, LastWins(events), live).tree.files == StageLive(t, events, live).tree.files
       <==> forall x :: !Resurfaces(t, events, live, x)
  {
    var raw, kept := StageLive(t, events, live).tree, StageLive(t, LastWins(events), live).tree;
    forall x ensures SameFile(raw, kept, x) <==> !Resurfaces(t, events, live, x) {
      DiffersIffResurfaces(t, events, live, x);
    }
    if forall x :: !Resurfaces(t, events, live, x) {
      assert forall x :: x in raw.files ==> SameFile(raw, kept, x);
      assert forall x :: x in kept.files ==> SameFile(raw, kept, x);
    }
    if raw.files == kept.files {
      assert forall x :: SameFile(raw, kept, x);
    }
  }

  /** So it takes a delete of a live directory, hidden by a later upsert, to make coalescing visible. */
  lemma CoalescedStagesAlike<T>(t: Tree<T>, events: seq<FileEvent>, live: Live<T>)
    requires StageLive(t, events, live).Staged? && StageLive(t, LastWins(events), live).Staged?
    requires !HidesDelete(live, events)
    ensures StageLive(t, LastWins(events), live).tree.files == StageLive(t, events, live).tree.files
  {
    CoalescingVisibleIff(t, events, live);
  }

  /** And one hidden delete does: a directory deleted and made again loses its stored file in the raw
      order and keeps it after coalescing. */
  lemma HiddenDeleteStaysStored(d: string, name: string)
    requires name != ""
    ensures var live: Live<int> := map[d := LiveDirectory];
            var events := [FileEvent(d, Delete), FileEvent(d, Upsert)];
            var t := Tree(map[d + "/" + name := 1], Ancestors(d + "/" + name));
            && HidesDelete(live, events)
            && StageLive(t, events, live).Staged? && StageLive(t, events, live).tree.files == map[]
            && StageLive(t, LastWins(events), live) == Staged(t, [])
  {
    var live: Live<int> := map[d := LiveDirectory];
    var remove, make := FileEvent(d, Delete), FileEvent(d, Upsert);
    var events := [remove, make];
    var file := d + "/" + name;
    var t := Tree(map[file := 1], Ancestors(file));
    assert events[0].path == events[1].path && IsLiveDirectory(live, events[0].path);
    assert AtOrBelow(d, file);
    assert Removed(t, d).files == map[];
    assert events[1..] == [make] && [make][1..] == [];
    StageLiveCons(t, events, live);
    StageLiveCons(Removed(t, d), [make], live);
    StageLiveCons(t, [make], live);
    assert [make][0].path == d;
    assert Mentions([make], d);
    assert LastWins(events) == LastWins([make]) == [make];
  }

  // ----- exactly when a list can be staged -----

  /** In a still live tree no file lies below a file. */
  ghost predicate LiveTree<T>(live: Live<T>) {
    forall p, q :: p in live && q in live && live[p].LiveLeaf? ==> !StrictlyBelow(p, q)
  }

  ghost predicate WritesLeaf<T>(e: FileEvent, live: Live<T>) { Writes(live, e, e.path) }

  /** The event removes what is stored at `o`. */
  ghost predicate Clears<T>(live: Live<T>, e: FileEvent, o: string) { Acts(live, e, o) && !WritesLeaf(e, live) }

  /** The event looks up a path below a live file. */
  ghost predicate Strands<T>(live: Live<T>, e: FileEvent) { !e.op.Delete? && BelowLeaf(live, e.path) }

  // The conditions below speak of all events of a list or, when `kept` is set, of those coalescing
  // keeps.

  ghost predicate Counts(events: seq<FileEvent>, kept: bool, k: nat)
    requires k < |events|
  {
    kept ==> IsLast(events, k)
  }

  /** No event from `from` up to `i` acts on `o`. */
  ghost predicate Spared<T>(live: Live<T>, events: seq<FileEvent>, kept: bool, from: nat, i: nat, o: string)
    requires i <= |events|
  {
    forall m :: from <= m < i && Counts(events, kept, m) ==> !Acts(live, events[m], o)
  }

  /** A file stands at `o` when event `i` comes: a stored one that no earlier event acts on, or one
      written by the last earlier event that does. */
  ghost predicate FileStands<T>(t: Tree<T>, events: seq<FileEvent>, live: Live<T>, kept: bool, i: nat, o: string)
    requires i <= |events|
  {
    (o in t.files && Spared(live, events, kept, 0, i, o)) || WrittenStands(live, events, kept, i, o)
  }

  ghost predicate WrittenStands<T>(live: Live<T>, events: seq<FileEvent>, kept: bool, i: nat, o: string)
    requires i <= |events|
  {
    exists k :: 0 <= k < i && Counts(events, kept, k) && Writes(live, events[k], o) && Spared(live, events, kept, k + 1, i, o)
  }

  /** A stored directory stands at `o` when event `i` comes: no earlier event removes it. */
  ghost predicate DirectoryStands<T>(t: Tree<T>, events: seq<FileEvent>, live: Live<T>, kept: bool, i: nat, o: string)
    requires i <= |events|
  {
    o in t.dirs && forall k :: 0 <= k < i && Counts(events, kept, k) ==> !Clears(live, events[k], o)
  }

  ghost predicate BelowStanding<T>(t: Tree<T>, events: seq<FileEvent>, live: Live<T>, kept: bool, i: nat, p: string)
    requires i <= |events|
  {
    exists o :: StrictlyBelow(o, p) && FileStands(t, events, live, kept, i, o)
  }

  /** Event `i` cannot be staged: it looks below a live file, it acts below a file that stands in the
      shadow, or it writes where a directory stands. */
  ghost predicate Stuck<T>(t: Tree<T>, events: seq<FileEvent>, live: Live<T>, kept: bool, i: nat)
    requires i < |events|
  {
    || Strands(live, events[i])
    || (Acts(live, events[i], events[i].path) && BelowStanding(t, events, live, kept, i, events[i].path))
    || (WritesLeaf(events[i], live) && DirectoryStands(t, events, live, kept, i, events[i].path))
  }

  ghost predicate NeverStuck<T>(t: Tree<T>, events: seq<FileEvent>, live: Live<T>, kept: bool) {
    forall i :: 0 <= i < |events| && Counts(events, kept, i) ==> !Stuck(t, events, live, kept, i)
  }

  lemma ReachableIs<T>(t: Tree<T>, p: string)
    ensures Reachable(t, p) <==> forall q :: q in t.files ==> !StrictlyBelow(q, p)
  {
    forall a ensures a in Ancestors(p) <==> StrictlyBelow(a, p) {
      AncestorsAre(p, a);
    }
  }

  /** One event of a still live tree: an error, a write or a removal that must not be blocked, or
      nothing. */
  lemma LiveStep<T>(t: Tree<T>, e: FileEvent, live: Live<T>)
    ensures var step := StageEvent(t, e, LiveWorld(live, e.path));
            if Strands(live, e) then step.StageError?
            else if WritesLeaf(e, live)
            then (step.Staged? <==> CanPut(t, e.path))
              && (step.Staged? ==> step.tree == Put(t, e.path, live[e.path].value))
            else if Acts(live, e, e.path)
            then (step.Staged? <==> Reachable(t, e.path)) && (step.Staged? ==> step.tree == Removed(t, e.path))
            else step.Staged? && step.tree == t
  {
    assert e.path !in Ancestors(e.path) by {
      AncestorsAre(e.path, e.path);
    }
  }

  lemma FirstStuckIff<T>(t: Tree<T>, events: seq<FileEvent>, live: Live<T>)
    requires WellFormed(t) && events != []
    ensures StageEvent(t, events[0], LiveWorld(live, events[0].path)).Staged? <==> !Stuck(t, events, live, false, 0)
  {
    var p := events[0].path;
    LiveStep(t, events[0], live);
    ReachableIs(t, p);
    assert forall o :: FileStands(t, events, live, false, 0, o) <==> o in t.files;
    assert DirectoryStands(t, events, live, false, 0, p) <==> p in t.dirs;
    assert IsDirectoryIn(t, p) <==> p in t.dirs;
    if !Reachable(t, p) {
      var o :| o in t.files && StrictlyBelow(o, p);
      assert FileStands(t, events, live, false, 0, o);
    }
  }

  // ----- one event less -----

  lemma SparedCons<T>(live: Live<T>, events: seq<FileEvent>, from: nat, i: nat, o: string)
    requires events != [] && i < |events|
    ensures Spared(live, events, false, from + 1, i + 1, o) <==> Spared(live, events[1..], false, from, i, o)
  {
    var tail := events[1..];
    assert forall m :: 0 <= m < |tail| ==> tail[m] == events[m + 1];
    if Spared(live, tail, false, from, i, o) {
      forall m | from + 1 <= m < i + 1 ensures !Acts(live, events[m], o) {
        assert tail[m - 1] == events[m];
      }
    }
  }

  lemma SparedFromStart<T>(live: Live<T>, events: seq<FileEvent>, i: nat, o: string)
    requires events != [] && i < |events|
    ensures Spared(live, events, false, 0, i + 1, o) <==> !Acts(live, events[0], o) && Spared(live, events, false, 1, i + 1, o)
  {}

  lemma WrittenStandsCons<T>(live: Live<T>, events: seq<FileEvent>, i: nat, o: string)
    requires events != [] && i < |events|
    ensures WrittenStands(live, events, false, i + 1, o)
       <==> (Writes(live, events[0], o) && Spared(live, events, false, 1, i + 1, o)) || WrittenStands(live, events[1..], false, i, o)
  {
    var tail := events[1..];
    if k :| 0 <= k < i + 1 && Counts(events, false, k) && Writes(live, events[k], o) && Spared(live, events, false, k + 1, i + 1, o) {
      if k > 0 {
        SparedCons(live, events, k, i, o);
        assert Counts(tail, false, k - 1) && Writes(live, tail[k - 1], o);
      }
    }
    if k :| 0 <= k < i && Counts(tail, false, k) && Writes(live, tail[k], o) && Spared(live, tail, false, k + 1, i, o) {
      SparedCons(live, events, k + 1, i, o);
      assert Counts(events, false, k + 1) && Writes(live, events[k + 1], o);
    }
    if Writes(live, events[0], o) && Spared(live, events, false, 1, i + 1, o) {
      assert Counts(events, false, 0) && Spared(live, events, false, 0 + 1, i + 1, o);
    }
  }

  lemma FileStandsCons<T>(t: Tree<T>, events: seq<FileEvent>, live: Live<T>, t': Tree<T>, i: nat, o: string)
    requires events != [] && i < |events|
    requires Shows(t, t', o, Effect(live, events[0], o))
    ensures FileStands(t, events, live, false, i + 1, o) <==> FileStands(t', events[1..], live, false, i, o)
  {
    EffectByKind(live, events[0], o);
    SparedFromStart(live, events, i, o);
    SparedCons(live, events, 0, i, o);
    WrittenStandsCons(live, events, i, o);
  }

  lemma DirectoryStandsCons<T>(t: Tree<T>, events: seq<FileEvent>, live: Live<T>, t': Tree<T>, i: nat, o: string)
    requires events != [] && i < |events|
    requires o in t'.dirs <==> o in t.dirs && !Clears(live, events[0], o)
    ensures DirectoryStands(t, events, live, false, i + 1, o) <==> DirectoryStands(t', events[1..], live, false, i, o)
  {
    var tail := events[1..];
    assert forall k :: 0 <= k < |tail| ==> tail[k] == events[k + 1];
    if DirectoryStands(t', tail, live, false, i, o) {
      forall k | 0 <= k < i + 1 ensures !Clears(live, events[k], o) {
        assert k > 0 ==> events[k] == tail[k - 1];
      }
    }
  }

  /** A step neither makes nor removes a directory where a live file is, except by clearing it. */
  lemma DirectoryAfter<T>(t: Tree<T>, e: FileEvent, live: Live<T>, p: string)
    requires LiveTree(live) && p in live && live[p].LiveLeaf?
    requires StageEvent(t, e, LiveWorld(live, e.path)).Staged?
    ensures p in StageEvent(t, e, LiveWorld(live, e.path)).tree.dirs <==> p in t.dirs && !Clears(live, e, p)
  {
    LiveStep(t, e, live);
    AncestorsAre(e.path, p);
  }

  lemma StuckCons<T>(t: Tree<T>, events: seq<FileEvent>, live: Live<T>, i: nat)
    requires LiveTree(live) && i + 1 < |events|
    requires StageEvent(t, events[0], LiveWorld(live, events[0].path)).Staged?
    ensures Stuck(t, events, live, false, i + 1)
       <==> Stuck(StageEvent(t, events[0], LiveWorld(live, events[0].path)).tree, events[1..], live, false, i)
  {
    var t' := StageEvent(t, events[0], LiveWorld(live, events[0].path)).tree;
    var e, tail := events[i + 1], events[1..];
    assert tail[i] == e;
    forall o ensures FileStands(t, events, live, false, i + 1, o) <==> FileStands(t', tail, live, false, i, o) {
      EventEffect(t, events[0], live, o);
      FileStandsCons(t, events, live, t', i, o);
    }
    if WritesLeaf(e, live) {
      DirectoryAfter(t, events[0], live, e.path);
      DirectoryStandsCons(t, events, live, t', i, e.path);
    }
  }

  lemma NeverStuckCons<T>(t: Tree<T>, events: seq<FileEvent>, live: Live<T>)
    requires LiveTree(live) && events != [] && !Stuck(t, events, live, false, 0)
    requires StageEvent(t, events[0], LiveWorld(live, events[0].path)).Staged?
    ensures NeverStuck(t, events, live, false)
       <==> NeverStuck(StageEvent(t, events[0], LiveWorld(live, events[0].path)).tree, events[1..], live, false)
  {
    var t', tail := StageEvent(t, events[0], LiveWorld(live, events[0].path)).tree, events[1..];
    forall i | 0 <= i < |tail| ensures Stuck(t, events, live, false, i + 1) <==> Stuck(t', tail, live, false, i) {
      StuckCons(t, events, live, i);
    }
    if NeverStuck(t', tail, live, false) {
      forall i | 0 <= i < |events| ensures !Stuck(t, events, live, false, i) {
        assert i > 0 ==> !Stuck(t', tail, live, false, i - 1);
      }
    }
    if NeverStuck(t, events, live, false) {
      forall i | 0 <= i < |tail| ensures !Stuck(t', tail, live, false, i) {
        assert !Stuck(t, events, live, false, i + 1);
      }
    }
  }

  /** A list can be staged exactly when no event looks below a live file, acts below a file that
      stands in the shadow at that moment, or writes where a directory stands. */
  lemma {:induction false} StagesIff<T>(t: Tree<T>, events: seq<FileEvent>, live: Live<T>)
    requires WellFormed(t) && LiveTree(live)
    ensures StageLive(t, events, live).Staged? <==> NeverStuck(t, events, live, false)
    ensures StageLive(t, events, live).Staged? ==> WellFormed(StageLive(t, events, live).tree)
    decreases |events|
  {
    if events != [] {
      StageLiveCons(t, events, live);
      FirstStuckIff(t, events, live);
      var step := StageEvent(t, events[0], LiveWorld(live, events[0].path));
      if step.Staged? {
        StagedWellFormed(t, events[0], LiveWorld(live, events[0].path));
        NeverStuckCons(t, events, live);
        StagesIff(step.tree, events[1..], live);
      }
    }
  }

  // ----- what coalescing keeps, by positions in the raw list -----

  /** `kept` lists the events at the positions `ps`, the last ones of their paths. */
  ghost predicate Picks(events: seq<FileEvent>, ps: seq<nat>, kept: seq<FileEvent>) {
    && AreLastPositions(events, 0, ps) && |kept| == |ps|
    && forall k :: 0 <= k < |ps| ==> ps[k] < |events| && kept[k] == events[ps[k]]
  }

  lemma PositionOf(events: seq<FileEvent>, ps: seq<nat>, kept: seq<FileEvent>, i: nat) returns (n: nat)
    requires Picks(events, ps, kept) && i < |events| && IsLast(events, i)
    ensures n < |ps| && ps[n] == i && kept[n] == events[i]
  {
    assert i in ps;
    n :| 0 <= n < |ps| && ps[n] == i;
  }

  /** `from` stands between the same positions in both lists. */
  ghost predicate Between(ps: seq<nat>, from: nat, from': nat) {
    forall l :: 0 <= l < |ps| ==> (from <= l <==> from' <= ps[l])
  }

  lemma SparedKept<T>(live: Live<T>, events: seq<FileEvent>, ps: seq<nat>, kept: seq<FileEvent>, from: nat, from': nat, m: nat, o: string)
    requires Picks(events, ps, kept) && m < |ps| && Between(ps, from, from')
    ensures Spared(live, kept, false, from, m, o) <==> Spared(live, events, true, from', ps[m], o)
  {
    if Spared(live, kept, false, from, m, o) {
      forall k | from' <= k < ps[m] && Counts(events, true, k) ensures !Acts(live, events[k], o) {
        var n := PositionOf(events, ps, kept, k);
        IncreasingOrder(ps, n, m);
        assert !Acts(live, kept[n], o);
      }
    }
    if Spared(live, events, true, from', ps[m], o) {
      forall n | from <= n < m ensures !Acts(live, kept[n], o) {
        IncreasingOrder(ps, n, m);
        assert ps[n] in ps && Counts(events, true, ps[n]);
      }
    }
  }

  lemma BehindPosition(ps: seq<nat>, n: nat)
    requires Increasing(ps) && n < |ps|
    ensures Between(ps, n + 1, ps[n] + 1)
  {
    forall l | 0 <= l < |ps| ensures n + 1 <= l <==> ps[n] + 1 <= ps[l] {
      IncreasingOrder(ps, n, l);
    }
  }

  lemma FileStandsKept<T>(t: Tree<T>, events: seq<FileEvent>, live: Live<T>, ps: seq<nat>, kept: seq<FileEvent>, m: nat, o: string)
    requires Picks(events, ps, kept) && m < |ps|
    ensures FileStands(t, kept, live, false, m, o) <==> FileStands(t, events, live, true, ps[m], o)
  {
    WrittenStandsKept(live, events, ps, kept, m, o);
    SparedKept(live, events, ps, kept, 0, 0, m, o);
  }

  lemma WrittenStandsKept<T>(live: Live<T>, events: seq<FileEvent>, ps: seq<nat>, kept: seq<FileEvent>, m: nat, o: string)
    requires Picks(events, ps, kept) && m < |ps|
    ensures WrittenStands(live, kept, false, m, o) <==> WrittenStands(live, events, true, ps[m], o)
  {
    if k :| 0 <= k < m && Counts(kept, false, k) && Writes(live, kept[k], o) && Spared(live, kept, false, k + 1, m, o) {
      BehindPosition(ps, k);
      SparedKept(live, events, ps, kept, k + 1, ps[k] + 1, m, o);
      assert ps[k] in ps && Counts(events, true, ps[k]) && Writes(live, events[ps[k]], o);
    }
    if i :| 0 <= i < ps[m] && Counts(events, true, i) && Writes(live, events[i], o) && Spared(live, events, true, i + 1, ps[m], o) {
      var k := PositionOf(events, ps, kept, i);
      IncreasingOrder(ps, k, m);
      BehindPosition(ps, k);
      SparedKept(live, events, ps, kept, k + 1, ps[k] + 1, m, o);
      assert Writes(live, kept[k], o) && Counts(kept, false, k);
    }
  }

  lemma DirectoryStandsKept<T>(t: Tree<T>, events: seq<FileEvent>, live: Live<T>, ps: seq<nat>, kept: seq<FileEvent>, m: nat, o: string)
    requires Picks(events, ps, kept) && m < |ps|
    ensures DirectoryStands(t, kept, live, false, m, o) <==> DirectoryStands(t, events, live, true, ps[m], o)
  {
    if DirectoryStands(t, kept, live, false, m, o) {
      forall i | 0 <= i < ps[m] && Counts(events, true, i) ensures !Clears(live, events[i], o) {
        var n := PositionOf(events, ps, kept, i);
        IncreasingOrder(ps, n, m);
        assert !Clears(live, kept[n], o);
      }
    }
    if DirectoryStands(t, events, live, true, ps[m], o) {
      forall n | 0 <= n < m ensures !Clears(live, kept[n], o) {
        IncreasingOrder(ps, n, m);
        assert ps[n] in ps && Counts(events, true, ps[n]);
      }
    }
  }

  lemma StuckKept<T>(t: Tree<T>, events: seq<FileEvent>, live: Live<T>, ps: seq<nat>, kept: seq<FileEvent>, m: nat)
    requires Picks(events, ps, kept) && m < |ps|
    ensures Stuck(t, kept, live, false, m) <==> Stuck(t, events, live, true, ps[m])
  {
    var p := kept[m].path;
    forall o ensures FileStands(t, kept, live, false, m, o) <==> FileStands(t, events, live, true, ps[m], o) {
      FileStandsKept(t, events, live, ps, kept, m, o);
    }
    DirectoryStandsKept(t, events, live, ps, kept, m, p);
  }

  /** A coalesced batch can be staged exactly when none of the events it keeps gets stuck, a dropped
      delete clearing nothing and a dropped write making nothing. */
  lemma CoalescedStagesIff<T>(t: Tree<T>, events: seq<FileEvent>, live: Live<T>)
    requires WellFormed(t) && LiveTree(live)
    ensures StageLive(t, LastWins(events), live).Staged? <==> NeverStuck(t, events, live, true)
  {
    var kept := LastWins(events);
    var ps := LastWinsKeepsLastEvents(events);
    StagesIff(t, kept, live);
    forall m | 0 <= m < |ps| ensures Stuck(t, kept, live, false, m) <==> Stuck(t, events, live, true, ps[m]) {
      StuckKept(t, events, live, ps, kept, m);
    }
    if NeverStuck(t, kept, live, false) {
      forall i | 0 <= i < |events| && Counts(events, true, i) ensures !Stuck(t, events, live, true, i) {
        var m := PositionOf(events, ps, kept, i);
        assert !Stuck(t, kept, live, false, m);
      }
    }
    if NeverStuck(t, events, live, true) {
      forall m | 0 <= m < |kept| ensures !Stuck(t, kept, live, false, m) {
        assert ps[m] in ps && Counts(events, true, ps[m]);
      }
    }
  }

  // ----- inputs on which coalescing makes a batch fail -----

  /** Where a delete left an empty directory behind, a file of that name can be staged by the raw
      events and not by the coalesced batch. */
  lemma EmptyDirectoryBlocks(d: string)
    ensures var live: Live<int> := map[d := LiveLeaf(1)];
            var events := [FileEvent(d, Delete), FileEvent(d, Upsert)];
            var t: Tree<int> := Tree(map[], Ancestors(d) + {d});
            && StageLive(t, events, live).Staged? && StageLive(t, events, live).tree.files == map[d := 1]
            && StageLive(t, LastWins(events), live).StageError?
  {
    var live: Live<int> := map[d := LiveLeaf(1)];
    var remove, make := FileEvent(d, Delete), FileEvent(d, Upsert);
    var events := [remove, make];
    var t: Tree<int> := Tree(map[], Ancestors(d) + {d});
    assert events[1..] == [make] && [make][1..] == [] && [make][0] == make;
    AncestorsAre(d, d);
    StageLiveCons(t, events, live);
    StageLiveCons(Removed(t, d), [make], live);
    StageLiveCons(t, [make], live);
    LiveStep(t, remove, live);
    LiveStep(t, make, live);
    LiveStep(Removed(t, d), make, live);
    assert Mentions([make], d);
    assert LastWins(events) == LastWins([make]) == [make];
  }

  /** A file is deleted, something below it is deleted, and the file is made again: coalescing drops
      the first delete, and the second then looks below the stored file. */
  lemma StoredFileBlocks(a: string, name: string)
    ensures var live: Live<int> := map[a := LiveLeaf(1)];
            var below := a + "/" + name;
            var events := [FileEvent(a, Delete), FileEvent(below, Delete), FileEvent(a, Upsert)];
            var t: Tree<int> := Tree(map[a := 0], Ancestors(a));
            && StageLive(t, events, live).Staged? && StageLive(t, events, live).tree.files == map[a := 1]
            && StageLive(t, LastWins(events), live).StageError?
  {
    var live: Live<int> := map[a := LiveLeaf(1)];
    var below := a + "/" + name;
    var drop, prune, make := FileEvent(a, Delete), FileEvent(below, Delete), FileEvent(a, Upsert);
    var t: Tree<int> := Tree(map[a := 0], Ancestors(a));
    var t1 := Removed(t, a);
    assert t1.files == map[];
    assert StrictlyBelow(a, below) && below != a;
    AncestorsAre(below, a);
    AncestorsAre(a, a);
    ThreeStages(t, drop, prune, make, live);
    LiveStep(t, drop, live);
    LiveStep(t1, prune, live);
    LiveStep(Removed(t1, below), make, live);
    LastOfThree(drop, prune, make);
    StageLiveCons(t, [prune, make], live);
    LiveStep(t, prune, live);
  }

  lemma ThreeStages<T>(t: Tree<T>, e: FileEvent, f: FileEvent, g: FileEvent, live: Live<T>)
    ensures var s1 := StageEvent(t, e, LiveWorld(live, e.path));
            s1.Staged? ==>
              var s2 := StageEvent(s1.tree, f, LiveWorld(live, f.path));
              s2.Staged? ==>
                var s3 := StageEvent(s2.tree, g, LiveWorld(live, g.path));
                s3.Staged? ==> StageLive(t, [e, f, g], live).Staged? && StageLive(t, [e, f, g], live).tree == s3.tree
  {
    var s1 := StageEvent(t, e, LiveWorld(live, e.path));
    assert [e, f, g][1..] == [f, g] && [f, g][1..] == [g] && [g][1..] == [];
    StageLiveCons(t, [e, f, g], live);
    if s1.Staged? {
      StageLiveCons(s1.tree, [f, g], live);
      var s2 := StageEvent(s1.tree, f, LiveWorld(live, f.path));
      if s2.Staged? {
        StageLiveCons(s2.tree, [g], live);
      }
    }
  }

  lemma LastOfThree(e: FileEvent, f: FileEvent, g: FileEvent)
    requires e.path == g.path && f.path != g.path
    ensures LastWins([e, f, g]) == [f, g]
  {
    assert [e, f, g][1..] == [f, g] && [f, g][1..] == [g] && [g][1..] == [];
    assert [f, g][1].path == e.path;
    assert Mentions([f, g], e.path);
    assert LastWins([g]) == [g];
  }

  /** A directory moved away and a file made in its place within one batch: the old contents are
      looked up below the new file, and the batch fails, coalesced or not. */
  lemma LiveFileStrands(a: string, name: string, t: Tree<int>)
    ensures var live: Live<int> := map[a := LiveLeaf(1)];
            var events := [FileEvent(a + "/" + name, Upsert), FileEvent(a, Upsert)];
            StageLive(t, events, live).StageError? && LastWins(events) == events
  {
    var live: Live<int> := map[a := LiveLeaf(1)];
    var below := a + "/" + name;
    var events := [FileEvent(below, Upsert), FileEvent(a, Upsert)];
    assert StrictlyBelow(a, below) && below != a;
    AncestorsAre(below, a);
    assert BelowLeaf(live, below);
    LiveStep(t, events[0], live);
    StageLiveCons(t, events, live);
    LastWinsKeepsDistinct(events);
  }

  // ----- when the coalesced batch also succeeds -----

  /** No event path is a directory, live or in the shadow, or lies above another event path. */
  ghost predicate Independent<T>(t: Tree<T>, events: seq<FileEvent>, live: Live<T>) {
    && (forall e :: e in events ==> !IsLiveDirectory(live, e.path))
    && (forall e, f :: e in events && f in events ==> !StrictlyBelow(e.path, f.path))
    && (forall e :: e in events ==> !IsDirectoryIn(t, e.path))
  }

  /** No stored file lies above a path of the batch, and no live file above one it looks up. */
  ghost predicate Unblocked<T>(t: Tree<T>, events: seq<FileEvent>, live: Live<T>) {
    && (forall e :: e in events ==> !Strands(live, e))
    && (forall e, q :: e in events && q in t.files ==> !StrictlyBelow(q, e.path))
  }

  lemma StepFacts<T>(t: Tree<T>, events: seq<FileEvent>, live: Live<T>)
    requires events != [] && Independent(t, events, live)
    requires StageEvent(t, events[0], LiveWorld(live, events[0].path)).Staged?
    ensures var t' := StageEvent(t, events[0], LiveWorld(live, events[0].path)).tree;
            && Independent(t', events[1..], live)
            && (forall q :: q in t'.files ==> q in t.files || q == events[0].path)
            && (forall q :: q in t.files ==> q in t'.files || AtOrBelow(events[0].path, q))
  {
    var first := events[0];
    var t' := StageEvent(t, first, LiveWorld(live, first.path)).tree;
    assert first in events;
    LiveStep(t, first, live);
    forall e | e in events[1..] ensures !IsDirectoryIn(t', e.path) {
      assert e in events;
      AncestorsAre(first.path, e.path);
    }
  }

  lemma {:induction false} UnblockedSucceeds<T>(t: Tree<T>, events: seq<FileEvent>, live: Live<T>)
    requires Independent(t, events, live) && Unblocked(t, events, live)
    ensures StageLive(t, events, live).Staged?
    decreases |events|
  {
    if events != [] {
      StageLiveCons(t, events, live);
      assert events[0] in events;
      LiveStep(t, events[0], live);
      ReachableIs(t, events[0].path);
      StepFacts(t, events, live);
      UnblockedSucceeds(StageEvent(t, events[0], LiveWorld(live, events[0].path)).tree, events[1..], live);
    }
  }

  lemma {:induction false} SuccessWasUnblocked<T>(t: Tree<T>, events: seq<FileEvent>, live: Live<T>)
    requires Independent(t, events, live) && StageLive(t, events, live).Staged?
    ensures Unblocked(t, events, live)
    decreases |events|
  {
    if events != [] {
      StageLiveCons(t, events, live);
      var first := events[0];
      var step := StageEvent(t, first, LiveWorld(live, first.path));
      assert first in events;
      LiveStep(t, first, live);
      ReachableIs(t, first.path);
      StepFacts(t, events, live);
      SuccessWasUnblocked(step.tree, events[1..], live);
      forall e, q | e in events && q in t.files ensures !StrictlyBelow(q, e.path) {
        if AtOrBelow(first.path, q) && StrictlyBelow(q, e.path) {
          AtOrBelowTransitive(first.path, q, e.path);
        }
      }
    }
  }

  /** The directories that independent events leave: those that were there, and those above what is
      written. */
  lemma {:induction false} DirectoriesAfter<T>(t: Tree<T>, events: seq<FileEvent>, live: Live<T>, d: string)
    requires WellFormed(t) && Independent(t, events, live) && StageLive(t, events, live).Staged?
    ensures d in StageLive(t, events, live).tree.dirs
       <==> d in t.dirs || exists e :: e in events && WritesLeaf(e, live) && StrictlyBelow(d, e.path)
    decreases |events|
  {
    if events != [] {
      StageLiveCons(t, events, live);
      var first := events[0];
      var t' := StageEvent(t, first, LiveWorld(live, first.path)).tree;
      StagedWellFormed(t, first, LiveWorld(live, first.path));
      StepFacts(t, events, live);
      DirectoriesAfter(t', events[1..], live, d);
      DirectoryStep(t, first, live, d);
      assert forall e :: e in events <==> e == first || e in events[1..];
    }
  }

  lemma DirectoryStep<T>(t: Tree<T>, e: FileEvent, live: Live<T>, d: string)
    requires WellFormed(t) && !IsLiveDirectory(live, e.path) && !IsDirectoryIn(t, e.path)
    requires StageEvent(t, e, LiveWorld(live, e.path)).Staged?
    ensures d in StageEvent(t, e, LiveWorld(live, e.path)).tree.dirs
       <==> d in t.dirs || (WritesLeaf(e, live) && StrictlyBelow(d, e.path))
  {
    LiveStep(t, e, live);
    AncestorsAre(e.path, d);
  }

  /** For independent events, coalescing is invisible: whenever the raw events can be staged, the
      coalesced batch can, and leaves the same files. It can only leave fewer directories, since a
      dropped write makes none. */
  lemma CoalescingRefinesStaging<T>(t: Tree<T>, events: seq<FileEvent>, live: Live<T>)
    requires Independent(t, events, live) && StageLive(t, events, live).Staged?
    ensures StageLive(t, LastWins(events), live).Staged?
    ensures StageLive(t, LastWins(events), live).tree.files == StageLive(t, events, live).tree.files
    ensures WellFormed(t) ==> StageLive(t, LastWins(events), live).tree.dirs <= StageLive(t, events, live).tree.dirs
  {
    LastWinsDistinct(events);
    SuccessWasUnblocked(t, events, live);
    UnblockedSucceeds(t, LastWins(events), live);
    CoalescedStagesAlike(t, events, live);
    if WellFormed(t) {
      forall d | d in StageLive(t, LastWins(events), live).tree.dirs ensures d in StageLive(t, events, live).tree.dirs {
        DirectoriesAfter(t, LastWins(events), live, d);
        DirectoriesAfter(t, events, live, d);
      }
    }
  }
}
