/** The rescan branch of the watch: two snapshots are compared and the difference is replayed. */
module Rescan {
  import opened Strings
  import opened Paths
  import opened Filter
  import opened Coalesce
  import opened Shadow
  import opened Staging

  datatype FileState = FileState(size: int, mode: nat, modTime: int, link: string)

  /** The value Go reads from a map at a missing key. */
  const ZERO := FileState(0, 0, 0, "")

  type Snapshot = map<string, FileState>

  function Lookup(s: Snapshot, p: string): FileState { if p in s then s[p] else ZERO }

  predicate Changed(previous: Snapshot, current: Snapshot, p: string) {
    p in current && Lookup(previous, p) != current[p]
  }

  predicate Vanished(previous: Snapshot, current: Snapshot, p: string) {
    p in previous && p !in current
  }

  /** The sorted list of changed and vanished paths, with their operations. */
  ghost predicate IsDiff(previous: Snapshot, current: Snapshot, events: seq<FileEvent>) {
    && SortedEvents(events)
    && (forall p :: Mentions(events, p) <==> Changed(previous, current, p) || Vanished(previous, current, p))
    && (forall i :: 0 <= i < |events| ==> events[i].op == if events[i].path in current then Upsert else Delete)
  }

  ghost predicate SortedEvents(events: seq<FileEvent>) {
    forall i, j :: 0 <= i < j < |events| ==> Less(events[i].path, events[j].path)
  }

  // ----- the source's loops -----

  /** sort.Strings on distinct strings. */
  method SortStrings(paths: seq<string>) returns (sorted: seq<string>)
    requires Distinct(paths)
    ensures StrictlySorted(sorted) && forall p :: p in sorted <==> p in paths
  {
    sorted := [];
    for n := 0 to |paths|
      invariant StrictlySorted(sorted)
      invariant forall p :: p in sorted <==> p in paths[..n]
    {
      assert paths[n] !in paths[..n];
      sorted := InsertSorted(sorted, paths[n]);
      assert paths[..n + 1] == paths[..n] + [paths[n]];
    }
  }

  method InsertSorted(sorted: seq<string>, p: string) returns (r: seq<string>)
    requires StrictlySorted(sorted) && p !in sorted
    ensures StrictlySorted(r) && forall q :: q in r <==> q in sorted || q == p
  {
    var k := 0;
    while k < |sorted| && Less(sorted[k], p)
      invariant k <= |sorted| && forall i :: 0 <= i < k ==> Less(sorted[i], p)
    {
      k := k + 1;
    }
    forall j | k <= j < |sorted| ensures Less(p, sorted[j]) {
      LessTotal(sorted[k], p);
      if k < j {
        LessTransitive(p, sorted[k], sorted[j]);
      }
    }
    r := sorted[..k] + [p] + sorted[k..];
  }

  ghost predicate Distinct(paths: seq<string>) {
    forall i, j :: 0 <= i < j < |paths| ==> paths[i] != paths[j]
  }

  /** The first loop: the changed paths. */
  method ChangedPaths(previous: Snapshot, current: Snapshot) returns (paths: seq<string>)
    ensures Distinct(paths) && forall p :: p in paths <==> Changed(previous, current, p)
  {
    paths := [];
    var rest := current.Keys;
    while rest != {}
      invariant rest <= current.Keys && Distinct(paths)
      invariant forall p :: p in paths <==> p !in rest && Changed(previous, current, p)
      decreases |rest|
    {
      var p :| p in rest;
      rest := rest - {p};
      if Lookup(previous, p) != current[p] {
        paths := paths + [p];
      }
    }
  }

  /** The second loop: the vanished paths, behind the changed ones. */
  method AddVanished(previous: Snapshot, current: Snapshot, changed: seq<string>) returns (paths: seq<string>)
    requires Distinct(changed) && forall p :: p in changed <==> Changed(previous, current, p)
    ensures Distinct(paths)
    ensures forall p :: p in paths <==> Changed(previous, current, p) || Vanished(previous, current, p)
  {
    paths := changed;
    var rest := previous.Keys;
    while rest != {}
      invariant rest <= previous.Keys && Distinct(paths)
      invariant forall p :: p in paths <==> Changed(previous, current, p) || (p !in rest && Vanished(previous, current, p))
      decreases |rest|
    {
      var p :| p in rest;
      rest := rest - {p};
      if p !in current {
        paths := paths + [p];
      }
    }
  }

  /** The last loop: an operation for each path. */
  method WithOperations(sorted: seq<string>, current: Snapshot) returns (events: seq<FileEvent>)
    ensures |events| == |sorted|
    ensures forall k :: 0 <= k < |sorted| ==>
              events[k] == FileEvent(sorted[k], if sorted[k] in current then Upsert else Delete)
  {
    events := [];
    for i := 0 to |sorted|
      invariant |events| == i
      invariant forall k :: 0 <= k < i ==>
                  events[k] == FileEvent(sorted[k], if sorted[k] in current then Upsert else Delete)
    {
      var op := if sorted[i] in current then Upsert else Delete;
      events := events + [FileEvent(sorted[i], op)];
    }
  }

  method DiffWatchedSnapshots(previous: Snapshot, current: Snapshot) returns (events: seq<FileEvent>)
    ensures IsDiff(previous, current, events)
  {
    var paths := ChangedPaths(previous, current);
    paths := AddVanished(previous, current, paths);
    var sorted := SortStrings(paths);
    events := WithOperations(sorted, current);
    forall p ensures Mentions(events, p) <==> p in sorted {
      if p in sorted {
        var i :| 0 <= i < |sorted| && sorted[i] == p;
        assert events[i].path == p;
      }
    }
  }

  // ----- one difference list -----

  lemma {:induction false} SortedUnique(a: seq<string>, b: seq<string>)
    requires StrictlySorted(a) && StrictlySorted(b) && forall p :: p in a <==> p in b
    ensures a == b
  {
    assert a != [] ==> a[0] in a;
    assert b != [] ==> b[0] in b;
    if a != [] && b != [] {
      assert a[0] in b && b[0] in a;
      LessTotal(a[0], b[0]);
      assert a[0] == b[0];
      forall p ensures p in a[1..] <==> p in b[1..] {
        SortedTail(a, p);
        SortedTail(b, p);
      }
      SortedUnique(a[1..], b[1..]);
      assert a == [a[0]] + a[1..] && b == [b[0]] + b[1..];
    }
  }

  lemma SortedTail(a: seq<string>, p: string)
    requires a != [] && StrictlySorted(a)
    ensures p in a[1..] <==> p in a && p != a[0]
  {
    LessTotal(a[0], p);
    if p in a[1..] {
      var i :| 0 <= i < |a[1..]| && a[1..][i] == p;
      assert a[i + 1] == p;
    }
  }

  /** The events do not depend on the order in which the maps are walked. */
  lemma DiffIsUnique(previous: Snapshot, current: Snapshot, e1: seq<FileEvent>, e2: seq<FileEvent>)
    requires IsDiff(previous, current, e1) && IsDiff(previous, current, e2)
    ensures e1 == e2
  {
    var a := seq(|e1|, i requires 0 <= i < |e1| => e1[i].path);
    var b := seq(|e2|, i requires 0 <= i < |e2| => e2[i].path);
    forall p ensures (p in a <==> Mentions(e1, p)) && (p in b <==> Mentions(e2, p)) {
      if Mentions(e1, p) {
        var i :| 0 <= i < |e1| && e1[i].path == p;
        assert a[i] == p;
      }
      if Mentions(e2, p) {
        var i :| 0 <= i < |e2| && e2[i].path == p;
        assert b[i] == p;
      }
    }
    SortedUnique(a, b);
    forall i | 0 <= i < |e1| ensures e1[i] == e2[i] {
      assert a[i] == b[i];
    }
  }

  // ----- replaying a difference -----

  function ReplayEvents(t: Snapshot, events: seq<FileEvent>, current: Snapshot): Snapshot
    decreases |events|
  {
    if events == [] then t
    else
      var e := events[0];
      var t' := if e.op.Delete? then Without(t, e.path) else t[e.path := Lookup(current, e.path)];
      ReplayEvents(t', events[1..], current)
  }

  ghost predicate DeletedAbove(events: seq<FileEvent>, x: string) {
    exists i :: 0 <= i < |events| && events[i].op.Delete? && StrictlyBelow(events[i].path, x)
  }

  lemma DeletedAboveCons(events: seq<FileEvent>, x: string)
    requires events != []
    ensures DeletedAbove(events, x)
       <==> (events[0].op.Delete? && StrictlyBelow(events[0].path, x)) || DeletedAbove(events[1..], x)
  {
    var tail := events[1..];
    assert forall i :: 0 <= i < |tail| ==> tail[i] == events[i + 1];
    assert forall i :: 0 < i < |events| ==> events[i] == tail[i - 1];
  }

  lemma MentionsHead(events: seq<FileEvent>, p: string)
    requires events != []
    ensures Mentions(events, p) <==> events[0].path == p || Mentions(events[1..], p)
  {
    assert events == [events[0]] + events[1..];
    MentionsCons(events[0], events[1..], p);
  }

  /** A path sorts after all its ancestors, so the events behind its own event leave it alone. */
  lemma {:induction false} LaterLeaves(t: Snapshot, events: seq<FileEvent>, current: Snapshot, x: string)
    requires forall i :: 0 <= i < |events| ==> Less(x, events[i].path)
    ensures Same(t, ReplayEvents(t, events, current), x)
    decreases |events|
  {
    if events != [] {
      var e := events[0];
      LessTotal(x, e.path);
      if StrictlyBelow(e.path, x) {
        AncestorSortsFirst(e.path, x);
      }
      var t' := if e.op.Delete? then Without(t, e.path) else t[e.path := Lookup(current, e.path)];
      LaterLeaves(t', events[1..], current, x);
    }
  }

  /** What replaying sorted events leaves at `x`: the path's own event wins, else a delete above it
      removes it, else it stays. */
  lemma {:induction false} ReplayValue(t: Snapshot, events: seq<FileEvent>, current: Snapshot, x: string)
    requires SortedEvents(events)
    requires forall i :: 0 <= i < |events| ==> events[i].op == if events[i].path in current then Upsert else Delete
    ensures var t' := ReplayEvents(t, events, current);
            if Mentions(events, x) then Same(t', current, x)
            else if DeletedAbove(events, x) then x !in t'
            else Same(t, t', x)
    decreases |events|
  {
    if events != [] {
      var e := events[0];
      var t1 := if e.op.Delete? then Without(t, e.path) else t[e.path := Lookup(current, e.path)];
      MentionsHead(events, x);
      DeletedAboveCons(events, x);
      if e.path == x {
        assert forall i :: 0 <= i < |events[1..]| ==> events[1..][i] == events[i + 1];
        LaterLeaves(t1, events[1..], current, x);
      } else {
        ReplayValue(t1, events[1..], current, x);
      }
    }
  }

  /** No file lies below a file. */
  ghost predicate PrefixFree(s: Snapshot) {
    forall p, q :: p in s && q in s ==> !StrictlyBelow(p, q)
  }

  /** A file that appears with an all-zero state compares equal to a missing one. */
  ghost predicate Invisible(previous: Snapshot, current: Snapshot, p: string) {
    p in current && p !in previous && current[p] == ZERO
  }

  lemma DiffValue(previous: Snapshot, current: Snapshot, events: seq<FileEvent>, x: string)
    requires IsDiff(previous, current, events) && PrefixFree(previous)
    ensures var t := ReplayEvents(previous, events, current);
            if Invisible(previous, current, x) then x !in t else Same(t, current, x)
  {
    ReplayValue(previous, events, current, x);
    if DeletedAbove(events, x) {
      var i :| 0 <= i < |events| && events[i].op.Delete? && StrictlyBelow(events[i].path, x);
      assert Mentions(events, events[i].path);
      assert x !in previous;
    }
  }

  /** Replaying the difference of two snapshots turns the first into the second, exactly when no
      new file is invisible. */
  lemma RescanReplaysIff(previous: Snapshot, current: Snapshot, events: seq<FileEvent>)
    requires IsDiff(previous, current, events) && PrefixFree(previous)
    ensures ReplayEvents(previous, events, current) == current <==> forall p :: !Invisible(previous, current, p)
  {
    var t := ReplayEvents(previous, events, current);
    forall x ensures if Invisible(previous, current, x) then x !in t else Same(t, current, x) {
      DiffValue(previous, current, events, x);
    }
    if forall p :: !Invisible(previous, current, p) {
      assert forall x :: x in t ==> Same(t, current, x);
      assert forall x :: x in current ==> Same(t, current, x);
    }
  }

  // ----- ticks of the watch -----

  /** The rescan part of the watch: the snapshot it keeps. */
  class RescanLoop {
    var snapshot: Snapshot

    constructor (first: Snapshot)
      ensures snapshot == first
    {
      snapshot := first;
    }

    /** One tick. `delivered` is whether the sink took the batch; a refusal ends the watch with the
        old snapshot. */
    method Tick(current: Snapshot, delivered: bool) returns (running: bool, batch: seq<FileEvent>)
      modifies this
      ensures IsDiff(old(snapshot), current, batch)
      ensures running == (batch == [] || delivered)
      ensures snapshot == if running then current else old(snapshot)
    {
      batch := DiffWatchedSnapshots(snapshot, current);
      running := batch == [] || delivered;
      if running {
        snapshot := current;
      }
    }
  }

  function ReplayTicks(t: Snapshot, batches: seq<seq<FileEvent>>, snapshots: seq<Snapshot>): Snapshot
    requires |batches| == |snapshots|
    decreases |batches|
  {
    if batches == [] then t
    else ReplayTicks(ReplayEvents(t, batches[0], snapshots[0]), batches[1..], snapshots[1..])
  }

  function Preceding(first: Snapshot, snapshots: seq<Snapshot>, i: nat): Snapshot
    requires i <= |snapshots|
  {
    if i == 0 then first else snapshots[i - 1]
  }

  ghost predicate VisibleDiff(previous: Snapshot, current: Snapshot, events: seq<FileEvent>) {
    IsDiff(previous, current, events) && forall p :: !Invisible(previous, current, p)
  }

  /** The batches of all ticks telescope: replayed in order they rebuild the latest snapshot. */
  lemma {:induction false} TicksTelescope(first: Snapshot, batches: seq<seq<FileEvent>>, snapshots: seq<Snapshot>)
    requires |batches| == |snapshots|
    requires PrefixFree(first) && forall i :: 0 <= i < |snapshots| ==> PrefixFree(snapshots[i])
    requires forall i :: 0 <= i < |snapshots| ==> VisibleDiff(Preceding(first, snapshots, i), snapshots[i], batches[i])
    ensures ReplayTicks(first, batches, snapshots) == Preceding(first, snapshots, |snapshots|)
    decreases |batches|
  {
    if batches != [] {
      assert VisibleDiff(Preceding(first, snapshots, 0), snapshots[0], batches[0]);
      RescanReplaysIff(first, snapshots[0], batches[0]);
      forall i | 0 <= i < |snapshots[1..]|
        ensures VisibleDiff(Preceding(snapshots[0], snapshots[1..], i), snapshots[1..][i], batches[1..][i])
      {
        assert VisibleDiff(Preceding(first, snapshots, i + 1), snapshots[i + 1], batches[i + 1]);
      }
      TicksTelescope(snapshots[0], batches[1..], snapshots[1..]);
    }
  }

  // ----- staging a difference -----

  function LiveFiles(s: Snapshot): Live<FileState> { map p | p in s :: LiveLeaf(s[p]) }

  lemma {:induction false} StagedIsReplayed(t: Tree<FileState>, events: seq<FileEvent>, current: Snapshot)
    requires forall i :: 0 <= i < |events| ==> events[i].op == if events[i].path in current then Upsert else Delete
    requires StageLive(t, events, LiveFiles(current)).Staged?
    ensures StageLive(t, events, LiveFiles(current)).tree.files == ReplayEvents(t.files, events, current)
    decreases |events|
  {
    if events != [] {
      var live := LiveFiles(current);
      StageLiveCons(t, events, live);
      LiveStep(t, events[0], live);
      StagedIsReplayed(StageEvent(t, events[0], LiveWorld(live, events[0].path)).tree, events[1..], current);
    }
  }

  /** A changed file stands where the shadow has a directory, be it an empty one. */
  ghost predicate MeetsDirectory(shadow: Tree<FileState>, current: Snapshot) {
    exists p :: Changed(shadow.files, current, p) && p in shadow.dirs
  }

  /** No event of the difference removes a directory of the shadow. */
  lemma DirectoryStays(shadow: Tree<FileState>, current: Snapshot, events: seq<FileEvent>, i: nat, p: string)
    requires IsDiff(shadow.files, current, events) && WellFormed(shadow) && p in shadow.dirs && i <= |events|
    ensures DirectoryStands(shadow, events, LiveFiles(current), false, i, p)
  {
    forall k | 0 <= k < i ensures !Clears(LiveFiles(current), events[k], p) {
      assert Mentions(events, events[k].path);
    }
  }

  /** A stored file above a changed one has vanished, and its delete comes first. */
  lemma FileAboveGoes(shadow: Tree<FileState>, current: Snapshot, events: seq<FileEvent>, i: nat, q: string)
    requires IsDiff(shadow.files, current, events) && PrefixFree(current)
    requires i < |events| && events[i].path in current && q in shadow.files && StrictlyBelow(q, events[i].path)
    ensures !Spared(LiveFiles(current), events, false, 0, i, q)
  {
    assert Vanished(shadow.files, current, q);
    assert Mentions(events, q);
    var k :| 0 <= k < |events| && events[k].path == q;
    AncestorSortsFirst(q, events[i].path);
    LessTotal(q, events[i].path);
    assert Acts(LiveFiles(current), events[k], q);
  }

  /** No event of the difference acts below a file that stands, unless a changed file meets a
      directory. */
  lemma NothingStandsAbove(shadow: Tree<FileState>, current: Snapshot, events: seq<FileEvent>, i: nat, o: string)
    requires IsDiff(shadow.files, current, events) && WellFormed(shadow) && PrefixFree(current)
    requires !MeetsDirectory(shadow, current) && i < |events| && StrictlyBelow(o, events[i].path)
    ensures !FileStands(shadow, events, LiveFiles(current), false, i, o)
  {
    var live, p := LiveFiles(current), events[i].path;
    assert Mentions(events, p);
    if p in current && o in shadow.files {
      FileAboveGoes(shadow, current, events, i, o);
    }
    forall k | 0 <= k < i ensures !Writes(live, events[k], o) {
      assert Mentions(events, events[k].path);
    }
  }

  lemma DiffStagesIff(shadow: Tree<FileState>, current: Snapshot, events: seq<FileEvent>)
    requires IsDiff(shadow.files, current, events) && WellFormed(shadow) && PrefixFree(current)
    ensures StageLive(shadow, events, LiveFiles(current)).Staged? <==> !MeetsDirectory(shadow, current)
    ensures StageLive(shadow, events, LiveFiles(current)).Staged? ==>
              WellFormed(StageLive(shadow, events, LiveFiles(current)).tree)
  {
    var live := LiveFiles(current);
    StagesIff(shadow, events, live);
    if MeetsDirectory(shadow, current) {
      var p :| Changed(shadow.files, current, p) && p in shadow.dirs;
      assert Mentions(events, p);
      var i :| 0 <= i < |events| && events[i].path == p;
      DirectoryStays(shadow, current, events, i, p);
      assert WritesLeaf(events[i], live) && Counts(events, false, i);
      assert Stuck(shadow, events, live, false, i);
    } else {
      forall i | 0 <= i < |events| ensures !Stuck(shadow, events, live, false, i) {
        DiffNotStuck(shadow, current, events, i);
      }
    }
  }

  lemma DiffNotStuck(shadow: Tree<FileState>, current: Snapshot, events: seq<FileEvent>, i: nat)
    requires IsDiff(shadow.files, current, events) && WellFormed(shadow) && PrefixFree(current)
    requires !MeetsDirectory(shadow, current) && i < |events|
    ensures !Stuck(shadow, events, LiveFiles(current), false, i)
  {
    assert Mentions(events, events[i].path);
    forall o | StrictlyBelow(o, events[i].path) ensures !FileStands(shadow, events, LiveFiles(current), false, i, o) {
      NothingStandsAbove(shadow, current, events, i, o);
    }
  }

  /** What a walk takes: a plain path the filter accepts. */
  ghost predicate Acceptable(p: string, filter: PathFilter) { Plain(p) && ShouldReplicate(filter, p) }

  ghost predicate Accepted(s: Snapshot, filter: PathFilter) {
    forall p :: p in s ==> Acceptable(p, filter)
  }

  lemma DiffIsKept(previous: Snapshot, current: Snapshot, events: seq<FileEvent>, filter: PathFilter)
    requires IsDiff(previous, current, events) && Accepted(previous, filter) && Accepted(current, filter)
    ensures Coalesced(events, filter) == events && PlainEvents(events)
  {
    forall i, j | 0 <= i < j < |events| ensures events[i].path != events[j].path {
      LessTotal(events[i].path, events[j].path);
    }
    forall e | e in events ensures Plain(e.path) && ShouldReplicate(filter, e.path) {
      assert Mentions(events, e.path);
      assert Acceptable(e.path, filter);
    }
    DistinctKeptIff(events, filter);
  }

  /** The source coalesces a rescan batch and stages it onto the previous snapshot. That succeeds
      exactly when no changed file stands where the shadow has a directory, and then leaves what
      replaying the difference leaves. */
  lemma RescanStagesIff(shadow: Tree<FileState>, current: Snapshot, events: seq<FileEvent>, filter: PathFilter)
    requires IsDiff(shadow.files, current, events) && WellFormed(shadow) && PrefixFree(current)
    requires Accepted(shadow.files, filter) && Accepted(current, filter)
    ensures var staged := StageLive(shadow, Coalesced(events, filter), LiveFiles(current));
            && (staged.Staged? <==> !MeetsDirectory(shadow, current))
            && (staged.Staged? ==> staged.tree.files == ReplayEvents(shadow.files, events, current))
            && (staged.Staged? ==> WellFormed(staged.tree))
  {
    DiffIsKept(shadow.files, current, events, filter);
    DiffStagesIff(shadow, current, events);
    if StageLive(shadow, events, LiveFiles(current)).Staged? {
      StagedIsReplayed(shadow, events, current);
    }
  }

  /** A deleted file leaves its directory behind in the shadow, so a file of that name cannot follow. */
  lemma LeftDirectoryBlocks(d: string, name: string, state: FileState, filter: PathFilter)
    requires Plain(d) && name != "" && state != ZERO && ShouldReplicate(filter, d)
    ensures var shadow := Removed(Put(Tree(map[], {}), d + "/" + name, state), d + "/" + name);
            var events := [FileEvent(d, Upsert)];
            && shadow.files == map[] && WellFormed(shadow)
            && IsDiff(shadow.files, map[d := state], events)
            && StageLive(shadow, Coalesced(events, filter), LiveFiles(map[d := state])).StageError?
  {
    var file := d + "/" + name;
    var empty: Tree<FileState> := Tree(map[], {});
    var shadow := Removed(Put(empty, file, state), file);
    var current, events := map[d := state], [FileEvent(d, Upsert)];
    PutWellFormed(empty, file, state);
    RemovedWellFormed(Put(empty, file, state), file);
    AncestorsAre(file, d);
    assert !AtOrBelow(file, d);
    assert shadow.files == map[];
    assert d in shadow.dirs;
    assert events[0].path == d;
    assert Changed(shadow.files, current, d);
    AncestorsAre(d, d);
    assert PrefixFree(current) && Acceptable(d, filter);
    RescanStagesIff(shadow, current, events, filter);
  }
}
