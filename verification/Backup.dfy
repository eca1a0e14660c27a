/** A full sync that first moves the existing volume into the backups. */
module Backup {
  import opened Strings
  import opened Paths
  import opened Layout

  /** The files of a pool by full path. */
  type Disk<T> = map<string, T>

  predicate Occupied<T>(disk: Disk<T>, dir: string) { exists q :: q in disk && AtOrBelow(dir, q) }

  /** os.Rename of a directory to a free path. */
  function Renamed<T>(disk: Disk<T>, from: string, to: string): Disk<T> {
    var targets := set q | q in disk && AtOrBelow(from, q) :: to + q[|from|..];
    assert forall q :: q in disk && AtOrBelow(from, q) ==> from + (to + q[|from|..])[|to|..] == q;
    (map q | q in disk && !AtOrBelow(from, q) :: disk[q]) + (map p | p in targets :: disk[from + p[|to|..]])
  }

  /** rclone and the checks after it may do anything below the live directory. */
  function Rewritten<T>(disk: Disk<T>, dir: string, files: Disk<T>): Disk<T> {
    (map q | q in disk && !AtOrBelow(dir, q) :: disk[q]) + (map q | q in files && AtOrBelow(dir, q) :: files[q])
  }

  datatype StatResult = Missing | StatFails | Exists

  /** What the calls of one full sync answer. `hasEntries` is whether the volume holds anything, an
      empty directory included; `afterSync` is what rclone leaves, complete or not. */
  datatype SyncWorld<T> = SyncWorld(
    stat: StatResult, listOk: bool, hasEntries: bool, mkdirBackupOk: bool, renameOk: bool, ensureOk: bool, requiredOk: bool,
    syncOk: bool, afterSync: Disk<T>, forceOk: bool, afterForce: Disk<T>, targetOk: bool, ownershipOk: bool)

  datatype Outcome<T> = Outcome(disk: Disk<T>, ok: bool)

  /** BackupVolumePath: a missing or empty volume is left alone, any other is moved away. */
  function BackupVolume<T>(disk: Disk<T>, live: string, backup: string, w: SyncWorld<T>): Outcome<T> {
    if w.stat.Missing? then Outcome(disk, true)
    else if w.stat.StatFails? || !w.listOk then Outcome(disk, false)
    else if !w.hasEntries then Outcome(disk, true)
    else if !w.mkdirBackupOk || !w.renameOk || Occupied(disk, backup) then Outcome(disk, false)
    else Outcome(Renamed(disk, live, backup), true)
  }

  function SyncVolume<T>(disk: Disk<T>, live: string, w: SyncWorld<T>): Outcome<T> {
    if !w.ensureOk || !w.requiredOk then Outcome(disk, false)
    else
      var synced := Rewritten(disk, live, w.afterSync);
      if !w.syncOk then Outcome(synced, false)
      else
        var forced := Rewritten(synced, live, w.afterForce);
        Outcome(forced, w.forceOk && w.targetOk && w.ownershipOk)
  }

  function FullSync<T>(disk: Disk<T>, live: string, backup: string, backupExisting: bool, w: SyncWorld<T>): Outcome<T> {
    var first := if backupExisting then BackupVolume(disk, live, backup, w) else Outcome(disk, true);
    if !first.ok then first else SyncVolume(first.disk, live, w)
  }

  /** The calls that look at the volume tell the truth about one that holds files. */
  ghost predicate HonestStat<T>(disk: Disk<T>, live: string, w: SyncWorld<T>) {
    Occupied(disk, live) ==> !w.stat.Missing? && w.hasEntries
  }

  class Pool<T> {
    const path: string
    var disk: Disk<T>

    constructor (path: string, initial: Disk<T>)
      ensures this.path == path && disk == initial
    {
      this.path := path;
      disk := initial;
    }

    method BackupVolumePath(live: string, backup: string, w: SyncWorld<T>) returns (ok: bool)
      modifies this`disk
      ensures Outcome(disk, ok) == BackupVolume(old(disk), live, backup, w)
    {
      if w.stat.Missing? {
        return true;
      }
      if w.stat.StatFails? || !w.listOk {
        return false;
      }
      if !w.hasEntries {
        return true;
      }
      if !w.mkdirBackupOk || !w.renameOk || Occupied(disk, backup) {
        return false;
      }
      disk := Renamed(disk, live, backup);
      return true;
    }

    /** ApplyFullSyncWithToken after its request checks. */
    method ApplyFullSync(namespace: string, volume: string, stamp: string, backupExisting: bool, w: SyncWorld<T>)
      returns (ok: bool)
      modifies this`disk
      ensures var live := ResolveVolumePath(path, namespace, volume);
              Outcome(disk, ok) ==
                if live.None? then Outcome(old(disk), false)
                else FullSync(old(disk), live.value, BackupPath(path, namespace, volume, stamp), backupExisting, w)
    {
      var live := ResolveVolumePath(path, namespace, volume);
      if live.None? {
        return false;
      }
      if backupExisting {
        ok := BackupVolumePath(live.value, BackupPath(path, namespace, volume, stamp), w);
        if !ok {
          return;
        }
      }
      if !w.ensureOk || !w.requiredOk {
        return false;
      }
      disk := Rewritten(disk, live.value, w.afterSync);
      if !w.syncOk {
        return false;
      }
      disk := Rewritten(disk, live.value, w.afterForce);
      return w.forceOk && w.targetOk && w.ownershipOk;
    }
  }

  // ----- nothing is lost -----

  /** The tree below `from` on one disk is whole, and alone, below `to` on another. */
  ghost predicate WholeAt<T>(disk: Disk<T>, from: string, disk': Disk<T>, to: string) {
    && (forall q :: q in disk && AtOrBelow(from, q) ==>
          to + q[|from|..] in disk' && disk'[to + q[|from|..]] == disk[q])
    && (forall q :: q in disk' && AtOrBelow(to, q) ==> AtOrBelow(from, from + q[|to|..]) && from + q[|to|..] in disk)
  }

  /** Two directories of which neither lies in the other share no path. */
  lemma ApartDirectories(a: string, b: string, q: string)
    requires !AtOrBelow(a, b) && !AtOrBelow(b, a) && AtOrBelow(a, q)
    ensures !AtOrBelow(b, q)
  {
    if AtOrBelow(b, q) {
      AncestorsCompare(a, b, q);
    }
  }

  lemma MovedPath(from: string, to: string, q: string)
    requires AtOrBelow(from, q)
    ensures AtOrBelow(to, to + q[|from|..]) && from + (to + q[|from|..])[|to|..] == q
  {
    if q != from {
      assert q[|from|..][0] == '/';
    }
  }

  lemma RenameMoves<T>(disk: Disk<T>, from: string, to: string)
    requires !AtOrBelow(from, to) && !AtOrBelow(to, from) && !Occupied(disk, to)
    ensures WholeAt(disk, from, Renamed(disk, from, to), to)
    ensures forall q :: !AtOrBelow(from, q) && !AtOrBelow(to, q) ==> Same(disk, Renamed(disk, from, to), q)
  {
    var disk' := Renamed(disk, from, to);
    forall q | AtOrBelow(from, q) ensures AtOrBelow(to, to + q[|from|..]) && from + (to + q[|from|..])[|to|..] == q {
      MovedPath(from, to, q);
    }
    forall q | q in disk && AtOrBelow(from, q) ensures to + q[|from|..] in disk' && disk'[to + q[|from|..]] == disk[q] {
      ApartDirectories(to, from, to + q[|from|..]);
    }
    forall q | q in disk' && AtOrBelow(to, q)
      ensures AtOrBelow(from, from + q[|to|..]) && from + q[|to|..] in disk
    {
      assert q !in disk;
    }
  }

  lemma RewriteKeepsOthers<T>(disk: Disk<T>, dir: string, files: Disk<T>)
    ensures forall q :: !AtOrBelow(dir, q) ==> Same(disk, Rewritten(disk, dir, files), q)
  {}

  /** After every exit of a full sync that backs up, success or error, the previous files are whole
      at the live path or at the backup path, and nothing outside these two has changed. */
  lemma BackupConserves<T>(disk: Disk<T>, live: string, backup: string, w: SyncWorld<T>)
    requires !AtOrBelow(live, backup) && !AtOrBelow(backup, live) && HonestStat(disk, live, w)
    requires Occupied(disk, live)
    ensures var disk' := FullSync(disk, live, backup, true, w).disk;
            && (disk' == disk || WholeAt(disk, live, disk', backup))
            && (forall q :: !AtOrBelow(live, q) && !AtOrBelow(backup, q) ==> Same(disk, disk', q))
            && (Occupied(disk, backup) ==> disk' == disk)
  {
    var first := BackupVolume(disk, live, backup, w);
    if first.ok {
      RenameMoves(disk, live, backup);
      var disk' := SyncVolume(first.disk, live, w).disk;
      SyncStaysInside(first.disk, live, w);
      assert SameBelow(first.disk, disk', backup) by {
        forall q | AtOrBelow(backup, q) ensures Same(first.disk, disk', q) {
          ApartDirectories(backup, live, q);
        }
      }
      WholeSurvives(disk, live, first.disk, disk', backup);
    }
  }

  ghost predicate SameBelow<T>(a: Disk<T>, b: Disk<T>, dir: string) {
    forall q :: AtOrBelow(dir, q) ==> Same(a, b, q)
  }

  lemma SyncStaysInside<T>(disk: Disk<T>, live: string, w: SyncWorld<T>)
    ensures forall q :: !AtOrBelow(live, q) ==> Same(disk, SyncVolume(disk, live, w).disk, q)
  {
    RewriteKeepsOthers(disk, live, w.afterSync);
    RewriteKeepsOthers(Rewritten(disk, live, w.afterSync), live, w.afterForce);
  }

  lemma WholeSurvives<T>(disk: Disk<T>, from: string, disk1: Disk<T>, disk2: Disk<T>, to: string)
    requires WholeAt(disk, from, disk1, to) && SameBelow(disk1, disk2, to)
    ensures WholeAt(disk, from, disk2, to)
  {
    forall q | q in disk && AtOrBelow(from, q)
      ensures to + q[|from|..] in disk2 && disk2[to + q[|from|..]] == disk[q]
    {
      MovedPath(from, to, q);
      assert Same(disk1, disk2, to + q[|from|..]);
    }
    forall q | q in disk2 && AtOrBelow(to, q)
      ensures AtOrBelow(from, from + q[|to|..]) && from + q[|to|..] in disk
    {
      assert Same(disk1, disk2, q);
    }
  }

  /** In a pool, a full sync with backup loses no file of the volume and leaves every other volume,
      every shadow and every earlier backup as it was. */
  lemma PoolBackupConserves<T>(poolPath: string, namespace: string, volume: string, stamp: string, disk: Disk<T>,
                               w: SyncWorld<T>, other: Place, q: string)
    requires !InvalidPool(Clean(poolPath)) && GoodSegment(stamp) && Stamped(other)
    requires var live := ResolveVolumePath(poolPath, namespace, volume);
             live.Some? && Occupied(disk, live.value) && HonestStat(disk, live.value, w)
    requires Segments(other) != Segments(Live(namespace, volume))
    requires Segments(other) == Segments(Layout.Backup(namespace, volume, stamp)) ==>
               Occupied(disk, PlaceIn(poolPath, Segments(other)))
    requires AtOrBelow(PlaceIn(poolPath, Segments(other)), q)
    ensures var live, backup := ResolveVolumePath(poolPath, namespace, volume).value,
                                BackupPath(poolPath, namespace, volume, stamp);
            var disk' := FullSync(disk, live, backup, true, w).disk;
            && (disk' == disk || WholeAt(disk, live, disk', backup))
            && Same(disk, disk', q)
  {
    var here, saved := Live(namespace, volume), Layout.Backup(namespace, volume, stamp);
    LivePlace(poolPath, namespace, volume);
    BackupPlace(poolPath, namespace, volume, stamp);
    var live, backup, place :=
      PlaceIn(poolPath, Segments(here)), PlaceIn(poolPath, Segments(saved)), PlaceIn(poolPath, Segments(other));
    PlacesApart(poolPath, here, saved);
    BackupConserves(disk, live, backup, w);
    PlacesApart(poolPath, other, here);
    ApartDirectories(place, live, q);
    if Segments(other) != Segments(saved) {
      PlacesApart(poolPath, other, saved);
      ApartDirectories(place, backup, q);
    }
  }

  lemma PlacesApart(poolPath: string, a: Place, b: Place)
    requires Stamped(a) && Stamped(b) && Segments(a) != Segments(b)
    ensures !AtOrBelow(PlaceIn(poolPath, Segments(a)), PlaceIn(poolPath, Segments(b)))
    ensures !AtOrBelow(PlaceIn(poolPath, Segments(b)), PlaceIn(poolPath, Segments(a)))
  {
    if AtOrBelow(PlaceIn(poolPath, Segments(a)), PlaceIn(poolPath, Segments(b))) {
      PlacesNeverNest(poolPath, a, b);
    }
    if AtOrBelow(PlaceIn(poolPath, Segments(b)), PlaceIn(poolPath, Segments(a))) {
      PlacesNeverNest(poolPath, b, a);
    }
  }

  // ----- what a full sync reports and leaves -----

  /** The backup step succeeds: there is nothing to move, or it is moved to a free path. */
  ghost predicate BackupOk<T>(disk: Disk<T>, backup: string, w: SyncWorld<T>) {
    || w.stat.Missing?
    || (w.stat.Exists? && w.listOk && (w.hasEntries ==> w.mkdirBackupOk && w.renameOk && !Occupied(disk, backup)))
  }

  /** A full sync reports success exactly when the backup, if asked for, and every later call
      succeeded. */
  lemma FullSyncOkIff<T>(disk: Disk<T>, live: string, backup: string, backupExisting: bool, w: SyncWorld<T>)
    ensures FullSync(disk, live, backup, backupExisting, w).ok
       <==> && (backupExisting ==> BackupOk(disk, backup, w))
            && w.ensureOk && w.requiredOk && w.syncOk && w.forceOk && w.targetOk && w.ownershipOk
  {}

  /** The files below a directory are exactly these. */
  ghost predicate HoldsBelow<T>(disk: Disk<T>, dir: string, files: Disk<T>) {
    forall q :: AtOrBelow(dir, q) ==> Same(disk, files, q)
  }

  /** After a success the volume holds exactly what the copies left there, and the previous files are
      whole at the backup path when a backup was asked for. */
  lemma FullSyncDelivers<T>(disk: Disk<T>, live: string, backup: string, backupExisting: bool, w: SyncWorld<T>)
    requires FullSync(disk, live, backup, backupExisting, w).ok
    ensures HoldsBelow(FullSync(disk, live, backup, backupExisting, w).disk, live, w.afterForce)
    ensures backupExisting && Occupied(disk, live) && HonestStat(disk, live, w)
            && !AtOrBelow(live, backup) && !AtOrBelow(backup, live) ==>
              WholeAt(disk, live, FullSync(disk, live, backup, backupExisting, w).disk, backup)
  {
    var first := if backupExisting then BackupVolume(disk, live, backup, w) else Outcome(disk, true);
    RewriteHolds(Rewritten(first.disk, live, w.afterSync), live, w.afterForce);
    if backupExisting && Occupied(disk, live) && HonestStat(disk, live, w)
       && !AtOrBelow(live, backup) && !AtOrBelow(backup, live)
    {
      RenameMoves(disk, live, backup);
      var disk' := SyncVolume(first.disk, live, w).disk;
      SyncStaysInside(first.disk, live, w);
      forall q | AtOrBelow(backup, q) ensures Same(first.disk, disk', q) {
        ApartDirectories(backup, live, q);
      }
      WholeSurvives(disk, live, first.disk, disk', backup);
    }
  }

  lemma RewriteHolds<T>(disk: Disk<T>, dir: string, files: Disk<T>)
    ensures HoldsBelow(Rewritten(disk, dir, files), dir, files)
  {}

  /** Without a backup nothing outside the volume changes, and nothing at all when the sync fails
      before it copies; a failing copy leaves what it got to. */
  lemma FullSyncWithoutBackup<T>(disk: Disk<T>, live: string, backup: string, w: SyncWorld<T>)
    ensures var disk' := FullSync(disk, live, backup, false, w).disk;
            && (forall q :: !AtOrBelow(live, q) ==> Same(disk, disk', q))
            && (!w.ensureOk || !w.requiredOk ==> disk' == disk)
            && (w.ensureOk && w.requiredOk && !w.syncOk ==> HoldsBelow(disk', live, w.afterSync))
  {
    SyncStaysInside(disk, live, w);
    RewriteHolds(disk, live, w.afterSync);
  }
}
