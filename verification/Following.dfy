/** The whole path from a rescanned volume to its replica. */
module Following {
  import opened Strings
  import opened Paths
  import opened Filter
  import opened Coalesce
  import opened Shadow
  import opened Staging
  import opened Replication
  import opened Rescan
  import Walk

  /** One tick of the rescan: the snapshot it takes, the difference it finds, and the delivery of the
      batch. An empty difference is not sent. */
  datatype Tick = Tick(current: Snapshot, events: seq<FileEvent>, delivery: Delivery<FileState>)

  function RoundOf(tick: Tick, filter: PathFilter): Round<FileState> {
    Round(tick.events, filter, LiveWorlds(LiveFiles(tick.current), Coalesced(tick.events, filter)), tick.delivery)
  }

  /** The snapshot is what a walk sees of a volume with proper names. */
  ghost predicate Walked(s: Snapshot, filter: PathFilter) {
    exists entries :: WalkedFrom(entries, s, filter)
  }

  ghost predicate WalkedFrom(entries: seq<Walk.Entry>, s: Snapshot, filter: PathFilter) {
    Walk.ProperTree(entries, "") && s.Keys == Walk.SnapshotOf(entries, filter).Keys
  }

  lemma WalkedPrefixFree(entries: seq<Walk.Entry>, s: Snapshot, filter: PathFilter)
    requires WalkedFrom(entries, s, filter)
    ensures PrefixFree(s)
  {
    forall p, q | p in s.Keys && q in s.Keys ensures !StrictlyBelow(p, q) {
      Walk.SnapshotIsPrefixFree(entries, filter, p, q);
    }
  }

  lemma WalkedAccepted(entries: seq<Walk.Entry>, s: Snapshot, filter: PathFilter, p: string)
    requires WalkedFrom(entries, s, filter) && p in s
    ensures Acceptable(p, filter)
  {
    assert p in s.Keys;
    Walk.SnapshotIsPrefixFree(entries, filter, p, p);
  }

  lemma WalkedFacts(s: Snapshot, filter: PathFilter)
    requires Walked(s, filter)
    ensures PrefixFree(s) && Accepted(s, filter)
  {
    var entries :| WalkedFrom(entries, s, filter);
    WalkedPrefixFree(entries, s, filter);
    forall p | p in s ensures Acceptable(p, filter) {
      WalkedAccepted(entries, s, filter, p);
    }
  }

  /** The replica and the shadow hold exactly the files of the snapshot. */
  ghost predicate Holds(v: Volumes<FileState>, s: Snapshot) {
    v.shadow.files == s && v.replica.files == s && WellFormed(v.shadow)
  }

  /** The tick compares the previous snapshot with a walked one that has no all-zero new file; its
      batch is served honestly and acknowledged by the replica. */
  ghost predicate Follows(v: Volumes<FileState>, tick: Tick, filter: PathFilter) {
    && Walked(tick.current, filter) && VisibleDiff(v.shadow.files, tick.current, tick.events)
    && (tick.events != [] ==> Sound(v, RoundOf(tick, filter)) && Acknowledged(v, RoundOf(tick, filter)))
  }

  function TickNext(v: Volumes<FileState>, tick: Tick, filter: PathFilter): Volumes<FileState>
    requires tick.events != [] ==> Possible(v, RoundOf(tick, filter))
  {
    if tick.events == [] then v else RunRound(v, RoundOf(tick, filter))
  }

  /** One acknowledged tick takes the replica from the previous snapshot to the current one. */
  lemma TickFollows(v: Volumes<FileState>, tick: Tick, filter: PathFilter)
    requires Holds(v, v.shadow.files) && Walked(v.shadow.files, filter) && Follows(v, tick, filter)
    ensures Holds(TickNext(v, tick, filter), tick.current)
  {
    WalkedFacts(v.shadow.files, filter);
    WalkedFacts(tick.current, filter);
    RescanReplaysIff(v.shadow.files, tick.current, tick.events);
    if tick.events != [] {
      var round := RoundOf(tick, filter);
      RescanStagesIff(v.shadow, tick.current, tick.events, filter);
      RoundKeepsAgreement(v, round);
    }
  }

  lemma RoundKeepsAgreement(v: Volumes<FileState>, round: Round<FileState>)
    requires Sound(v, round) && Acknowledged(v, round) && v.replica.files == v.shadow.files
    ensures RunRound(v, round).replica.files == RunRound(v, round).shadow.files
  {
    ReplicaTracksShadow([v, RunRound(v, round)], [round], 1);
  }

  ghost predicate IsTickRun(states: seq<Volumes<FileState>>, ticks: seq<Tick>, filter: PathFilter) {
    && |states| == |ticks| + 1
    && (forall i :: 0 <= i < |ticks| ==> Follows(states[i], ticks[i], filter))
    && (forall i :: 0 <= i < |ticks| ==> states[i + 1] == TickNext(states[i], ticks[i], filter))
  }

  /** Over all ticks: a replica that starts with the shadow's files and acknowledges every batch holds
      exactly the files of the latest snapshot. */
  lemma {:induction false} ReplicaFollowsVolume(states: seq<Volumes<FileState>>, ticks: seq<Tick>, filter: PathFilter, n: nat)
    requires IsTickRun(states, ticks, filter) && n <= |ticks|
    requires Holds(states[0], states[0].shadow.files) && Walked(states[0].shadow.files, filter)
    ensures Holds(states[n], if n == 0 then states[0].shadow.files else ticks[n - 1].current)
    ensures Walked(states[n].shadow.files, filter)
  {
    if n > 0 {
      ReplicaFollowsVolume(states, ticks, filter, n - 1);
      TickFollows(states[n - 1], ticks[n - 1], filter);
    }
  }

  // ----- when nothing fails -----

  /** The tick finds a walked snapshot without an all-zero new file and without a changed file on a
      directory of the shadow, and its batch is delivered to a replica on which no call fails. */
  ghost predicate CalmTick(v: Volumes<FileState>, tick: Tick, filter: PathFilter) {
    && Walked(tick.current, filter) && VisibleDiff(v.shadow.files, tick.current, tick.events)
    && !MeetsDirectory(v.shadow, tick.current)
    && (tick.events != [] ==>
          && Possible(v, RoundOf(tick, filter)) && tick.delivery.Delivered?
          && (StageRound(v, RoundOf(tick, filter)).Staged? ==>
                AllCalm(Coalesced(StageRound(v, RoundOf(tick, filter)).out, NoFilter),
                        StageRound(v, RoundOf(tick, filter)).tree, tick.delivery.worlds)))
  }

  /** Such a tick is acknowledged, and moves shadow and replica to the current snapshot. */
  lemma CalmTickFollows(v: Volumes<FileState>, tick: Tick, filter: PathFilter)
    requires Holds(v, v.shadow.files) && Walked(v.shadow.files, filter) && Within(v.replica, v.shadow)
    requires CalmTick(v, tick, filter)
    ensures Follows(v, tick, filter) && Holds(TickNext(v, tick, filter), tick.current)
    ensures Within(TickNext(v, tick, filter).replica, TickNext(v, tick, filter).shadow)
  {
    if tick.events != [] {
      CalmTickIsCalmRound(v, tick, filter);
      CalmRoundAcknowledged(v, RoundOf(tick, filter));
    }
    TickFollows(v, tick, filter);
  }

  lemma CalmTickIsCalmRound(v: Volumes<FileState>, tick: Tick, filter: PathFilter)
    requires WellFormed(v.shadow) && Walked(v.shadow.files, filter) && CalmTick(v, tick, filter) && tick.events != []
    ensures CalmRound(v, RoundOf(tick, filter))
  {
    WalkedFacts(v.shadow.files, filter);
    WalkedFacts(tick.current, filter);
    DiffIsKept(v.shadow.files, tick.current, tick.events, filter);
    RescanStagesIff(v.shadow, tick.current, tick.events, filter);
  }

  ghost predicate IsCalmTickRun(states: seq<Volumes<FileState>>, ticks: seq<Tick>, filter: PathFilter) {
    && |states| == |ticks| + 1
    && (forall i :: 0 <= i < |ticks| ==> CalmTick(states[i], ticks[i], filter))
    && (forall i :: 0 <= i < |ticks| ==> states[i + 1] == TickNext(states[i], ticks[i], filter))
  }

  /** Over all ticks: while nothing fails, every batch is staged and acknowledged, and the replica holds
      exactly the files of the latest walk. */
  lemma {:induction false} ReplicaKeepsUp(states: seq<Volumes<FileState>>, ticks: seq<Tick>, filter: PathFilter, n: nat)
    requires IsCalmTickRun(states, ticks, filter) && n <= |ticks|
    requires Holds(states[0], states[0].shadow.files) && Walked(states[0].shadow.files, filter)
    requires Within(states[0].replica, states[0].shadow)
    ensures Holds(states[n], if n == 0 then states[0].shadow.files else ticks[n - 1].current)
    ensures Walked(states[n].shadow.files, filter) && Within(states[n].replica, states[n].shadow)
  {
    if n > 0 {
      ReplicaKeepsUp(states, ticks, filter, n - 1);
      CalmTickFollows(states[n - 1], ticks[n - 1], filter);
    }
  }
}
