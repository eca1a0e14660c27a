/** Whole runs of the data path: batches are staged, delivered or lost, and replayed. */
module Replication {
  import opened Strings
  import opened Paths
  import opened Filter
  import opened Coalesce
  import opened Shadow

  /** Whether the replica got the staged batch, and what it met while applying it. */
  datatype Delivery<T> = NotDelivered | Delivered(worlds: seq<PullWorld<T>>)

  /** One batch: its raw events and filter, what staging met, and its delivery. */
  datatype Round<T> = Round(events: seq<FileEvent>, filter: PathFilter, worlds: seq<StageWorld<T>>, delivery: Delivery<T>) {
    function Kept(): seq<FileEvent> { Coalesced(events, filter) }
  }

  datatype Volumes<T> = Volumes(shadow: Tree<T>, replica: Tree<T>)

  function StageRound<T>(v: Volumes<T>, round: Round<T>): StageResult<T>
    requires |round.worlds| == |round.Kept()|
  {
    StageAll(v.shadow, round.Kept(), round.worlds)
  }

  function ReplayRound<T>(v: Volumes<T>, round: Round<T>): ReplayResult<T>
    requires Possible(v, round) && StageRound(v, round).Staged? && round.delivery.Delivered?
  {
    var staged := StageRound(v, round);
    ReplayAll(v.replica, Coalesced(staged.out, NoFilter), staged.tree, true, round.delivery.worlds)
  }

  /** There is one answer for every event that is staged and for every event that is replayed. */
  predicate Possible<T>(v: Volumes<T>, round: Round<T>) {
    && |round.worlds| == |round.Kept()|
    && (StageRound(v, round).Staged? && round.delivery.Delivered? ==>
          |round.delivery.worlds| == |Coalesced(StageRound(v, round).out, NoFilter)|)
  }

  /** The shadow is served honestly and the events name plain paths. */
  ghost predicate Sound<T>(v: Volumes<T>, round: Round<T>) {
    && PlainEvents(round.events)
    && Possible(v, round)
    && (StageRound(v, round).Staged? && round.delivery.Delivered? ==>
          AllHonest(Coalesced(StageRound(v, round).out, NoFilter), StageRound(v, round).tree, round.delivery.worlds))
  }

  /** The replica acknowledged the batch. */
  predicate Acknowledged<T>(v: Volumes<T>, round: Round<T>)
    requires Possible(v, round)
  {
    StageRound(v, round).Staged? && round.delivery.Delivered? && ReplayRound(v, round).Applied?
  }

  function RunRound<T>(v: Volumes<T>, round: Round<T>): Volumes<T>
    requires Possible(v, round)
  {
    var staged := StageRound(v, round);
    Volumes(staged.tree,
            if staged.Staged? && round.delivery.Delivered? then ReplayRound(v, round).tree else v.replica)
  }

  // ----- one round -----

  /** Staging emits events of the coalesced batch, with explicit operations ... */
  lemma {:induction false} EmittedMentioned<T>(t: Tree<T>, events: seq<FileEvent>, ws: seq<StageWorld<T>>, o: FileEvent)
    requires |ws| == |events| && StageAll(t, events, ws).Staged? && o in StageAll(t, events, ws).out
    ensures !o.op.Unset? && Mentions(events, o.path)
    decreases |events|
  {
    var step := StageEvent(t, events[0], ws[0]);
    assert events == [events[0]] + events[1..];
    MentionsCons(events[0], events[1..], o.path);
    if o !in step.out {
      EmittedMentioned(step.tree, events[1..], ws[1..], o);
    }
  }

  /** ... each path at most once. */
  lemma {:induction false} EmittedDistinct<T>(t: Tree<T>, events: seq<FileEvent>, ws: seq<StageWorld<T>>)
    requires |ws| == |events| && StageAll(t, events, ws).Staged? && DistinctPaths(events)
    ensures DistinctPaths(StageAll(t, events, ws).out)
    decreases |events|
  {
    if events != [] {
      var step := StageEvent(t, events[0], ws[0]);
      var rest := StageAll(step.tree, events[1..], ws[1..]).out;
      EmittedDistinct(step.tree, events[1..], ws[1..]);
      forall o | o in rest ensures o.path != events[0].path {
        EmittedMentioned(step.tree, events[1..], ws[1..], o);
      }
      assert forall i :: 0 <= i < |rest| ==> rest[i] in rest;
    }
  }

  /** The replica replays exactly the batch the source emitted: coalescing it again is no change. */
  lemma ReplayedAsEmitted<T>(v: Volumes<T>, round: Round<T>)
    requires PlainEvents(round.events) && |round.worlds| == |round.Kept()| && StageRound(v, round).Staged?
    ensures Coalesced(StageRound(v, round).out, NoFilter) == StageRound(v, round).out
  {
    var accepted := AcceptAll(round.events, round.filter);
    var out := StageRound(v, round).out;
    AcceptAllAccepted(round.events, round.filter);
    LastWinsDistinct(accepted);
    EmittedDistinct(v.shadow, round.Kept(), round.worlds);
    forall o | o in out ensures Plain(o.path) && !o.op.Unset? {
      EmittedMentioned(v.shadow, round.Kept(), round.worlds, o);
      LastWinsMentions(accepted, o.path);
      var i :| 0 <= i < |accepted| && accepted[i].path == o.path;
      assert accepted[i] in accepted;
    }
    DistinctPlainKept(out);
  }

  lemma EmittedWithinKept<T>(v: Volumes<T>, round: Round<T>, x: string)
    requires |round.worlds| == |round.Kept()| && StageRound(v, round).Staged?
    ensures TouchedBy(StageRound(v, round).out, x) ==> TouchedBy(round.Kept(), x)
  {
    var out := StageRound(v, round).out;
    if TouchedBy(out, x) {
      var i :| 0 <= i < |out| && AtOrBelow(out[i].path, x);
      EmittedMentioned(v.shadow, round.Kept(), round.worlds, out[i]);
    }
  }

  /** An acknowledged batch keeps agreement everywhere and restores it wherever it acts. */
  lemma AcknowledgedHeals<T>(v: Volumes<T>, round: Round<T>, x: string)
    requires Sound(v, round) && Acknowledged(v, round)
    requires SameFile(v.shadow, v.replica, x) || TouchedBy(StageRound(v, round).out, x)
    ensures var v' := RunRound(v, round); SameFile(v'.shadow, v'.replica, x)
  {
    var staged := StageRound(v, round);
    ReplayedAsEmitted(v, round);
    BatchAgrees(v.shadow, v.replica, round.Kept(), round.worlds, staged.tree, staged.out, round.delivery.worlds, x);
  }

  /** Any other round, half-applied ones included, changes nothing outside the batch's subtrees. */
  lemma RoundFrame<T>(v: Volumes<T>, round: Round<T>, x: string)
    requires Sound(v, round) && !TouchedBy(round.Kept(), x)
    ensures var v' := RunRound(v, round); SameFile(v.shadow, v'.shadow, x) && SameFile(v.replica, v'.replica, x)
  {
    StageAllFrame(v.shadow, round.Kept(), round.worlds, x);
    var staged := StageRound(v, round);
    if staged.Staged? && round.delivery.Delivered? {
      ReplayedAsEmitted(v, round);
      EmittedWithinKept(v, round, x);
      ReplayAllFrame(v.replica, staged.out, staged.tree, true, round.delivery.worlds, x);
    }
  }

  // ----- runs -----

  /** `states` are the volumes before, between and after the rounds. */
  ghost predicate IsRun<T>(states: seq<Volumes<T>>, rounds: seq<Round<T>>) {
    && |states| == |rounds| + 1
    && (forall i :: 0 <= i < |rounds| ==> Sound(states[i], rounds[i]))
    && (forall i :: 0 <= i < |rounds| ==> states[i + 1] == RunRound(states[i], rounds[i]))
  }

  ghost predicate Agree<T>(v: Volumes<T>, x: string) { SameFile(v.shadow, v.replica, x) }

  /** The round did not reach the replica whole, although its batch acts at or above `x`. */
  ghost predicate Missed<T>(v: Volumes<T>, round: Round<T>, x: string) {
    !(Possible(v, round) && Acknowledged(v, round)) && TouchedBy(round.Kept(), x)
  }

  /** The round was acknowledged and acted at or above `x`. */
  ghost predicate Healed<T>(v: Volumes<T>, round: Round<T>, x: string) {
    Possible(v, round) && Acknowledged(v, round) && TouchedBy(StageRound(v, round).out, x)
  }

  /** One round seen from a path: agreement survives unless the round was missed there, and an
      acknowledged batch that acts there restores it. */
  lemma RoundAgrees<T>(states: seq<Volumes<T>>, rounds: seq<Round<T>>, i: nat, x: string)
    requires IsRun(states, rounds) && i < |rounds|
    ensures Agree(states[i], x) && !Missed(states[i], rounds[i], x) ==> Agree(states[i + 1], x)
    ensures Healed(states[i], rounds[i], x) ==> Agree(states[i + 1], x)
  {
    if Acknowledged(states[i], rounds[i]) {
      if Agree(states[i], x) || Healed(states[i], rounds[i], x) {
        AcknowledgedHeals(states[i], rounds[i], x);
      }
    } else if !TouchedBy(rounds[i].Kept(), x) {
      RoundFrame(states[i], rounds[i], x);
    }
  }

  /** Agreement is lost only in a missed round and is there again after a healing one; so a loss
      goes back to a missed round with no healing round behind it. */
  lemma {:induction false} LossHasCause(agree: seq<bool>, missed: seq<bool>, healed: seq<bool>, n: nat) returns (i: nat)
    requires n < |agree| && n <= |missed| && n <= |healed|
    requires forall k :: 0 <= k < n ==> (agree[k] && !missed[k] ==> agree[k + 1]) && (healed[k] ==> agree[k + 1])
    requires agree[0] && !agree[n]
    ensures i < n && missed[i] && forall j :: i < j < n ==> !healed[j]
  {
    if agree[n - 1] {
      i := n - 1;
    } else {
      i := LossHasCause(agree, missed, healed, n - 1);
    }
  }

  /** After any run, a replica that differs from the shadow at `x` missed a batch that acted at or
      above `x` and accepted no batch acting there since. */
  lemma DifferenceHasMissedBatch<T>(states: seq<Volumes<T>>, rounds: seq<Round<T>>, n: nat, x: string) returns (i: nat)
    requires IsRun(states, rounds) && n <= |rounds|
    requires Agree(states[0], x) && !Agree(states[n], x)
    ensures i < n && Missed(states[i], rounds[i], x)
    ensures forall j :: i < j < n ==> !Healed(states[j], rounds[j], x)
  {
    var agree := seq(n + 1, k requires 0 <= k < |states| => Agree(states[k], x));
    var missed := seq(n, k requires 0 <= k < |rounds| => Missed(states[k], rounds[k], x));
    var healed := seq(n, k requires 0 <= k < |rounds| => Healed(states[k], rounds[k], x));
    forall k | 0 <= k < n
      ensures (agree[k] && !missed[k] ==> agree[k + 1]) && (healed[k] ==> agree[k + 1])
    {
      RoundAgrees(states, rounds, k, x);
    }
    i := LossHasCause(agree, missed, healed, n);
    assert forall j :: i < j < n ==> healed[j] == Healed(states[j], rounds[j], x);
  }

  /** A replica that missed some batches can differ from the shadow only at or below a path one of
      those batches names, however many later batches it accepts. */
  lemma {:induction false} MissedBatchFrame<T>(states: seq<Volumes<T>>, rounds: seq<Round<T>>, n: nat, x: string)
    requires IsRun(states, rounds) && n <= |rounds|
    requires Agree(states[0], x) && forall i :: 0 <= i < n ==> !Missed(states[i], rounds[i], x)
    ensures Agree(states[n], x)
  {
    if n > 0 {
      MissedBatchFrame(states, rounds, n - 1, x);
      RoundAgrees(states, rounds, n - 1, x);
    }
  }

  /** A run of acknowledged batches leaves the replica with exactly the shadow's files, subtree
      deletes included. */
  lemma ReplicaTracksShadow<T>(states: seq<Volumes<T>>, rounds: seq<Round<T>>, n: nat)
    requires IsRun(states, rounds) && n <= |rounds|
    requires states[0].replica.files == states[0].shadow.files
    requires forall i :: 0 <= i < n ==> Acknowledged(states[i], rounds[i])
    ensures states[n].replica.files == states[n].shadow.files
  {
    forall x ensures Agree(states[n], x) {
      MissedBatchFrame(states, rounds, n, x);
    }
    var v := states[n];
    assert forall x :: x in v.replica.files ==> Agree(v, x);
    assert forall x :: x in v.shadow.files ==> Agree(v, x);
  }

  // ----- when nothing fails -----

  /** The batch is staged and delivered, and no call of the replica fails. */
  ghost predicate CalmRound<T>(v: Volumes<T>, round: Round<T>) {
    && PlainEvents(round.events) && Possible(v, round)
    && StageRound(v, round).Staged? && round.delivery.Delivered?
    && AllCalm(Coalesced(StageRound(v, round).out, NoFilter), StageRound(v, round).tree, round.delivery.worlds)
  }

  /** A replica within the shadow acknowledges a calm round, and stays within the shadow. */
  lemma CalmRoundAcknowledged<T>(v: Volumes<T>, round: Round<T>)
    requires CalmRound(v, round) && Within(v.replica, v.shadow)
    ensures Sound(v, round) && Acknowledged(v, round) && Within(RunRound(v, round).replica, RunRound(v, round).shadow)
  {
    var staged := StageRound(v, round);
    var kept := Coalesced(staged.out, NoFilter);
    assert kept == staged.out by {
      ReplayedAsEmitted(v, round);
    }
    CalmIsHonest(kept, staged.tree, round.delivery.worlds);
    CalmBatchApplies(v.shadow, v.replica, round.Kept(), round.worlds, staged.tree, kept, round.delivery.worlds);
  }

  ghost predicate IsCalmRun<T>(states: seq<Volumes<T>>, rounds: seq<Round<T>>) {
    && |states| == |rounds| + 1
    && (forall i :: 0 <= i < |rounds| ==> CalmRound(states[i], rounds[i]))
    && (forall i :: 0 <= i < |rounds| ==> states[i + 1] == RunRound(states[i], rounds[i]))
  }

  /** So a replica that starts as the shadow acknowledges every batch and keeps the shadow's files, as
      long as batches are staged and delivered and no call fails. */
  lemma {:induction false} CalmRunTracks<T>(states: seq<Volumes<T>>, rounds: seq<Round<T>>, n: nat)
    requires IsCalmRun(states, rounds) && n <= |rounds|
    requires states[0].replica.files == states[0].shadow.files && Within(states[0].replica, states[0].shadow)
    ensures states[n].replica.files == states[n].shadow.files && Within(states[n].replica, states[n].shadow)
    ensures n < |rounds| ==> Acknowledged(states[n], rounds[n])
  {
    if n > 0 {
      CalmRunTracks(states, rounds, n - 1);
      CalmRoundAcknowledged(states[n - 1], rounds[n - 1]);
      ReplicaTracksShadow([states[n - 1], states[n]], [rounds[n - 1]], 1);
    }
    if n < |rounds| {
      CalmRoundAcknowledged(states[n], rounds[n]);
    }
  }
}
