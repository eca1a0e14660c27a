/** Why a completed sync or remembered watch can be trusted: its epoch. */
module EpochGate {
  import opened Keys
  import opened ReplicationController
  import WatchManager

  function Threshold(d: Desired): nat { WatchManager.ConfirmationThreshold(d.confirmed, d.targets) }

  /** As many targets as the claim asks to be confirmed, or all when it asks for more than there are. */
  predicate EnoughTargets(d: Desired, successes: nat) {
    if d.confirmed > d.targets > 0 then successes >= d.targets else successes >= d.confirmed
  }

  lemma ThresholdInNumbers(d: Desired, successes: nat)
    ensures successes >= Threshold(d) <==> EnoughTargets(d, successes)
  {}

  // ----- captures never run ahead of the controller -----

  /** The captured epoch is not from the future, and while it is current its node is the active one. */
  ghost predicate Timely(s: State, cap: Capture) {
    && cap.d.node != "" && ActiveNode(s, cap.d.key) != "" && ':' !in cap.d.key
    && cap.epoch <= Epoch(s, cap.d.key)
    && (cap.epoch == Epoch(s, cap.d.key) ==> ActiveNode(s, cap.d.key) == cap.d.node)
  }

  ghost predicate AllTimely(y: System) {
    && (forall id :: id in y.passes ==> Timely(y.state, y.passes[id].cap))
    && (forall id :: id in y.syncs ==> Timely(y.state, y.syncs[id].cap))
    && (forall i :: 0 <= i < |y.log| ==> Timely(y.state, y.log[i].cap))
  }

  lemma NoteKeepsTimely(s: State, key: string, node: string, cap: Capture)
    requires Timely(s, cap) && node != ""
    ensures Timely(NoteActive(s, key, node), cap)
  {}

  lemma NoteIsTimely(s: State, d: Desired)
    requires d.node != "" && ':' !in d.key
    ensures Timely(NoteActive(s, d.key, d.node), Capture(d, Epoch(NoteActive(s, d.key, d.node), d.key)))
  {}

  /** Only noting an active node changes nodes or epochs. */
  ghost predicate SameNodes(s: State, s': State) { s'.lastActive == s.lastActive && s'.epochs == s.epochs }

  /** The log only grows, by events of existing captures. */
  ghost predicate LogGrows(y: System, y': System) {
    && |y.log| <= |y'.log| && y'.log[..|y.log|] == y.log
    && (forall i :: |y.log| <= i < |y'.log| ==>
          || (exists id :: id in y.passes && y.passes[id].cap == y'.log[i].cap)
          || (exists id :: id in y.syncs && y.syncs[id].cap == y'.log[i].cap))
  }

  lemma PassStepGrows(y: System, step: Step)
    requires Enabled(y, step) && IsPassStep(step)
    ensures SameNodes(y.state, Next(y, step).state) && LogGrows(y, Next(y, step))
  {
    var y' := Next(y, step);
    assert |y'.log| == |y.log| || y'.log == y.log + [WatchOk(y.passes[step.id].cap)];
  }

  lemma SyncStepGrows(y: System, step: Step)
    requires Enabled(y, step) && IsSyncStep(step)
    ensures SameNodes(y.state, Next(y, step).state) && LogGrows(y, Next(y, step))
  {
    var y', cap := Next(y, step), y.syncs[step.id].cap;
    assert |y'.log| == |y.log| || (|y'.log| == |y.log| + 1 && y'.log[|y.log|].cap == cap);
  }

  /** Syncs come from earlier syncs or from the pass that starts one. */
  ghost predicate SyncsFrom(y: System, y': System) {
    forall id :: id in y'.syncs ==>
      || (id in y.syncs && y.syncs[id].cap == y'.syncs[id].cap)
      || (exists p :: p in y.passes && y.passes[p].cap == y'.syncs[id].cap)
  }

  lemma StepSyncsFrom(y: System, step: Step)
    requires Enabled(y, step)
    ensures SyncsFrom(y, Next(y, step))
  {
    if step.Try? {
      assert step.id in y.passes;
    } else if step.Note? {
      NoteFrame(y, step);
    } else if IsPassStep(step) {
      PassStepFrame(y, step);
    } else if !step.End? {
      SyncStepFrame(y, step);
    }
  }

  lemma StepKeepsTimely(y: System, step: Step)
    requires AllTimely(y) && Enabled(y, step)
    ensures AllTimely(Next(y, step))
  {
    var y' := Next(y, step);
    if step.Note? {
      NoteFrame(y, step);
      NoteIsTimely(y.state, step.d);
      forall cap | Timely(y.state, cap) ensures Timely(y'.state, cap) {
        NoteKeepsTimely(y.state, step.d.key, step.d.node, cap);
      }
    } else {
      if IsPassStep(step) {
        PassStepFrame(y, step);
        PassStepGrows(y, step);
      } else {
        SyncStepFrame(y, step);
        SyncStepGrows(y, step);
      }
      StepSyncsFrom(y, step);
      FrameKeepsTimely(y, y');
    }
  }

  lemma FrameKeepsTimely(y: System, y': System)
    requires AllTimely(y) && SameNodes(y.state, y'.state) && LogGrows(y, y') && SamePasses(y, y') && SyncsFrom(y, y')
    ensures AllTimely(y')
  {
    assert forall cap :: Timely(y.state, cap) ==> Timely(y'.state, cap);
    forall i | 0 <= i < |y'.log| ensures Timely(y'.state, y'.log[i].cap) {
      if i < |y.log| {
        assert y'.log[i] == y'.log[..|y.log|][i] == y.log[i];
      }
    }
  }

  // ----- what the log vouches for -----

  ghost predicate HasSyncOk(log: seq<Event>, cap: Capture) {
    exists i :: 0 <= i < |log| && log[i].SyncOk? && log[i].cap == cap && log[i].successes >= Threshold(cap.d)
  }

  ghost predicate HasWatchOk(log: seq<Event>, cap: Capture) {
    exists i :: 0 <= i < |log| && log[i] == WatchOk(cap)
  }

  /** Some full sync that reached its threshold stands behind this completed-sync entry. */
  ghost predicate Completes(log: seq<Event>, entry: string) {
    exists cap :: HasSyncOk(log, cap) && SyncKeyOf(cap, Startup) == entry
  }

  ghost predicate Watches(log: seq<Event>, key: string, signature: string) {
    exists cap :: HasWatchOk(log, cap) && cap.d.key == key && SignatureOf(cap) == signature
  }

  /** What a sync may do next is covered by the log. */
  ghost predicate SyncCovered(log: seq<Event>, x: Sync) {
    && (x.kind.Startup? ==> x.syncKey == SyncKeyOf(x.cap, Startup))
    && (x.phase.Checking? || x.phase.Marking? ==> HasSyncOk(log, x.cap))
    && (x.phase.Remembering? ==> HasWatchOk(log, x.cap))
    && (x.phase.Marking? ==> !x.kind.Manual?)
  }

  ghost predicate Grounded(y: System) {
    && (forall id :: id in y.passes && y.passes[id].phase.AtRemember? ==> HasWatchOk(y.log, y.passes[id].cap))
    && (forall id :: id in y.syncs ==> SyncCovered(y.log, y.syncs[id]))
    && (forall k :: k in y.state.completed ==> Completes(y.log, k))
    && (forall k :: k in y.state.started ==> Watches(y.log, k, y.state.started[k]))
  }

  lemma LogMonotone(log: seq<Event>, log': seq<Event>)
    requires |log| <= |log'| && log'[..|log|] == log
    ensures forall cap :: HasSyncOk(log, cap) ==> HasSyncOk(log', cap)
    ensures forall cap :: HasWatchOk(log, cap) ==> HasWatchOk(log', cap)
  {
    assert forall i :: 0 <= i < |log| ==> log[i] == log'[..|log|][i] == log'[i];
  }

  lemma EntriesMonotone(log: seq<Event>, log': seq<Event>)
    requires |log| <= |log'| && log'[..|log|] == log
    ensures forall k :: Completes(log, k) ==> Completes(log', k)
    ensures forall k, v :: Watches(log, k, v) ==> Watches(log', k, v)
  {
    LogMonotone(log, log');
  }

  // Whatever is new after a step is covered by the log; the rest is as it was.

  ghost predicate NewPasses(y: System, y': System) {
    forall id :: id in y'.passes && y'.passes[id].phase.AtRemember? ==>
      (id in y.passes && y.passes[id] == y'.passes[id]) || HasWatchOk(y'.log, y'.passes[id].cap)
  }

  ghost predicate NewSyncs(y: System, y': System) {
    forall id :: id in y'.syncs ==> (id in y.syncs && y.syncs[id] == y'.syncs[id]) || SyncCovered(y'.log, y'.syncs[id])
  }

  ghost predicate NewCompleted(y: System, y': System) {
    forall k :: k in y'.state.completed ==> k in y.state.completed || Completes(y'.log, k)
  }

  ghost predicate NewStarted(y: System, y': System) {
    forall k :: k in y'.state.started ==>
      || (k in y.state.started && y.state.started[k] == y'.state.started[k])
      || Watches(y'.log, k, y'.state.started[k])
  }

  lemma CoveredIsGrounded(y: System, y': System)
    requires Grounded(y) && |y.log| <= |y'.log| && y'.log[..|y.log|] == y.log
    requires NewPasses(y, y') && NewSyncs(y, y') && NewCompleted(y, y') && NewStarted(y, y')
    ensures Grounded(y')
  {
    LogMonotone(y.log, y'.log);
    EntriesMonotone(y.log, y'.log);
  }

  lemma PassNewPasses(y: System, step: Step)
    requires Enabled(y, step) && IsPassStep(step)
    ensures NewPasses(y, Next(y, step))
  {
    if step.Post? && step.ok {
      assert Next(y, step).log[|y.log|] == WatchOk(y.passes[step.id].cap);
    }
  }

  lemma PassNewSyncs(y: System, step: Step)
    requires Enabled(y, step) && IsPassStep(step)
    ensures NewSyncs(y, Next(y, step)) && Next(y, step).state.completed == y.state.completed
  {}

  lemma PassNewStarted(y: System, step: Step)
    requires Grounded(y) && Enabled(y, step) && IsPassStep(step)
    ensures NewStarted(y, Next(y, step))
  {
    var cap := y.passes[step.id].cap;
    if step.Remember? {
      assert HasWatchOk(y.log, cap);
      assert Watches(y.log, cap.d.key, SignatureOf(cap));
    }
  }

  lemma PassStepGrounded(y: System, step: Step)
    requires Grounded(y) && Enabled(y, step) && IsPassStep(step)
    ensures Grounded(Next(y, step))
  {
    PassStepGrows(y, step);
    PassNewPasses(y, step);
    PassNewSyncs(y, step);
    PassNewStarted(y, step);
    CoveredIsGrounded(y, Next(y, step));
  }

  lemma SyncPhaseCovered(y: System, step: Step)
    requires Grounded(y) && Enabled(y, step) && IsSyncStep(step) && !step.End?
    ensures SyncCovered(Next(y, step).log, Next(y, step).syncs[step.id])
  {
    var y' := Next(y, step);
    var x := y.syncs[step.id];
    SyncStepGrows(y, step);
    LogMonotone(y.log, y'.log);
    assert SyncCovered(y.log, x);
    if step.Copy? && step.prepared && step.successes >= Threshold(x.cap.d) {
      assert y'.log[|y.log|] == SyncOk(x.cap, step.successes);
    }
    if step.SyncPost? && step.ok {
      assert y'.log[|y.log|] == WatchOk(x.cap);
    }
  }

  lemma SyncNewSyncs(y: System, step: Step)
    requires Grounded(y) && Enabled(y, step) && IsSyncStep(step)
    ensures NewSyncs(y, Next(y, step))
  {
    var y' := Next(y, step);
    if !step.End? {
      SyncPhaseCovered(y, step);
    }
    assert forall id :: id in y'.syncs && id != step.id ==> id in y.syncs && y'.syncs[id] == y.syncs[id];
  }

  lemma SyncNewPasses(y: System, step: Step)
    requires Enabled(y, step) && IsSyncStep(step)
    ensures NewPasses(y, Next(y, step))
  {
    SyncStepFrame(y, step);
  }

  lemma SyncNewState(y: System, step: Step)
    requires Grounded(y) && Enabled(y, step) && IsSyncStep(step)
    ensures NewCompleted(y, Next(y, step)) && NewStarted(y, Next(y, step))
  {
    var x := y.syncs[step.id];
    assert SyncCovered(y.log, x);
    if step.Mark? && x.kind.Startup? {
      assert Completes(y.log, x.syncKey);
    }
    if step.SyncRemember? {
      assert Watches(y.log, x.cap.d.key, SignatureOf(x.cap));
    }
  }

  lemma SyncStepGrounded(y: System, step: Step)
    requires Grounded(y) && Enabled(y, step) && IsSyncStep(step)
    ensures Grounded(Next(y, step))
  {
    SyncStepGrows(y, step);
    SyncNewSyncs(y, step);
    SyncNewPasses(y, step);
    SyncNewState(y, step);
    CoveredIsGrounded(y, Next(y, step));
  }

  lemma NoteGrounded(y: System, step: Step)
    requires Grounded(y) && Enabled(y, step) && step.Note?
    ensures Grounded(Next(y, step))
  {}

  lemma {:induction false} RunIsGrounded(systems: seq<System>, steps: seq<Step>, n: nat)
    requires IsRun(systems, steps) && n < |systems|
    ensures Grounded(systems[n]) && AllTimely(systems[n])
  {
    if n > 0 {
      var y, step := systems[n - 1], steps[n - 1];
      RunIsGrounded(systems, steps, n - 1);
      StepKeepsTimely(y, step);
      if step.Note? {
        NoteGrounded(y, step);
      } else if IsPassStep(step) {
        PassStepGrounded(y, step);
      } else {
        SyncStepGrounded(y, step);
      }
    }
  }

  // ----- the gate -----

  /** A completed-sync entry for a volume's current epoch and signature stands for a full sync that
      was launched under that epoch, for the node that is active now, with those settings, and that
      succeeded on at least the confirmation threshold of targets. */
  lemma CompletedMeansSynced(systems: seq<System>, steps: seq<Step>, n: nat, key: string, sig: string) returns (i: nat)
    requires IsRun(systems, steps) && n < |systems| && ':' !in key
    requires SyncKey(key, Signature(Epoch(systems[n].state, key), sig)) in systems[n].state.completed
    ensures var y := systems[n];
            && i < |y.log| && y.log[i].SyncOk? && EnoughTargets(y.log[i].cap.d, y.log[i].successes)
            && y.log[i].cap.d.key == key && y.log[i].cap.d.sig == sig
            && y.log[i].cap.epoch == Epoch(y.state, key) && y.log[i].cap.d.node == ActiveNode(y.state, key)
  {
    RunIsGrounded(systems, steps, n);
    var y := systems[n];
    var entry := SyncKey(key, Signature(Epoch(y.state, key), sig));
    assert Completes(y.log, entry);
    var cap :| HasSyncOk(y.log, cap) && SyncKeyOf(cap, Startup) == entry;
    i :| 0 <= i < |y.log| && y.log[i].SyncOk? && y.log[i].cap == cap && y.log[i].successes >= Threshold(cap.d);
    SyncKeyInjective(cap.d.key, SignatureOf(cap), key, Signature(Epoch(y.state, key), sig));
    SignatureInjective(cap.epoch, cap.d.sig, Epoch(y.state, key), sig);
  }

  /** A watch remembered under a volume's current epoch and signature was started under that epoch
      on the node that is active now. */
  lemma RememberedMeansStarted(systems: seq<System>, steps: seq<Step>, n: nat, key: string, sig: string) returns (i: nat)
    requires IsRun(systems, steps) && n < |systems|
    requires var s := systems[n].state; key in s.started && s.started[key] == Signature(Epoch(s, key), sig)
    ensures var y := systems[n];
            && i < |y.log| && y.log[i].WatchOk?
            && y.log[i].cap.d.key == key && y.log[i].cap.d.sig == sig
            && y.log[i].cap.epoch == Epoch(y.state, key) && y.log[i].cap.d.node == ActiveNode(y.state, key)
  {
    RunIsGrounded(systems, steps, n);
    var y := systems[n];
    assert Watches(y.log, key, y.state.started[key]);
    var cap :| HasWatchOk(y.log, cap) && cap.d.key == key && SignatureOf(cap) == y.state.started[key];
    i :| 0 <= i < |y.log| && y.log[i] == WatchOk(cap);
    SignatureInjective(cap.epoch, cap.d.sig, Epoch(y.state, key), sig);
  }

  // ----- the epoch check is exact -----

  /** Step `k` notes another active node for the volume. */
  ghost predicate NotesChange(systems: seq<System>, steps: seq<Step>, k: nat, key: string)
    requires k < |steps| && k < |systems|
  {
    steps[k].Note? && steps[k].d.key == key && Changes(systems[k].state, key, steps[k].d.node)
  }

  lemma StepEpoch(y: System, step: Step, key: string)
    requires Enabled(y, step) && ActiveNode(y.state, key) != ""
    ensures var s, s' := y.state, Next(y, step).state;
            if step.Note? && step.d.key == key && Changes(s, key, step.d.node)
            then Epoch(s', key) == Epoch(s, key) + 1 && ActiveNode(s', key) != ""
            else Epoch(s', key) == Epoch(s, key) && ActiveNode(s', key) == ActiveNode(s, key)
  {
    if !step.Note? {
      if IsPassStep(step) {
        PassStepGrows(y, step);
      } else {
        SyncStepGrows(y, step);
      }
    }
  }

  /** The check a completion makes holds exactly when no other active node was noted since the
      capture, even if the same node has become active again in between. */
  lemma {:induction false} EpochCheckIsExact(systems: seq<System>, steps: seq<Step>, m: nat, n: nat)
    requires IsRun(systems, steps) && m < n < |systems| && steps[m].Note?
    ensures var d := steps[m].d;
            var epoch := Epoch(systems[m + 1].state, d.key);
            && (CurrentEpoch(systems[n].state, d.key, d.node, epoch) <==>
                  forall k :: m < k < n ==> !NotesChange(systems, steps, k, d.key))
            && Epoch(systems[n].state, d.key) >= epoch && ActiveNode(systems[n].state, d.key) != ""
            && (Epoch(systems[n].state, d.key) == epoch ==> ActiveNode(systems[n].state, d.key) == d.node)
    decreases n
  {
    var d := steps[m].d;
    if n == m + 1 {
      assert systems[n] == Next(systems[m], steps[m]);
    } else {
      EpochCheckIsExact(systems, steps, m, n - 1);
      StepEpoch(systems[n - 1], steps[n - 1], d.key);
      if NotesChange(systems, steps, n - 1, d.key) {
        assert m < n - 1 < n;
      }
    }
  }
}
