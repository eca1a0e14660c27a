/** Why full syncs and watches start: what comes before each of them in every interleaving. */
module SyncOrder {
  import opened Keys
  import opened ReplicationController
  import opened EpochGate

  // ----- watches come after syncs -----

  /** Two captures of one volume with the same settings under the same epoch. */
  predicate SameSettings(a: Capture, b: Capture) {
    a.d.key == b.d.key && a.d.sig == b.d.sig && a.epoch == b.epoch
  }

  /** A full sync of the volume, with these settings and under this epoch, succeeded on enough targets. */
  ghost predicate SyncedIn(log: seq<Event>, cap: Capture) {
    exists i :: && 0 <= i < |log| && log[i].SyncOk? && SameSettings(log[i].cap, cap)
                && EnoughTargets(log[i].cap.d, log[i].successes)
  }

  /** A watch of the volume, with these settings and under this epoch, was started. */
  ghost predicate WatchedIn(log: seq<Event>, cap: Capture) {
    exists i :: 0 <= i < |log| && log[i].WatchOk? && SameSettings(log[i].cap, cap)
  }

  predicate BehindSync(phase: PassPhase) { phase.AtWatch? || phase.AtPost? || phase.AtRemember? || phase.AtSchedule? }

  ghost predicate PassInOrder(log: seq<Event>, p: Pass) {
    && (p.cap.d.fullSync && BehindSync(p.phase) ==> SyncedIn(log, p.cap))
    && (p.phase.AtSchedule? ==> WatchedIn(log, p.cap))
  }

  ghost predicate SyncInOrder(log: seq<Event>, x: Sync) {
    x.phase.Checking? || x.phase.Marking? || x.phase.Posting? || x.phase.Remembering? ==> SyncedIn(log, x.cap)
  }

  /** Every watch start of a volume that wants a full sync has one in front of it. */
  ghost predicate LogInOrder(log: seq<Event>) {
    forall i :: 0 <= i < |log| && log[i].WatchOk? && log[i].cap.d.fullSync ==> SyncedIn(log[..i], log[i].cap)
  }

  ghost predicate InOrder(y: System) {
    && (forall id :: id in y.passes ==> PassInOrder(y.log, y.passes[id]))
    && (forall id :: id in y.syncs ==> SyncInOrder(y.log, y.syncs[id]))
    && LogInOrder(y.log)
  }

  lemma OrderMonotone(log: seq<Event>, log': seq<Event>)
    requires |log| <= |log'| && log'[..|log|] == log
    ensures forall cap :: SyncedIn(log, cap) ==> SyncedIn(log', cap)
    ensures forall cap :: WatchedIn(log, cap) ==> WatchedIn(log', cap)
  {
    assert forall i :: 0 <= i < |log| ==> log[i] == log'[..|log|][i] == log'[i];
  }

  lemma LogInOrderSnoc(log: seq<Event>, e: Event)
    requires LogInOrder(log) && (e.WatchOk? && e.cap.d.fullSync ==> SyncedIn(log, e.cap))
    ensures LogInOrder(log + [e])
  {
    var log' := log + [e];
    forall i | 0 <= i < |log'| && log'[i].WatchOk? && log'[i].cap.d.fullSync ensures SyncedIn(log'[..i], log'[i].cap) {
      if i < |log| {
        assert log'[..i] == log[..i] && log'[i] == log[i];
      } else {
        assert log'[..i] == log;
      }
    }
  }

  /** An entry of the completed syncs stands for a sync with the settings it names. */
  lemma CompletedIsSynced(y: System, cap: Capture)
    requires Grounded(y) && AllTimely(y) && ':' !in cap.d.key && SyncKeyOf(cap, Startup) in y.state.completed
    ensures SyncedIn(y.log, cap)
  {
    var entry := SyncKeyOf(cap, Startup);
    assert Completes(y.log, entry);
    var c :| HasSyncOk(y.log, c) && SyncKeyOf(c, Startup) == entry;
    var i :| 0 <= i < |y.log| && y.log[i].SyncOk? && y.log[i].cap == c && y.log[i].successes >= Threshold(c.d);
    SyncKeyInjective(c.d.key, SignatureOf(c), cap.d.key, SignatureOf(cap));
    SignatureInjective(c.epoch, c.d.sig, cap.epoch, cap.d.sig);
    ThresholdInNumbers(c.d, y.log[i].successes);
  }

  lemma RememberedIsWatched(y: System, cap: Capture)
    requires Grounded(y) && cap.d.key in y.state.started && y.state.started[cap.d.key] == SignatureOf(cap)
    ensures WatchedIn(y.log, cap)
  {
    assert Watches(y.log, cap.d.key, SignatureOf(cap));
    var c :| HasWatchOk(y.log, c) && c.d.key == cap.d.key && SignatureOf(c) == SignatureOf(cap);
    var i :| 0 <= i < |y.log| && y.log[i] == WatchOk(c);
    SignatureInjective(c.epoch, c.d.sig, cap.epoch, cap.d.sig);
  }

  lemma SyncOkIsSynced(log: seq<Event>, cap: Capture)
    requires HasSyncOk(log, cap)
    ensures SyncedIn(log, cap)
  {
    var i :| 0 <= i < |log| && log[i].SyncOk? && log[i].cap == cap && log[i].successes >= Threshold(cap.d);
    ThresholdInNumbers(cap.d, log[i].successes);
  }

  lemma WatchOkIsWatched(log: seq<Event>, cap: Capture)
    requires HasWatchOk(log, cap)
    ensures WatchedIn(log, cap)
  {
    var i :| 0 <= i < |log| && log[i] == WatchOk(cap);
  }

  /** Only pass `id` has moved; a sync is as before or just starting. */
  ghost predicate OnlyPassMoved(y: System, y': System, id: nat) {
    && (forall p :: p in y'.passes && p != id ==> p in y.passes && y'.passes[p] == y.passes[p])
    && (forall x :: x in y'.syncs ==> (x in y.syncs && y'.syncs[x] == y.syncs[x]) || y'.syncs[x].phase.Copying?)
  }

  /** Only sync `id` has moved. */
  ghost predicate OnlySyncMoved(y: System, y': System, id: nat) {
    y'.passes == y.passes && forall x :: x in y'.syncs && x != id ==> x in y.syncs && y'.syncs[x] == y.syncs[x]
  }

  lemma PassStepMoves(y: System, step: Step)
    requires Enabled(y, step) && IsPassStep(step)
    ensures OnlyPassMoved(y, Next(y, step), step.id)
  {}

  lemma SyncStepMoves(y: System, step: Step)
    requires Enabled(y, step) && IsSyncStep(step)
    ensures OnlySyncMoved(y, Next(y, step), step.id)
  {}

  lemma PassFrame(y: System, y': System, id: nat)
    requires InOrder(y) && |y.log| <= |y'.log| && y'.log[..|y.log|] == y.log && LogInOrder(y'.log)
    requires OnlyPassMoved(y, y', id) && (id in y'.passes ==> PassInOrder(y'.log, y'.passes[id]))
    ensures InOrder(y')
  {
    OrderMonotone(y.log, y'.log);
    forall p | p in y'.passes ensures PassInOrder(y'.log, y'.passes[p]) {
      assert p != id ==> PassInOrder(y.log, y.passes[p]);
    }
    forall x | x in y'.syncs ensures SyncInOrder(y'.log, y'.syncs[x]) {
      assert x in y.syncs ==> SyncInOrder(y.log, y.syncs[x]);
    }
  }

  lemma SyncFrame(y: System, y': System, id: nat)
    requires InOrder(y) && |y.log| <= |y'.log| && y'.log[..|y.log|] == y.log && LogInOrder(y'.log)
    requires OnlySyncMoved(y, y', id) && (id in y'.syncs ==> SyncInOrder(y'.log, y'.syncs[id]))
    ensures InOrder(y')
  {
    OrderMonotone(y.log, y'.log);
    forall p | p in y'.passes ensures PassInOrder(y'.log, y'.passes[p]) {
      assert PassInOrder(y.log, y.passes[p]);
    }
    forall x | x in y'.syncs ensures SyncInOrder(y'.log, y'.syncs[x]) {
      assert x != id ==> SyncInOrder(y.log, y.syncs[x]);
    }
  }

  /** A pass gets behind its sync only when one is completed, and to its schedule only with a watch. */
  lemma PassAdvances(y: System, step: Step)
    requires Grounded(y) && AllTimely(y) && Enabled(y, step) && IsPassStep(step)
    ensures step.Read? && Next(y, step).passes[step.id].phase.AtWatch? && y.passes[step.id].cap.d.fullSync ==>
              SyncedIn(y.log, y.passes[step.id].cap)
    ensures step.id in Next(y, step).passes && Next(y, step).passes[step.id].phase.AtSchedule? ==>
              WatchedIn(y.log, y.passes[step.id].cap)
  {
    var p := y.passes[step.id];
    if step.Read? && SyncKeyOf(p.cap, Startup) in y.state.completed {
      CompletedIsSynced(y, p.cap);
    }
    if step.Watch? && p.cap.d.key in y.state.started && y.state.started[p.cap.d.key] == SignatureOf(p.cap) {
      RememberedIsWatched(y, p.cap);
    }
    if step.Remember? {
      WatchOkIsWatched(y.log, p.cap);
    }
  }

  /** The pass that takes a step stays in order. */
  lemma PassStaysInOrder(y: System, step: Step)
    requires InOrder(y) && Grounded(y) && AllTimely(y) && Enabled(y, step) && IsPassStep(step)
    ensures step.id in Next(y, step).passes ==> PassInOrder(Next(y, step).log, Next(y, step).passes[step.id])
  {
    assert PassInOrder(y.log, y.passes[step.id]);
    PassStepGrows(y, step);
    OrderMonotone(y.log, Next(y, step).log);
    PassAdvances(y, step);
  }

  lemma PassLogInOrder(y: System, step: Step)
    requires InOrder(y) && Enabled(y, step) && IsPassStep(step)
    ensures LogInOrder(Next(y, step).log)
  {
    var p := y.passes[step.id];
    assert PassInOrder(y.log, p);
    if step.Post? && step.ok {
      LogInOrderSnoc(y.log, WatchOk(p.cap));
    }
  }

  lemma PassStepInOrder(y: System, step: Step)
    requires InOrder(y) && Grounded(y) && AllTimely(y) && Enabled(y, step) && IsPassStep(step)
    ensures InOrder(Next(y, step))
  {
    PassStepGrows(y, step);
    PassStepMoves(y, step);
    PassStaysInOrder(y, step);
    PassLogInOrder(y, step);
    PassFrame(y, Next(y, step), step.id);
  }

  lemma SyncStaysInOrder(y: System, step: Step)
    requires InOrder(y) && Grounded(y) && Enabled(y, step) && IsSyncStep(step) && !step.End?
    ensures SyncInOrder(Next(y, step).log, Next(y, step).syncs[step.id])
  {
    var y', x := Next(y, step), y.syncs[step.id];
    assert SyncInOrder(y.log, x);
    SyncStepGrows(y, step);
    OrderMonotone(y.log, y'.log);
    if step.Copy? && step.prepared && step.successes >= Threshold(x.cap.d) {
      assert y'.log[|y.log|] == SyncOk(x.cap, step.successes);
      SyncOkIsSynced(y'.log, x.cap);
    }
  }

  lemma SyncLogInOrder(y: System, step: Step)
    requires InOrder(y) && Enabled(y, step) && IsSyncStep(step)
    ensures LogInOrder(Next(y, step).log)
  {
    var x := y.syncs[step.id];
    assert SyncInOrder(y.log, x);
    if step.Copy? {
      LogInOrderSnoc(y.log, SyncOk(x.cap, step.successes));
    }
    if step.SyncPost? && step.ok {
      LogInOrderSnoc(y.log, WatchOk(x.cap));
    }
  }

  lemma SyncStepInOrder(y: System, step: Step)
    requires InOrder(y) && Grounded(y) && Enabled(y, step) && IsSyncStep(step)
    ensures InOrder(Next(y, step))
  {
    SyncStepGrows(y, step);
    SyncStepMoves(y, step);
    if !step.End? {
      SyncStaysInOrder(y, step);
    }
    SyncLogInOrder(y, step);
    SyncFrame(y, Next(y, step), step.id);
  }

  lemma NoteInOrder(y: System, step: Step)
    requires InOrder(y) && Enabled(y, step) && step.Note?
    ensures InOrder(Next(y, step))
  {
    NoteFrame(y, step);
  }

  lemma {:induction false} RunInOrder(systems: seq<System>, steps: seq<Step>, n: nat)
    requires IsRun(systems, steps) && n < |systems|
    ensures InOrder(systems[n])
  {
    if n > 0 {
      var y, step := systems[n - 1], steps[n - 1];
      RunInOrder(systems, steps, n - 1);
      RunIsGrounded(systems, steps, n - 1);
      if step.Note? {
        NoteInOrder(y, step);
      } else if IsPassStep(step) {
        PassStepInOrder(y, step);
      } else {
        SyncStepInOrder(y, step);
      }
    }
  }

  /** In every interleaving, a watch of a volume that wants a full sync is started only after one of the
      same volume, settings and epoch succeeded on enough targets. */
  lemma WatchComesAfterSync(systems: seq<System>, steps: seq<Step>, n: nat, i: nat) returns (j: nat)
    requires IsRun(systems, steps) && n < |systems| && i < |systems[n].log|
    requires systems[n].log[i].WatchOk? && systems[n].log[i].cap.d.fullSync
    ensures var log := systems[n].log;
            && j < i && log[j].SyncOk? && SameSettings(log[j].cap, log[i].cap) && EnoughTargets(log[j].cap.d, log[j].successes)
  {
    RunInOrder(systems, steps, n);
    var log := systems[n].log;
    assert SyncedIn(log[..i], log[i].cap);
    j :| 0 <= j < |log[..i]| && log[..i][j].SyncOk? && SameSettings(log[..i][j].cap, log[i].cap)
         && EnoughTargets(log[..i][j].cap.d, log[..i][j].successes);
  }

  /** No pass gets to its schedule without a watch of its own settings and epoch. */
  lemma ScheduleComesAfterWatch(systems: seq<System>, steps: seq<Step>, n: nat, id: nat)
    requires IsRun(systems, steps) && n < |systems| && PassAt(systems[n], id, AtSchedule)
    ensures WatchedIn(systems[n].log, systems[n].passes[id].cap)
  {
    RunInOrder(systems, steps, n);
    assert PassInOrder(systems[n].log, systems[n].passes[id]);
  }

  // ----- why a sync starts -----

  /** Step `k` gives the reason: a trigger, a read that finds the volume not synced under these
      settings, or a schedule that is due and not served today. */
  ghost predicate IsReason(systems: seq<System>, steps: seq<Step>, k: nat, cap: Capture, kind: Kind)
    requires k < |steps| && k < |systems|
  {
    var y, step := systems[k], steps[k];
    match kind
    case Manual => step.Note? && step.manual && step.d == cap.d
    case Startup =>
      step.Read? && step.id in y.passes && y.passes[step.id].cap == cap && cap.d.fullSync
      && SyncKeyOf(cap, Startup) !in y.state.completed
    case Scheduled(today) =>
      step.Schedule? && step.due && step.today == today && step.id in y.passes && y.passes[step.id].cap == cap
      && NotServed(y.state, cap.d, today)
  }

  ghost predicate HasReason(systems: seq<System>, steps: seq<Step>, n: nat, cap: Capture, kind: Kind)
    requires n <= |steps| && n < |systems|
  {
    exists k :: 0 <= k < n && IsReason(systems, steps, k, cap, kind)
  }

  /** The step that put a pass before a try is its reason; the step that started a sync was a try. */
  lemma TryHasOrigin(y: System, step: Step, id: nat)
    requires Enabled(y, step) && id in Next(y, step).passes && Next(y, step).passes[id].phase.AtTry?
    ensures var p := Next(y, step).passes[id];
            || (id in y.passes && y.passes[id] == p)
            || (step.Note? && step.manual && step.d == p.cap.d && p.phase.kind == Manual)
            || (step.Read? && step.id in y.passes && y.passes[step.id].cap == p.cap && p.phase.kind == Startup
                && p.cap.d.fullSync && SyncKeyOf(p.cap, Startup) !in y.state.completed)
            || (step.Schedule? && step.id in y.passes && y.passes[step.id].cap == p.cap && step.due
                && p.phase.kind == Scheduled(step.today) && NotServed(y.state, p.cap.d, step.today))
  {}

  /** The schedule has not been served on that day. */
  ghost predicate NotServed(s: State, d: Desired, today: string) {
    var key := SyncKey(d.key, d.schedule);
    if key in s.scheduledOn then s.scheduledOn[key] != today else today != ""
  }

  lemma SyncHasOrigin(y: System, step: Step, id: nat)
    requires Enabled(y, step) && id in Next(y, step).syncs
    ensures var x := Next(y, step).syncs[id];
            || (id in y.syncs && y.syncs[id].cap == x.cap && y.syncs[id].kind == x.kind)
            || (step.Try? && y.passes[step.id].cap == x.cap && y.passes[step.id].phase == AtTry(x.kind))
  {}

  ghost predicate AllHaveReasons(systems: seq<System>, steps: seq<Step>, n: nat)
    requires n <= |steps| && n < |systems|
  {
    && (forall id :: id in systems[n].passes && systems[n].passes[id].phase.AtTry? ==>
          HasReason(systems, steps, n, systems[n].passes[id].cap, systems[n].passes[id].phase.kind))
    && (forall id :: id in systems[n].syncs ==> HasReason(systems, steps, n, systems[n].syncs[id].cap, systems[n].syncs[id].kind))
  }

  lemma ReasonStays(systems: seq<System>, steps: seq<Step>, n: nat, cap: Capture, kind: Kind)
    requires n < |steps| && n + 1 < |systems| && HasReason(systems, steps, n, cap, kind)
    ensures HasReason(systems, steps, n + 1, cap, kind)
  {
    var k :| 0 <= k < n && IsReason(systems, steps, k, cap, kind);
    assert k < n + 1;
  }

  lemma PassReason(systems: seq<System>, steps: seq<Step>, n: nat, id: nat)
    requires IsRun(systems, steps) && n < |steps| && AllHaveReasons(systems, steps, n)
    requires id in systems[n + 1].passes && systems[n + 1].passes[id].phase.AtTry?
    ensures HasReason(systems, steps, n + 1, systems[n + 1].passes[id].cap, systems[n + 1].passes[id].phase.kind)
  {
    var p := systems[n + 1].passes[id];
    assert systems[n + 1] == Next(systems[n], steps[n]);
    TryHasOrigin(systems[n], steps[n], id);
    if id in systems[n].passes && systems[n].passes[id] == p {
      ReasonStays(systems, steps, n, p.cap, p.phase.kind);
    } else {
      assert IsReason(systems, steps, n, p.cap, p.phase.kind);
    }
  }

  lemma SyncReason(systems: seq<System>, steps: seq<Step>, n: nat, id: nat)
    requires IsRun(systems, steps) && n < |steps| && AllHaveReasons(systems, steps, n) && id in systems[n + 1].syncs
    ensures HasReason(systems, steps, n + 1, systems[n + 1].syncs[id].cap, systems[n + 1].syncs[id].kind)
  {
    var x := systems[n + 1].syncs[id];
    assert systems[n + 1] == Next(systems[n], steps[n]) && Enabled(systems[n], steps[n]);
    SyncHasOrigin(systems[n], steps[n], id);
    ReasonStays(systems, steps, n, x.cap, x.kind);
  }

  /** In every interleaving, every full sync in flight goes back to a trigger, to a pass that wants a full
      sync and found none completed under its settings, or to a schedule that was due and not served. */
  lemma {:induction false} SyncsHaveReasons(systems: seq<System>, steps: seq<Step>, n: nat)
    requires IsRun(systems, steps) && n < |systems|
    ensures AllHaveReasons(systems, steps, n)
  {
    if n > 0 {
      SyncsHaveReasons(systems, steps, n - 1);
      forall id | id in systems[n].passes && systems[n].passes[id].phase.AtTry?
        ensures HasReason(systems, steps, n, systems[n].passes[id].cap, systems[n].passes[id].phase.kind)
      {
        PassReason(systems, steps, n - 1, id);
      }
      forall id | id in systems[n].syncs
        ensures HasReason(systems, steps, n, systems[n].syncs[id].cap, systems[n].syncs[id].kind)
      {
        SyncReason(systems, steps, n - 1, id);
      }
    }
  }

  // ----- completions act only under their own epoch -----

  /** Step `k` is the check of a completion that found its epoch current. */
  ghost predicate IsCheck(systems: seq<System>, steps: seq<Step>, k: nat, cap: Capture)
    requires k < |steps| && k < |systems|
  {
    steps[k].Check? && CurrentEpoch(systems[k].state, cap.d.key, cap.d.node, cap.epoch)
  }

  predicate BehindCheck(x: Sync) {
    (x.phase.Marking? && x.kind.Startup?) || x.phase.Posting? || x.phase.Remembering?
  }

  lemma CheckHasOrigin(y: System, step: Step, id: nat)
    requires Enabled(y, step) && id in Next(y, step).syncs && BehindCheck(Next(y, step).syncs[id])
    requires forall x :: x in y.syncs && y.syncs[x].phase.Marking? ==> !y.syncs[x].kind.Manual?
    ensures var x := Next(y, step).syncs[id];
            || (id in y.syncs && y.syncs[id].cap == x.cap && BehindCheck(y.syncs[id]))
            || (step.Check? && CurrentEpoch(y.state, x.cap.d.key, x.cap.d.node, x.cap.epoch))
  {
    if IsSyncStep(step) {
      SyncStepMoves(y, step);
    } else if IsPassStep(step) {
      PassStepMoves(y, step);
    } else {
      NoteFrame(y, step);
    }
  }

  /** A completion that marks its sync or starts its watch has found its epoch current, and so, by
      EpochCheckIsExact, no other active node noted since it was captured. */
  lemma {:induction false} CompletionWasChecked(systems: seq<System>, steps: seq<Step>, n: nat, id: nat) returns (k: nat)
    requires IsRun(systems, steps) && n < |systems| && id in systems[n].syncs && BehindCheck(systems[n].syncs[id])
    ensures k < n && IsCheck(systems, steps, k, systems[n].syncs[id].cap)
  {
    var m := n - 1;
    assert systems[n] == Next(systems[m], steps[m]) && Enabled(systems[m], steps[m]);
    RunIsGrounded(systems, steps, m);
    assert forall x :: x in systems[m].syncs ==> SyncCovered(systems[m].log, systems[m].syncs[x]);
    CheckHasOrigin(systems[m], steps[m], id);
    if id in systems[m].syncs && systems[m].syncs[id].cap == systems[n].syncs[id].cap && BehindCheck(systems[m].syncs[id]) {
      k := CompletionWasChecked(systems, steps, m, id);
    } else {
      k := m;
    }
  }

  // ----- syncs do start and complete -----

  /** A pass that tries while no sync of its volume is in flight puts one in flight. */
  lemma TryStarts(y: System, id: nat)
    requires OneInFlight(y) && ColonFreeKeys(y) && id in y.passes && y.passes[id].phase.AtTry?
    ensures var p, y' := y.passes[id], Next(y, Try(id));
            && id !in y'.passes
            && if exists x :: x in y.syncs && y.syncs[x].cap.d.key == p.cap.d.key then y'.syncs == y.syncs
               else y'.syncs == y.syncs[y.spawned := Sync(p.cap, p.phase.kind, SyncKeyOf(p.cap, p.phase.kind), Copying)]
  {
    BusyIffInFlight(y, y.passes[id].cap.d.key);
  }

  /** A pass that wants a full sync and finds none completed tries one; any other goes on to its watch,
      and starts one unless it is remembered and reported running. */
  lemma PassGoesOn(y: System, id: nat, running: bool)
    requires id in y.passes
    ensures PassAt(y, id, AtRead) ==>
              var p, y' := y.passes[id], Next(y, Read(id));
              y'.passes[id] == p.(phase := if p.cap.d.fullSync && SyncKeyOf(p.cap, Startup) !in y.state.completed
                                           then AtTry(Startup) else AtWatch)
    ensures PassAt(y, id, AtWatch) ==>
              var p, y' := y.passes[id], Next(y, Watch(id, running));
              y'.passes[id] == p.(phase := if running && p.cap.d.key in y.state.started
                                              && y.state.started[p.cap.d.key] == SignatureOf(p.cap)
                                           then AtSchedule else AtPost)
  {}

  /** A trigger tries a full sync at once, whatever is completed; a pass of the controller reads first.
      Both act under the epoch of the moment. */
  lemma NoteStarts(y: System, id: nat, d: Desired, manual: bool)
    requires Enabled(y, Note(id, d, manual))
    ensures var y' := Next(y, Note(id, d, manual));
            && id in y'.passes && y'.passes[id].cap.d == d && y'.passes[id].phase == (if manual then AtTry(Manual) else AtRead)
            && CurrentEpoch(y'.state, d.key, d.node, y'.passes[id].cap.epoch)
  {}

  /** The system after a list of steps, as far as they are enabled. */
  function RunSteps(y: System, steps: seq<Step>): System
    decreases |steps|
  {
    if steps == [] || !Enabled(y, steps[0]) then y else RunSteps(Next(y, steps[0]), steps[1..])
  }

  lemma RunStepsCons(y: System, step: Step, steps: seq<Step>)
    requires Enabled(y, step)
    ensures RunSteps(y, [step] + steps) == RunSteps(Next(y, step), steps)
  {
    assert ([step] + steps)[0] == step && ([step] + steps)[1..] == steps;
  }

  /** A full sync that is copying under the current epoch, and succeeds on enough targets, is marked as
      completed; its watch is started and remembered; and its volume is free again. */
  lemma SyncSettles(y: System, id: nat, successes: nat)
    requires SyncAt(y, id, Copying) && y.syncs[id].kind == Startup && EnoughTargets(y.syncs[id].cap.d, successes)
    requires var cap := y.syncs[id].cap; CurrentEpoch(y.state, cap.d.key, cap.d.node, cap.epoch)
    ensures var x := y.syncs[id];
            var y' := RunSteps(y, [Copy(id, true, successes), Check(id), Mark(id), SyncPost(id, true), SyncRemember(id), End(id)]);
            && x.syncKey in y'.state.completed && x.syncKey !in y'.state.running && id !in y'.syncs
            && x.cap.d.key in y'.state.started && y'.state.started[x.cap.d.key] == SignatureOf(x.cap)
  {
    var x := y.syncs[id];
    ThresholdInNumbers(x.cap.d, successes);
    var y1 := Next(y, Copy(id, true, successes));
    SettleMark(y1, id);
    assert [Copy(id, true, successes), Check(id), Mark(id), SyncPost(id, true), SyncRemember(id), End(id)]
        == [Copy(id, true, successes)] + [Check(id), Mark(id), SyncPost(id, true), SyncRemember(id), End(id)];
    RunStepsCons(y, Copy(id, true, successes), [Check(id), Mark(id), SyncPost(id, true), SyncRemember(id), End(id)]);
  }

  lemma SettleMark(y: System, id: nat)
    requires SyncAt(y, id, Checking) && y.syncs[id].kind == Startup
    requires var cap := y.syncs[id].cap; CurrentEpoch(y.state, cap.d.key, cap.d.node, cap.epoch)
    ensures var x := y.syncs[id];
            var y' := RunSteps(y, [Check(id), Mark(id), SyncPost(id, true), SyncRemember(id), End(id)]);
            && x.syncKey in y'.state.completed && x.syncKey !in y'.state.running && id !in y'.syncs
            && x.cap.d.key in y'.state.started && y'.state.started[x.cap.d.key] == SignatureOf(x.cap)
  {
    var y1 := Next(y, Check(id));
    var y2 := Next(y1, Mark(id));
    assert SyncAt(y1, id, Marking) && SyncAt(y2, id, Posting);
    assert y2.syncs[id] == y.syncs[id].(phase := Posting) && y.syncs[id].syncKey in y2.state.completed;
    SettleWatch(y2, id);
    var tail := [SyncPost(id, true), SyncRemember(id), End(id)];
    RunStepsCons(y1, Mark(id), tail);
    RunStepsCons(y, Check(id), [Mark(id)] + tail);
    assert [Check(id)] + ([Mark(id)] + tail) == [Check(id), Mark(id), SyncPost(id, true), SyncRemember(id), End(id)];
  }

  lemma SettleWatch(y: System, id: nat)
    requires SyncAt(y, id, Posting)
    ensures var x := y.syncs[id];
            var y' := RunSteps(y, [SyncPost(id, true), SyncRemember(id), End(id)]);
            && y'.state.completed == y.state.completed && x.syncKey !in y'.state.running && id !in y'.syncs
            && x.cap.d.key in y'.state.started && y'.state.started[x.cap.d.key] == SignatureOf(x.cap)
  {
    var y1 := Next(y, SyncPost(id, true));
    var y2 := Next(y1, SyncRemember(id));
    assert SyncAt(y1, id, Remembering) && SyncAt(y2, id, Ending);
    assert y2.syncs[id] == y.syncs[id].(phase := Ending);
    RunStepsCons(y2, End(id), []);
    RunStepsCons(y1, SyncRemember(id), [End(id)]);
    RunStepsCons(y, SyncPost(id, true), [SyncRemember(id)] + [End(id)]);
    assert [End(id)] + [] == [End(id)];
    assert [SyncPost(id, true)] + ([SyncRemember(id)] + [End(id)]) == [SyncPost(id, true), SyncRemember(id), End(id)];
  }

  /** A watch that is started is remembered, and a later pass of the same settings and epoch that hears of
      it running goes on to its schedule. */
  lemma WatchIsRemembered(y: System, id: nat)
    requires PassAt(y, id, AtPost)
    ensures var cap, y' := y.passes[id].cap, Next(Next(y, Post(id, true)), Remember(id));
            && PassAt(y', id, AtSchedule)
            && cap.d.key in y'.state.started && y'.state.started[cap.d.key] == SignatureOf(cap)
  {
    assert PassAt(Next(y, Post(id, true)), id, AtRemember);
  }

  /** A scheduled sync that succeeds on enough targets is recorded for its day, and a pass that finds the
      record starts no other. */
  lemma ScheduleIsServed(y: System, id: nat, successes: nat)
    requires SyncAt(y, id, Copying) && y.syncs[id].kind.Scheduled? && EnoughTargets(y.syncs[id].cap.d, successes)
    ensures var x, y' := y.syncs[id], Next(Next(y, Copy(id, true, successes)), Mark(id));
            SyncAt(y', id, Ending) && !NotServed(y'.state, x.cap.d, x.kind.today)
  {
    ThresholdInNumbers(y.syncs[id].cap.d, successes);
    assert SyncAt(Next(y, Copy(id, true, successes)), id, Marking);
  }

  lemma ScheduleDecides(y: System, id: nat, due: bool, today: string)
    requires PassAt(y, id, AtSchedule)
    ensures var p, y' := y.passes[id], Next(y, Schedule(id, due, today));
            if due && NotServed(y.state, p.cap.d, today) then y'.passes == y.passes[id := p.(phase := AtTry(Scheduled(today)))]
            else y'.passes == y.passes - {id}
  {}

  /** Some full sync of the schedule's volume succeeded on enough targets. */
  ghost predicate ServedIn(log: seq<Event>, key: string) {
    exists i :: && 0 <= i < |log| && log[i].SyncOk? && SyncKey(log[i].cap.d.key, log[i].cap.d.schedule) == key
                && EnoughTargets(log[i].cap.d, log[i].successes)
  }

  lemma SyncOkIsServed(log: seq<Event>, cap: Capture)
    requires HasSyncOk(log, cap)
    ensures ServedIn(log, SyncKey(cap.d.key, cap.d.schedule))
  {
    var i :| 0 <= i < |log| && log[i].SyncOk? && log[i].cap == cap && log[i].successes >= Threshold(cap.d);
    ThresholdInNumbers(cap.d, log[i].successes);
  }

  lemma ServedMonotone(log: seq<Event>, log': seq<Event>, key: string)
    requires |log| <= |log'| && log'[..|log|] == log && ServedIn(log, key)
    ensures ServedIn(log', key)
  {
    assert forall i :: 0 <= i < |log| ==> log[i] == log'[..|log|][i] == log'[i];
  }

  /** Only a mark records a day. */
  lemma OnlyMarksServe(y: System, step: Step, key: string)
    requires Enabled(y, step) && key in Next(y, step).state.scheduledOn
    ensures key in y.state.scheduledOn
         || (step.Mark? && y.syncs[step.id].phase.Marking? && key == SyncKey(y.syncs[step.id].cap.d.key, y.syncs[step.id].cap.d.schedule))
  {}

  lemma StepLogGrows(y: System, step: Step)
    requires Enabled(y, step)
    ensures |y.log| <= |Next(y, step).log| && Next(y, step).log[..|y.log|] == y.log
  {
    if IsPassStep(step) {
      PassStepGrows(y, step);
    } else if IsSyncStep(step) {
      SyncStepGrows(y, step);
    }
  }

  lemma ServedStep(y: System, step: Step, key: string)
    requires Grounded(y) && Enabled(y, step) && key in Next(y, step).state.scheduledOn
    requires key in y.state.scheduledOn ==> ServedIn(y.log, key)
    ensures ServedIn(Next(y, step).log, key)
  {
    OnlyMarksServe(y, step, key);
    StepLogGrows(y, step);
    if key !in y.state.scheduledOn {
      assert SyncCovered(y.log, y.syncs[step.id]);
      SyncOkIsServed(y.log, y.syncs[step.id].cap);
    }
    ServedMonotone(y.log, Next(y, step).log, key);
  }

  ghost predicate AllServed(y: System) { forall key :: key in y.state.scheduledOn ==> ServedIn(y.log, key) }

  lemma StepKeepsServed(y: System, step: Step)
    requires Grounded(y) && Enabled(y, step) && AllServed(y)
    ensures AllServed(Next(y, step))
  {
    forall key | key in Next(y, step).state.scheduledOn ensures ServedIn(Next(y, step).log, key) {
      ServedStep(y, step, key);
    }
  }

  /** In every interleaving, a schedule recorded as served has a full sync behind it that succeeded on
      enough targets. */
  lemma {:induction false} ServedMeansSynced(systems: seq<System>, steps: seq<Step>, n: nat)
    requires IsRun(systems, steps) && n < |systems|
    ensures AllServed(systems[n])
  {
    if n > 0 {
      ServedMeansSynced(systems, steps, n - 1);
      RunIsGrounded(systems, steps, n - 1);
      StepKeepsServed(systems[n - 1], steps[n - 1]);
    }
  }
}
