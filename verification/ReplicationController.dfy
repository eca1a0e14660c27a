/** The replication controller: epochs, completed, running and remembered syncs, shared by
    reconcile passes, manual triggers and background completions. */
module ReplicationController {
  import opened Keys
  import WatchManager

  /** The state behind the controller's mutex. */
  datatype State = State(
    started: map<string, string>, completed: set<string>, running: set<string>,
    scheduledOn: map<string, string>, lastActive: map<string, string>, epochs: map<string, nat>)

  const INITIAL := State(map[], {}, {}, map[], map[], map[])

  function ActiveNode(s: State, key: string): string { if key in s.lastActive then s.lastActive[key] else "" }

  function Epoch(s: State, key: string): nat { if key in s.epochs then s.epochs[key] else 0 }

  // ----- the critical sections, as functions -----

  /** The noted node replaces a different one. */
  predicate Changes(s: State, key: string, node: string) {
    ActiveNode(s, key) != "" && ActiveNode(s, key) != node
  }

  function NoteActive(s: State, key: string, node: string): State {
    if Changes(s, key, node) then
      s.(epochs := s.epochs[key := Epoch(s, key) + 1],
         started := s.started - {key},
         completed := (set x | x in s.completed && !OfVolume(x, key)),
         lastActive := s.lastActive[key := node])
    else s.(lastActive := s.lastActive[key := node])
  }

  /** Noting an active node touches one volume: a change of node forgets the volume's watch and completed
      syncs and starts the next epoch, and the entries of every other volume stay. */
  lemma NoteActiveFrame(s: State, key: string, node: string, other: string, suffix: string)
    requires ':' !in key && ':' !in other && other != key
    ensures var s' := NoteActive(s, key, node);
            && (SyncKey(other, suffix) in s'.completed <==> SyncKey(other, suffix) in s.completed)
            && (other in s'.started <==> other in s.started) && (other in s.started ==> s'.started[other] == s.started[other])
            && Epoch(s', other) == Epoch(s, other) && ActiveNode(s', other) == ActiveNode(s, other)
            && s'.running == s.running && s'.scheduledOn == s.scheduledOn && ActiveNode(s', key) == node
            && (Changes(s, key, node) ==>
                  Epoch(s', key) == Epoch(s, key) + 1 && key !in s'.started && SyncKey(key, suffix) !in s'.completed)
            && (!Changes(s, key, node) ==>
                  Epoch(s', key) == Epoch(s, key) && s'.started == s.started && s'.completed == s.completed)
  {
    OfVolumeExact(other, suffix, key);
    OfVolumeExact(key, suffix, key);
  }

  predicate CurrentEpoch(s: State, key: string, node: string, epoch: nat) {
    ActiveNode(s, key) == node && Epoch(s, key) == epoch
  }

  predicate Busy(s: State, key: string) { exists x :: x in s.running && OfVolume(x, key) }

  function TryStart(s: State, key: string, syncKey: string): State {
    if Busy(s, key) then s else s.(running := s.running + {syncKey})
  }

  // ----- the class -----

  class Controller {
    var started: map<string, string>
    var completed: set<string>
    var running: set<string>
    var scheduledOn: map<string, string>
    var lastActive: map<string, string>
    var epochs: map<string, nat>

    constructor ()
      ensures View() == INITIAL
    {
      started, completed, running := map[], {}, {};
      scheduledOn, lastActive, epochs := map[], map[], map[];
    }

    ghost function View(): State
      reads this
    {
      State(started, completed, running, scheduledOn, lastActive, epochs)
    }

    method NoteActiveNode(key: string, node: string) returns (epoch: nat)
      modifies this
      ensures View() == NoteActive(old(View()), key, node)
      ensures epoch == Epoch(View(), key)
    {
      var previous := if key in lastActive then lastActive[key] else "";
      if previous != "" && previous != node {
        epochs := epochs[key := (if key in epochs then epochs[key] else 0) + 1];
        started := started - {key};
        var rest, kept := completed, completed;
        while rest != {}
          invariant rest <= completed
          invariant kept == set x | x in completed && (x in rest || !OfVolume(x, key))
          decreases |rest|
        {
          var x :| x in rest;
          rest := rest - {x};
          if OfVolume(x, key) {
            kept := kept - {x};
          }
        }
        completed := kept;
      }
      lastActive := lastActive[key := node];
      epoch := if key in epochs then epochs[key] else 0;
    }

    method IsCurrentActiveEpoch(key: string, node: string, epoch: nat) returns (current: bool)
      ensures current == CurrentEpoch(View(), key, node, epoch)
    {
      current := (if key in lastActive then lastActive[key] else "") == node
              && (if key in epochs then epochs[key] else 0) == epoch;
    }

    method TryStartVolumeFullSync(key: string, syncKey: string) returns (ok: bool)
      modifies this
      ensures ok == !Busy(old(View()), key)
      ensures View() == TryStart(old(View()), key, syncKey)
    {
      var rest := running;
      while rest != {}
        invariant rest <= running
        invariant forall x :: x in running && OfVolume(x, key) ==> x in rest
        decreases |rest|
      {
        var x :| x in rest;
        rest := rest - {x};
        if OfVolume(x, key) {
          return false;
        }
      }
      running := running + {syncKey};
      ok := true;
    }

    method MarkCompleted(syncKey: string)
      modifies this
      ensures View() == old(View()).(completed := old(completed) + {syncKey})
    {
      completed := completed + {syncKey};
    }

    method RememberWatch(key: string, signature: string)
      modifies this
      ensures View() == old(View()).(started := old(started)[key := signature])
    {
      started := started[key := signature];
    }

    method FinishSync(syncKey: string)
      modifies this
      ensures View() == old(View()).(running := old(running) - {syncKey})
    {
      running := running - {syncKey};
    }
  }

  // ----- passes and background syncs as interleaved steps -----

  /** What a pass works from: the volume, its active node, and the settings that make up its
      signature. */
  datatype Desired = Desired(key: string, node: string, sig: string, fullSync: bool, schedule: string,
                             targets: nat, confirmed: int)

  /** A desired replication with the epoch noteActiveNode returned for it. */
  datatype Capture = Capture(d: Desired, epoch: nat)

  function SignatureOf(cap: Capture): string { Signature(cap.epoch, cap.d.sig) }

  datatype Kind = Startup | Manual | Scheduled(today: string)

  function SyncKeyOf(cap: Capture, kind: Kind): string {
    SyncKey(cap.d.key,
            match kind
            case Startup => SignatureOf(cap)
            case Manual => "manual"
            case Scheduled(today) => cap.d.schedule + ":" + today)
  }

  datatype PassPhase = AtRead | AtTry(kind: Kind) | AtWatch | AtPost | AtRemember | AtSchedule
  datatype Pass = Pass(cap: Capture, phase: PassPhase)

  datatype SyncPhase = Copying | Checking | Marking | Posting | Remembering | Ending
  datatype Sync = Sync(cap: Capture, kind: Kind, syncKey: string, phase: SyncPhase)

  /** What happened outside: full syncs and watch starts that succeeded. */
  datatype Event = SyncOk(cap: Capture, successes: nat) | WatchOk(cap: Capture)

  datatype System = System(state: State, passes: map<nat, Pass>, syncs: map<nat, Sync>, spawned: nat, log: seq<Event>)

  const BOOT := System(INITIAL, map[], map[], 0, [])

  datatype Step =
    | Note(id: nat, d: Desired, manual: bool)
    | Read(id: nat)
    | Try(id: nat)
    | Watch(id: nat, reportsRunning: bool)
    | Post(id: nat, ok: bool)
    | Remember(id: nat)
    | Schedule(id: nat, due: bool, today: string)
    | Copy(id: nat, prepared: bool, successes: nat)
    | Check(id: nat)
    | Mark(id: nat)
    | SyncPost(id: nat, ok: bool)
    | SyncRemember(id: nat)
    | End(id: nat)

  predicate PassAt(y: System, id: nat, phase: PassPhase) { id in y.passes && y.passes[id].phase == phase }

  predicate SyncAt(y: System, id: nat, phase: SyncPhase) { id in y.syncs && y.syncs[id].phase == phase }

  /** Volume keys are Kubernetes names, which hold no colon; the active node is known. */
  predicate Enabled(y: System, step: Step) {
    match step
    case Note(id, d, _) => id !in y.passes && d.node != "" && ':' !in d.key
    case Read(id) => PassAt(y, id, AtRead)
    case Try(id) => id in y.passes && y.passes[id].phase.AtTry?
    case Watch(id, _) => PassAt(y, id, AtWatch)
    case Post(id, _) => PassAt(y, id, AtPost)
    case Remember(id) => PassAt(y, id, AtRemember)
    case Schedule(id, _, _) => PassAt(y, id, AtSchedule)
    case Copy(id, _, _) => SyncAt(y, id, Copying)
    case Check(id) => SyncAt(y, id, Checking)
    case Mark(id) => SyncAt(y, id, Marking)
    case SyncPost(id, _) => SyncAt(y, id, Posting)
    case SyncRemember(id) => SyncAt(y, id, Remembering)
    case End(id) => SyncAt(y, id, Ending)
  }

  function ToPass(y: System, id: nat, phase: PassPhase): System
    requires id in y.passes
  {
    y.(passes := y.passes[id := y.passes[id].(phase := phase)])
  }

  function ToSync(y: System, id: nat, phase: SyncPhase): System
    requires id in y.syncs
  {
    y.(syncs := y.syncs[id := y.syncs[id].(phase := phase)])
  }

  function PassNext(y: System, step: Step): System
    requires Enabled(y, step) && IsPassStep(step)
  {
    var p := y.passes[step.id];
    var d := p.cap.d;
    var gone := y.(passes := y.passes - {step.id});
    match step
    case Read(id) =>
      if !d.fullSync || SyncKeyOf(p.cap, Startup) in y.state.completed then ToPass(y, id, AtWatch)
      else ToPass(y, id, AtTry(Startup))
    case Try(id) =>
      if Busy(y.state, d.key) then gone
      else
        var syncKey := SyncKeyOf(p.cap, p.phase.kind);
        gone.(state := TryStart(y.state, d.key, syncKey),
              syncs := y.syncs[y.spawned := Sync(p.cap, p.phase.kind, syncKey, Copying)], spawned := y.spawned + 1)
    case Watch(id, reportsRunning) =>
      if d.key in y.state.started && y.state.started[d.key] == SignatureOf(p.cap) && reportsRunning
      then ToPass(y, id, AtSchedule) else ToPass(y, id, AtPost)
    case Post(id, ok) => if ok then ToPass(y, id, AtRemember).(log := y.log + [WatchOk(p.cap)]) else gone
    case Remember(id) =>
      ToPass(y, id, AtSchedule).(state := y.state.(started := y.state.started[d.key := SignatureOf(p.cap)]))
    case Schedule(id, due, today) =>
      var scheduleKey := SyncKey(d.key, d.schedule);
      var last := if scheduleKey in y.state.scheduledOn then y.state.scheduledOn[scheduleKey] else "";
      if due && last != today then ToPass(y, id, AtTry(Scheduled(today))) else gone
  }

  function SyncNext(y: System, step: Step): System
    requires Enabled(y, step) && IsSyncStep(step)
  {
    var x := y.syncs[step.id];
    var d := x.cap.d;
    match step
    case Copy(id, prepared, successes) =>
      if !prepared || successes < WatchManager.ConfirmationThreshold(d.confirmed, d.targets) then ToSync(y, id, Ending)
      else ToSync(y, id, if x.kind.Scheduled? then Marking else Checking).(log := y.log + [SyncOk(x.cap, successes)])
    case Check(id) =>
      if CurrentEpoch(y.state, d.key, d.node, x.cap.epoch) && x.kind.Startup? then ToSync(y, id, Marking)
      else ToSync(y, id, Ending)
    case Mark(id) =>
      if x.kind.Scheduled? then
        ToSync(y, id, Ending)
          .(state := y.state.(scheduledOn := y.state.scheduledOn[SyncKey(d.key, d.schedule) := x.kind.today]))
      else
        ToSync(y, id, Posting).(state := y.state.(completed := y.state.completed + {x.syncKey}))
    case SyncPost(id, ok) =>
      if ok then ToSync(y, id, Remembering).(log := y.log + [WatchOk(x.cap)]) else ToSync(y, id, Ending)
    case SyncRemember(id) =>
      ToSync(y, id, Ending).(state := y.state.(started := y.state.started[d.key := SignatureOf(x.cap)]))
    case End(id) =>
      y.(syncs := y.syncs - {id}, state := y.state.(running := y.state.running - {x.syncKey}))
  }

  function Next(y: System, step: Step): System
    requires Enabled(y, step)
  {
    if step.Note? then
      var d := step.d;
      var state := NoteActive(y.state, d.key, d.node);
      var pass := Pass(Capture(d, Epoch(state, d.key)), if step.manual then AtTry(Manual) else AtRead);
      y.(state := state, passes := y.passes[step.id := pass])
    else if IsPassStep(step) then PassNext(y, step)
    else SyncNext(y, step)
  }

  ghost predicate IsRun(systems: seq<System>, steps: seq<Step>) {
    && |systems| == |steps| + 1 && systems[0] == BOOT
    && forall i :: 0 <= i < |steps| ==> Enabled(systems[i], steps[i]) && systems[i + 1] == Next(systems[i], steps[i])
  }

  // ----- at most one full sync per volume -----

  ghost predicate ColonFreeKeys(y: System) {
    && (forall id :: id in y.passes ==> ':' !in y.passes[id].cap.d.key)
    && (forall id :: id in y.syncs ==> ':' !in y.syncs[id].cap.d.key)
  }

  ghost predicate InFlight(y: System, syncKey: string) {
    exists id :: id in y.syncs && y.syncs[id].syncKey == syncKey
  }

  /** Every sync in flight has a number below the next one, a key of its volume, and that key runs. */
  ghost predicate Registered(y: System) {
    forall id :: id in y.syncs ==>
      && id < y.spawned && OfVolume(y.syncs[id].syncKey, y.syncs[id].cap.d.key)
      && y.syncs[id].syncKey in y.state.running
  }

  ghost predicate AllInFlight(y: System) { forall k :: k in y.state.running ==> InFlight(y, k) }

  ghost predicate OnePerVolume(y: System) {
    forall i, j :: i in y.syncs && j in y.syncs && i != j ==> y.syncs[i].cap.d.key != y.syncs[j].cap.d.key
  }

  /** The running set is the set of keys of the syncs in flight, and no volume has two. */
  ghost predicate OneInFlight(y: System) { Registered(y) && AllInFlight(y) && OnePerVolume(y) }

  /** A start is refused exactly when a full sync of that volume is in flight. */
  lemma BusyIffInFlight(y: System, key: string)
    requires OneInFlight(y) && ColonFreeKeys(y) && ':' !in key
    ensures Busy(y.state, key) <==> exists id :: id in y.syncs && y.syncs[id].cap.d.key == key
  {
    if Busy(y.state, key) {
      var k :| k in y.state.running && OfVolume(k, key);
      assert InFlight(y, k);
      var id :| id in y.syncs && y.syncs[id].syncKey == k;
      OfVolumeUnique(k, y.syncs[id].cap.d.key, key);
    }
    if id :| id in y.syncs && y.syncs[id].cap.d.key == key {
      assert OfVolume(y.syncs[id].syncKey, key);
    }
  }

  lemma StillInFlight(y: System, y': System, k: string, id: nat)
    requires id in y.syncs && y.syncs[id].syncKey == k && id in y'.syncs && y'.syncs[id] == y.syncs[id]
    ensures InFlight(y', k)
  {}

  lemma StartedRunning(y: System, y': System, x: Sync)
    requires Registered(y) && AllInFlight(y) && y'.syncs == y.syncs[y.spawned := x]
    requires y'.state.running == y.state.running + {x.syncKey}
    ensures AllInFlight(y')
  {
    forall k | k in y'.state.running ensures InFlight(y', k) {
      if k in y.state.running {
        assert InFlight(y, k);
        var id :| id in y.syncs && y.syncs[id].syncKey == k;
        StillInFlight(y, y', k, id);
      } else {
        assert y'.syncs[y.spawned].syncKey == k;
      }
    }
  }

  lemma StartKeepsOne(y: System, y': System, x: Sync)
    requires OneInFlight(y) && OfVolume(x.syncKey, x.cap.d.key)
    requires forall id :: id in y.syncs ==> y.syncs[id].cap.d.key != x.cap.d.key
    requires y'.syncs == y.syncs[y.spawned := x] && y'.spawned == y.spawned + 1
    requires y'.state.running == y.state.running + {x.syncKey}
    ensures OneInFlight(y')
  {
    StartedRunning(y, y', x);
    StartedIsOne(y, y', x);
  }

  lemma StartedIsOne(y: System, y': System, x: Sync)
    requires OnePerVolume(y) && y'.syncs == y.syncs[y.spawned := x]
    requires forall id :: id in y.syncs ==> y.syncs[id].cap.d.key != x.cap.d.key
    ensures OnePerVolume(y')
  {}

  lemma TryKeepsOne(y: System, step: Step)
    requires OneInFlight(y) && ColonFreeKeys(y) && step.Try? && Enabled(y, step)
    ensures OneInFlight(Next(y, step))
  {
    var p := y.passes[step.id];
    BusyIffInFlight(y, p.cap.d.key);
    if Busy(y.state, p.cap.d.key) {
      FrameKeepsOne(y, Next(y, step));
    } else {
      StartKeepsOne(y, Next(y, step), Sync(p.cap, p.phase.kind, SyncKeyOf(p.cap, p.phase.kind), Copying));
    }
  }

  lemma EndedKeyIsOnly(y: System, end: nat, id: nat)
    requires Registered(y) && OnePerVolume(y) && ColonFreeKeys(y) && end in y.syncs && id in y.syncs && id != end
    ensures y.syncs[id].syncKey != y.syncs[end].syncKey
  {
    if y.syncs[id].syncKey == y.syncs[end].syncKey {
      OfVolumeUnique(y.syncs[end].syncKey, y.syncs[id].cap.d.key, y.syncs[end].cap.d.key);
    }
  }

  lemma EndedInFlight(y: System, y': System, end: nat)
    requires AllInFlight(y) && end in y.syncs && y'.syncs == y.syncs - {end}
    requires y'.state.running == y.state.running - {y.syncs[end].syncKey}
    ensures AllInFlight(y')
  {
    forall k | k in y'.state.running ensures InFlight(y', k) {
      assert InFlight(y, k);
      var id :| id in y.syncs && y.syncs[id].syncKey == k;
      StillInFlight(y, y', k, id);
    }
  }

  lemma EndedKeepsOne(y: System, y': System, end: nat)
    requires OneInFlight(y) && ColonFreeKeys(y) && end in y.syncs
    requires y'.syncs == y.syncs - {end} && y'.spawned == y.spawned
    requires y'.state.running == y.state.running - {y.syncs[end].syncKey}
    ensures OneInFlight(y')
  {
    EndedInFlight(y, y', end);
    forall id | id in y.syncs && id != end ensures y.syncs[id].syncKey != y.syncs[end].syncKey {
      EndedKeyIsOnly(y, end, id);
    }
    assert Registered(y') && OnePerVolume(y');
  }

  lemma EndKeepsOne(y: System, step: Step)
    requires OneInFlight(y) && ColonFreeKeys(y) && step.End? && Enabled(y, step)
    ensures OneInFlight(Next(y, step))
  {
    EndedKeepsOne(y, Next(y, step), step.id);
  }

  /** Running set, syncs and their captures are as before; only phases may differ. */
  ghost predicate SameSyncs(y: System, y': System) {
    && y'.state.running == y.state.running && y'.spawned == y.spawned && y'.syncs.Keys == y.syncs.Keys
    && (forall id :: id in y.syncs ==>
          y'.syncs[id].cap == y.syncs[id].cap && y'.syncs[id].kind == y.syncs[id].kind
          && y'.syncs[id].syncKey == y.syncs[id].syncKey)
  }

  lemma FrameKeepsOne(y: System, y': System)
    requires OneInFlight(y) && SameSyncs(y, y')
    ensures OneInFlight(y')
  {
    forall k | k in y'.state.running ensures InFlight(y', k) {
      assert InFlight(y, k);
      var id :| id in y.syncs && y.syncs[id].syncKey == k;
      assert y'.syncs[id].syncKey == k;
    }
  }

  predicate IsPassStep(step: Step) {
    step.Read? || step.Try? || step.Watch? || step.Post? || step.Remember? || step.Schedule?
  }

  predicate IsSyncStep(step: Step) {
    step.Copy? || step.Check? || step.Mark? || step.SyncPost? || step.SyncRemember? || step.End?
  }

  /** Passes only end or change phase. */
  ghost predicate SamePasses(y: System, y': System) {
    y'.passes.Keys <= y.passes.Keys && forall id :: id in y'.passes ==> y'.passes[id].cap == y.passes[id].cap
  }

  lemma MovedPass(y: System, y': System, id: nat)
    requires id in y.passes && y'.syncs == y.syncs && y'.spawned == y.spawned && y'.state.running == y.state.running
    requires y'.passes == y.passes - {id} || exists phase :: y'.passes == y.passes[id := y.passes[id].(phase := phase)]
    ensures SamePasses(y, y') && SameSyncs(y, y')
  {}

  lemma PassStepFrame(y: System, step: Step)
    requires Enabled(y, step) && IsPassStep(step)
    ensures SamePasses(y, Next(y, step)) && (!step.Try? ==> SameSyncs(y, Next(y, step)))
  {
    var y' := Next(y, step);
    if !step.Try? {
      if step.id in y'.passes {
        assert y'.passes == y.passes[step.id := y.passes[step.id].(phase := y'.passes[step.id].phase)];
      } else {
        assert y'.passes == y.passes - {step.id};
      }
      MovedPass(y, y', step.id);
    }
  }

  lemma MovedSync(y: System, y': System, id: nat, phase: SyncPhase)
    requires id in y.syncs && y'.syncs == y.syncs[id := y.syncs[id].(phase := phase)]
    requires y'.spawned == y.spawned && y'.state.running == y.state.running
    ensures SameSyncs(y, y')
  {}

  lemma SyncStepFrame(y: System, step: Step)
    requires Enabled(y, step) && IsSyncStep(step)
    ensures Next(y, step).passes == y.passes && (!step.End? ==> SameSyncs(y, Next(y, step)))
  {
    var y' := Next(y, step);
    if !step.End? {
      var phase := y'.syncs[step.id].phase;
      assert y'.syncs == y.syncs[step.id := y.syncs[step.id].(phase := phase)];
      MovedSync(y, y', step.id, phase);
    }
  }

  lemma NoteFrame(y: System, step: Step)
    requires Enabled(y, step) && step.Note?
    ensures var y' := Next(y, step); SameSyncs(y, y') && y'.passes == y.passes[step.id := y'.passes[step.id]]
  {}

  lemma StepKeepsColonFree(y: System, step: Step)
    requires ColonFreeKeys(y) && Enabled(y, step)
    ensures ColonFreeKeys(Next(y, step))
  {
    if step.Note? {
      NoteFrame(y, step);
    } else if IsPassStep(step) {
      PassStepFrame(y, step);
    } else {
      SyncStepFrame(y, step);
    }
  }

  lemma StepKeepsOne(y: System, step: Step)
    requires OneInFlight(y) && ColonFreeKeys(y) && Enabled(y, step)
    ensures OneInFlight(Next(y, step)) && ColonFreeKeys(Next(y, step))
  {
    StepKeepsColonFree(y, step);
    if step.Try? {
      TryKeepsOne(y, step);
    } else if step.End? {
      EndKeepsOne(y, step);
    } else {
      if step.Note? {
        NoteFrame(y, step);
      } else if IsPassStep(step) {
        PassStepFrame(y, step);
      } else {
        SyncStepFrame(y, step);
      }
      FrameKeepsOne(y, Next(y, step));
    }
  }

  /** In every interleaving at most one full sync per volume is in flight, and the running set is
      exactly the set of syncs in flight. */
  lemma {:induction false} AtMostOneFullSync(systems: seq<System>, steps: seq<Step>, n: nat)
    requires IsRun(systems, steps) && n < |systems|
    ensures OneInFlight(systems[n]) && ColonFreeKeys(systems[n])
  {
    if n > 0 {
      AtMostOneFullSync(systems, steps, n - 1);
      StepKeepsOne(systems[n - 1], steps[n - 1]);
    }
  }
}
