/** Per-volume mutual exclusion of the agent's handlers. */
module Locks {
  import opened Paths
  import opened Layout

  class Mutex {
    constructor () {}
  }

  class VolumeLocker {
    var locks: map<string, Mutex>

    constructor ()
      ensures locks == map[]
    {
      locks := map[];
    }

    /** The critical section of Lock: find the volume's mutex or make one. No entry is replaced. */
    method MutexFor(namespace: string, volume: string) returns (lock: Mutex)
      modifies this
      ensures var key := LockKey(namespace, volume);
              && key in locks && locks[key] == lock
              && locks == old(locks)[key := lock]
              && (key in old(locks) ==> locks == old(locks))
              && (key !in old(locks) ==> fresh(lock))
    {
      var key := LockKey(namespace, volume);
      if key !in locks {
        var made := new Mutex();
        locks := locks[key := made];
      }
      lock := locks[key];
      assert key in old(locks) ==> locks == old(locks)[key := lock];
    }
  }

  // ----- handlers as interleaved steps -----

  /** A sync-batch, full-sync or shadow-prepare handler: it has its mutex and waits for it, or it
      holds the mutex and works on the volume. */
  datatype Handler = Handler(namespace: string, volume: string, key: string, lock: nat, working: bool)

  /** `owner` is the handler that holds each locked mutex. */
  datatype Agent = Agent(locks: map<string, nat>, made: nat, owner: map<nat, nat>, handlers: map<nat, Handler>)

  datatype Step = Request(id: nat, namespace: string, volume: string, key: string) | Acquire(id: nat) | Release(id: nat)

  const START := Agent(map[], 0, map[], map[])

  /** The step asks for the mutex of its own volume. */
  predicate AsksOwnKey(step: Step) {
    step.Request? ==> step.key == LockKey(step.namespace, step.volume)
  }

  predicate Enabled(a: Agent, step: Step) {
    match step
    case Request(id, _, _, _) => id !in a.handlers
    case Acquire(id) => id in a.handlers && !a.handlers[id].working && a.handlers[id].lock !in a.owner
    case Release(id) => id in a.handlers && a.handlers[id].working
  }

  function Next(a: Agent, step: Step): Agent
    requires Enabled(a, step)
  {
    match step
    case Request(id, namespace, volume, key) =>
      if key in a.locks then
        a.(handlers := a.handlers[id := Handler(namespace, volume, key, a.locks[key], false)])
      else
        Agent(a.locks[key := a.made], a.made + 1, a.owner,
              a.handlers[id := Handler(namespace, volume, key, a.made, false)])
    case Acquire(id) =>
      var h := a.handlers[id];
      a.(owner := a.owner[h.lock := id], handlers := a.handlers[id := h.(working := true)])
    case Release(id) =>
      a.(owner := a.owner - {a.handlers[id].lock}, handlers := a.handlers - {id})
  }

  ghost predicate Inv(a: Agent) {
    && (forall k :: k in a.locks ==> a.locks[k] < a.made)
    && (forall j, k :: j in a.locks && k in a.locks && a.locks[j] == a.locks[k] ==> j == k)
    && (forall id :: id in a.handlers ==> Placed(a, id, a.handlers[id]))
    && (forall l :: l in a.owner ==> l < a.made)
  }

  /** The handler has its key's mutex, and owns it while it works. */
  ghost predicate Placed(a: Agent, id: nat, h: Handler) {
    && h.key in a.locks && h.lock == a.locks[h.key]
    && (h.working ==> h.lock in a.owner && a.owner[h.lock] == id)
  }

  ghost predicate Keyed(a: Agent) {
    forall id :: id in a.handlers ==> a.handlers[id].key == LockKey(a.handlers[id].namespace, a.handlers[id].volume)
  }

  /** No step replaces or drops a mutex. */
  lemma StepKeepsLocks(a: Agent, step: Step)
    requires Enabled(a, step)
    ensures forall k :: k in a.locks ==> k in Next(a, step).locks && Next(a, step).locks[k] == a.locks[k]
  {}

  lemma RequestKeepsInv(a: Agent, step: Step)
    requires step.Request? && Inv(a) && Enabled(a, step)
    ensures Inv(Next(a, step))
  {
    var a' := Next(a, step);
    forall id | id in a'.handlers ensures Placed(a', id, a'.handlers[id]) {
      assert id != step.id ==> Placed(a, id, a.handlers[id]);
    }
  }

  lemma AcquireKeepsInv(a: Agent, step: Step)
    requires step.Acquire? && Inv(a) && Enabled(a, step)
    ensures Inv(Next(a, step))
  {
    var a' := Next(a, step);
    assert Placed(a, step.id, a.handlers[step.id]);
    forall id | id in a'.handlers ensures Placed(a', id, a'.handlers[id]) {
      assert Placed(a, id, a.handlers[id]);
    }
  }

  lemma ReleaseKeepsInv(a: Agent, step: Step)
    requires step.Release? && Inv(a) && Enabled(a, step)
    ensures Inv(Next(a, step))
  {
    var a' := Next(a, step);
    assert Placed(a, step.id, a.handlers[step.id]);
    forall id | id in a'.handlers ensures Placed(a', id, a'.handlers[id]) {
      assert Placed(a, id, a.handlers[id]);
    }
  }

  lemma StepKeepsInv(a: Agent, step: Step)
    requires Inv(a) && Enabled(a, step)
    ensures Inv(Next(a, step))
  {
    match step
    case Request(_, _, _, _) => RequestKeepsInv(a, step);
    case Acquire(_) => AcquireKeepsInv(a, step);
    case Release(_) => ReleaseKeepsInv(a, step);
  }

  lemma StepKeepsKeyed(a: Agent, step: Step)
    requires Keyed(a) && Enabled(a, step) && AsksOwnKey(step)
    ensures Keyed(Next(a, step))
  {}

  ghost predicate IsRun(states: seq<Agent>, steps: seq<Step>) {
    && |states| == |steps| + 1 && states[0] == START
    && (forall i :: 0 <= i < |steps| ==> AsksOwnKey(steps[i]))
    && forall i :: 0 <= i < |steps| ==> Enabled(states[i], steps[i]) && states[i + 1] == Next(states[i], steps[i])
  }

  lemma {:induction false} RunKeepsInv(states: seq<Agent>, steps: seq<Step>, n: nat)
    requires IsRun(states, steps) && n < |states|
    ensures Inv(states[n]) && Keyed(states[n])
  {
    if n > 0 {
      RunKeepsInv(states, steps, n - 1);
      StepKeepsInv(states[n - 1], steps[n - 1]);
      StepKeepsKeyed(states[n - 1], steps[n - 1]);
    }
  }

  /** A volume's mutex is the same for the whole run. */
  lemma {:induction false} LocksArePermanent(states: seq<Agent>, steps: seq<Step>, m: nat, n: nat, key: string)
    requires IsRun(states, steps) && m <= n < |states| && key in states[m].locks
    ensures key in states[n].locks && states[n].locks[key] == states[m].locks[key]
    decreases n
  {
    if m < n {
      LocksArePermanent(states, steps, m, n - 1, key);
      StepKeepsLocks(states[n - 1], steps[n - 1]);
    }
  }

  /** No two handlers ever work on the same volume directory at once. */
  lemma OneWorkerPerVolume(states: seq<Agent>, steps: seq<Step>, n: nat, poolPath: string, id1: nat, id2: nat)
    requires IsRun(states, steps) && n < |states| && !InvalidPool(Clean(poolPath))
    requires id1 in states[n].handlers && id2 in states[n].handlers && id1 != id2
    requires states[n].handlers[id1].working && states[n].handlers[id2].working
    ensures ResolveVolumePath(poolPath, states[n].handlers[id1].namespace, states[n].handlers[id1].volume)
         != ResolveVolumePath(poolPath, states[n].handlers[id2].namespace, states[n].handlers[id2].volume)
  {
    RunKeepsInv(states, steps, n);
    var h1, h2 := states[n].handlers[id1], states[n].handlers[id2];
    LockMatchesStorage(poolPath, h1.namespace, h1.volume, h2.namespace, h2.volume);
  }
}
