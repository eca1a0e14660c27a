/** What each target's counters mean: an exact account of the batches the watch has sent. */
module DeliveryLedger {
  import opened Strings
  import opened WatchManager

  const ZERO := Totals(0, 0, 0)

  /** The counters kept under an address. */
  function CountsAt(targets: seq<TargetStatus>, url: string): Totals {
    var i := FindTarget(targets, url);
    if i < |targets| then CountsOf(targets[i]) else ZERO
  }

  function Occurrences(urls: seq<string>, url: string): nat {
    if urls == [] then 0 else (if urls[0] == url then 1 else 0) + Occurrences(urls[1..], url)
  }

  /** How often a batch was refused by an address. */
  function Refusals(urls: seq<string>, outcomes: seq<bool>, url: string): nat
    requires |outcomes| <= |urls|
  {
    if outcomes == [] then 0
    else
      var n := |outcomes| - 1;
      Refusals(urls, outcomes[..n], url) + (if !outcomes[n] && urls[n] == url then 1 else 0)
  }

  /** `n` deliveries of a batch with `count` events, and the refusals. */
  function Delivered(n: int, count: nat, refusals: nat): Totals { Totals(n, n * count, refusals) }

  /** What a finished batch adds under an address: its acceptances only if the batch was confirmed,
      its refusals always. */
  function BatchTotals(w: Watch, b: Batch, url: string): Totals
    requires |b.outcomes| <= |w.urls|
  {
    var accepted := Accepting(w.urls, b.outcomes);
    Delivered(if |accepted| >= Required(w) then Occurrences(accepted, url) else 0, b.count,
              Refusals(w.urls, b.outcomes, url))
  }

  ghost predicate Sized(w: Watch, batches: seq<Batch>) {
    forall i :: 0 <= i < |batches| ==> |batches[i].outcomes| <= |w.urls|
  }

  function Tally(w: Watch, batches: seq<Batch>, url: string): Totals
    requires Sized(w, batches)
  {
    if batches == [] then ZERO
    else
      var n := |batches| - 1;
      Add(Tally(w, batches[..n], url), BatchTotals(w, batches[n], url))
  }

  /** What the batch in progress has added so far. */
  function Progress(w: Watch, url: string): Totals
    requires w.batches != [] && Sized(w, w.batches)
  {
    var b := LastBatch(w);
    var refusals := Refusals(w.urls, b.outcomes, url);
    if w.phase.Recording?
    then Delivered(Occurrences(Accepting(w.urls, b.outcomes), url) - Occurrences(w.phase.left, url), b.count, refusals)
    else Delivered(0, b.count, refusals)
  }

  predicate InProgress(w: Watch) { w.phase.Sending? || w.phase.Recording? }

  function Expected(w: Watch, url: string): Totals
    requires Sized(w, w.batches) && (InProgress(w) ==> w.batches != [])
  {
    if InProgress(w) then Add(Tally(w, w.batches[..|w.batches| - 1], url), Progress(w, url))
    else Tally(w, w.batches, url)
  }

  /** The counters under every address are exactly what the batches account for. */
  ghost predicate Exact(w: Watch) {
    && Sized(w, w.batches) && (InProgress(w) ==> w.batches != [])
    && (w.phase.Recording? ==> Confirmed(w, LastBatch(w)))
    && forall url :: CountsAt(w.status.targets, url) == Expected(w, url)
  }

  // ----- the record methods -----

  lemma {:induction false} UpdateCounts(targets: seq<TargetStatus>, at: string, t: TargetStatus, url: string)
    requires FindTarget(targets, at) < |targets| && t.url == at
    ensures CountsAt(targets[FindTarget(targets, at) := t], url) ==
              if url == at then CountsOf(t) else CountsAt(targets, url)
  {
    var i := FindTarget(targets, at);
    if i > 0 {
      UpdateCounts(targets[1..], at, t, url);
      assert targets[i := t][1..] == targets[1..][i - 1 := t];
    } else {
      assert targets[i := t][1..] == targets[1..];
    }
  }

  lemma {:induction false} EnsureFinds(targets: seq<TargetStatus>, at: string)
    ensures FindTarget(EnsureTarget(targets, at), at) == FindTarget(targets, at)
    ensures forall url :: CountsAt(EnsureTarget(targets, at), url) == CountsAt(targets, url)
  {
    if targets != [] && targets[0].url != at {
      EnsureFinds(targets[1..], at);
      assert EnsureTarget(targets, at)[1..] == EnsureTarget(targets[1..], at);
    }
    forall url ensures CountsAt(EnsureTarget(targets, at), url) == CountsAt(targets, url) {
      EnsureCounts(targets, at, url);
    }
  }

  lemma {:induction false} EnsureCounts(targets: seq<TargetStatus>, at: string, url: string)
    ensures CountsAt(EnsureTarget(targets, at), url) == CountsAt(targets, url)
  {
    if targets != [] && targets[0].url != at {
      EnsureCounts(targets[1..], at, url);
      assert EnsureTarget(targets, at)[1..] == EnsureTarget(targets[1..], at);
    }
  }

  lemma GrownCounts(all: seq<TargetStatus>, at: string, i: nat, t: TargetStatus, d: Totals, url: string)
    requires i == FindTarget(all, at) && i < |all| && t.url == at && CountsOf(t) == Add(CountsOf(all[i]), d)
    ensures CountsAt(all[i := t], url) == Add(CountsAt(all, url), if url == at then d else ZERO)
  {
    UpdateCounts(all, at, t, url);
  }

  /** Recording touches one address only. */
  lemma RecordedCounts(targets: seq<TargetStatus>, all: seq<TargetStatus>, at: string, i: nat, t: TargetStatus,
                       d: Totals, url: string)
    requires all == EnsureTarget(targets, at) && i == FindTarget(targets, at)
    requires t.url == all[i].url && CountsOf(t) == Add(CountsOf(all[i]), d)
    ensures CountsAt(all[i := t], url) == Add(CountsAt(targets, url), if url == at then d else ZERO)
  {
    EnsureFinds(targets, at);
    assert all[i].url == at by { FindTargetIsFirst(all, at); }
    GrownCounts(all, at, i, t, d, url);
  }

  /** The counters under one address grow by `d`; those under the others stay. */
  ghost predicate CountsGrow(s: Status, s': Status, at: string, d: Totals) {
    forall url :: CountsAt(s'.targets, url) == Add(CountsAt(s.targets, url), if url == at then d else ZERO)
  }

  lemma SuccessCounts(s: Status, at: string, now: int, generation: string, count: nat)
    ensures CountsGrow(s, RecordSuccess(s, at, now, generation, count), at, Totals(1, count, 0))
  {
    var all, i := EnsureTarget(s.targets, at), FindTarget(s.targets, at);
    RecordGrows(s, RecordSuccess(s, at, now, generation, count), all, at, i,
                Succeeded(all[i], now, generation, count), Totals(1, count, 0));
  }

  lemma ErrorCounts(s: Status, at: string, error: string)
    ensures CountsGrow(s, RecordError(s, at, error), at, Totals(0, 0, 1))
  {
    var all, i := EnsureTarget(s.targets, at), FindTarget(s.targets, at);
    RecordGrows(s, RecordError(s, at, error), all, at, i, Refused(all[i], error), Totals(0, 0, 1));
  }

  lemma RecordGrows(s: Status, s': Status, all: seq<TargetStatus>, at: string, i: nat, t: TargetStatus, d: Totals)
    requires all == EnsureTarget(s.targets, at) && i == FindTarget(s.targets, at) && s'.targets == all[i := t]
    requires t.url == all[i].url && CountsOf(t) == Add(CountsOf(all[i]), d)
    ensures CountsGrow(s, s', at, d)
  {
    forall url ensures CountsAt(s'.targets, url) == Add(CountsAt(s.targets, url), if url == at then d else ZERO) {
      RecordedCounts(s.targets, all, at, i, t, d, url);
    }
  }

  // ----- each step keeps the account -----

  lemma {:induction false} TallyOfSame(x: Watch, y: Watch, batches: seq<Batch>, url: string)
    requires Sized(x, batches) && x.urls == y.urls && x.confirmed == y.confirmed
    ensures Tally(x, batches, url) == Tally(y, batches, url)
    decreases |batches|
  {
    if batches != [] {
      TallyOfSame(x, y, batches[..|batches| - 1], url);
    }
  }

  lemma {:induction false} NewCounts(urls: seq<string>, url: string)
    ensures CountsAt(InitialStatus(urls).targets, url) == ZERO
  {
    if urls != [] && urls[0] != url {
      NewCounts(urls[1..], url);
      assert InitialStatus(urls).targets[1..] == InitialStatus(urls[1..]).targets;
    }
  }

  lemma BeginExact(x: Watch, y: Watch, b: Batch)
    requires Exact(x) && x.phase.Idle? && b.outcomes == []
    requires y == x.(batches := x.batches + [b], phase := Sending)
    ensures Exact(y)
  {
    assert y.batches[..|y.batches| - 1] == x.batches;
    forall url ensures CountsAt(y.status.targets, url) == Expected(y, url) {
      TallyOfSame(x, y, x.batches, url);
    }
  }

  lemma ProgressStep(x: Watch, y: Watch, url: string, d: Totals)
    requires Exact(x) && InProgress(x) && InProgress(y) && Sized(y, y.batches) && y.batches != []
    requires x.urls == y.urls && x.confirmed == y.confirmed
    requires y.batches[..|y.batches| - 1] == x.batches[..|x.batches| - 1]
    requires CountsAt(y.status.targets, url) == Add(CountsAt(x.status.targets, url), d)
    requires Progress(y, url) == Add(Progress(x, url), d)
    ensures CountsAt(y.status.targets, url) == Expected(y, url)
  {
    TallyOfSame(x, y, x.batches[..|x.batches| - 1], url);
  }

  lemma RefusalsSnoc(urls: seq<string>, outcomes: seq<bool>, ok: bool, url: string)
    requires |outcomes| < |urls|
    ensures Refusals(urls, outcomes + [ok], url) ==
              Refusals(urls, outcomes, url) + (if !ok && urls[|outcomes|] == url then 1 else 0)
  {
    assert (outcomes + [ok])[..|outcomes|] == outcomes;
  }

  lemma SendExact(x: Watch, y: Watch, ok: bool)
    requires Exact(x) && x.phase.Sending? && |LastBatch(x).outcomes| < |x.urls|
    requires y.phase.Sending? && y.urls == x.urls && y.confirmed == x.confirmed
    requires var b := LastBatch(x);
             && y.batches == x.batches[..|x.batches| - 1] + [b.(outcomes := b.outcomes + [ok])]
             && (ok ==> y.status == x.status)
             && (!ok ==> CountsGrow(x.status, y.status, x.urls[|b.outcomes|], Totals(0, 0, 1)))
    ensures Exact(y)
  {
    var b := LastBatch(x);
    assert LastBatch(y) == b.(outcomes := b.outcomes + [ok]);
    assert y.batches[..|y.batches| - 1] == x.batches[..|x.batches| - 1];
    assert Sized(y, y.batches);
    forall url ensures CountsAt(y.status.targets, url) == Expected(y, url) {
      RefusalsSnoc(x.urls, b.outcomes, ok, url);
      ProgressStep(x, y, url, if !ok && url == x.urls[|b.outcomes|] then Totals(0, 0, 1) else ZERO);
    }
  }

  lemma CloseExact(x: Watch, y: Watch)
    requires Exact(x) && x.phase.Sending? && y.batches == x.batches && y.urls == x.urls && y.confirmed == x.confirmed
    requires y.status.targets == x.status.targets
    requires y.phase == if Confirmed(x, LastBatch(x)) then Recording(Accepting(x.urls, LastBatch(x).outcomes)) else Idle
    ensures Exact(y)
  {
    forall url ensures CountsAt(y.status.targets, url) == Expected(y, url) {
      TallyOfSame(x, y, x.batches[..|x.batches| - 1], url);
    }
  }

  lemma DeliveredOneMore(n: int, count: nat, refusals: nat)
    ensures Delivered(n + 1, count, refusals) == Add(Delivered(n, count, refusals), Totals(1, count, 0))
  {
    assert (n + 1) * count == n * count + count;
  }

  lemma RecordExact(x: Watch, y: Watch)
    requires Exact(x) && x.phase.Recording? && x.phase.left != []
    requires y.phase == Recording(x.phase.left[1..])
    requires y.batches == x.batches && y.urls == x.urls && y.confirmed == x.confirmed
    requires CountsGrow(x.status, y.status, x.phase.left[0], Totals(1, LastBatch(x).count, 0))
    ensures Exact(y)
  {
    var b := LastBatch(x);
    assert Sized(y, y.batches) && LastBatch(y) == b && Confirmed(y, b);
    forall url ensures CountsAt(y.status.targets, url) == Expected(y, url) {
      var n := Occurrences(Accepting(x.urls, b.outcomes), url) - Occurrences(x.phase.left, url);
      DeliveredOneMore(n, b.count, Refusals(x.urls, b.outcomes, url));
      ProgressStep(x, y, url, if url == x.phase.left[0] then Totals(1, b.count, 0) else ZERO);
    }
  }

  lemma FinishExact(x: Watch, y: Watch)
    requires Exact(x) && x.phase.Recording? && x.phase.left == [] && y == x.(phase := Idle)
    ensures Exact(y)
  {
    forall url ensures CountsAt(y.status.targets, url) == Expected(y, url) {
      TallyOfSame(x, y, x.batches[..|x.batches| - 1], url);
      assert Tally(y, y.batches, url) ==
             Add(Tally(y, x.batches[..|x.batches| - 1], url), BatchTotals(y, LastBatch(x), url));
    }
  }

  lemma ProgressOfSame(x: Watch, y: Watch, url: string)
    requires x.batches != [] && Sized(x, x.batches)
    requires y.batches == x.batches && y.urls == x.urls && y.phase == x.phase
    ensures Progress(y, url) == Progress(x, url)
  {
    assert LastBatch(y) == LastBatch(x);
  }

  lemma QuietExpected(x: Watch, y: Watch, url: string)
    requires Sized(x, x.batches) && (InProgress(x) ==> x.batches != [])
    requires y.batches == x.batches && y.urls == x.urls && y.confirmed == x.confirmed
    requires y.phase == x.phase || (!InProgress(x) && !InProgress(y))
    ensures Expected(y, url) == Expected(x, url)
  {
    if InProgress(x) {
      TallyOfSame(x, y, x.batches[..|x.batches| - 1], url);
      ProgressOfSame(x, y, url);
    } else {
      TallyOfSame(x, y, x.batches, url);
    }
  }

  /** Stopping and ending leave batches and counters alone. */
  lemma QuietExact(x: Watch, y: Watch)
    requires Exact(x) && y.batches == x.batches && y.urls == x.urls && y.confirmed == x.confirmed
    requires y.status.targets == x.status.targets
    requires y.phase == x.phase || (!InProgress(x) && !InProgress(y))
    ensures Exact(y)
  {
    forall url ensures CountsAt(y.status.targets, url) == Expected(y, url) {
      QuietExpected(x, y, url);
    }
  }

  lemma SendActed(s: System, step: Step)
    requires step.SendStep? && Enabled(s, step) && IsCurrentIn(s, step.w) && Exact(s.watches[step.w])
    ensures Exact(Acted(s, step.w, step))
  {
    var x, y := s.watches[step.w], Acted(s, step.w, step);
    var at := x.urls[|LastBatch(x).outcomes|];
    if !step.ok {
      ErrorCounts(x.status, at, step.error);
    }
    SendExact(x, y, step.ok);
  }

  lemma RecordActed(s: System, step: Step)
    requires step.RecordStep? && Enabled(s, step) && IsCurrentIn(s, step.w) && Exact(s.watches[step.w])
    ensures Exact(Acted(s, step.w, step))
  {
    var x, y := s.watches[step.w], Acted(s, step.w, step);
    if x.phase.left == [] {
      FinishExact(x, y);
    } else {
      SuccessCounts(x.status, x.phase.left[0], step.now, LastBatch(x).generation, LastBatch(x).count);
      RecordExact(x, y);
    }
  }

  lemma ActedExact(s: System, w: nat, step: Step)
    requires Enabled(s, step) && !step.StartStep? && w < |s.watches| && IsCurrentIn(s, w) && Exact(s.watches[w])
    requires !step.StopStep? ==> step.w == w
    ensures Exact(Acted(s, w, step))
  {
    var x, y := s.watches[w], Acted(s, w, step);
    match step
    case BeginStep(_, generation, count) => BeginExact(x, y, Batch(generation, count, []));
    case SendStep(_, _, _) => SendActed(s, step);
    case CloseStep(_, _) => CloseExact(x, y);
    case RecordStep(_, _) => RecordActed(s, step);
    case StopStep(_, _) => QuietExact(x, y);
    case EndStep(_, _, _) => QuietExact(x, y);
  }

  lemma StartedExact(key: string, urls: seq<string>, confirmed: nat, status: Status)
    requires status == InitialStatus(urls)
    ensures Exact(Watch(key, urls, confirmed, status, [], Idle))
  {
    forall url ensures CountsAt(status.targets, url) == ZERO {
      NewCounts(urls, url);
    }
  }

  ghost predicate CurrentExact(s: System) {
    forall w :: 0 <= w < |s.watches| && IsCurrentIn(s, w) ==> Exact(s.watches[w])
  }

  lemma StartKeepsExact(s: System, step: Step)
    requires Inv(s) && Enabled(s, step) && step.StartStep? && CurrentExact(s)
    ensures CurrentExact(Next(s, step))
  {
    var s' := Next(s, step);
    StartedExact(step.key, step.urls, DefaultConfirmedReplicas(step.value, |step.urls|), InitialStatus(step.urls));
    forall w | 0 <= w < |s'.watches| && IsCurrentIn(s', w) ensures Exact(s'.watches[w]) {
      assert w < |s.watches| ==> s'.watches[w] == s.watches[w] && IsCurrentIn(s, w);
    }
  }

  lemma ActKeepsExact(s: System, w: nat, x: Watch)
    requires CurrentExact(s) && w < |s.watches| && x.key == s.watches[w].key && (IsCurrentIn(s, w) ==> Exact(x))
    ensures CurrentExact(s.(watches := s.watches[w := x]))
  {
    var s' := s.(watches := s.watches[w := x]);
    forall v | 0 <= v < |s'.watches| && IsCurrentIn(s', v) ensures Exact(s'.watches[v]) {
      assert IsCurrentIn(s, v);
    }
  }

  lemma StepKeepsExact(s: System, step: Step)
    requires Inv(s) && Enabled(s, step) && CurrentExact(s)
    ensures CurrentExact(Next(s, step))
  {
    if step.StartStep? {
      StartKeepsExact(s, step);
    } else {
      var w := if step.StopStep? then s.current[step.key] else step.w;
      ActedKeepsInv(s, w, step);
      if IsCurrentIn(s, w) {
        ActedExact(s, w, step);
      }
      ActKeepsExact(s, w, Acted(s, w, step));
    }
  }

  /** In every reachable state the counters of a current watch, under every address, are exactly the
      refusals of that address plus its acceptances in confirmed batches, as far as recorded. */
  lemma {:induction false} LedgerIsExact(states: seq<System>, steps: seq<Step>, n: nat)
    requires IsRun(states, steps) && n < |states|
    ensures CurrentExact(states[n])
  {
    if n > 0 {
      LedgerIsExact(states, steps, n - 1);
      RunKeepsInv(states, steps, n - 1);
      StepKeepsExact(states[n - 1], steps[n - 1]);
    }
  }
}
