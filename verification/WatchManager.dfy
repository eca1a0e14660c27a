/** Delivery status of watches: the counters, the confirmation threshold and the fence against
    superseded watches. */
module WatchManager {
  import opened Strings

  datatype TargetStatus = TargetStatus(
    url: string, lastSync: Option<int>, generation: string, lastError: string,
    batches: nat, events: nat, failures: nat)

  datatype Status = Status(
    targets: seq<TargetStatus>, running: bool, stoppedAt: Option<int>, lastBatchAt: Option<int>,
    lastEventCount: nat, lastGeneration: string, deliveryError: string, watchError: string,
    batches: nat, events: nat, failures: nat)

  function NewTarget(url: string): TargetStatus { TargetStatus(url, None, "", "", 0, 0, 0) }

  function InitialStatus(urls: seq<string>): Status {
    Status(seq(|urls|, i requires 0 <= i < |urls| => NewTarget(urls[i])), true, None, None, 0, "", "", "", 0, 0, 0)
  }

  /** The number asked for, capped at the number of targets; nothing when it is negative. */
  function ConfirmationThreshold(value: int, targets: nat): (r: nat)
    ensures 0 <= value <= targets ==> r == value
    ensures value > targets > 0 ==> r == targets
    ensures targets == 0 && value >= 0 ==> r == value
    ensures value < 0 ==> r == 0
  {
    if value <= 0 then 0 else if targets > 0 && value > targets then targets else value
  }

  /** The threshold a watch is started with: one replica unless the request says otherwise. */
  function DefaultConfirmedReplicas(value: Option<int>, targets: nat): nat {
    ConfirmationThreshold(if value.None? then 1 else value.value, targets)
  }

  // ----- the record methods, as functions of the status -----

  /** Position of the first target with this address, or the length. */
  function FindTarget(targets: seq<TargetStatus>, url: string): (i: nat)
    ensures i <= |targets|
  {
    if targets == [] || targets[0].url == url then 0 else 1 + FindTarget(targets[1..], url)
  }

  function EnsureTarget(targets: seq<TargetStatus>, url: string): (r: seq<TargetStatus>)
    ensures FindTarget(targets, url) < |r|
  {
    if FindTarget(targets, url) < |targets| then targets else targets + [NewTarget(url)]
  }

  /** A target after a delivery, and after a failed one. */
  function Succeeded(t: TargetStatus, now: int, generation: string, count: nat): TargetStatus {
    t.(lastSync := Some(now), generation := generation, batches := t.batches + 1, events := t.events + count, lastError := "")
  }

  function Refused(t: TargetStatus, error: string): TargetStatus { t.(failures := t.failures + 1, lastError := error) }

  function RecordSuccess(s: Status, url: string, now: int, generation: string, count: nat): Status {
    var targets, i := EnsureTarget(s.targets, url), FindTarget(s.targets, url);
    s.(lastBatchAt := Some(now), lastEventCount := count, lastGeneration := generation,
       batches := s.batches + 1, events := s.events + count, deliveryError := "",
       targets := targets[i := Succeeded(targets[i], now, generation, count)])
  }

  function RecordError(s: Status, url: string, error: string): Status {
    var targets, i := EnsureTarget(s.targets, url), FindTarget(s.targets, url);
    s.(failures := s.failures + 1, deliveryError := error, targets := targets[i := Refused(targets[i], error)])
  }

  function RecordUnconfirmed(s: Status, generation: string, count: nat, message: string): Status {
    s.(lastBatchAt := None, lastEventCount := count, lastGeneration := generation, deliveryError := message)
  }

  function RecordStopped(s: Status, now: int, error: Option<string>): Status {
    s.(running := false, stoppedAt := Some(now), watchError := if error.Some? then error.value else s.watchError)
  }

  // ----- the classes of the source -----

  class ManagedWatch {
    var status: Status

    constructor (initial: Status)
      ensures status == initial
    {
      status := initial;
    }
  }

  /** A request to start a watch; `debounceOk` is whether its debounce parses. */
  datatype StartRequest = StartRequest(
    namespace: string, volume: string, sourceUrl: string, urls: seq<string>, debounceOk: bool)

  predicate Acceptable(req: StartRequest) {
    && req.volume != "" && req.sourceUrl != "" && req.urls != [] && req.debounceOk
    && forall i :: 0 <= i < |req.urls| ==> TrimSpace(req.urls[i]) != ""
  }

  function WatchKey(namespace: string, volume: string): string { namespace + "/" + volume }

  /** The loop of ensureTargetStatus. */
  method EnsureTargetStatus(targets: seq<TargetStatus>, url: string) returns (r: seq<TargetStatus>, at: nat)
    ensures r == EnsureTarget(targets, url) && at == FindTarget(targets, url) && at < |r|
  {
    at := 0;
    while at < |targets|
      invariant at <= |targets|
      invariant FindTarget(targets, url) == at + FindTarget(targets[at..], url)
    {
      if targets[at].url == url {
        return targets, at;
      }
      assert targets[at..][1..] == targets[at + 1..];
      at := at + 1;
    }
    r := targets + [NewTarget(url)];
  }

  class Manager {
    var watches: map<string, ManagedWatch>

    constructor ()
      ensures watches == map[]
    {
      watches := map[];
    }

    predicate IsCurrent(key: string, watch: ManagedWatch)
      reads this
    {
      key in watches && watches[key] == watch
    }

    /** A refused request changes nothing; an accepted one replaces the watch of its volume. */
    method Start(req: StartRequest) returns (started: bool, watch: ManagedWatch?)
      modifies this
      ensures started == Acceptable(req)
      ensures !started ==> watches == old(watches)
      ensures started ==> watch != null && fresh(watch) && watch.status == InitialStatus(req.urls)
      ensures started ==> watches == old(watches)[WatchKey(req.namespace, req.volume) := watch]
    {
      if req.volume == "" || req.sourceUrl == "" || req.urls == [] {
        return false, null;
      }
      for i := 0 to |req.urls|
        invariant forall k :: 0 <= k < i ==> TrimSpace(req.urls[k]) != ""
      {
        if TrimSpace(req.urls[i]) == "" {
          return false, null;
        }
      }
      if !req.debounceOk {
        return false, null;
      }
      watch := new ManagedWatch(InitialStatus(req.urls));
      watches := watches[WatchKey(req.namespace, req.volume) := watch];
      started := true;
    }

    method Stop(key: string, now: int) returns (found: bool)
      modifies if key in watches then {watches[key]} else {}
      ensures found == (key in watches)
      ensures found ==> watches[key].status == old(watches[key].status).(running := false, stoppedAt := Some(now))
    {
      if key !in watches {
        return false;
      }
      watches[key].status := watches[key].status.(running := false, stoppedAt := Some(now));
      return true;
    }

    method RecordDeliverySuccess(key: string, watch: ManagedWatch, url: string, now: int, generation: string, count: nat)
      modifies watch
      ensures watch.status == if IsCurrent(key, watch) then RecordSuccess(old(watch.status), url, now, generation, count)
                              else old(watch.status)
    {
      if !IsCurrent(key, watch) {
        return;
      }
      var s := watch.status;
      var targets, at := EnsureTargetStatus(s.targets, url);
      var t := targets[at];
      t := t.(lastSync := Some(now), generation := generation, batches := t.batches + 1, events := t.events + count,
              lastError := "");
      watch.status := s.(lastBatchAt := Some(now), lastEventCount := count, lastGeneration := generation,
                         batches := s.batches + 1, events := s.events + count, deliveryError := "",
                         targets := targets[at := t]);
    }

    method RecordDeliveryError(key: string, watch: ManagedWatch, url: string, error: string)
      modifies watch
      ensures watch.status == if IsCurrent(key, watch) then RecordError(old(watch.status), url, error)
                              else old(watch.status)
    {
      if !IsCurrent(key, watch) {
        return;
      }
      var s := watch.status;
      var targets, at := EnsureTargetStatus(s.targets, url);
      var t := targets[at];
      watch.status := s.(failures := s.failures + 1, deliveryError := error,
                         targets := targets[at := t.(failures := t.failures + 1, lastError := error)]);
    }

    method RecordUnconfirmedDelivery(key: string, watch: ManagedWatch, generation: string, count: nat, message: string)
      modifies watch
      ensures watch.status == if IsCurrent(key, watch) then RecordUnconfirmed(old(watch.status), generation, count, message)
                              else old(watch.status)
    {
      if IsCurrent(key, watch) {
        watch.status := RecordUnconfirmed(watch.status, generation, count, message);
      }
    }

    method RecordWatchStopped(key: string, watch: ManagedWatch, now: int, error: Option<string>)
      modifies watch
      ensures watch.status == if IsCurrent(key, watch) then RecordStopped(old(watch.status), now, error)
                              else old(watch.status)
    {
      if IsCurrent(key, watch) {
        watch.status := RecordStopped(watch.status, now, error);
      }
    }
  }

  // ----- the ledger -----

  datatype Totals = Totals(batches: int, events: int, failures: int)

  function Add(a: Totals, b: Totals): Totals {
    Totals(a.batches + b.batches, a.events + b.events, a.failures + b.failures)
  }

  function CountsOf(t: TargetStatus): Totals { Totals(t.batches, t.events, t.failures) }

  function Sum(targets: seq<TargetStatus>): Totals {
    if targets == [] then Totals(0, 0, 0) else Add(CountsOf(targets[0]), Sum(targets[1..]))
  }

  /** The watch-level counts are the sums over the targets. */
  ghost predicate Ledger(s: Status) { Sum(s.targets) == Totals(s.batches, s.events, s.failures) }

  lemma {:induction false} SumAppend(targets: seq<TargetStatus>, t: TargetStatus)
    ensures Sum(targets + [t]) == Add(Sum(targets), CountsOf(t))
  {
    if targets == [] {
      assert [t][1..] == [];
      assert targets + [t] == [t];
    } else {
      assert (targets + [t])[1..] == targets[1..] + [t];
      SumAppend(targets[1..], t);
    }
  }

  lemma {:induction false} SumUpdate(targets: seq<TargetStatus>, i: nat, t: TargetStatus, d: Totals)
    requires i < |targets| && CountsOf(t) == Add(CountsOf(targets[i]), d)
    ensures Sum(targets[i := t]) == Add(Sum(targets), d)
  {
    if i > 0 {
      assert targets[i := t][1..] == targets[1..][i - 1 := t];
      SumUpdate(targets[1..], i - 1, t, d);
    } else {
      assert targets[i := t][1..] == targets[1..];
    }
  }

  lemma {:induction false} SumOfNew(urls: seq<string>)
    ensures Sum(InitialStatus(urls).targets) == Totals(0, 0, 0)
  {
    if urls != [] {
      var targets := InitialStatus(urls).targets;
      assert targets[1..] == InitialStatus(urls[1..]).targets;
      SumOfNew(urls[1..]);
    }
  }

  lemma EnsureTargetSum(targets: seq<TargetStatus>, url: string)
    ensures Sum(EnsureTarget(targets, url)) == Sum(targets)
  {
    SumAppend(targets, NewTarget(url));
  }

  /** The first match is used: an address listed twice keeps its counts in one place. */
  lemma {:induction false} FindTargetIsFirst(targets: seq<TargetStatus>, url: string)
    ensures var i := FindTarget(targets, url);
            && (i < |targets| ==> targets[i].url == url)
            && (forall k :: 0 <= k < i ==> targets[k].url != url)
  {
    if targets != [] && targets[0].url != url {
      FindTargetIsFirst(targets[1..], url);
    }
  }

  lemma LedgerUpdate(s: Status, s': Status, targets: seq<TargetStatus>, i: nat, t': TargetStatus, d: Totals)
    requires Ledger(s) && Sum(targets) == Sum(s.targets) && i < |targets|
    requires s'.targets == targets[i := t'] && CountsOf(t') == Add(CountsOf(targets[i]), d)
    requires Totals(s'.batches, s'.events, s'.failures) == Add(Totals(s.batches, s.events, s.failures), d)
    ensures Ledger(s')
  {
    SumUpdate(targets, i, t', d);
  }

  lemma SuccessKeepsLedger(s: Status, url: string, now: int, generation: string, count: nat)
    requires Ledger(s)
    ensures Ledger(RecordSuccess(s, url, now, generation, count))
  {
    var targets, i := EnsureTarget(s.targets, url), FindTarget(s.targets, url);
    EnsureTargetSum(s.targets, url);
    LedgerUpdate(s, RecordSuccess(s, url, now, generation, count), targets, i,
                 Succeeded(targets[i], now, generation, count), Totals(1, count, 0));
  }

  lemma ErrorKeepsLedger(s: Status, url: string, error: string)
    requires Ledger(s)
    ensures Ledger(RecordError(s, url, error))
  {
    var targets, i := EnsureTarget(s.targets, url), FindTarget(s.targets, url);
    EnsureTargetSum(s.targets, url);
    LedgerUpdate(s, RecordError(s, url, error), targets, i, Refused(targets[i], error), Totals(0, 0, 1));
  }

  // ----- what a record shows -----

  /** A success shows on its target the time and the generation, on the watch also the size of the
      batch, and takes earlier errors off both. */
  lemma SuccessReports(s: Status, url: string, now: int, generation: string, count: nat)
    ensures var s', i := RecordSuccess(s, url, now, generation, count), FindTarget(s.targets, url);
            && i < |s'.targets| && s'.targets[i].url == url
            && s'.targets[i].lastSync == Some(now) && s'.targets[i].generation == generation && s'.targets[i].lastError == ""
            && s'.lastBatchAt == Some(now) && s'.lastGeneration == generation && s'.lastEventCount == count
            && s'.deliveryError == "" && s'.running == s.running
  {
    FindTargetIsFirst(s.targets, url);
  }

  /** A failure shows its error on target and watch, and leaves what was observed before. */
  lemma ErrorReports(s: Status, url: string, error: string)
    ensures var s', i := RecordError(s, url, error), FindTarget(s.targets, url);
            && i < |s'.targets| && s'.targets[i].url == url && s'.targets[i].lastError == error && s'.deliveryError == error
            && (i < |s.targets| ==> SameObservation(s.targets[i], s'.targets[i]))
            && s'.lastBatchAt == s.lastBatchAt && s'.lastGeneration == s.lastGeneration
  {
    FindTargetIsFirst(s.targets, url);
  }

  predicate SameObservation(a: TargetStatus, b: TargetStatus) { a.lastSync == b.lastSync && a.generation == b.generation }

  /** A batch short of its threshold shows on the watch, as not delivered, and on no target. */
  lemma UnconfirmedReports(s: Status, generation: string, count: nat, message: string)
    ensures var s' := RecordUnconfirmed(s, generation, count, message);
            && s'.targets == s.targets && s'.lastBatchAt == None && s'.lastGeneration == generation
            && s'.lastEventCount == count && s'.deliveryError == message
            && s'.batches == s.batches && s'.events == s.events && s'.failures == s.failures
  {}

  /** The end of a watch shows as not running, with its time and its error, and changes no count. */
  lemma StoppedReports(s: Status, now: int, error: Option<string>)
    ensures var s' := RecordStopped(s, now, error);
            && !s'.running && s'.stoppedAt == Some(now) && (error.Some? ==> s'.watchError == error.value)
            && (error.None? ==> s'.watchError == s.watchError)
            && s' == s.(running := s'.running, stoppedAt := s'.stoppedAt, watchError := s'.watchError)
  {}

  // ----- watches as interleaved steps -----

  /** One batch of a watch: its generation, and for each target tried so far whether it accepted. */
  datatype Batch = Batch(generation: string, count: nat, outcomes: seq<bool>)

  datatype Phase = Idle | Sending | Recording(left: seq<string>) | Ended

  /** A watch and its goroutine. `batches` is everything it has sent; the last is in progress while
      the phase says so. */
  datatype Watch = Watch(key: string, urls: seq<string>, confirmed: nat, status: Status, batches: seq<Batch>, phase: Phase)

  datatype System = System(current: map<string, nat>, watches: seq<Watch>)

  datatype Step =
    | StartStep(key: string, urls: seq<string>, value: Option<int>)
    | StopStep(key: string, now: int)
    | BeginStep(w: nat, generation: string, count: nat)
    | SendStep(w: nat, ok: bool, error: string)
    | CloseStep(w: nat, message: string)
    | RecordStep(w: nat, now: int)
    | EndStep(w: nat, now: int, failure: Option<string>)

  function LastBatch(w: Watch): Batch
    requires w.batches != []
  {
    w.batches[|w.batches| - 1]
  }

  function Accepting(urls: seq<string>, outcomes: seq<bool>): seq<string>
    requires |outcomes| <= |urls|
  {
    if outcomes == [] then []
    else
      var n := |outcomes| - 1;
      Accepting(urls, outcomes[..n]) + (if outcomes[n] then [urls[n]] else [])
  }

  function Required(w: Watch): nat { ConfirmationThreshold(w.confirmed, |w.urls|) }

  predicate Enabled(s: System, step: Step) {
    match step
    case StartStep(_, urls, _) => urls != []
    case StopStep(key, _) => key in s.current && s.current[key] < |s.watches|
    case BeginStep(w, _, _) => w < |s.watches| && s.watches[w].phase.Idle?
    case SendStep(w, _, _) =>
      && w < |s.watches| && s.watches[w].phase.Sending? && s.watches[w].batches != []
      && |LastBatch(s.watches[w]).outcomes| < |s.watches[w].urls|
    case CloseStep(w, _) =>
      && w < |s.watches| && s.watches[w].phase.Sending? && s.watches[w].batches != []
      && |LastBatch(s.watches[w]).outcomes| == |s.watches[w].urls|
    case RecordStep(w, _) => w < |s.watches| && s.watches[w].phase.Recording? && s.watches[w].batches != []
    case EndStep(w, _, _) => w < |s.watches| && s.watches[w].phase.Idle?
  }

  predicate IsCurrentIn(s: System, w: nat)
    requires w < |s.watches|
  {
    s.watches[w].key in s.current && s.current[s.watches[w].key] == w
  }

  /** A record method: fenced by the current watch of the key. */
  function Fenced(s: System, w: nat, status: Status): Status
    requires w < |s.watches|
  {
    if IsCurrentIn(s, w) then status else s.watches[w].status
  }

  /** The watch a step acts on, after the step. */
  function Acted(s: System, w: nat, step: Step): Watch
    requires Enabled(s, step) && w < |s.watches|
    requires !step.StartStep? && !step.StopStep? ==> step.w == w
    requires !step.StartStep?
  {
    var x := s.watches[w];
    match step
    case StopStep(_, now) => x.(status := x.status.(running := false, stoppedAt := Some(now)))
    case BeginStep(_, generation, count) => x.(batches := x.batches + [Batch(generation, count, [])], phase := Sending)
    case SendStep(_, ok, error) =>
      var b := LastBatch(x);
      var url := x.urls[|b.outcomes|];
      x.(batches := x.batches[..|x.batches| - 1] + [b.(outcomes := b.outcomes + [ok])],
         status := if ok then x.status else Fenced(s, w, RecordError(x.status, url, error)))
    case CloseStep(_, message) =>
      var b := LastBatch(x);
      var ok := Accepting(x.urls, b.outcomes);
      if |ok| < Required(x) then
        x.(phase := Idle, status := Fenced(s, w, RecordUnconfirmed(x.status, b.generation, b.count, message)))
      else x.(phase := Recording(ok))
    case RecordStep(_, now) =>
      var b := LastBatch(x);
      if x.phase.left == [] then x.(phase := Idle)
      else x.(phase := Recording(x.phase.left[1..]),
              status := Fenced(s, w, RecordSuccess(x.status, x.phase.left[0], now, b.generation, b.count)))
    case EndStep(_, now, failure) => x.(phase := Ended, status := Fenced(s, w, RecordStopped(x.status, now, failure)))
  }

  function Next(s: System, step: Step): System
    requires Enabled(s, step)
  {
    if step.StartStep? then
      var confirmed := DefaultConfirmedReplicas(step.value, |step.urls|);
      System(s.current[step.key := |s.watches|],
             s.watches + [Watch(step.key, step.urls, confirmed, InitialStatus(step.urls), [], Idle)])
    else
      var w := if step.StopStep? then s.current[step.key] else step.w;
      s.(watches := s.watches[w := Acted(s, w, step)])
  }

  const EMPTY := System(map[], [])

  ghost predicate IsRun(states: seq<System>, steps: seq<Step>) {
    && |states| == |steps| + 1 && states[0] == EMPTY
    && forall i :: 0 <= i < |steps| ==> Enabled(states[i], steps[i]) && states[i + 1] == Next(states[i], steps[i])
  }

  // ----- what every step keeps -----

  /** The batch was accepted by at least the watch's threshold of targets. */
  ghost predicate Confirmed(w: Watch, b: Batch) {
    |b.outcomes| <= |w.urls| && |Accepting(w.urls, b.outcomes)| >= Required(w)
  }

  /** The target accepted a confirmed batch of that generation. */
  ghost predicate Observed(w: Watch, url: string, generation: string) {
    exists i :: && 0 <= i < |w.batches| && w.batches[i].generation == generation && Confirmed(w, w.batches[i])
                && url in Accepting(w.urls, w.batches[i].outcomes)
  }

  /** Every generation a target is reported to have observed it did accept, and so did the
      threshold of targets. */
  ghost predicate Quorum(w: Watch) {
    forall i :: 0 <= i < |w.status.targets| && w.status.targets[i].lastSync.Some? ==>
      Observed(w, w.status.targets[i].url, w.status.targets[i].generation)
  }

  ghost predicate WatchInv(w: Watch) {
    && Ledger(w.status) && Quorum(w)
    && (w.phase.Sending? || w.phase.Recording? ==> w.batches != [])
    && (w.phase.Sending? ==> |LastBatch(w).outcomes| <= |w.urls|)
    && (w.phase.Recording? ==> Confirmed(w, LastBatch(w)))
    && (w.phase.Recording? ==> forall u :: u in w.phase.left ==> u in Accepting(w.urls, LastBatch(w).outcomes))
  }

  /** A key's current watch is its own, and no watch of the key is newer. */
  ghost predicate Indexed(s: System) {
    && (forall k :: k in s.current ==> s.current[k] < |s.watches| && s.watches[s.current[k]].key == k)
    && (forall w :: 0 <= w < |s.watches| ==> s.watches[w].key in s.current && w <= s.current[s.watches[w].key])
  }

  ghost predicate Inv(s: System) {
    Indexed(s) && forall w :: 0 <= w < |s.watches| ==> WatchInv(s.watches[w])
  }

  lemma AcceptingGrows(urls: seq<string>, outcomes: seq<bool>, ok: bool)
    requires |outcomes| < |urls|
    ensures |Accepting(urls, outcomes)| <= |Accepting(urls, outcomes + [ok])|
    ensures forall u :: u in Accepting(urls, outcomes) ==> u in Accepting(urls, outcomes + [ok])
  {
    assert (outcomes + [ok])[..|outcomes|] == outcomes;
  }

  ghost predicate Grown(urls: seq<string>, a: Batch, b: Batch) {
    && |a.outcomes| <= |urls| && |b.outcomes| <= |urls|
    && forall u :: u in Accepting(urls, a.outcomes) ==> u in Accepting(urls, b.outcomes)
  }

  lemma ObservedExtends(x: Watch, y: Watch, url: string, generation: string)
    requires Observed(x, url, generation) && Extends(x, y)
    ensures Observed(y, url, generation)
  {
    var i :| && 0 <= i < |x.batches| && x.batches[i].generation == generation && Confirmed(x, x.batches[i])
             && url in Accepting(x.urls, x.batches[i].outcomes);
    assert Grown(x.urls, x.batches[i], y.batches[i]);
  }

  /** The watch after a step has all batches of the watch before it; only a batch in progress grows. */
  ghost predicate Extends(x: Watch, y: Watch) {
    && x.urls == y.urls && x.confirmed == y.confirmed && |x.batches| <= |y.batches|
    && forall i :: 0 <= i < |x.batches| ==>
         && x.batches[i].generation == y.batches[i].generation
         && (Confirmed(x, x.batches[i]) ==> Confirmed(y, y.batches[i]) && Grown(x.urls, x.batches[i], y.batches[i]))
  }

  lemma QuorumExtends(x: Watch, y: Watch)
    requires Quorum(x) && Extends(x, y)
    requires forall i :: 0 <= i < |y.status.targets| && y.status.targets[i].lastSync.Some? ==>
               || Observed(y, y.status.targets[i].url, y.status.targets[i].generation)
               || (exists j :: 0 <= j < |x.status.targets| && SameObserved(x.status.targets[j], y.status.targets[i]))
    ensures Quorum(y)
  {
    forall i | 0 <= i < |y.status.targets| && y.status.targets[i].lastSync.Some?
      ensures Observed(y, y.status.targets[i].url, y.status.targets[i].generation)
    {
      var t := y.status.targets[i];
      if !Observed(y, t.url, t.generation) {
        var j :| 0 <= j < |x.status.targets| && SameObserved(x.status.targets[j], t);
        ObservedExtends(x, y, t.url, t.generation);
      }
    }
  }

  ghost predicate SameObserved(a: TargetStatus, b: TargetStatus) {
    a.lastSync.Some? && a.url == b.url && a.generation == b.generation
  }

  lemma SendExtends(x: Watch, y: Watch, ok: bool)
    requires x.batches != [] && |LastBatch(x).outcomes| < |x.urls| && x.urls == y.urls && x.confirmed == y.confirmed
    requires y.batches == x.batches[..|x.batches| - 1] + [LastBatch(x).(outcomes := LastBatch(x).outcomes + [ok])]
    ensures Extends(x, y)
  {
    AcceptingGrows(x.urls, LastBatch(x).outcomes, ok);
  }

  lemma ErrorKeepsObserved(s: Status, url: string, error: string, i: nat)
    requires i < |RecordError(s, url, error).targets| && RecordError(s, url, error).targets[i].lastSync.Some?
    ensures i < |s.targets| && SameObserved(s.targets[i], RecordError(s, url, error).targets[i])
  {}

  lemma SendKeepsInv(s: System, step: Step)
    requires step.SendStep? && Enabled(s, step) && WatchInv(s.watches[step.w])
    ensures WatchInv(Acted(s, step.w, step))
  {
    var x, y := s.watches[step.w], Acted(s, step.w, step);
    var url := x.urls[|LastBatch(x).outcomes|];
    SendExtends(x, y, step.ok);
    ErrorKeepsLedger(x.status, url, step.error);
    forall i | 0 <= i < |y.status.targets| && y.status.targets[i].lastSync.Some?
      ensures i < |x.status.targets| && SameObserved(x.status.targets[i], y.status.targets[i])
    {
      if y.status == RecordError(x.status, url, step.error) {
        ErrorKeepsObserved(x.status, url, step.error, i);
      }
    }
    QuorumExtends(x, y);
  }

  lemma RecordKeepsInv(s: System, step: Step)
    requires step.RecordStep? && Enabled(s, step) && WatchInv(s.watches[step.w])
    ensures WatchInv(Acted(s, step.w, step))
  {
    var x, y := s.watches[step.w], Acted(s, step.w, step);
    var b := LastBatch(x);
    assert Extends(x, y);
    if x.phase.left != [] {
      SuccessKeepsLedger(x.status, x.phase.left[0], step.now, b.generation, b.count);
      FindTargetIsFirst(x.status.targets, x.phase.left[0]);
      assert Observed(y, x.phase.left[0], b.generation) by {
        assert y.batches[|x.batches| - 1] == b;
      }
    }
    QuorumExtends(x, y);
  }

  lemma ActedKeepsInv(s: System, w: nat, step: Step)
    requires Enabled(s, step) && !step.StartStep? && w < |s.watches| && WatchInv(s.watches[w])
    requires !step.StopStep? ==> step.w == w
    ensures WatchInv(Acted(s, w, step)) && Acted(s, w, step).key == s.watches[w].key
  {
    var x, y := s.watches[w], Acted(s, w, step);
    if step.SendStep? {
      SendKeepsInv(s, step);
    } else if step.RecordStep? {
      RecordKeepsInv(s, step);
    } else {
      assert Extends(x, y);
      QuorumExtends(x, y);
    }
  }

  lemma NewTargetsUnobserved(urls: seq<string>)
    ensures forall t :: t in InitialStatus(urls).targets ==> t.lastSync.None?
  {}

  lemma UnobservedQuorum(w: Watch)
    requires forall t :: t in w.status.targets ==> t.lastSync.None?
    ensures Quorum(w)
  {}

  lemma StartedWatchInv(key: string, urls: seq<string>, confirmed: nat, status: Status)
    requires status == InitialStatus(urls)
    ensures WatchInv(Watch(key, urls, confirmed, status, [], Idle))
  {
    assert Ledger(status) by { SumOfNew(urls); }
    NewTargetsUnobserved(urls);
    UnobservedQuorum(Watch(key, urls, confirmed, status, [], Idle));
  }

  lemma StartKeepsInv(s: System, step: Step)
    requires Inv(s) && Enabled(s, step) && step.StartStep?
    ensures Inv(Next(s, step))
  {
    var s' := Next(s, step);
    StartedWatchInv(step.key, step.urls, DefaultConfirmedReplicas(step.value, |step.urls|), InitialStatus(step.urls));
    assert Indexed(s');
    forall w | 0 <= w < |s'.watches| ensures WatchInv(s'.watches[w]) {
      assert w < |s.watches| ==> s'.watches[w] == s.watches[w];
    }
  }

  lemma ActKeepsInv(s: System, w: nat, x: Watch)
    requires Inv(s) && w < |s.watches| && WatchInv(x) && x.key == s.watches[w].key
    ensures Inv(s.(watches := s.watches[w := x]))
  {}

  lemma StepKeepsInv(s: System, step: Step)
    requires Inv(s) && Enabled(s, step)
    ensures Inv(Next(s, step))
  {
    if step.StartStep? {
      StartKeepsInv(s, step);
    } else {
      var w := if step.StopStep? then s.current[step.key] else step.w;
      ActedKeepsInv(s, w, step);
      ActKeepsInv(s, w, Acted(s, w, step));
    }
  }

  lemma {:induction false} RunKeepsInv(states: seq<System>, steps: seq<Step>, n: nat)
    requires IsRun(states, steps) && n < |states|
    ensures Inv(states[n])
  {
    if n > 0 {
      RunKeepsInv(states, steps, n - 1);
      StepKeepsInv(states[n - 1], steps[n - 1]);
    }
  }

  /** In every reachable state each watch's counts are the sums over its targets, and every
      generation reported as observed was accepted by the threshold of targets. */
  lemma LedgerAndQuorum(states: seq<System>, steps: seq<Step>, n: nat, w: nat)
    requires IsRun(states, steps) && n < |states| && w < |states[n].watches|
    ensures Ledger(states[n].watches[w].status) && Quorum(states[n].watches[w])
  {
    RunKeepsInv(states, steps, n);
  }

  /** What a step leaves of a watch that is no longer current, or no longer running. */
  ghost predicate Fence(s: System, s': System, w: nat) {
    && w < |s.watches| && w < |s'.watches| && s'.watches[w].key == s.watches[w].key
    && (!IsCurrentIn(s, w) ==> !IsCurrentIn(s', w) && s'.watches[w].status == s.watches[w].status)
    && (!s.watches[w].status.running ==> !s'.watches[w].status.running)
  }

  lemma StepFence(s: System, step: Step, w: nat)
    requires Inv(s) && Enabled(s, step) && w < |s.watches|
    ensures Fence(s, Next(s, step), w)
  {}

  lemma RunFence(states: seq<System>, steps: seq<Step>, n: nat, w: nat)
    requires IsRun(states, steps) && n < |steps| && w < |states[n].watches|
    ensures Fence(states[n], states[n + 1], w)
  {
    RunKeepsInv(states, steps, n);
    StepFence(states[n], steps[n], w);
  }

  /** A superseded watch never changes its stored status again, and never becomes current. */
  lemma {:induction false} SupersededIsFrozen(states: seq<System>, steps: seq<Step>, m: nat, n: nat, w: nat)
    requires IsRun(states, steps) && m <= n < |states| && w < |states[m].watches| && !IsCurrentIn(states[m], w)
    ensures w < |states[n].watches| && !IsCurrentIn(states[n], w)
    ensures states[n].watches[w].status == states[m].watches[w].status
    decreases n
  {
    if m < n {
      SupersededIsFrozen(states, steps, m, n - 1, w);
      RunFence(states, steps, n - 1, w);
    }
  }

  /** A stopped watch never reports running again. */
  lemma {:induction false} StoppedStaysStopped(states: seq<System>, steps: seq<Step>, m: nat, n: nat, w: nat)
    requires IsRun(states, steps) && m <= n < |states| && w < |states[m].watches|
    requires !states[m].watches[w].status.running
    ensures w < |states[n].watches| && !states[n].watches[w].status.running
    decreases n
  {
    if m < n {
      StoppedStaysStopped(states, steps, m, n - 1, w);
      RunFence(states, steps, n - 1, w);
    }
  }

  // ----- the threshold in numbers -----

  lemma StepKeepsSettings(s: System, step: Step, w: nat)
    requires Enabled(s, step) && w < |s.watches|
    ensures var s' := Next(s, step);
            w < |s'.watches| && s'.watches[w].urls == s.watches[w].urls && s'.watches[w].confirmed == s.watches[w].confirmed
  {}

  /** Every watch goes back to the request that started it. */
  lemma {:induction false} WatchStarted(states: seq<System>, steps: seq<Step>, n: nat, w: nat) returns (k: nat)
    requires IsRun(states, steps) && n < |states| && w < |states[n].watches|
    ensures k < n && steps[k].StartStep? && steps[k].urls != [] && states[n].watches[w].urls == steps[k].urls
    ensures states[n].watches[w].confirmed == DefaultConfirmedReplicas(steps[k].value, |steps[k].urls|)
  {
    var m := n - 1;
    assert Enabled(states[m], steps[m]) && states[n] == Next(states[m], steps[m]);
    if w < |states[m].watches| {
      k := WatchStarted(states, steps, m, w);
      StepKeepsSettings(states[m], steps[m], w);
    } else {
      k := m;
    }
  }

  /** Enough targets by the request's own number: one when it gives none, all when it asks for more
      than there are. */
  predicate EnoughFor(value: Option<int>, accepted: nat, targets: nat) {
    match value
    case None => accepted >= 1
    case Some(v) => if v > targets then accepted >= targets else accepted >= v
  }

  lemma RequiredInNumbers(w: Watch, value: Option<int>, accepted: nat)
    requires w.urls != [] && w.confirmed == DefaultConfirmedReplicas(value, |w.urls|)
    ensures accepted >= Required(w) <==> EnoughFor(value, accepted, |w.urls|)
  {}

  /** A batch that is through with its targets is recorded as delivered exactly when enough of them
      accepted it, by the number of the request: with none given, never when nobody accepted. */
  lemma CloseInNumbers(states: seq<System>, steps: seq<Step>, n: nat) returns (k: nat)
    requires IsRun(states, steps) && n < |steps| && steps[n].CloseStep?
    ensures k < n && steps[k].StartStep?
    ensures var x := states[n].watches[steps[n].w];
            && x.urls == steps[k].urls
            && (states[n + 1].watches[steps[n].w].phase.Recording?
                <==> EnoughFor(steps[k].value, |Accepting(x.urls, LastBatch(x).outcomes)|, |x.urls|))
  {
    assert Enabled(states[n], steps[n]);
    var x := states[n].watches[steps[n].w];
    k := WatchStarted(states, steps, n, steps[n].w);
    RequiredInNumbers(x, steps[k].value, |Accepting(x.urls, LastBatch(x).outcomes)|);
  }

  /** A generation a target is said to have observed was accepted by that target, and by enough
      targets in numbers. */
  lemma QuorumInNumbers(states: seq<System>, steps: seq<Step>, n: nat, w: nat, t: nat) returns (k: nat, i: nat)
    requires IsRun(states, steps) && n < |states| && w < |states[n].watches|
    requires t < |states[n].watches[w].status.targets| && states[n].watches[w].status.targets[t].lastSync.Some?
    ensures k < n && steps[k].StartStep? && states[n].watches[w].urls == steps[k].urls
    ensures var x := states[n].watches[w];
            && i < |x.batches| && |x.batches[i].outcomes| <= |x.urls|
            && x.batches[i].generation == x.status.targets[t].generation
            && x.status.targets[t].url in Accepting(x.urls, x.batches[i].outcomes)
            && EnoughFor(steps[k].value, |Accepting(x.urls, x.batches[i].outcomes)|, |x.urls|)
  {
    var x := states[n].watches[w];
    var target := x.status.targets[t];
    RunKeepsInv(states, steps, n);
    assert Observed(x, target.url, target.generation);
    i :| && 0 <= i < |x.batches| && x.batches[i].generation == target.generation && Confirmed(x, x.batches[i])
         && target.url in Accepting(x.urls, x.batches[i].outcomes);
    k := WatchStarted(states, steps, n, w);
    RequiredInNumbers(x, steps[k].value, |Accepting(x.urls, x.batches[i].outcomes)|);
  }
}
