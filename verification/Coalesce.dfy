/** Coalescing of file events: each path keeps its last event, in order of last occurrence. */
module Coalesce {
  import opened Strings
  import opened Paths
  import opened Filter

  datatype EventOp = Unset | Upsert | Delete | Other(name: string)

  datatype FileEvent = FileEvent(path: string, op: EventOp)

  /** The event as the loop keeps it, or None when it is dropped. */
  function Accept(event: FileEvent, filter: PathFilter): Option<FileEvent> {
    match NormalizeEventPath(event.path)
    case None => None
    case Some(clean) =>
      if ShouldReplicate(filter, clean)
      then Some(FileEvent(clean, if event.op.Unset? then Upsert else event.op))
      else None
  }

  type Acceptor = FileEvent -> Option<FileEvent>

  function Collect(accept: Acceptor, events: seq<FileEvent>): seq<FileEvent> {
    if events == [] then []
    else
      var kept := Collect(accept, events[..|events| - 1]);
      match accept(events[|events| - 1])
      case None => kept
      case Some(e) => kept + [e]
  }

  function AcceptBy(filter: PathFilter): Acceptor { e => Accept(e, filter) }

  function AcceptAll(events: seq<FileEvent>, filter: PathFilter): seq<FileEvent> {
    Collect(AcceptBy(filter), events)
  }

  predicate Mentions(events: seq<FileEvent>, p: string) {
    exists i :: 0 <= i < |events| && events[i].path == p
  }

  /** Reference definition: drop every event whose path occurs again later. */
  function LastWins(events: seq<FileEvent>): seq<FileEvent> {
    if events == [] then []
    else if Mentions(events[1..], events[0].path) then LastWins(events[1..])
    else [events[0]] + LastWins(events[1..])
  }

  function Coalesced(events: seq<FileEvent>, filter: PathFilter): seq<FileEvent> {
    LastWins(AcceptAll(events, filter))
  }

  ghost predicate DistinctPaths(events: seq<FileEvent>) {
    forall i, j :: 0 <= i < j < |events| ==> events[i].path != events[j].path
  }

  // ----- what the reference definition means -----

  /** Position `i` holds the last event of its path. */
  ghost predicate IsLast(events: seq<FileEvent>, i: nat)
    requires i < |events|
  {
    forall j :: i < j < |events| ==> events[j].path != events[i].path
  }

  lemma MentionsCons(e: FileEvent, events: seq<FileEvent>, p: string)
    ensures Mentions([e] + events, p) <==> e.path == p || Mentions(events, p)
  {
    var all := [e] + events;
    assert all[0] == e;
    assert forall i :: 0 <= i < |events| ==> events[i] == all[i + 1];
  }

  lemma {:induction false} LastWinsMentions(events: seq<FileEvent>, p: string)
    ensures Mentions(LastWins(events), p) <==> Mentions(events, p)
  {
    if events != [] {
      LastWinsMentions(events[1..], p);
      assert events == [events[0]] + events[1..];
      MentionsCons(events[0], events[1..], p);
      MentionsCons(events[0], LastWins(events[1..]), p);
    }
  }

  lemma {:induction false} LastWinsDistinct(events: seq<FileEvent>)
    ensures DistinctPaths(LastWins(events))
    ensures forall e :: e in LastWins(events) ==> e in events
  {
    if events != [] {
      LastWinsDistinct(events[1..]);
      LastWinsMentions(events[1..], events[0].path);
    }
  }

  lemma {:induction false} LastWinsKeepsDistinct(events: seq<FileEvent>)
    requires DistinctPaths(events)
    ensures LastWins(events) == events
  {
    if events != [] {
      LastWinsKeepsDistinct(events[1..]);
      assert events == [events[0]] + events[1..];
    }
  }

  /** The positions from `from` on that hold the last event of their path. */
  ghost function LastPositions(events: seq<FileEvent>, from: nat): seq<nat>
    requires from <= |events|
    decreases |events| - from
  {
    if from == |events| then []
    else if IsLast(events, from) then [from] + LastPositions(events, from + 1)
    else LastPositions(events, from + 1)
  }

  lemma MentionedLater(events: seq<FileEvent>, from: nat)
    requires from < |events|
    ensures Mentions(events[from..][1..], events[from].path) <==> !IsLast(events, from)
  {
    var tail := events[from..][1..];
    assert forall j :: 0 <= j < |tail| ==> tail[j] == events[from + 1 + j];
    assert forall j :: from < j < |events| ==> events[j] == tail[j - from - 1];
  }

  ghost predicate Increasing(ps: seq<nat>) { forall k, l :: 0 <= k < l < |ps| ==> ps[k] < ps[l] }

  lemma IncreasingOrder(ps: seq<nat>, n: nat, m: nat)
    requires Increasing(ps) && n < |ps| && m < |ps|
    ensures n < m <==> ps[n] < ps[m]
  {}

  /** The positions list, in increasing order, exactly the last events of their paths. */
  ghost predicate AreLastPositions(events: seq<FileEvent>, from: nat, ps: seq<nat>) {
    && (forall i :: i in ps <==> from <= i < |events| && IsLast(events, i))
    && Increasing(ps)
  }

  lemma SkippedPosition(events: seq<FileEvent>, from: nat, ps: seq<nat>)
    requires from < |events| && AreLastPositions(events, from + 1, ps) && !IsLast(events, from)
    ensures AreLastPositions(events, from, ps)
  {
    forall i ensures i in ps <==> from <= i < |events| && IsLast(events, i) {
      if i == from {
        assert i !in ps;
      }
    }
  }

  lemma AddedPosition(events: seq<FileEvent>, from: nat, ps: seq<nat>)
    requires from < |events| && AreLastPositions(events, from + 1, ps) && IsLast(events, from)
    ensures AreLastPositions(events, from, [from] + ps)
  {
    var all := [from] + ps;
    forall i ensures i in all <==> from <= i < |events| && IsLast(events, i) {
      assert i in all <==> i == from || i in ps;
    }
    forall k, l | 0 <= k < l < |all| ensures all[k] < all[l] {
      assert ps[l - 1] in ps && all[l] == ps[l - 1];
    }
  }

  lemma {:induction false} LastPositionsExact(events: seq<FileEvent>, from: nat)
    requires from <= |events|
    ensures AreLastPositions(events, from, LastPositions(events, from))
    decreases |events| - from
  {
    if from < |events| {
      var rest := LastPositions(events, from + 1);
      LastPositionsExact(events, from + 1);
      if IsLast(events, from) {
        AddedPosition(events, from, rest);
      } else {
        SkippedPosition(events, from, rest);
      }
    }
  }

  lemma {:induction false} LastWinsAt(events: seq<FileEvent>, from: nat, ps: seq<nat>)
    requires from <= |events| && ps == LastPositions(events, from)
    ensures |LastWins(events[from..])| == |ps|
    ensures forall k :: 0 <= k < |ps| ==> ps[k] < |events| && LastWins(events[from..])[k] == events[ps[k]]
    decreases |events| - from
  {
    if from < |events| {
      assert events[from..][1..] == events[from + 1..];
      MentionedLater(events, from);
      LastWinsAt(events, from + 1, LastPositions(events, from + 1));
    }
  }

  /** `LastWins` keeps exactly the last event of every path, in their original order. */
  lemma LastWinsKeepsLastEvents(events: seq<FileEvent>) returns (ps: seq<nat>)
    ensures AreLastPositions(events, 0, ps) && |LastWins(events)| == |ps|
    ensures forall k :: 0 <= k < |ps| ==> ps[k] < |events| && LastWins(events)[k] == events[ps[k]]
  {
    ps := LastPositions(events, 0);
    LastPositionsExact(events, 0);
    LastWinsAt(events, 0, ps);
    assert events[0..] == events;
  }

  // ----- one more event -----

  function WithoutPath(events: seq<FileEvent>, p: string): seq<FileEvent> {
    if events == [] then []
    else if events[0].path == p then WithoutPath(events[1..], p)
    else [events[0]] + WithoutPath(events[1..], p)
  }

  lemma {:induction false} LastWinsSnoc(events: seq<FileEvent>, e: FileEvent)
    ensures LastWins(events + [e]) == WithoutPath(LastWins(events), e.path) + [e]
  {
    if events == [] {
      assert events + [e] == [e] && [e][1..] == [];
    } else {
      var tail := events[1..];
      LastWinsSnoc(tail, e);
      assert (events + [e])[1..] == tail + [e] && (events + [e])[0] == events[0];
      MentionsSnoc(tail, e, events[0].path);
      if !Mentions(tail, events[0].path) {
        assert ([events[0]] + LastWins(tail))[1..] == LastWins(tail);
      }
      if Mentions(tail, events[0].path) || events[0].path == e.path {
        assert WithoutPath(LastWins(events), e.path) == WithoutPath(LastWins(tail), e.path);
      }
    }
  }

  lemma MentionsSnoc(events: seq<FileEvent>, e: FileEvent, p: string)
    ensures Mentions(events + [e], p) <==> Mentions(events, p) || e.path == p
  {
    var all := events + [e];
    assert all[|events|] == e;
    assert forall i :: 0 <= i < |events| ==> all[i] == events[i];
  }

  lemma {:induction false} WithoutPathAt(events: seq<FileEvent>, idx: nat)
    requires DistinctPaths(events) && idx < |events|
    ensures WithoutPath(events, events[idx].path) == events[..idx] + events[idx + 1..]
  {
    if idx == 0 {
      WithoutPathAbsent(events[1..], events[0].path);
    } else {
      WithoutPathAt(events[1..], idx - 1);
      assert events[1..][..idx - 1] == events[1..idx];
      assert events[..idx] == [events[0]] + events[1..idx];
    }
  }

  lemma {:induction false} WithoutPathAbsent(events: seq<FileEvent>, p: string)
    requires forall i :: 0 <= i < |events| ==> events[i].path != p
    ensures WithoutPath(events, p) == events
  {
    if events != [] {
      WithoutPathAbsent(events[1..], p);
      assert events == [events[0]] + events[1..];
    }
  }

  // ----- the source's loop with its three tables -----

  /** The tables agree: `order` lists the kept paths once, `position` inverts it, and `byPath`
      holds the kept events. */
  ghost predicate TablesAgree(kept: seq<FileEvent>, byPath: map<string, FileEvent>,
                              order: seq<string>, position: map<string, int>)
  {
    Listed(kept, byPath, order) && Inverse(order, position)
  }

  ghost predicate Listed(kept: seq<FileEvent>, byPath: map<string, FileEvent>, order: seq<string>) {
    |order| == |kept| &&
    forall i :: 0 <= i < |order| ==>
      order[i] == kept[i].path && order[i] in byPath && byPath[order[i]] == kept[i]
  }

  ghost predicate Inverse(order: seq<string>, position: map<string, int>) {
    && (forall i :: 0 <= i < |order| ==> order[i] in position && position[order[i]] == i)
    && (forall p :: p in position ==> 0 <= position[p] < |order| && order[position[p]] == p)
  }

  /** Before renumbering from `i` on, the positions behind the gap are one too high. */
  ghost predicate Renumbered(order: seq<string>, position: map<string, int>, i: int) {
    forall k :: 0 <= k < |order| ==> order[k] in position && position[order[k]] == if k < i then k else k + 1
  }

  lemma GapPositions(order: seq<string>, position: map<string, int>, p: string)
    requires p in position && Inverse(order, position)
    ensures var idx := position[p];
            Renumbered(order[..idx] + order[idx + 1..], position, idx)
  {
    var idx := position[p];
    var order' := order[..idx] + order[idx + 1..];
    forall k | 0 <= k < |order'| ensures order'[k] in position && position[order'[k]] == if k < idx then k else k + 1 {
      assert order'[k] == order[if k < idx then k else k + 1];
    }
  }

  lemma RenumberOne(order: seq<string>, position: map<string, int>, i: nat)
    requires Renumbered(order, position, i) && i < |order|
    ensures Renumbered(order, position[order[i] := i], i + 1)
  {}

  lemma RenumberedInverse(order: seq<string>, position: map<string, int>, p: string, order': seq<string>, position': map<string, int>)
    requires p in position && Inverse(order, position)
    requires order' == order[..position[p]] + order[position[p] + 1..]
    requires position'.Keys == position.Keys && Renumbered(order', position', |order'|)
    ensures Inverse(order', position' - {p})
  {
    var idx := position[p];
    forall k | 0 <= k < |order'| ensures order'[k] != p {
      assert order'[k] == order[if k < idx then k else k + 1];
    }
    forall q | q in position && q != p ensures 0 <= position'[q] < |order'| && order'[position'[q]] == q {
      var k := if position[q] < idx then position[q] else position[q] - 1;
      assert order'[k] == q;
    }
  }

  /** Takes a path out of `order` and renumbers the positions behind it. */
  method Forget(p: string, order: seq<string>, position: map<string, int>)
    returns (order': seq<string>, position': map<string, int>)
    requires p in position && Inverse(order, position)
    ensures order' == order[..position[p]] + order[position[p] + 1..]
    ensures Inverse(order', position' - {p})
  {
    var idx := position[p];
    order' := order[..idx] + order[idx + 1..];
    position' := position;
    GapPositions(order, position, p);
    for i := idx to |order'|
      invariant position'.Keys == position.Keys && Renumbered(order', position', i)
    {
      RenumberOne(order', position', i);
      position' := position'[order'[i] := i];
    }
    RenumberedInverse(order, position, p, order', position');
  }

  lemma InverseAppend(order: seq<string>, position: map<string, int>, p: string)
    requires Inverse(order, position) && p !in position
    ensures Inverse(order + [p], position[p := |order|])
  {}

  lemma ListedRemove(kept: seq<FileEvent>, byPath: map<string, FileEvent>, order: seq<string>, idx: nat)
    requires Listed(kept, byPath, order) && idx < |order|
    ensures Listed(kept[..idx] + kept[idx + 1..], byPath, order[..idx] + order[idx + 1..])
  {}

  lemma ListedAppend(kept: seq<FileEvent>, byPath: map<string, FileEvent>, order: seq<string>, e: FileEvent)
    requires Listed(kept, byPath, order) && e.path !in order
    ensures Listed(kept + [e], byPath[e.path := e], order + [e.path])
  {}

  /** The tables after one accepted event. */
  method Keep(event: FileEvent, byPath: map<string, FileEvent>, order: seq<string>,
              position: map<string, int>, ghost kept: seq<FileEvent>)
    returns (byPath': map<string, FileEvent>, order': seq<string>, position': map<string, int>)
    requires DistinctPaths(kept) && TablesAgree(kept, byPath, order, position)
    ensures TablesAgree(WithoutPath(kept, event.path) + [event], byPath', order', position')
  {
    var clean := event.path;
    order', position' := order, position;
    if clean in position {
      WithoutPathAt(kept, position[clean]);
      ListedRemove(kept, byPath, order, position[clean]);
      order', position' := Forget(clean, order, position);
    } else {
      WithoutPathAbsent(kept, clean);
      assert position' - {clean} == position;
    }
    ghost var others := position' - {clean};
    InverseAppend(order', others, clean);
    assert clean !in order';
    ListedAppend(WithoutPath(kept, clean), byPath, order', event);
    assert position'[clean := |order'|] == others[clean := |order'|];
    position' := position'[clean := |order'|];
    order' := order' + [clean];
    byPath' := byPath[clean := event];
  }

  lemma CollectStep(accept: Acceptor, events: seq<FileEvent>, n: nat)
    requires n < |events|
    ensures Collect(accept, events[..n + 1]) ==
              Collect(accept, events[..n]) + match accept(events[n]) case None => [] case Some(e) => [e]
  {
    assert events[..n + 1][..n] == events[..n] && events[..n + 1][n] == events[n];
  }

  /** The loop over the order table. */
  method InOrder(order: seq<string>, byPath: map<string, FileEvent>, ghost kept: seq<FileEvent>)
    returns (out: seq<FileEvent>)
    requires Listed(kept, byPath, order)
    ensures out == kept
  {
    out := [];
    for i := 0 to |order|
      invariant out == kept[..i]
    {
      out := out + [byPath[order[i]]];
    }
  }

  method CoalesceEvents(events: seq<FileEvent>, filter: PathFilter) returns (out: seq<FileEvent>)
    ensures out == Coalesced(events, filter)
  {
    var byPath: map<string, FileEvent> := map[];
    var order: seq<string> := [];
    var position: map<string, int> := map[];
    var accept := AcceptBy(filter);
    ghost var accepted: seq<FileEvent> := [];
    for n := 0 to |events|
      invariant accepted == Collect(accept, events[..n])
      invariant TablesAgree(LastWins(accepted), byPath, order, position)
    {
      CollectStep(accept, events, n);
      var kept := accept(events[n]);
      if kept.Some? {
        LastWinsDistinct(accepted);
        LastWinsSnoc(accepted, kept.value);
        byPath, order, position := Keep(kept.value, byPath, order, position, LastWins(accepted));
        accepted := accepted + [kept.value];
      }
    }
    assert events[..|events|] == events;
    out := InOrder(order, byPath, LastWins(accepted));
  }

  // ----- properties of the function -----

  lemma {:induction false} CollectKeeps(accept: Acceptor, events: seq<FileEvent>)
    requires forall e :: e in events ==> accept(e) == Some(e)
    ensures Collect(accept, events) == events
  {
    if events != [] {
      CollectKeeps(accept, events[..|events| - 1]);
      assert events[|events| - 1] in events;
      assert events == events[..|events| - 1] + [events[|events| - 1]];
    }
  }

  lemma AcceptAllKeeps(events: seq<FileEvent>, filter: PathFilter)
    requires forall e :: e in events ==> Accept(e, filter) == Some(e)
    ensures AcceptAll(events, filter) == events
  {
    CollectKeeps(AcceptBy(filter), events);
  }

  lemma {:induction false} CollectFrom(accept: Acceptor, events: seq<FileEvent>, e: FileEvent)
    requires e in Collect(accept, events)
    ensures exists x :: x in events && accept(x) == Some(e)
  {
    var init, last := events[..|events| - 1], events[|events| - 1];
    if e in Collect(accept, init) {
      CollectFrom(accept, init, e);
      var x :| x in init && accept(x) == Some(e);
      assert x in events;
    } else {
      assert last in events && accept(last) == Some(e);
    }
  }

  /** Plain batches: every event names a plain path. */
  ghost predicate PlainEvents(events: seq<FileEvent>) {
    forall e :: e in events ==> Plain(e.path)
  }

  lemma AcceptedStays(e: FileEvent, filter: PathFilter)
    requires Plain(e.path) && Accept(e, filter).Some?
    ensures Accept(e, filter).value.path == e.path && Accept(Accept(e, filter).value, filter) == Accept(e, filter)
  {
    PlainNormalizes(e.path);
  }

  lemma AcceptAllAccepted(events: seq<FileEvent>, filter: PathFilter)
    requires PlainEvents(events)
    ensures PlainEvents(AcceptAll(events, filter))
    ensures forall e :: e in AcceptAll(events, filter) ==> Accept(e, filter) == Some(e)
  {
    forall e | e in AcceptAll(events, filter) ensures Plain(e.path) && Accept(e, filter) == Some(e) {
      CollectFrom(AcceptBy(filter), events, e);
      var x :| x in events && AcceptBy(filter)(x) == Some(e);
      AcceptedStays(x, filter);
    }
  }

  /** Coalescing a coalesced plain batch changes nothing. */
  lemma CoalescedIdempotent(events: seq<FileEvent>, filter: PathFilter)
    requires PlainEvents(events)
    ensures Coalesced(Coalesced(events, filter), filter) == Coalesced(events, filter)
  {
    var accepted := AcceptAll(events, filter);
    AcceptAllAccepted(events, filter);
    LastWinsDistinct(accepted);
    AcceptAllKeeps(LastWins(accepted), filter);
    LastWinsKeepsDistinct(LastWins(accepted));
  }

  lemma {:induction false} CollectLength(accept: Acceptor, events: seq<FileEvent>)
    ensures |Collect(accept, events)| <= |events|
  {
    if events != [] {
      CollectLength(accept, events[..|events| - 1]);
    }
  }

  lemma {:induction false} CollectKept(accept: Acceptor, events: seq<FileEvent>, e: FileEvent)
    requires Collect(accept, events) == events && e in events
    ensures accept(e) == Some(e)
  {
    var init, last := events[..|events| - 1], events[|events| - 1];
    CollectLength(accept, init);
    assert events == init + [last] && accept(last).Some?;
    var kept := Collect(accept, init);
    assert kept + [accept(last).value] == events;
    assert kept == (kept + [accept(last).value])[..|init|] == init;
    assert last == (kept + [accept(last).value])[|init|];
    if e != last {
      CollectKept(accept, init, e);
    }
  }

  lemma {:induction false} LastWinsLength(events: seq<FileEvent>)
    ensures |LastWins(events)| <= |events|
    ensures |LastWins(events)| == |events| ==> LastWins(events) == events
  {
    if events != [] {
      LastWinsLength(events[1..]);
      assert events == [events[0]] + events[1..];
    }
  }

  /** A batch with one event for each path passes through unchanged exactly when the filter takes
      all its paths and they are plain. */
  lemma DistinctKeptIff(events: seq<FileEvent>, filter: PathFilter)
    requires DistinctPaths(events) && forall e :: e in events ==> !e.op.Unset?
    ensures Coalesced(events, filter) == events
       <==> forall e :: e in events ==> Plain(e.path) && ShouldReplicate(filter, e.path)
  {
    if forall e :: e in events ==> Plain(e.path) && ShouldReplicate(filter, e.path) {
      forall e | e in events ensures Accept(e, filter) == Some(e) {
        PlainIsAccepted(e, filter);
      }
      AcceptAllKeeps(events, filter);
      LastWinsKeepsDistinct(events);
    }
    if Coalesced(events, filter) == events {
      CollectLength(AcceptBy(filter), events);
      LastWinsLength(AcceptAll(events, filter));
      forall e | e in events ensures Plain(e.path) && ShouldReplicate(filter, e.path) {
        CollectKept(AcceptBy(filter), events, e);
        UnchangedIsPlain(e, filter);
      }
    }
  }

  lemma PlainIsAccepted(e: FileEvent, filter: PathFilter)
    requires Plain(e.path) && ShouldReplicate(filter, e.path) && !e.op.Unset?
    ensures Accept(e, filter) == Some(e)
  {
    PlainNormalizes(e.path);
  }

  lemma UnchangedIsPlain(e: FileEvent, filter: PathFilter)
    requires Accept(e, filter) == Some(e)
    ensures Plain(e.path) && ShouldReplicate(filter, e.path)
  {
    NormalizeFixesExactlyPlain(e.path);
  }

  /** A batch of distinct plain paths passes through an empty filter unchanged. */
  lemma DistinctPlainKept(events: seq<FileEvent>)
    requires PlainEvents(events) && DistinctPaths(events)
    requires forall e :: e in events ==> !e.op.Unset?
    ensures Coalesced(events, NoFilter) == events
  {
    forall e | e in events ensures ShouldReplicate(NoFilter, e.path) {
      PlainNormalizes(e.path);
    }
    DistinctKeptIff(events, NoFilter);
  }

  // ----- the kept events, by positions in the batch -----

  /** The positions of the accepted events, and what is made of them. */
  ghost predicate ArePositions(accept: Acceptor, events: seq<FileEvent>, qs: seq<nat>, out: seq<FileEvent>) {
    && Increasing(qs) && |out| == |qs|
    && (forall i :: i in qs <==> 0 <= i < |events| && accept(events[i]).Some?)
    && (forall k :: 0 <= k < |qs| ==> qs[k] < |events| && accept(events[qs[k]]) == Some(out[k]))
  }

  lemma PositionsSkip(accept: Acceptor, events: seq<FileEvent>, qs: seq<nat>, out: seq<FileEvent>, e: FileEvent)
    requires ArePositions(accept, events, qs, out) && accept(e).None?
    ensures ArePositions(accept, events + [e], qs, out)
  {
    var all := events + [e];
    forall i ensures i in qs <==> 0 <= i < |all| && accept(all[i]).Some? {
      assert 0 <= i < |events| ==> all[i] == events[i];
    }
  }

  lemma PositionsTake(accept: Acceptor, events: seq<FileEvent>, qs: seq<nat>, out: seq<FileEvent>, e: FileEvent)
    requires ArePositions(accept, events, qs, out) && accept(e).Some?
    ensures ArePositions(accept, events + [e], qs + [|events|], out + [accept(e).value])
  {
    var all, ps := events + [e], qs + [|events|];
    forall i ensures i in ps <==> 0 <= i < |all| && accept(all[i]).Some? {
      assert i in ps <==> i in qs || i == |events|;
      assert 0 <= i < |events| ==> all[i] == events[i];
    }
    forall k, l | 0 <= k < l < |ps| ensures ps[k] < ps[l] {
      assert k < |qs| ==> qs[k] in qs;
    }
    forall k | 0 <= k < |ps| ensures ps[k] < |all| && accept(all[ps[k]]) == Some((out + [accept(e).value])[k]) {
      assert k < |qs| ==> all[ps[k]] == events[qs[k]];
    }
  }

  lemma {:induction false} CollectPositions(accept: Acceptor, events: seq<FileEvent>) returns (qs: seq<nat>)
    ensures ArePositions(accept, events, qs, Collect(accept, events))
  {
    qs := [];
    if events != [] {
      var n := |events| - 1;
      qs := CollectPositions(accept, events[..n]);
      assert events == events[..n] + [events[n]];
      if accept(events[n]).Some? {
        PositionsTake(accept, events[..n], qs, Collect(accept, events[..n]), events[n]);
        qs := qs + [n];
      } else {
        PositionsSkip(accept, events[..n], qs, Collect(accept, events[..n]), events[n]);
      }
    }
  }

  /** Coalescing takes the event: its path can be normalised and the filter accepts it. */
  predicate Takes(e: FileEvent, filter: PathFilter) {
    NormalizeEventPath(e.path).Some? && ShouldReplicate(filter, NormalizeEventPath(e.path).value)
  }

  lemma TakesIffAccepted(e: FileEvent, filter: PathFilter)
    ensures Accept(e, filter).Some? <==> Takes(e, filter)
    ensures Takes(e, filter) ==>
              Accept(e, filter).value.path == NormalizeEventPath(e.path).value
              && Accept(e, filter).value.op == if e.op == Unset then Upsert else e.op
  {}

  /** Event `i` is taken, and no later one that is taken has the same normalised path. */
  ghost predicate KeptAt(events: seq<FileEvent>, filter: PathFilter, i: nat) {
    && i < |events| && Takes(events[i], filter)
    && forall j :: i < j < |events| && Takes(events[j], filter) ==>
         NormalizeEventPath(events[j].path) != NormalizeEventPath(events[i].path)
  }

  lemma LastAmongAccepted(events: seq<FileEvent>, filter: PathFilter, accepted: seq<FileEvent>, qs: seq<nat>, m: nat)
    requires ArePositions(AcceptBy(filter), events, qs, accepted) && m < |qs|
    ensures IsLast(accepted, m) <==> KeptAt(events, filter, qs[m])
  {
    TakesIffAccepted(events[qs[m]], filter);
    if IsLast(accepted, m) {
      forall j | qs[m] < j < |events| && Takes(events[j], filter)
        ensures NormalizeEventPath(events[j].path) != NormalizeEventPath(events[qs[m]].path)
      {
        TakesIffAccepted(events[j], filter);
        assert j in qs;
        var l :| 0 <= l < |qs| && qs[l] == j;
        IncreasingOrder(qs, m, l);
        assert accepted[l].path != accepted[m].path;
      }
    }
    if KeptAt(events, filter, qs[m]) {
      forall l | m < l < |accepted| ensures accepted[l].path != accepted[m].path {
        TakesIffAccepted(events[qs[l]], filter);
        assert qs[m] < qs[l];
      }
    }
  }

  /** What coalescing returns, read off the batch: in order, each event that is taken and has no later one
      for the same normalised path, under that path and with its own operation, an upsert when it names none. */
  lemma CoalescedExactly(events: seq<FileEvent>, filter: PathFilter) returns (ps: seq<nat>)
    ensures Increasing(ps) && |Coalesced(events, filter)| == |ps|
    ensures forall i :: i in ps <==> KeptAt(events, filter, i)
    ensures forall k :: 0 <= k < |ps| ==>
              && KeptAt(events, filter, ps[k])
              && Coalesced(events, filter)[k].path == NormalizeEventPath(events[ps[k]].path).value
              && Coalesced(events, filter)[k].op == if events[ps[k]].op == Unset then Upsert else events[ps[k]].op
  {
    var accepted := AcceptAll(events, filter);
    var qs := CollectPositions(AcceptBy(filter), events);
    var rs := LastWinsKeepsLastEvents(accepted);
    ps := seq(|rs|, k requires 0 <= k < |rs| => qs[rs[k]]);
    PositionsCompose(qs, rs, ps);
    forall i ensures i in ps <==> KeptAt(events, filter, i) {
      PositionKept(events, filter, accepted, qs, rs, ps, i);
    }
    forall k | 0 <= k < |ps|
      ensures && KeptAt(events, filter, ps[k])
              && Coalesced(events, filter)[k].path == NormalizeEventPath(events[ps[k]].path).value
              && Coalesced(events, filter)[k].op == if events[ps[k]].op == Unset then Upsert else events[ps[k]].op
    {
      assert ps[k] in ps;
      TakesIffAccepted(events[ps[k]], filter);
    }
  }

  lemma PositionsCompose(qs: seq<nat>, rs: seq<nat>, ps: seq<nat>)
    requires Increasing(qs) && Increasing(rs) && |ps| == |rs|
    requires forall k :: 0 <= k < |rs| ==> rs[k] < |qs| && ps[k] == qs[rs[k]]
    ensures Increasing(ps)
  {}

  lemma PositionKept(events: seq<FileEvent>, filter: PathFilter, accepted: seq<FileEvent>, qs: seq<nat>, rs: seq<nat>,
                     ps: seq<nat>, i: nat)
    requires ArePositions(AcceptBy(filter), events, qs, accepted) && |ps| == |rs| && AreLastPositions(accepted, 0, rs)
    requires forall k :: 0 <= k < |rs| ==> rs[k] < |qs| && ps[k] == qs[rs[k]]
    ensures i in ps <==> KeptAt(events, filter, i)
  {
    if i in ps {
      var k :| 0 <= k < |ps| && ps[k] == i;
      assert rs[k] in rs;
      LastAmongAccepted(events, filter, accepted, qs, rs[k]);
    }
    if KeptAt(events, filter, i) {
      TakesIffAccepted(events[i], filter);
      assert i in qs;
      var m :| 0 <= m < |qs| && qs[m] == i;
      LastAmongAccepted(events, filter, accepted, qs, m);
      assert m in rs;
      var k :| 0 <= k < |rs| && rs[k] == m;
      assert ps[k] == i;
    }
  }
}
