/** Demotion marks of one volume under interleaved failover passes and full syncs. The failover
    controller runs one pass at a time, and at most one full sync of a volume is in flight. */
module Demotion {

  /** fullSyncTargets: it reads the mark before it asks a target, and clears it after the target
      succeeded with a backup. */
  datatype SyncPhase =
    | NoSync
    | Walking(left: seq<string>)
    | Waiting(node: string, backup: bool, left: seq<string>)
    | Restoring(node: string, left: seq<string>)

  /** reconcilePVC: the marks are copied first; a promotion writes annotations and labels, and then,
      for each stale node, demotes it and deletes its pod. */
  datatype PassPhase =
    | NoPass
    | Reading(marks: set<string>)
    | Writing(target: string, stale: seq<string>)
    | Promoting(target: string, stale: seq<string>)
    | Deleting(target: string, node: string, stale: seq<string>)

  datatype State = State(demoted: set<string>, sync: SyncPhase, pass: PassPhase)

  datatype Step =
    | StartSync(targets: seq<string>)
    | Ask
    | Reply(ok: bool)
    | Restore
    | EndSync
    | StartPass
    | QuitPass
    | Choose(target: string, stale: seq<string>)
    | Write(ok: bool)
    | Demote
    | Delete(ok: bool)
    | EndPass

  predicate Enabled(s: State, step: Step) {
    match step
    case StartSync(_) => s.sync.NoSync?
    case Ask => s.sync.Walking? && s.sync.left != []
    case Reply(_) => s.sync.Waiting?
    case Restore => s.sync.Restoring?
    case EndSync => s.sync.Walking? && s.sync.left == []
    case StartPass => s.pass.NoPass?
    case QuitPass => s.pass.Reading?
    case Choose(target, stale) => s.pass.Reading? && target !in s.pass.marks && target !in stale
    case Write(_) => s.pass.Writing?
    case Demote => s.pass.Promoting? && s.pass.stale != []
    case Delete(_) => s.pass.Deleting?
    case EndPass => s.pass.Promoting? && s.pass.stale == []
  }

  function Next(s: State, step: Step): State
    requires Enabled(s, step)
  {
    match step
    case StartSync(targets) => s.(sync := Walking(targets))
    case Ask => s.(sync := Waiting(s.sync.left[0], s.sync.left[0] in s.demoted, s.sync.left[1..]))
    case Reply(ok) =>
      s.(sync := if ok && s.sync.backup then Restoring(s.sync.node, s.sync.left) else Walking(s.sync.left))
    case Restore => s.(demoted := s.demoted - {s.sync.node}, sync := Walking(s.sync.left))
    case EndSync => s.(sync := NoSync)
    case StartPass => s.(pass := Reading(s.demoted))
    case QuitPass => s.(pass := NoPass)
    case Choose(target, stale) => s.(pass := Writing(target, stale))
    case Write(ok) => s.(pass := if ok then Promoting(s.pass.target, s.pass.stale) else NoPass)
    case Demote =>
      s.(demoted := s.demoted + {s.pass.stale[0]},
         pass := Deleting(s.pass.target, s.pass.stale[0], s.pass.stale[1..]))
    case Delete(ok) => s.(pass := if ok then Promoting(s.pass.target, s.pass.stale) else NoPass)
    case EndPass => s.(pass := NoPass)
  }

  const START := State({}, NoSync, NoPass)

  ghost predicate IsRun(states: seq<State>, steps: seq<Step>) {
    && |states| == |steps| + 1 && states[0] == START
    && forall i :: 0 <= i < |steps| ==> Enabled(states[i], steps[i]) && states[i + 1] == Next(states[i], steps[i])
  }

  /** A sync that asked a node to back up finds the mark still set until it clears it, and a pass
      that is still choosing has not missed a new mark. */
  ghost predicate Inv(s: State) {
    && (s.sync.Waiting? && s.sync.backup ==> s.sync.node in s.demoted)
    && (s.sync.Restoring? ==> s.sync.node in s.demoted)
    && (s.pass.Reading? ==> s.demoted <= s.pass.marks)
  }

  lemma {:induction false} RunKeepsInv(states: seq<State>, steps: seq<Step>, n: nat)
    requires IsRun(states, steps) && n < |states|
    ensures Inv(states[n])
  {
    if n > 0 {
      RunKeepsInv(states, steps, n - 1);
      assert states[n] == Next(states[n - 1], steps[n - 1]);
    }
  }

  /** A node is never chosen while it is marked, however old the copy of the marks is. */
  lemma ChosenIsUnmarked(states: seq<State>, steps: seq<Step>, j: nat)
    requires IsRun(states, steps) && j < |steps| && steps[j].Choose?
    ensures steps[j].target !in states[j].demoted
  {
    RunKeepsInv(states, steps, j);
    assert Enabled(states[j], steps[j]);
  }

  /** A mark that is gone was cleared by a full sync. */
  lemma {:induction false} MarkWasCleared(states: seq<State>, steps: seq<Step>, i: nat, j: nat, node: string) returns (c: nat)
    requires IsRun(states, steps) && i <= j < |states| && node in states[i].demoted && node !in states[j].demoted
    ensures i <= c < j && steps[c].Restore? && states[c].sync.Restoring? && states[c].sync.node == node
    decreases j
  {
    var k := j - 1;
    assert states[j] == Next(states[k], steps[k]) && Enabled(states[k], steps[k]);
    if node in states[k].demoted {
      c := k;
    } else {
      c := MarkWasCleared(states, steps, i, k, node);
    }
  }

  /** The sync stays in one phase, with the node marked, from `a` to `b`. */
  ghost predicate HeldMarked(states: seq<State>, phase: SyncPhase, node: string, a: nat, b: nat) {
    a <= b < |states| && forall k :: a <= k <= b ==> states[k].sync == phase && node in states[k].demoted
  }

  lemma {:induction false} RepliedBefore(states: seq<State>, steps: seq<Step>, n: nat) returns (b: nat)
    requires IsRun(states, steps) && n < |states| && states[n].sync.Restoring?
    ensures b < n && steps[b] == Reply(true)
    ensures states[b].sync == Waiting(states[n].sync.node, true, states[n].sync.left)
    ensures HeldMarked(states, states[n].sync, states[n].sync.node, b + 1, n)
  {
    var k := n - 1;
    RunKeepsInv(states, steps, n);
    assert states[n] == Next(states[k], steps[k]) && Enabled(states[k], steps[k]);
    if states[k].sync == states[n].sync {
      b := RepliedBefore(states, steps, k);
    } else {
      b := k;
    }
  }

  lemma {:induction false} AskedBefore(states: seq<State>, steps: seq<Step>, n: nat) returns (a: nat)
    requires IsRun(states, steps) && n < |states| && states[n].sync.Waiting? && states[n].sync.backup
    ensures a < n && steps[a].Ask? && states[a].sync == Walking([states[n].sync.node] + states[n].sync.left)
    ensures states[n].sync.node in states[a].demoted
    ensures HeldMarked(states, states[n].sync, states[n].sync.node, a + 1, n)
  {
    var k := n - 1;
    RunKeepsInv(states, steps, n);
    assert states[n] == Next(states[k], steps[k]) && Enabled(states[k], steps[k]);
    if states[k].sync == states[n].sync {
      a := AskedBefore(states, steps, k);
    } else {
      a := k;
      assert states[k].sync.left == [states[n].sync.node] + states[n].sync.left;
    }
  }

  /** A full sync has asked the node to back up and has not yet dealt with its answer. */
  predicate Questioned(s: State, node: string) {
    (s.sync.Waiting? && s.sync.node == node && s.sync.backup) || (s.sync.Restoring? && s.sync.node == node)
  }

  /** A sync about to clear a mark asked the node to back up while it was marked (step `a`) and heard
      of its success (step `b`), and the mark has stood since the question. */
  lemma AskedAndHeld(states: seq<State>, steps: seq<Step>, c: nat) returns (a: nat, b: nat)
    requires IsRun(states, steps) && c < |states| && states[c].sync.Restoring?
    ensures a < b < c && steps[a].Ask? && steps[b] == Reply(true)
    ensures states[b].sync.Waiting? && states[b].sync.node == states[c].sync.node && states[b].sync.backup
    ensures forall k :: a <= k <= c ==> states[c].sync.node in states[k].demoted
    ensures forall k :: a < k <= c ==> Questioned(states[k], states[c].sync.node)
  {
    var node := states[c].sync.node;
    b := RepliedBefore(states, steps, c);
    a := AskedBefore(states, steps, b);
    forall k | a <= k <= c ensures node in states[k].demoted && (a < k ==> Questioned(states[k], node)) {
      if a < k <= b {
        assert HeldMarked(states, states[b].sync, node, a + 1, b);
      } else if b < k {
        assert HeldMarked(states, states[c].sync, node, b + 1, c);
      }
    }
  }

  /** Demotion is sticky: a node that was marked is chosen again only after a full sync asked it to
      back up while it was marked (step `a`), succeeded on it (step `b`) and cleared the mark (step
      `c`), the mark standing all the way from the question to the clearing. The question comes after
      the moment looked at, unless it was open at that moment already. */
  lemma DemotionIsSticky(states: seq<State>, steps: seq<Step>, i: nat, j: nat) returns (a: nat, b: nat, c: nat)
    requires IsRun(states, steps) && i <= j < |steps| && steps[j].Choose? && steps[j].target in states[i].demoted
    ensures a < b < c < j && i <= c
    ensures steps[a].Ask? && steps[b] == Reply(true) && steps[c].Restore?
    ensures states[b].sync.Waiting? && states[b].sync.node == steps[j].target && states[b].sync.backup
    ensures states[c].sync.Restoring? && states[c].sync.node == steps[j].target
    ensures forall k :: a <= k <= c ==> steps[j].target in states[k].demoted
    ensures i <= a || Questioned(states[i], steps[j].target)
  {
    ChosenIsUnmarked(states, steps, j);
    c := MarkWasCleared(states, steps, i, j, steps[j].target);
    a, b := AskedAndHeld(states, steps, c);
  }

  ghost predicate IsPath(states: seq<State>, steps: seq<Step>) {
    && |states| == |steps| + 1
    && forall i :: 0 <= i < |steps| ==> Enabled(states[i], steps[i]) && states[i + 1] == Next(states[i], steps[i])
  }

  lemma PathConcat(s: seq<State>, a: seq<Step>, t: seq<State>, b: seq<Step>)
    requires IsPath(s, a) && IsPath(t, b) && s[|a|] == t[0]
    ensures IsPath(s + t[1..], a + b)
  {
    var states, steps := s + t[1..], a + b;
    forall i | 0 <= i < |steps| ensures Enabled(states[i], steps[i]) && states[i + 1] == Next(states[i], steps[i]) {
      if i < |a| {
        assert states[i] == s[i] && states[i + 1] == s[i + 1] && steps[i] == a[i];
      } else {
        assert steps[i] == b[i - |a|] && states[i] == t[i - |a|] && states[i + 1] == t[i - |a| + 1];
      }
    }
  }

  /** A promotion demotes the node. */
  lemma FirstPromotion(n: string, t: string) returns (states: seq<State>, steps: seq<Step>)
    requires n != t
    ensures IsPath(states, steps) && |steps| == 6 && states[0] == START && states[6] == State({n}, NoSync, NoPass)
  {
    steps := [StartPass, Choose(t, [n]), Write(true), Demote, Delete(true), EndPass];
    states := [START, State({}, NoSync, Reading({})), State({}, NoSync, Writing(t, [n])),
               State({}, NoSync, Promoting(t, [n])), State({n}, NoSync, Deleting(t, n, [])),
               State({n}, NoSync, Promoting(t, [])), State({n}, NoSync, NoPass)];
    assert [n][1..] == [] && {} + {n} == {n};
  }

  /** A full sync asks it to back up, and a second promotion demotes it again. */
  lemma SecondPromotion(n: string, t: string) returns (states: seq<State>, steps: seq<Step>)
    requires n != t
    ensures IsPath(states, steps) && |steps| == 6 && states[0] == State({n}, NoSync, NoPass)
    ensures states[6] == State({n}, Waiting(n, true, []), Deleting(t, n, []))
    ensures steps[5].Demote? && states[5].pass == Promoting(t, [n])
    ensures steps[1].Ask? && forall k :: 1 < k < 6 ==> !steps[k].Ask?
  {
    var asked := Waiting(n, true, []);
    steps := [StartSync([n]), Ask, StartPass, Choose(t, [n]), Write(true), Demote];
    states := [State({n}, NoSync, NoPass), State({n}, Walking([n]), NoPass), State({n}, asked, NoPass),
               State({n}, asked, Reading({n})), State({n}, asked, Writing(t, [n])),
               State({n}, asked, Promoting(t, [n])), State({n}, asked, Deleting(t, n, []))];
    assert [n][1..] == [] && {n} + {n} == {n};
  }

  /** It answers, its mark is cleared, and it is chosen. */
  lemma AnswerAndChoice(n: string, t: string) returns (states: seq<State>, steps: seq<Step>)
    ensures IsPath(states, steps) && |steps| == 6
    ensures states[0] == State({n}, Waiting(n, true, []), Deleting(t, n, []))
    ensures steps[5] == Choose(n, []) && forall k :: 0 <= k < 6 ==> !steps[k].Ask?
  {
    var done := Walking([]);
    steps := [Reply(true), Restore, Delete(true), EndPass, StartPass, Choose(n, [])];
    states := [State({n}, Waiting(n, true, []), Deleting(t, n, [])), State({n}, Restoring(n, []), Deleting(t, n, [])),
               State({}, done, Deleting(t, n, [])), State({}, done, Promoting(t, [])), State({}, done, NoPass),
               State({}, done, Reading({})), State({}, done, Writing(n, []))];
    assert {n} - {n} == {};
  }

  /** An open question does clear a newer mark: the node is demoted, asked, demoted again by a second
      promotion (step 11), answers, and is chosen, although nobody asked it after that demotion. */
  lemma NewerMarkIsCleared(n: string, t: string) returns (states: seq<State>, steps: seq<Step>)
    requires n != t
    ensures IsRun(states, steps) && |steps| == 18
    ensures steps[11].Demote? && states[11].pass == Promoting(t, [n]) && n in states[12].demoted
    ensures steps[17] == Choose(n, []) && forall k :: 11 <= k < 18 ==> !steps[k].Ask?
  {
    var s1, a1 := FirstPromotion(n, t);
    var s2, a2 := SecondPromotion(n, t);
    var s3, a3 := AnswerAndChoice(n, t);
    PathConcat(s1, a1, s2, a2);
    var s, a := s1 + s2[1..], a1 + a2;
    assert s[12] == s2[6] && s[11] == s2[5] && a[11] == a2[5] && s[0] == START;
    PathConcat(s, a, s3, a3);
    states, steps := s + s3[1..], a + a3;
    assert states[11] == s[11] && states[12] == s[12] && steps[11] == a[11] && states[0] == s[0];
    forall k | 11 <= k < 18 ensures !steps[k].Ask? {
      assert steps[k] == if k < 12 then a[k] else a3[k - 12];
    }
  }

  lemma {:induction false} DemotedBefore(states: seq<State>, steps: seq<Step>, n: nat) returns (d: nat)
    requires IsRun(states, steps) && n < |states| && states[n].pass.Deleting?
    ensures d < n && steps[d].Demote? && states[d + 1].pass == states[n].pass
    ensures states[n].pass.node in states[d + 1].demoted
  {
    var k := n - 1;
    assert states[n] == Next(states[k], steps[k]) && Enabled(states[k], steps[k]);
    if states[k].pass == states[n].pass {
      d := DemotedBefore(states, steps, k);
    } else {
      d := k;
    }
  }

  /** When a stale pod is deleted its node is marked, or a full sync that had asked the node to back
      up while it was marked has since succeeded on it and cleared the mark. */
  lemma DeletedIsMarked(states: seq<State>, steps: seq<Step>, n: nat) returns (a: nat, c: nat)
    requires IsRun(states, steps) && n < |steps| && steps[n].Delete?
    ensures var node := states[n].pass.node;
            || node in states[n].demoted
            || (a < c < n && steps[a].Ask? && steps[c].Restore? && states[c].sync.Restoring? && states[c].sync.node == node
                && forall k :: a <= k <= c ==> node in states[k].demoted)
  {
    assert Enabled(states[n], steps[n]);
    var node := states[n].pass.node;
    var d := DemotedBefore(states, steps, n);
    a, c := 0, 0;
    if node !in states[n].demoted {
      c := MarkWasCleared(states, steps, d + 1, n, node);
      var b;
      a, b := AskedAndHeld(states, steps, c);
    }
  }
}
