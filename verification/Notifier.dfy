/** The exit notifier of a container (pkg/micantainer/container.go), as a machine whose steps are what
    happens between two acquisitions of its mutex. Every interleaving of callers is a sequence of steps. */
module Notifier {
  import opened Wrappers

  datatype StateString = Ready | Running | Stopped | Creating | Paused | Down

  predicate Inactive(s: StateString) {
    s.Stopped? || s.Down?
  }

  /** closed[i] tells whether the i-th channel ever made has been closed; closing one twice panics. */
  datatype Machine = Machine(state: StateString, current: Option<nat>, closed: seq<bool>, panicked: bool)

  datatype Step =
    | SetState(s: StateString)   // c.state.State = s
    | Update(s: StateString)     // the critical section of updateExitNotifier
    | Hand                       // the critical section of exitNotifierForState

  const INITIAL: Machine := Machine(Down, None, [], false)

  /** updateExitNotifier */
  function Updated(m: Machine, s: StateString): Machine {
    if Inactive(s) then
      match m.current
      case None => m
      case Some(c) =>
        if c < |m.closed| && !m.closed[c] then m.(current := None, closed := m.closed[c := true])
        else m.(panicked := true)
    else
      if m.current.None? then m.(current := Some(|m.closed|), closed := m.closed + [false]) else m
  }

  function Next(m: Machine, step: Step): Machine {
    match step
    case SetState(s) => m.(state := s)
    case Update(s) => Updated(m, s)
    case Hand => m
  }

  function Run(m: Machine, steps: seq<Step>): Machine {
    if steps == [] then m else Next(Run(m, steps[..|steps| - 1]), steps[|steps| - 1])
  }

  /** The current channel is open and every other one is closed. */
  ghost predicate Sound(m: Machine) {
    && (m.current.Some? ==> m.current.value < |m.closed|)
    && (forall i | 0 <= i < |m.closed| :: m.closed[i] <==> m.current != Some(i))
    && !m.panicked
  }

  lemma UpdateKeepsSound(m: Machine, s: StateString)
    requires Sound(m)
    ensures Sound(Updated(m, s))
    ensures Updated(m, s).current.None? <==> Inactive(s)
    ensures |m.closed| <= |Updated(m, s).closed|
    ensures forall i | 0 <= i < |m.closed| && m.closed[i] :: Updated(m, s).closed[i]
    ensures !Inactive(s) ==> forall i | 0 <= i < |m.closed| :: Updated(m, s).closed[i] == m.closed[i]
  {
  }

  /** The argument of the last update. */
  function LastUpdate(steps: seq<Step>): StateString {
    if steps == [] then INITIAL.state
    else if steps[|steps| - 1].Update? then steps[|steps| - 1].s
    else LastUpdate(steps[..|steps| - 1])
  }

  /** Over every interleaving: no channel is closed twice, the current channel is the only open one,
      and there is none exactly when the last update was for stopped or down. */
  lemma {:induction false} RunSound(steps: seq<Step>)
    ensures Sound(Run(INITIAL, steps))
    ensures Run(INITIAL, steps).current.None? <==> LastUpdate(steps) == Stopped || LastUpdate(steps) == Down
  {
    if steps != [] {
      var before := Run(INITIAL, steps[..|steps| - 1]);
      RunSound(steps[..|steps| - 1]);
      if steps[|steps| - 1].Update? {
        UpdateKeepsSound(before, steps[|steps| - 1].s);
      }
    }
  }

  /** The channel that the i-th step hands to a waiter; None is the nil channel, which never releases it. */
  function HandedAt(steps: seq<Step>, i: nat): Option<nat>
    requires i < |steps|
  {
    Run(INITIAL, steps[..i]).current
  }

  /** A channel that is closed by the end but was not closed after i steps was closed by an update
      for stopped or down in between. */
  lemma {:induction false} ClosedBetween(steps: seq<Step>, i: nat, c: nat) returns (j: nat)
    requires i <= |steps|
    requires c < |Run(INITIAL, steps[..i]).closed| && !Run(INITIAL, steps[..i]).closed[c]
    requires c < |Run(INITIAL, steps).closed| && Run(INITIAL, steps).closed[c]
    ensures i <= j < |steps| && steps[j].Update? && Inactive(steps[j].s)
  {
    var n := |steps| - 1;
    assert steps[..|steps|] == steps;
    var before := Run(INITIAL, steps[..n]);
    RunSound(steps[..n]);
    assert i <= n;
    assert steps[..n][..i] == steps[..i];
    ChannelsStay(steps[..n], i);
    if before.closed[c] {
      j := ClosedBetween(steps[..n], i, c);
    } else {
      UpdateKeepsSound(before, if steps[n].Update? then steps[n].s else Ready);
      j := n;
    }
  }

  lemma {:induction false} ChannelsStay(steps: seq<Step>, i: nat)
    requires i <= |steps|
    ensures |Run(INITIAL, steps[..i]).closed| <= |Run(INITIAL, steps).closed|
    decreases |steps| - i
  {
    if i < |steps| {
      ChannelsStay(steps, i + 1);
      RunSound(steps[..i]);
      RunNext(steps, i);
      if steps[i].Update? {
        UpdateKeepsSound(Run(INITIAL, steps[..i]), steps[i].s);
      }
    } else {
      assert steps[..i] == steps;
    }
  }

  lemma RunNext(steps: seq<Step>, j: nat)
    requires j < |steps|
    ensures Run(INITIAL, steps[..j + 1]) == Next(Run(INITIAL, steps[..j]), steps[j])
  {
    assert steps[..j + 1][..j] == steps[..j];
  }

  /** An update for stopped or down leaves no channel open. */
  lemma AllClosed(steps: seq<Step>, j: nat, c: nat)
    requires j < |steps| && steps[j].Update? && Inactive(steps[j].s)
    requires c < |Run(INITIAL, steps[..j]).closed|
    ensures var m := Run(INITIAL, steps[..j + 1]); c < |m.closed| && m.closed[c]
  {
    RunNext(steps, j);
    RunSound(steps[..j]);
    UpdateKeepsSound(Run(INITIAL, steps[..j]), steps[j].s);
  }

  /** A closed channel is never opened again. */
  lemma {:induction false} StaysClosed(steps: seq<Step>, i: nat, c: nat)
    requires i <= |steps|
    requires c < |Run(INITIAL, steps[..i]).closed| && Run(INITIAL, steps[..i]).closed[c]
    ensures c < |Run(INITIAL, steps).closed| && Run(INITIAL, steps).closed[c]
    decreases |steps| - i
  {
    if i < |steps| {
      RunNext(steps, i);
      RunSound(steps[..i]);
      if steps[i].Update? {
        UpdateKeepsSound(Run(INITIAL, steps[..i]), steps[i].s);
      }
      StaysClosed(steps, i + 1, c);
    } else {
      assert steps[..i] == steps;
    }
  }

  lemma UpdateReleases(steps: seq<Step>, i: nat, j: nat, c: nat)
    requires i <= j < |steps| && steps[j].Update? && Inactive(steps[j].s)
    requires c < |Run(INITIAL, steps[..i]).closed|
    ensures c < |Run(INITIAL, steps).closed| && Run(INITIAL, steps).closed[c]
  {
    assert steps[..j][..i] == steps[..i];
    ChannelsStay(steps[..j], i);
    AllClosed(steps, j, c);
    StaysClosed(steps, j + 1, c);
  }

  /** Over every interleaving a channel handed to a waiter is the current one until it is closed, and it is closed
      exactly when an update for stopped or down has come after the waiter received it. */
  lemma HandedChannels(steps: seq<Step>, i: nat)
    requires i < |steps| && steps[i].Hand? && HandedAt(steps, i).Some?
    ensures var c := HandedAt(steps, i).value; var m := Run(INITIAL, steps);
      && c < |m.closed|
      && (m.current == Some(c) <==> !m.closed[c])
      && (m.closed[c] <==> exists j :: i < j < |steps| && steps[j].Update? && (steps[j].s == Stopped || steps[j].s == Down))
  {
    var c := HandedAt(steps, i).value;
    RunSound(steps[..i]);
    RunSound(steps);
    ChannelsStay(steps, i);
    if Run(INITIAL, steps).closed[c] {
      var j := ClosedBetween(steps, i, c);
      assert j != i;
    }
    forall j | i < j < |steps| && steps[j].Update? && Inactive(steps[j].s)
      ensures Run(INITIAL, steps).closed[c]
    {
      UpdateReleases(steps, i, j, c);
    }
  }

  // ---------- operations that run undisturbed ----------

  /** The container's operations when nothing comes between their steps. gone tells whether the client's
      socket is missing; the infra container has none. */
  datatype Op =
    | SetContainerState(s: StateString)
    | CheckState(infra: bool, gone: bool)
    | WaitExit(infra: bool, gone: bool)

  function Checked(m: Machine, infra: bool, gone: bool): seq<Step> {
    if !infra && gone && !m.state.Down? then [SetState(Down), Update(Down)] else []
  }

  function StateAfterCheck(m: Machine, infra: bool, gone: bool): StateString {
    if !infra && gone then Down else m.state
  }

  function Steps(m: Machine, op: Op): seq<Step> {
    match op
    case SetContainerState(s) => [SetState(s), Update(s)]
    case CheckState(infra, gone) => Checked(m, infra, gone)
    case WaitExit(infra, gone) =>
      var s := StateAfterCheck(m, infra, gone);
      Checked(m, infra, gone) + if Inactive(s) then [] else [Update(s), Hand]
  }

  function RunOps(m: Machine, ops: seq<Op>): Machine {
    if ops == [] then m
    else
      var before := RunOps(m, ops[..|ops| - 1]);
      Run(before, Steps(before, ops[|ops| - 1]))
  }

  ghost predicate InStep(m: Machine) {
    Sound(m) && (m.current.None? <==> m.state == Stopped || m.state == Down)
  }

  lemma RunOne(m: Machine, step: Step)
    ensures Run(m, [step]) == Next(m, step)
  {
    assert [step][..0] == [];
  }

  lemma RunTwo(m: Machine, a: Step, b: Step)
    ensures Run(m, [a, b]) == Next(Next(m, a), b)
  {
    assert [a, b][..1] == [a];
    RunOne(m, a);
  }

  lemma OpInStep(m: Machine, op: Op)
    requires InStep(m)
    ensures InStep(Run(m, Steps(m, op)))
  {
    match op {
      case SetContainerState(s) =>
        RunTwo(m, SetState(s), Update(s));
        UpdateKeepsSound(m.(state := s), s);
      case CheckState(infra, gone) =>
        CheckInStep(m, infra, gone);
      case WaitExit(infra, gone) =>
        CheckInStep(m, infra, gone);
        var s := StateAfterCheck(m, infra, gone);
        if Inactive(s) {
          assert Steps(m, op) == Checked(m, infra, gone);
        } else {
          assert Steps(m, op) == [Update(s), Hand];
          RunTwo(m, Update(s), Hand);
          UpdateKeepsSound(m, s);
        }
    }
  }

  lemma CheckInStep(m: Machine, infra: bool, gone: bool)
    requires InStep(m)
    ensures var n := Run(m, Checked(m, infra, gone));
      InStep(n) && n.state == StateAfterCheck(m, infra, gone)
  {
    RunTwo(m, SetState(Down), Update(Down));
    UpdateKeepsSound(m.(state := Down), Down);
  }

  lemma {:induction false} OpsKeepInStep(m: Machine, ops: seq<Op>)
    requires InStep(m)
    ensures InStep(RunOps(m, ops))
  {
    if ops != [] {
      OpsKeepInStep(m, ops[..|ops| - 1]);
      OpInStep(RunOps(m, ops[..|ops| - 1]), ops[|ops| - 1]);
    }
  }

  /** Over every run of undisturbed operations the notifier is nil exactly when the state is stopped or down. */
  lemma OpsInStep(ops: seq<Op>)
    ensures InStep(RunOps(INITIAL, ops))
  {
    OpsKeepInStep(INITIAL, ops);
  }

  /** newContainer: the state restored from disk, if there is one, then a check. */
  function OpenOps(restored: Option<StateString>, infra: bool, gone: bool): seq<Op> {
    (if restored.Some? then [SetContainerState(restored.value)] else []) + [CheckState(infra, gone)]
  }

  /** ensureClientPresence, which every other operation on a client begins with: a check, then the state of a client
      that has been created anew. The check at its end finds what is known by then. */
  function PresenceOps(infra: bool, gone: bool, registered: bool): seq<Op> {
    [CheckState(infra, gone)] + if registered then [SetContainerState(Ready)] else []
  }

  lemma SplitLast(a: seq<Op>, b: seq<Op>)
    requires b != []
    ensures (a + b)[..|a + b| - 1] == a + b[..|b| - 1] && (a + b)[|a + b| - 1] == b[|b| - 1]
  {
  }

  /** An operation that is made up of operations continues the run that came before. */
  lemma {:induction false} OpsApart(m: Machine, a: seq<Op>, b: seq<Op>)
    ensures RunOps(m, a + b) == RunOps(RunOps(m, a), b)
  {
    if b == [] {
      assert a + b == a;
    } else {
      var n := |b| - 1;
      OpsApart(m, a, b[..n]);
      SplitLast(a, b);
    }
  }

  lemma RunOneOp(m: Machine, op: Op)
    ensures RunOps(m, [op]) == Run(m, Steps(m, op))
  {
    assert [op][..0] == [];
  }

  lemma RunTwoOps(m: Machine, a: Op, b: Op)
    ensures RunOps(m, [a, b]) == RunOps(RunOps(m, [a]), [b])
  {
    assert [a, b] == [a] + [b];
    OpsApart(m, [a], [b]);
  }

  lemma OpenRun(restored: Option<StateString>, infra: bool, gone: bool)
    ensures var found := if restored.Some? then RunOps(INITIAL, [SetContainerState(restored.value)]) else INITIAL;
      RunOps(INITIAL, OpenOps(restored, infra, gone)) == RunOps(found, [CheckState(infra, gone)])
  {
    if restored.Some? {
      RunTwoOps(INITIAL, SetContainerState(restored.value), CheckState(infra, gone));
    }
  }

  lemma InStepSettled(m: Machine)
    requires InStep(m)
    ensures Updated(m, m.state) == m
  {
  }

  ghost predicate Open(m: Machine, c: nat) {
    c < |m.closed| && !m.closed[c]
  }

  /** One undisturbed operation closes a channel only by stopping the container, and opens none again. */
  lemma OpReleases(m: Machine, op: Op, c: nat)
    requires InStep(m) && c < |m.closed|
    ensures var n := Run(m, Steps(m, op));
      && InStep(n) && c < |n.closed|
      && (Open(n, c) <==> Open(m, c) && !Inactive(n.state))
  {
    OpInStep(m, op);
    match op {
      case SetContainerState(s) =>
        RunTwo(m, SetState(s), Update(s));
        UpdateKeepsSound(m.(state := s), s);
      case CheckState(infra, gone) =>
        CheckReleases(m, infra, gone, c);
      case WaitExit(infra, gone) =>
        CheckReleases(m, infra, gone, c);
        var s := StateAfterCheck(m, infra, gone);
        if Inactive(s) {
          assert Steps(m, op) == Checked(m, infra, gone);
        } else {
          assert Steps(m, op) == [Update(s), Hand];
          RunTwo(m, Update(s), Hand);
          UpdateKeepsSound(m, s);
        }
    }
  }

  lemma CheckReleases(m: Machine, infra: bool, gone: bool, c: nat)
    requires InStep(m) && c < |m.closed|
    ensures var n := Run(m, Checked(m, infra, gone));
      c < |n.closed| && (Open(n, c) <==> Open(m, c) && !Inactive(n.state))
  {
    RunTwo(m, SetState(Down), Update(Down));
    UpdateKeepsSound(m.(state := Down), Down);
  }

  /** The container's machine after the first k operations. */
  function AfterOps(ops: seq<Op>, k: nat): Machine
    requires k <= |ops|
  {
    RunOps(INITIAL, ops[..k])
  }

  lemma AfterNext(ops: seq<Op>, n: nat)
    requires n < |ops|
    ensures AfterOps(ops, n + 1) == Run(AfterOps(ops, n), Steps(AfterOps(ops, n), ops[n]))
  {
    assert ops[..n + 1][..n] == ops[..n];
  }

  /** From each machine of ms to the next a channel stays, and stays open exactly while the state is active. */
  ghost predicate Keeps(ms: seq<Machine>, c: nat) {
    forall k | 0 < k < |ms| && c < |ms[k - 1].closed| ::
      c < |ms[k].closed| && (Open(ms[k], c) <==> Open(ms[k - 1], c) && !Inactive(ms[k].state))
  }

  lemma {:induction false} KeptOpen(ms: seq<Machine>, i: nat, n: nat, c: nat)
    requires i <= n < |ms| && Keeps(ms, c) && Open(ms[i], c)
    ensures c < |ms[n].closed| && (Open(ms[n], c) <==> forall j | i < j <= n :: !Inactive(ms[j].state))
    decreases n - i
  {
    if i < n {
      KeptOpen(ms, i, n - 1, c);
    }
  }

  ghost function History(ops: seq<Op>): (ms: seq<Machine>)
    ensures |ms| == |ops| + 1
  {
    seq(|ops| + 1, k requires 0 <= k <= |ops| => AfterOps(ops, k))
  }

  lemma HistoryKeeps(ops: seq<Op>, c: nat)
    ensures Keeps(History(ops), c)
  {
    var ms := History(ops);
    forall k | 0 < k < |ms| && c < |ms[k - 1].closed|
      ensures c < |ms[k].closed| && (Open(ms[k], c) <==> Open(ms[k - 1], c) && !Inactive(ms[k].state))
    {
      OpsInStep(ops[..k - 1]);
      AfterNext(ops, k - 1);
      OpReleases(AfterOps(ops, k - 1), ops[k - 1], c);
    }
  }

  /** A channel that is open after i operations is closed in the end exactly when the container has been
      stopped or down since. */
  lemma ClosedIff(ops: seq<Op>, i: nat, c: nat)
    requires i <= |ops| && Open(AfterOps(ops, i), c)
    ensures var m := AfterOps(ops, |ops|);
      c < |m.closed| && (m.closed[c] <==> exists j :: i < j <= |ops| && Inactive(AfterOps(ops, j).state))
  {
    var ms := History(ops);
    HistoryKeeps(ops, c);
    assert ms[i] == AfterOps(ops, i) && ms[|ops|] == AfterOps(ops, |ops|);
    KeptOpen(ms, i, |ops|, c);
    forall j | i < j <= |ops|
      ensures ms[j].state == AfterOps(ops, j).state
    {
    }
  }

  /** A waiter that found the container neither stopped nor down holds an open channel. It is released exactly
      when the container has been stopped or down since; until then its channel is the current one. */
  lemma ReleasedIff(ops: seq<Op>, i: nat)
    requires i < |ops| && ops[i].WaitExit?
    requires !Inactive(StateAfterCheck(AfterOps(ops, i), ops[i].infra, ops[i].gone))
    ensures var handed := AfterOps(ops, i + 1).current; var m := RunOps(INITIAL, ops);
      && handed.Some? && Open(AfterOps(ops, i + 1), handed.value) && handed.value < |m.closed|
      && (m.closed[handed.value] <==>
            exists j :: i + 1 < j <= |ops| && (AfterOps(ops, j).state == Stopped || AfterOps(ops, j).state == Down))
      && (!m.closed[handed.value] ==> m.current == handed)
  {
    var op := ops[i];
    OpsInStep(ops[..i + 1]);
    OpsInStep(ops);
    WaitHands(AfterOps(ops, i), op.infra, op.gone);
    AfterNext(ops, i);
    assert AfterOps(ops, |ops|) == RunOps(INITIAL, ops) by {
      assert ops[..|ops|] == ops;
    }
    ClosedIff(ops, i + 1, AfterOps(ops, i + 1).current.value);
  }

  lemma WaitHands(m: Machine, infra: bool, gone: bool)
    requires !Inactive(StateAfterCheck(m, infra, gone))
    ensures Run(m, Steps(m, WaitExit(infra, gone))).current.Some?
  {
    var s := StateAfterCheck(m, infra, gone);
    assert Steps(m, WaitExit(infra, gone)) == [Update(s), Hand];
    RunTwo(m, Update(s), Hand);
  }

  // ---------- overlapping callers ----------

  /** The argument of the last assignment to the state. */
  function LastSet(steps: seq<Step>): StateString {
    if steps == [] then INITIAL.state
    else if steps[|steps| - 1].SetState? then steps[|steps| - 1].s
    else LastSet(steps[..|steps| - 1])
  }

  lemma {:induction false} StateIsLastSet(steps: seq<Step>)
    ensures Run(INITIAL, steps).state == LastSet(steps)
  {
    if steps != [] {
      StateIsLastSet(steps[..|steps| - 1]);
    }
  }

  /** Between the steps of one operation another can interfere. Notifier and state then agree exactly when
      the last assignment and the last update of the schedule are both for active states or both not. */
  lemma AgreesIff(steps: seq<Step>)
    ensures var m := Run(INITIAL, steps);
      (m.current.None? <==> Inactive(m.state)) <==> (Inactive(LastUpdate(steps)) <==> Inactive(LastSet(steps)))
  {
    RunSound(steps);
    StateIsLastSet(steps);
  }

  /** The caller that assigned the state last has updated the notifier, and no update after its own is for
      the other kind of state. */
  ghost predicate Finished(steps: seq<Step>, i: nat, j: nat) {
    && i < j < |steps| && steps[i].SetState? && steps[j] == Update(steps[i].s)
    && (forall k | i < k < |steps| :: !steps[k].SetState?)
    && (forall k | j < k < |steps| && steps[k].Update? :: Inactive(steps[k].s) <==> Inactive(steps[i].s))
  }

  lemma {:induction false} LastSetIs(steps: seq<Step>, i: nat)
    requires i < |steps| && steps[i].SetState? && forall k | i < k < |steps| :: !steps[k].SetState?
    ensures LastSet(steps) == steps[i].s
    decreases |steps|
  {
    if i < |steps| - 1 {
      LastSetIs(steps[..|steps| - 1], i);
    }
  }

  lemma {:induction false} LastUpdateKind(steps: seq<Step>, j: nat, kind: bool)
    requires j < |steps| && steps[j].Update?
    requires forall k | j <= k < |steps| && steps[k].Update? :: Inactive(steps[k].s) == kind
    ensures Inactive(LastUpdate(steps)) == kind
    decreases |steps|
  {
    if j < |steps| - 1 {
      LastUpdateKind(steps[..|steps| - 1], j, kind);
    }
  }

  /** Overlapping callers do no harm when the last one to assign the state is, in kind, also the last to update. */
  lemma FinishedAgrees(steps: seq<Step>, i: nat, j: nat)
    requires Finished(steps, i, j)
    ensures var m := Run(INITIAL, steps); m.current.None? <==> Inactive(m.state)
  {
    LastSetIs(steps, i);
    LastUpdateKind(steps, j, Inactive(steps[i].s));
    AgreesIff(steps);
  }

  /** Updates in the other order than the assignments are enough for a disagreement: all callers are done, the
      container runs, and there is no channel to wait on. */
  lemma CrossedCallers()
    ensures var steps := [SetState(Stopped), SetState(Running), Update(Running), Update(Stopped)];
      var m := Run(INITIAL, steps);
      m.state == Running && m.current == None
  {
    var steps := [SetState(Stopped), SetState(Running), Update(Running), Update(Stopped)];
    assert LastSet(steps[..3]) == Running by {
      assert steps[..3][..2] == steps[..2];
    }
    StateIsLastSet(steps);
    RunSound(steps);
  }

  /** A waiter that is handed its channel between another caller's assignment and its update for stopped, with the
      container running again, is released although the container never stopped while it waited. */
  lemma EarlyRelease()
    ensures var before := [SetState(Stopped), SetState(Running), Update(Running)];
      var steps := before + [Hand, Update(Stopped)];
      && HandedAt(steps, 3) == Some(0) && Run(INITIAL, steps).closed == [true]
      && forall k | 3 <= k <= |steps| :: Run(INITIAL, steps[..k]).state == Running
  {
    var a := [SetState(Stopped), SetState(Running)];
    var before := [SetState(Stopped), SetState(Running), Update(Running)];
    var steps := before + [Hand, Update(Stopped)];
    RunTwo(INITIAL, SetState(Stopped), SetState(Running));
    assert before[..2] == a;
    assert steps[..3] == before;
    assert steps[..4][..3] == before;
    assert steps[..5] == steps && steps[..5][..4] == steps[..4];
    assert Run(INITIAL, steps[..4]) == Next(Run(INITIAL, before), Hand);
    assert Run(INITIAL, steps) == Next(Run(INITIAL, steps[..4]), Update(Stopped));
  }

  /** A waiter that has read the state before the container stops and asks for its channel afterwards
      holds an open channel on a stopped container. */
  lemma LateWaiter()
    ensures var early := [SetState(Running), Update(Running), SetState(Stopped), Update(Stopped), Update(Running)];
      var m := Run(INITIAL, early + [Hand]);
      && m.state == Stopped
      && HandedAt(early + [Hand], 5) == Some(1)
      && |m.closed| == 2 && !m.closed[1]
  {
    var a := [SetState(Running), Update(Running)];
    var b := a + [SetState(Stopped), Update(Stopped)];
    var early := [SetState(Running), Update(Running), SetState(Stopped), Update(Stopped), Update(Running)];
    RunTwo(INITIAL, SetState(Running), Update(Running));
    assert early == b + [Update(Running)] && (early + [Hand])[..5] == early && early[..4] == b;
    assert b[..3] == a + [SetState(Stopped)] && b[..3][..2] == a;
    assert Run(INITIAL, b[..3]) == Next(Run(INITIAL, a), SetState(Stopped));
    assert Run(INITIAL, b) == Next(Run(INITIAL, b[..3]), Update(Stopped));
  }
}
