/** pkg/libmica/resource_manager.go: the executor's memory records and the commands it sends to the pedestal. */
module Executor {
  import opened Ints
  import opened PedestalCpus
  import opened Configs

  const MAX_CPU_STRING_LEN: nat := 128

  type uint32 = n: int | 0 <= n < U32_LIMIT

  /** What happens to one command: whether the pedestal carries it out, and whether micaCtl reports success.
      All four combinations occur: replies get lost, and the fallback of micaCtl drops the arguments of
      a "set" command that is then acknowledged. */
  datatype Reply = Reply(applied: bool, acked: bool)

  /** The pedestal's side. */
  datatype Pedestal = Pedestal(mem: int, max: int, cpus: string) {
    function Memory(n: int, r: Reply): Pedestal {
      if r.applied then this.(mem := n) else this
    }

    function MaxMem(n: int, r: Reply): Pedestal {
      if r.applied then this.(max := n) else this
    }

    function CPU(s: string, r: Reply): Pedestal {
      if r.applied then this.(cpus := s) else this
    }
  }

  datatype MemState = MemState(memoryMB: uint32, thresholdMB: uint32, ped: Pedestal)

  class MicaExecutor {
    const id: string
    var memoryMB: uint32
    var memoryThresholdMB: uint32
    var cpuStr: string
    ghost var ped: Pedestal

    constructor (id: string)
      ensures this.id == id && memoryMB == 0 && memoryThresholdMB == 0
    {
      this.id := id;
      memoryMB, memoryThresholdMB, cpuStr := 0, 0, "";
    }

    ghost function Mem(): MemState
      reads this
    {
      MemState(memoryMB, memoryThresholdMB, ped)
    }

    function CurrentMaxMem(): uint32
      reads this
    {
      memoryMB
    }

    /** The pedestal's side of creating the client. */
    ghost method Receive(base: uint32, confMax: int, r: Reply)
      modifies this`ped
      ensures ped == if r.applied then Pedestal(S32(base), S32(confMax), old(ped).cpus) else old(ped)
    {
      if r.applied {
        ped := Pedestal(S32(base), S32(confMax), ped.cpus);
      }
    }

    method RecordMemoryState(current: uint32, threshold: uint32)
      modifies this`memoryMB, this`memoryThresholdMB
      ensures Mem() == Recorded(old(Mem()), current, threshold)
    {
      memoryMB := current;
      var t := if threshold == 0 then current else threshold;
      memoryThresholdMB := Max(memoryThresholdMB, t);
    }

    method UpdateMemoryThreshold(memMiB: uint32, reply: Reply) returns (ok: bool)
      modifies this`memoryThresholdMB, this`ped
      ensures (Mem(), ok) == ThresholdUpdated(old(Mem()), memMiB, reply)
    {
      if memoryThresholdMB >= memMiB {
        return true;
      }
      ped := ped.MaxMem(memMiB, reply);
      if reply.acked {
        memoryThresholdMB := Max(memMiB, memoryThresholdMB);
      }
      return reply.acked;
    }

    method UpdateMemory(memMiB: uint32, reply: Reply) returns (ok: bool)
      modifies this`memoryMB, this`memoryThresholdMB, this`ped
      ensures (Mem(), ok) == MemoryUpdated(old(Mem()), memMiB, reply)
    {
      ped := ped.Memory(memMiB, reply);
      if reply.acked {
        memoryMB := memMiB;
        memoryThresholdMB := Max(memMiB, memoryThresholdMB);
      }
      return reply.acked;
    }

    method EnsureMemoryLimit(target: uint32, maxReply: Reply, memReply: Reply) returns (ok: bool)
      modifies this`memoryMB, this`memoryThresholdMB, this`ped
      ensures (Mem(), ok) == LimitEnsured(old(Mem()), target, maxReply, memReply)
      ensures var raise := old(memoryThresholdMB) < target && (old(memoryThresholdMB) == 0 ==> old(memoryMB) < target);
        ok <==> (raise ==> maxReply.acked) && (old(memoryMB) == target || memReply.acked)
      ensures ok ==> memoryMB == target && memoryThresholdMB >= old(memoryThresholdMB)
    {
      LimitReaches(Mem(), target, maxReply, memReply);
      var current := CurrentMaxMem();
      var threshold := memoryThresholdMB;
      if threshold == 0 {
        threshold := current;
      }
      if threshold < target {
        ok := UpdateMemoryThreshold(target, maxReply);
        if !ok {
          return;
        }
        memoryThresholdMB := target;
      }
      if current == target {
        return true;
      }
      ok := UpdateMemory(target, memReply);
    }

    method UpdatePCPUConstrains(cpus: string, reply: Reply) returns (ok: bool)
      modifies this`cpuStr, this`ped
      ensures ok == reply.acked && ped == old(ped).CPU(cpus, reply)
      ensures cpuStr == if ok then Clipped(cpus) else old(cpuStr)
    {
      ped := ped.CPU(cpus, reply);
      if reply.acked {
        cpuStr := Clipped(cpus);
      }
      return reply.acked;
    }

    method VcpuPin(cpuList: seq<int>, reply: Reply) returns (ok: bool)
      modifies this`cpuStr, this`ped
      ensures var text := CpuArrText(cpuList);
        && ok == (text != "" && reply.acked)
        && ped == (if text == "" then old(ped) else old(ped).CPU(text, reply))
        && cpuStr == (if ok then Clipped(text) else old(cpuStr))
    {
      var cpustr := ParseCPUArr(cpuList);
      if cpustr == "" {
        return false;
      }
      ok := UpdatePCPUConstrains(cpustr, reply);
    }
  }

  /** What fits into the record's fixed-size array. */
  function Clipped(s: string): string {
    if |s| <= MAX_CPU_STRING_LEN then s else s[..MAX_CPU_STRING_LEN]
  }

  // ---------- the protocol as functions ----------

  function Recorded(s: MemState, current: uint32, threshold: uint32): MemState {
    s.(memoryMB := current, thresholdMB := Max(s.thresholdMB, if threshold == 0 then current else threshold))
  }

  function ThresholdUpdated(s: MemState, mb: uint32, r: Reply): (MemState, bool) {
    if s.thresholdMB >= mb then (s, true)
    else (s.(ped := s.ped.MaxMem(mb, r), thresholdMB := if r.acked then mb else s.thresholdMB), r.acked)
  }

  function MemoryUpdated(s: MemState, mb: uint32, r: Reply): (MemState, bool) {
    var t := s.(ped := s.ped.Memory(mb, r));
    (if r.acked then t.(memoryMB := mb, thresholdMB := Max(mb, s.thresholdMB)) else t, r.acked)
  }

  function LimitEnsured(s: MemState, target: uint32, maxReply: Reply, memReply: Reply): (MemState, bool) {
    var threshold := if s.thresholdMB == 0 then s.memoryMB else s.thresholdMB;
    var (t, ok) := if threshold < target then ThresholdUpdated(s, target, maxReply) else (s, true);
    if !ok then (t, false)
    else
      var u := if threshold < target then t.(thresholdMB := target) else t;
      if s.memoryMB == target then (u, true) else MemoryUpdated(u, target, memReply)
  }

  /** Container.setupMemory on a Xen host, with the container's limit in MiB. */
  function MemorySetUp(s: MemState, limit: uint32, maxReply: Reply, memReply: Reply): (MemState, bool) {
    if limit == 0 || (s.memoryMB == limit && s.thresholdMB >= limit) then (s, true)
    else
      var (t, ok) := ThresholdUpdated(s, limit, maxReply);
      if !ok then (t, false)
      else
        var (u, done) := MemoryUpdated(t, limit, memReply);
        if !done then (u, false) else (Recorded(u, limit, limit), true)
  }

  /** The memory part of updateContainerResource: nothing is sent when the record already shows the limit. */
  function LimitChanged(s: MemState, target: uint32, maxReply: Reply, memReply: Reply): (MemState, bool) {
    if s.memoryMB == target then (s, true) else LimitEnsured(s, target, maxReply, memReply)
  }

  /** Container.registerClient: the daemon creates the client from the packed message, then, with an
      acknowledgement, the executor records the memory base it was created with. */
  function Registered(s: MemState, base: uint32, confMax: int, r: Reply): MemState {
    var t := if r.applied then s.(ped := Pedestal(S32(base), S32(confMax), s.ped.cpus)) else s;
    if r.acked then Recorded(t, base, base) else t
  }

  // ---------- safety ----------

  /** Pedestal memory and recorded memory stay within the recorded threshold. */
  ghost predicate Bounded(s: MemState) {
    s.memoryMB <= s.thresholdMB && s.ped.mem <= s.thresholdMB
  }

  /** The whole invariant: the threshold also stays within the pedestal's maximum. */
  ghost predicate Safe(s: MemState) {
    Bounded(s) && s.thresholdMB <= s.ped.max
  }

  datatype Event =
    | Setup(target: uint32, maxReply: Reply, memReply: Reply)
    | Change(target: uint32, maxReply: Reply, memReply: Reply)
    | Register(base: uint32, confMax: int, created: Reply)

  function Next(s: MemState, e: Event): MemState {
    match e
    case Setup(limit, a, b) => MemorySetUp(s, limit, a, b).0
    case Change(target, a, b) => LimitChanged(s, target, a, b).0
    case Register(base, confMax, r) => Registered(s, base, confMax, r)
  }

  function Run(s: MemState, events: seq<Event>): MemState {
    if events == [] then s else Next(Run(s, events[..|events| - 1]), events[|events| - 1])
  }

  /** The maximum is acknowledged without being carried out. */
  predicate FalseAck(e: Event) {
    !e.Register? && e.maxReply.acked && !e.maxReply.applied
  }

  /** A client is created with more memory than the threshold, and the reply gets lost. */
  predicate Overruns(s: MemState, e: Event) {
    e.Register? && e.created.applied && !e.created.acked && S32(e.base) > s.thresholdMB
  }

  /** A falsely acknowledged target beyond what the pedestal allows; a client created with too much memory for the
      record or with a maximum below the threshold that is recorded then; or a base beyond the pedestal's maximum
      that is recorded although no client has been created. */
  predicate Breaks(s: MemState, e: Event) {
    match e
    case Register(base, confMax, r) =>
      if r.applied then Overruns(s, e) || (if r.acked then Max(s.thresholdMB, base) else s.thresholdMB) > S32(confMax)
      else r.acked && base > s.ped.max
    case _ => e.target > s.ped.max && FalseAck(e)
  }

  lemma EnsureSafe(s: MemState, target: uint32, a: Reply, b: Reply)
    requires Bounded(s)
    ensures Bounded(LimitChanged(s, target, a, b).0)
    ensures Safe(s) ==> (Safe(LimitChanged(s, target, a, b).0) <==> !(target > s.ped.max && a.acked && !a.applied))
  {
  }

  lemma SetupSafe(s: MemState, limit: uint32, a: Reply, b: Reply)
    requires Bounded(s)
    ensures Bounded(MemorySetUp(s, limit, a, b).0)
    ensures Safe(s) ==> (Safe(MemorySetUp(s, limit, a, b).0) <==> !(limit > s.ped.max && a.acked && !a.applied))
  {
  }

  lemma RegisterSafe(s: MemState, base: uint32, confMax: int, r: Reply)
    requires Bounded(s)
    ensures Bounded(Registered(s, base, confMax, r)) <==> !Overruns(s, Register(base, confMax, r))
    ensures Safe(s) ==> (Safe(Registered(s, base, confMax, r)) <==> !Breaks(s, Register(base, confMax, r)))
  {
  }

  /** One set-up, update or registration keeps the bounds exactly unless it overruns them, and the whole invariant
      exactly unless it breaks it. What becomes of a memory command does not matter. */
  lemma StepSafeIff(s: MemState, e: Event)
    requires Bounded(s)
    ensures Bounded(Next(s, e)) <==> !Overruns(s, e)
    ensures Safe(s) ==> (Safe(Next(s, e)) <==> !Breaks(s, e))
  {
    match e
    case Setup(limit, a, b) => SetupSafe(s, limit, a, b);
    case Change(target, a, b) => EnsureSafe(s, target, a, b);
    case Register(base, confMax, r) => RegisterSafe(s, base, confMax, r);
  }

  /** The threshold never falls, from any state at all, even at the assignment without a max. */
  lemma ThresholdRises(s: MemState, e: Event)
    ensures Next(s, e).thresholdMB >= s.thresholdMB
  {
  }

  /** The state before the k-th operation. */
  function At(s: MemState, events: seq<Event>, k: nat): MemState
    requires k <= |events|
  {
    Run(s, events[..k])
  }

  lemma AtNext(s: MemState, events: seq<Event>, k: nat)
    requires k < |events|
    ensures At(s, events, k + 1) == Next(At(s, events, k), events[k])
  {
    assert events[..k + 1][..k] == events[..k];
  }

  ghost predicate BoundedThroughout(s: MemState, events: seq<Event>) {
    forall k | 0 <= k <= |events| :: Bounded(At(s, events, k))
  }

  ghost predicate SafeThroughout(s: MemState, events: seq<Event>) {
    forall k | 0 <= k <= |events| :: Safe(At(s, events, k))
  }

  /** No operation of the run overruns the state it meets. */
  ghost predicate NoneOverruns(s: MemState, events: seq<Event>) {
    forall k | 0 <= k < |events| :: !Overruns(At(s, events, k), events[k])
  }

  /** No operation of the run breaks the state it meets. */
  ghost predicate NoneBreaks(s: MemState, events: seq<Event>) {
    forall k | 0 <= k < |events| :: !Breaks(At(s, events, k), events[k])
  }

  lemma {:induction false} RunRises(s: MemState, events: seq<Event>, n: nat)
    requires n <= |events|
    ensures At(s, events, n).thresholdMB >= s.thresholdMB
  {
    if n > 0 {
      RunRises(s, events, n - 1);
      AtNext(s, events, n - 1);
      ThresholdRises(At(s, events, n - 1), events[n - 1]);
    }
  }

  /** A run that overruns the bounds nowhere keeps them to the end. */
  lemma {:induction false} BoundedAt(s: MemState, events: seq<Event>, n: nat)
    requires Bounded(s) && n <= |events|
    requires forall k | 0 <= k < n :: !Overruns(At(s, events, k), events[k])
    ensures Bounded(At(s, events, n))
  {
    if n > 0 {
      BoundedAt(s, events, n - 1);
      AtNext(s, events, n - 1);
      StepSafeIff(At(s, events, n - 1), events[n - 1]);
    }
  }

  /** A run of set-ups, limit updates and registrations keeps the bounds throughout, whatever becomes of the
      commands, exactly when no registration overruns them. */
  lemma RunBoundedIff(s: MemState, events: seq<Event>)
    requires Bounded(s)
    ensures BoundedThroughout(s, events) <==> NoneOverruns(s, events)
  {
    if BoundedThroughout(s, events) {
      forall k | 0 <= k < |events|
        ensures !Overruns(At(s, events, k), events[k])
      {
        AtNext(s, events, k);
        assert Bounded(At(s, events, k)) && Bounded(At(s, events, k + 1));
        StepSafeIff(At(s, events, k), events[k]);
      }
    }
    if NoneOverruns(s, events) {
      forall n | 0 <= n <= |events|
        ensures Bounded(At(s, events, n))
      {
        BoundedAt(s, events, n);
      }
    }
  }

  /** No client is created with more than n of memory. */
  ghost predicate CreatesUpTo(events: seq<Event>, n: uint32) {
    forall e | e in events && e.Register? :: S32(e.base) <= n
  }

  /** Only a registration with more memory than the threshold a run starts with can overrun the bounds. */
  lemma RunBounded(s: MemState, events: seq<Event>)
    requires Bounded(s) && CreatesUpTo(events, s.thresholdMB)
    ensures Bounded(Run(s, events))
    ensures Run(s, events).thresholdMB >= s.thresholdMB
  {
    forall k | 0 <= k < |events|
      ensures !Overruns(At(s, events, k), events[k])
    {
      RunRises(s, events, k);
      assert events[k] in events;
    }
    BoundedAt(s, events, |events|);
    RunRises(s, events, |events|);
    assert events[..|events|] == events;
  }

  /** A run that breaks the invariant nowhere keeps it to the end. */
  lemma {:induction false} UnbrokenSafe(s: MemState, events: seq<Event>, n: nat)
    requires Safe(s) && n <= |events|
    requires forall k | 0 <= k < n :: !Breaks(At(s, events, k), events[k])
    ensures Safe(At(s, events, n))
  {
    if n > 0 {
      UnbrokenSafe(s, events, n - 1);
      AtNext(s, events, n - 1);
      StepSafeIff(At(s, events, n - 1), events[n - 1]);
    }
  }

  /** A run keeps the invariant throughout exactly when none of its operations breaks it. */
  lemma RunSafeIff(s: MemState, events: seq<Event>)
    requires Safe(s)
    ensures SafeThroughout(s, events) <==> NoneBreaks(s, events)
  {
    if SafeThroughout(s, events) {
      forall k | 0 <= k < |events|
        ensures !Breaks(At(s, events, k), events[k])
      {
        AtNext(s, events, k);
        assert Safe(At(s, events, k)) && Safe(At(s, events, k + 1));
        StepSafeIff(At(s, events, k), events[k]);
      }
    }
    if NoneBreaks(s, events) {
      forall n | 0 <= n <= |events|
        ensures Safe(At(s, events, n))
      {
        UnbrokenSafe(s, events, n);
      }
    }
  }

  /** Limits stay up to cap and no maximum is falsely acknowledged; clients are created with a maximum of at least cap
      and, whatever becomes of the command, with no more memory than floor. */
  predicate Within(e: Event, floor: uint32, cap: uint32) {
    match e
    case Register(base, confMax, _) => base <= floor && cap <= S32(confMax)
    case _ => e.target <= cap && !FalseAck(e)
  }

  ghost predicate AllWithin(events: seq<Event>, floor: uint32, cap: uint32) {
    forall e | e in events :: Within(e, floor, cap)
  }

  lemma StepWithin(s: MemState, e: Event, floor: uint32, cap: uint32)
    requires Safe(s) && floor <= s.thresholdMB <= cap && Within(e, floor, cap)
    ensures Safe(Next(s, e)) && floor <= Next(s, e).thresholdMB <= cap
  {
    StepSafeIff(s, e);
    ThresholdRises(s, e);
  }

  /** Commands may be carried out, fail, or be carried out with the reply lost, and clients may be created again at any
      time: every run within the cap keeps the invariant. Without registrations the cap excludes nothing. */
  lemma {:induction false} RunSafe(s: MemState, events: seq<Event>, floor: uint32, cap: uint32)
    requires Safe(s) && floor <= s.thresholdMB <= cap && AllWithin(events, floor, cap)
    ensures Safe(Run(s, events)) && floor <= Run(s, events).thresholdMB <= cap
  {
    if events != [] {
      var n := |events| - 1;
      RunSafe(s, events[..n], floor, cap);
      assert events[n] in events;
      StepWithin(Run(s, events[..n]), events[n], floor, cap);
    }
  }

  /** Beyond the cap registering anew breaks the invariant without any reply getting lost: a limit has raised the
      threshold and the pedestal's maximum, and the client is created again with its old maximum. */
  lemma ReRegisterBreaks(base: uint32, limit: uint32, cpus: string)
    requires 0 < base < 0x4000_0000 && limit > 2 * base
    ensures var ok := Reply(true, true); var max := ThresholdFor(base);
      var s := MemState(base, base, Pedestal(base, max, cpus));
      var t := Run(s, [Change(limit, ok, ok), Register(base, max, ok)]);
      Safe(s) && t.thresholdMB == limit > t.ped.max == 2 * base
  {
    var ok, max := Reply(true, true), ThresholdFor(base);
    var s := MemState(base, base, Pedestal(base, max, cpus));
    var es := [Change(limit, ok, ok), Register(base, max, ok)];
    WireThreshold(base);
    RunPair(s, es[0], es[1]);
  }

  /** A first registration whose reply gets lost leaves the pedestal with more memory than is recorded, until the
      client is registered again. */
  lemma LostCreate(base: uint32, confMax: int, cpus: string)
    requires 0 < base < 0x8000_0000
    ensures var s := MemState(0, 0, Pedestal(0, 0, cpus));
      var lost, again := Register(base, confMax, Reply(true, false)), Register(base, confMax, Reply(true, true));
      Bounded(s) && !Bounded(Run(s, [lost])) && Bounded(Run(s, [lost, again]))
  {
    var s := MemState(0, 0, Pedestal(0, 0, cpus));
    var lost, again := Register(base, confMax, Reply(true, false)), Register(base, confMax, Reply(true, true));
    RunPair(s, lost, again);
    RegisterSafeIff(Next(s, lost), base, confMax);
    assert [lost][..0] == [];
    assert Run(s, [lost]) == Next(s, lost);
  }

  lemma RunPair(s: MemState, a: Event, b: Event)
    ensures Run(s, [a, b]) == Next(Next(s, a), b)
  {
    assert [a, b][..1] == [a] && [a][..0] == [];
    assert Run(s, [a]) == Next(s, a);
  }

  /** One falsely acknowledged maximum is enough to leave the threshold above the pedestal's maximum. */
  lemma FalseAckBreaks(limit: uint32, target: uint32, cpus: string)
    requires 0 < limit < target
    ensures var s := MemState(limit, limit, Pedestal(limit, limit, cpus));
      var t := Run(s, [Change(target, Reply(false, true), Reply(true, true))]);
      Safe(s) && t.thresholdMB == target > t.ped.max == limit
  {
    var s := MemState(limit, limit, Pedestal(limit, limit, cpus));
    var e := Change(target, Reply(false, true), Reply(true, true));
    assert [e][..0] == [];
    assert Run(s, [e]) == Next(s, e);
  }

  /** After a registration that was carried out and acknowledged the invariant holds exactly when the maximum
      that reaches the pedestal covers both the base and the threshold left over from earlier registrations. */
  lemma RegisterSafeIff(s: MemState, base: uint32, confMax: int)
    requires base > 0
    ensures Bounded(Registered(s, base, confMax, Reply(true, true)))
    ensures Safe(Registered(s, base, confMax, Reply(true, true))) <==> Max(s.thresholdMB, base) <= S32(confMax)
  {
  }

  /** For the first registration of a configuration with the runtime defaults that is: below 2^30 MiB. */
  lemma FirstRegistrationSafe(s: MemState, base: uint32)
    requires base > 0 && s.thresholdMB == 0
    ensures Safe(Registered(s, base, ThresholdFor(base), Reply(true, true))) <==> base < 0x4000_0000
  {
    RegisterSafeIff(s, base, ThresholdFor(base));
    WireThreshold(base);
  }

  /** From there on a run keeps the whole invariant throughout exactly when nothing breaks it. Whatever becomes of
      the commands, the bounds hold in every run that creates no client with more memory than the first; and with limits
      up to a cap the whole invariant does, as long as clients are created with at least that maximum. */
  lemma SafeFromRegistration(s: MemState, base: uint32, events: seq<Event>, cap: uint32)
    requires 0 < base < 0x4000_0000 && s.thresholdMB == 0 && base <= cap
    ensures var r := Registered(s, base, ThresholdFor(base), Reply(true, true));
      && Safe(r) && r.thresholdMB == base
      && (CreatesUpTo(events, base) ==> Bounded(Run(r, events)) && Run(r, events).thresholdMB >= base)
      && (AllWithin(events, base, cap) ==> Safe(Run(r, events)))
      && (SafeThroughout(r, events) <==> NoneBreaks(r, events))
  {
    FirstRegistrationSafe(s, base);
    SafeRun(Registered(s, base, ThresholdFor(base), Reply(true, true)), events, cap);
  }

  lemma SafeRun(r: MemState, events: seq<Event>, cap: uint32)
    requires Safe(r) && r.thresholdMB <= cap
    ensures CreatesUpTo(events, r.thresholdMB) ==> Bounded(Run(r, events)) && Run(r, events).thresholdMB >= r.thresholdMB
    ensures AllWithin(events, r.thresholdMB, cap) ==> Safe(Run(r, events))
    ensures SafeThroughout(r, events) <==> NoneBreaks(r, events)
  {
    RunSafeIff(r, events);
    if CreatesUpTo(events, r.thresholdMB) {
      RunBounded(r, events);
    }
    if AllWithin(events, r.thresholdMB, cap) {
      RunSafe(r, events, r.thresholdMB, cap);
    }
  }

  /** The int32 maximum that arrives is twice the memory, both positive, exactly below 2^30 MiB. */
  lemma WireThreshold(base: uint32)
    requires base > 0
    ensures 0 < S32(base) && S32(ThresholdFor(base)) == 2 * S32(base) <==> base < 0x4000_0000
    ensures S32(ThresholdFor(base)) >= base <==> base < 0x4000_0000
  {
    S32Of(base);
    S32Of(ThresholdFor(base));
  }

  lemma S32Of(n: uint32)
    ensures S32(n) == if n < 0x8000_0000 then n else n - U32_LIMIT
  {
  }

  /** Before it is packed the threshold covers every base but the largest. */
  lemma ThresholdCovers(base: uint32)
    requires base > 0
    ensures ThresholdFor(base) >= base <==> base != MAX_U32
  {
  }

  /** A positive limit set up on a Xen host. Nothing is sent when the record shows the limit already. Otherwise the
      maximum is asked for when it is above the threshold, and then the memory; success is that all that is sent is
      acknowledged, and it leaves the record at the limit and the threshold at least there. */
  lemma SetUpReaches(s: MemState, limit: uint32, a: Reply, b: Reply)
    requires limit > 0
    ensures var (t, ok) := MemorySetUp(s, limit, a, b);
      var shown, raise := s.memoryMB == limit && s.thresholdMB >= limit, s.thresholdMB < limit;
      && (ok <==> shown || ((raise ==> a.acked) && b.acked))
      && (ok ==> t.memoryMB == limit && t.thresholdMB == Max(s.thresholdMB, limit))
      && (ok ==> (t.ped.mem == limit <==> s.ped.mem == limit || (!shown && b.applied)))
      && t.ped.max == (if raise && a.applied then limit else s.ped.max)
      && t.ped.mem == (if !shown && (raise ==> a.acked) && b.applied then limit else s.ped.mem)
      && (!ok ==> t.memoryMB == s.memoryMB && t.thresholdMB == if raise && a.acked then limit else s.thresholdMB)
  {
  }

  /** The same for a limit update, which is content with a record that shows the limit. Without a threshold the
      recorded memory stands in for it. */
  lemma ChangeReaches(s: MemState, target: uint32, a: Reply, b: Reply)
    ensures var (t, ok) := LimitChanged(s, target, a, b);
      var raise := s.thresholdMB < target && (s.thresholdMB == 0 ==> s.memoryMB < target);
      && (ok <==> s.memoryMB == target || ((raise ==> a.acked) && b.acked))
      && (ok ==> t.memoryMB == target)
      && (ok ==> t.thresholdMB == if s.memoryMB == target then s.thresholdMB else Max(s.thresholdMB, target))
      && (ok ==> (t.ped.mem == target <==> s.ped.mem == target || (s.memoryMB != target && b.applied)))
      && t.ped.max == (if s.memoryMB != target && raise && a.applied then target else s.ped.max)
      && (!ok ==> t.memoryMB == s.memoryMB && t.thresholdMB == if raise && a.acked then target else s.thresholdMB)
  {
  }

  /** EnsureMemoryLimit itself raises the threshold even for a limit that is recorded already. */
  lemma LimitReaches(s: MemState, target: uint32, a: Reply, b: Reply)
    ensures var (t, ok) := LimitEnsured(s, target, a, b);
      var raise := s.thresholdMB < target && (s.thresholdMB == 0 ==> s.memoryMB < target);
      && (ok <==> (raise ==> a.acked) && (s.memoryMB == target || b.acked))
      && (ok ==> t.memoryMB == target)
      && (ok ==> t.thresholdMB == if raise || s.memoryMB != target then Max(s.thresholdMB, target) else s.thresholdMB)
  {
  }

  /** An acknowledged registration records the memory base and raises the threshold to it; one that is carried out
      gives the pedestal the numbers of the message. Neither depends on the other. */
  lemma RegisterReaches(s: MemState, base: uint32, confMax: int, r: Reply)
    ensures var t := Registered(s, base, confMax, r);
      && t.memoryMB == (if r.acked then base else s.memoryMB)
      && t.thresholdMB == (if r.acked then Max(s.thresholdMB, base) else s.thresholdMB)
      && t.ped.mem == (if r.applied then S32(base) else s.ped.mem)
      && t.ped.max == (if r.applied then S32(confMax) else s.ped.max)
      && t.ped.cpus == s.ped.cpus
  {
  }

  /** The record holds a text whole exactly when it fits. */
  lemma ClippedIs(text: string)
    ensures Clipped(text) <= text && |Clipped(text)| == Min(|text|, 128)
    ensures Clipped(text) == text <==> |text| <= 128
  {
  }

  /** A reply that gets lost is enough for the two to drift apart while every later update succeeds. */
  lemma LostReplyDrifts(limit: uint32, other: uint32, cpus: string)
    requires 0 < other < limit
    ensures var ok := Reply(true, true); var lost := Reply(true, false);
      var s := MemState(limit, limit, Pedestal(limit, limit, cpus));
      var t := Run(s, [Change(other, ok, lost), Change(limit, ok, ok)]);
      Safe(s) && t.memoryMB == limit && t.ped.mem == other
  {
    var ok, lost := Reply(true, true), Reply(true, false);
    var s := MemState(limit, limit, Pedestal(limit, limit, cpus));
    RunPair(s, Change(other, ok, lost), Change(limit, ok, ok));
  }
}
