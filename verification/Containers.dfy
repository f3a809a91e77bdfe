/** pkg/micantainer/container.go: a container's state, exit notifier, memory set-up and CPU affinity.
    Whether the client's socket exists (gone) and what becomes of each command are parameters. */
module Containers {
  import opened Wrappers
  import opened Ints
  import opened CpuList
  import opened CpuSets
  import opened PedestalCpus
  import opened Configs
  import opened Executor
  import opened Notifier
  import opened Defs
  import Wire

  /** How pinning to the set S rewrites a configuration. */
  ghost function Pinned(v: ConfigView, S: set<int>): ConfigView {
    v.(vcpuNum := U32(|S|),
       pcpuNum := U32(|S|),
       resources := Some(Ensured(v.resources).(cpu := Some(EnsuredCPU(v.resources).(cpus := Canonical(S))))))
  }

  /** Pinning changes the CPU list and both vCPU numbers; quota and period, memory nodes and memory stay. */
  lemma PinnedIs(v: ConfigView, S: set<int>)
    ensures var p := Pinned(v, S);
      && p.isInfra == v.isInfra && p.memoryThresholdMB == v.memoryThresholdMB
      && p.vcpuNum == U32(|S|) == p.pcpuNum && CpuMask(p.resources) == Canonical(S)
      && EnsuredCPU(p.resources).mems == EnsuredCPU(v.resources).mems
      && EnsuredCPU(p.resources).quota == EnsuredCPU(v.resources).quota
      && EnsuredCPU(p.resources).period == EnsuredCPU(v.resources).period
      && EnsuredMemory(p.resources) == EnsuredMemory(v.resources)
      && Ensured(p.resources).hugepages == Ensured(v.resources).hugepages
  {
  }

  /** What becomes of the pedestal when a container is to be pinned to the set S. */
  ghost function Told(ped: Pedestal, S: set<int>, reply: Reply): Pedestal {
    if S == {} then ped else ped.CPU(Canonical(S), reply)
  }

  class Container {
    const id: string
    const config: ContainerConfig
    const me: MicaExecutor
    var state: StateString
    var exitNotifier: Option<nat>
    var channels: seq<bool>  // the channels made so far: closed or not

    ghost function Machine(): Machine
      reads this
    {
      Notifier.Machine(state, exitNotifier, channels, false)
    }

    ghost predicate Valid()
      reads this
    {
      Sound(Machine())
    }

    /** newContainer; restored is the state found on disk, if there is one. */
    constructor (config: ContainerConfig, restored: Option<StateString>, gone: bool)
      ensures this.id == config.id == me.id && this.config == config && fresh(me)
      ensures Machine() == RunOps(INITIAL, OpenOps(restored, config.isInfra, gone))
      ensures Valid() && InStep(Machine())
      ensures me.memoryMB == 0 && me.memoryThresholdMB == 0
    {
      id := config.id;
      this.config := config;
      me := new MicaExecutor(config.id);
      state := Down;
      exitNotifier := None;
      channels := [];
      new;
      Reopen(restored, gone);
    }

    method Reopen(restored: Option<StateString>, gone: bool)
      requires Machine() == INITIAL
      modifies this
      ensures Machine() == RunOps(INITIAL, OpenOps(restored, config.isInfra, gone))
      ensures Valid() && InStep(Machine())
    {
      OpsInStep(OpenOps(restored, config.isInfra, gone));
      OpenRun(restored, config.isInfra, gone);
      if restored.Some? {
        RestoreState(restored.value);
      }
      RunOneOp(Machine(), Op.CheckState(config.isInfra, gone));
      var s := CheckState(gone);
      InStepSettled(Machine());
      UpdateExitNotifier(s);
    }

    method RestoreState(s: StateString)
      requires Valid()
      modifies this
      ensures Machine() == RunOps(old(Machine()), [Op.SetContainerState(s)])
      ensures Valid()
    {
      RunOneOp(Machine(), Op.SetContainerState(s));
      RunTwo(Machine(), SetState(s), Update(s));
      UpdateKeepsSound(Machine().(state := s), s);
      state := s;
      UpdateExitNotifier(s);
    }

    method UpdateExitNotifier(s: StateString)
      requires Valid()
      modifies this`exitNotifier, this`channels
      ensures Machine() == Updated(old(Machine()), s)
      ensures Valid() && (exitNotifier.None? <==> s == Stopped || s == Down)
    {
      UpdateKeepsSound(Machine(), s);
      match s {
        case Stopped | Down =>
          if exitNotifier.Some? {
            channels := channels[exitNotifier.value := true];
            exitNotifier := None;
          }
        case _ =>
          if exitNotifier.None? {
            exitNotifier := Some(|channels|);
            channels := channels + [false];
          }
      }
    }

    method ExitNotifierForState(s: StateString) returns (ch: Option<nat>)
      requires Valid()
      modifies this`exitNotifier, this`channels
      ensures Machine() == Updated(old(Machine()), s) && ch == exitNotifier
      ensures Valid()
    {
      UpdateExitNotifier(s);
      ch := exitNotifier;
    }

    /** ok tells whether the new state could be saved; the container has it either way. */
    method SetContainerState(s: StateString, saved: bool) returns (ok: bool)
      requires Valid()
      modifies this
      ensures ok == saved
      ensures Machine() == Notifier.Run(old(Machine()), Steps(old(Machine()), Op.SetContainerState(s)))
      ensures Valid() && state == s && (exitNotifier.None? <==> s == Stopped || s == Down)
    {
      RunTwo(Machine(), SetState(s), Update(s));
      UpdateKeepsSound(Machine().(state := s), s);
      state := s;
      UpdateExitNotifier(s);
      ok := saved;
    }

    ghost function Effective(gone: bool): StateString
      reads this
    {
      StateAfterCheck(Machine(), config.isInfra, gone)
    }

    method CheckState(gone: bool) returns (s: StateString)
      requires Valid()
      modifies this
      ensures Machine() == Notifier.Run(old(Machine()), Checked(old(Machine()), config.isInfra, gone))
      ensures Valid() && s == state == old(Effective(gone))
      ensures s == if !config.isInfra && gone then Down else old(state)
    {
      if config.isInfra {
        return state;
      }
      if gone {
        if state != Down {
          var saved: bool := *;
          var ok := SetContainerState(Down, saved);
        }
        return Down;
      }
      return state;
    }

    /** valid tells whether the firmware passes its check, saved whether the new state can be saved: when it cannot,
        the client is registered all the same. */
    method RegisterClient(valid: bool, created: Reply, saved: bool) returns (ok: bool)
      requires Valid()
      modifies this, me
      ensures ok == (valid && created.acked && saved) && Valid()
      ensures me.Mem() == if valid then Registered(old(me.Mem()), MaxMemMB(config.resources), ConfMax(), created) else old(me.Mem())
      ensures Machine() == if valid && created.acked
                then Notifier.Run(old(Machine()), Steps(old(Machine()), Op.SetContainerState(Ready))) else old(Machine())
      ensures state == if valid && created.acked then Ready else old(state)
      ensures valid && created.acked ==>
                me.memoryMB == MaxMemMB(config.resources) && me.memoryThresholdMB == Max(old(me.memoryThresholdMB), me.memoryMB)
      ensures valid && created.applied ==>
                me.ped.mem == S32(MaxMemMB(config.resources)) && me.ped.max == S32(ConfMax())
      ensures !(valid && created.acked) ==> me.memoryMB == old(me.memoryMB) && me.memoryThresholdMB == old(me.memoryThresholdMB)
    {
      RegisterReaches(me.Mem(), MaxMemMB(config.resources), ConfMax(), created);
      if !valid {
        return false;
      }
      me.Receive(MaxMemMB(config.resources), ConfMax(), created);
      if !created.acked {
        return false;
      }
      var limit := LimitMB(config.resources);
      var initialMem := limit;
      if initialMem == 0 {
        initialMem := ReservationMB(config.resources);
      }
      if initialMem == 0 {
        initialMem := DEFAULT_MIN_MEM_MB;
      }
      var recordThreshold := limit;
      if recordThreshold == 0 {
        recordThreshold := initialMem;
      }
      me.RecordMemoryState(initialMem, recordThreshold);
      ok := SetContainerState(Ready, saved);
    }

    /** The maximum memory in the create message: the configured threshold, or twice the memory without one. */
    ghost function ConfMax(): int
      reads config
    {
      Wire.InitialThreshold(MaxMemMB(config.resources), config.memoryThresholdMB)
    }

    method EnsureClientPresence(gone: bool, valid: bool, created: Reply, saved: bool) returns (s: StateString, ok: bool)
      requires Valid()
      modifies this, me
      ensures Valid()
      ensures var found := old(Effective(gone)); var tried := found == Down && !config.isInfra && !gone;
        && ok == (found != Down || (tried && valid && created.acked && saved))
        && s == (if found == Down && ok then Ready else found)
        && state == (if tried && valid && created.acked then Ready else found)
        && me.Mem() == (if tried && valid then Registered(old(me.Mem()), MaxMemMB(config.resources), ConfMax(), created)
                        else old(me.Mem()))
        && Machine() == RunOps(old(Machine()), PresenceOps(config.isInfra, gone, tried && valid && created.acked))
    {
      RunOneOp(Machine(), Op.CheckState(config.isInfra, gone));
      RunTwoOps(Machine(), Op.CheckState(config.isInfra, gone), Op.SetContainerState(Ready));
      s := CheckState(gone);
      if s != Down {
        return s, true;
      }
      if !config.isInfra && !gone {
        RunOneOp(Machine(), Op.SetContainerState(Ready));
        var registered := RegisterClient(valid, created, saved);
        if !registered {
          return Down, false;
        }
      }
      s := CheckState(gone);
      ok := s != Down;
    }

    method SetupMemory(xen: bool, maxReply: Reply, memReply: Reply) returns (ok: bool)
      modifies me
      ensures !config.isInfra && xen ==>
                (me.Mem(), ok) == MemorySetUp(old(me.Mem()), LimitMB(config.resources), maxReply, memReply)
      ensures var limit := LimitMB(config.resources);
        var shown, raise := old(me.memoryMB) == limit && old(me.memoryThresholdMB) >= limit, old(me.memoryThresholdMB) < limit;
        !config.isInfra && xen && limit > 0 ==>
          && (ok <==> shown || ((raise ==> maxReply.acked) && memReply.acked))
          && (ok ==> me.memoryMB == limit && me.memoryThresholdMB == Max(old(me.memoryThresholdMB), limit))
          && (ok ==> (me.ped.mem == limit <==> old(me.ped).mem == limit || (!shown && memReply.applied)))
      ensures config.isInfra || !xen ==> ok && unchanged(me)
    {
      if config.isInfra || !xen {
        return true;
      }
      var limit := LimitMB(config.resources);
      if limit == 0 {
        return true;
      }
      SetUpReaches(me.Mem(), limit, maxReply, memReply);
      if me.CurrentMaxMem() == limit && me.memoryThresholdMB >= limit {
        return true;
      }
      ok := me.UpdateMemoryThreshold(limit, maxReply);
      if !ok {
        return;
      }
      ok := me.UpdateMemory(limit, memReply);
      if !ok {
        return;
      }
      me.RecordMemoryState(limit, limit);
    }

    /** The memory part of a resource update. */
    method UpdateMemoryLimit(limit: int, maxReply: Reply, memReply: Reply) returns (ok: bool)
      modifies me
      ensures (me.Mem(), ok) == LimitChanged(old(me.Mem()), U32(limit / MIB), maxReply, memReply)
      ensures var target := U32(limit / MIB);
        var raise := old(me.memoryThresholdMB) < target && (old(me.memoryThresholdMB) == 0 ==> old(me.memoryMB) < target);
        && (ok <==> old(me.memoryMB) == target || ((raise ==> maxReply.acked) && memReply.acked))
        && (ok ==> me.memoryMB == target)
        && (ok ==> (me.ped.mem == target <==> old(me.ped).mem == target || (old(me.memoryMB) != target && memReply.applied)))
    {
      ChangeReaches(me.Mem(), U32(limit / MIB), maxReply, memReply);
      var target := U32(limit / MIB);
      if me.CurrentMaxMem() == target {
        return true;
      }
      ok := me.EnsureMemoryLimit(target, maxReply, memReply);
    }

    /** The pedestal is sent the very text that the configuration then holds; the executor's record clips it. */
    method SetVcpuAffinity(cpuSet: CPUSet, reply: Reply) returns (ok: bool)
      requires CpuNumbers(cpuSet.Elems())
      modifies config, me`cpuStr, me`ped
      ensures ok == (cpuSet.Elems() != {} && reply.acked)
      ensures config.View() == if ok then Pinned(old(config.View()), cpuSet.Elems()) else old(config.View())
      ensures me.ped == if cpuSet.Elems() != {} then old(me.ped).CPU(Canonical(cpuSet.Elems()), reply) else old(me.ped)
      ensures me.cpuStr == if ok then Clipped(CpuMask(config.resources)) else old(me.cpuStr)
      ensures ok && reply.applied ==> me.ped.cpus == CpuMask(config.resources)
      ensures ok ==>
                && config.vcpuNum == U32(|cpuSet.Elems()|) == config.pcpuNum && CpuMask(config.resources) == Canonical(cpuSet.Elems())
                && EnsuredCPU(config.resources) == old(EnsuredCPU(config.resources)).(cpus := Canonical(cpuSet.Elems()))
                && EnsuredMemory(config.resources) == old(EnsuredMemory(config.resources))
      ensures ok && |Canonical(cpuSet.Elems())| <= 128 ==> me.cpuStr == Canonical(cpuSet.Elems())
    {
      ClippedIs(Canonical(cpuSet.Elems()));
      ok := PinClient(cpuSet, reply);
      if ok {
        PinConfig(cpuSet);
      }
    }

    method PinClient(cpuSet: CPUSet, reply: Reply) returns (ok: bool)
      requires CpuNumbers(cpuSet.Elems())
      modifies me`cpuStr, me`ped
      ensures ok == (cpuSet.Elems() != {} && reply.acked)
      ensures me.ped == if cpuSet.Elems() != {} then old(me.ped).CPU(Canonical(cpuSet.Elems()), reply) else old(me.ped)
      ensures me.cpuStr == if ok then Clipped(Canonical(cpuSet.Elems())) else old(me.cpuStr)
    {
      var cpulist := cpuSet.ToSlice();
      PinnedText(cpuSet.Elems());
      ok := me.VcpuPin(cpulist, reply);
    }

    method PinConfig(cpuSet: CPUSet)
      modifies config
      ensures config.View() == Pinned(old(config.View()), cpuSet.Elems())
    {
      var size := cpuSet.Size();
      config.vcpuNum := U32(size);
      var text := cpuSet.String();
      config.SetCpus(text);
      config.pcpuNum := config.vcpuNum;
    }
  }

  /** The two printers agree on a set's own slice, and only the empty set prints as nothing. */
  lemma PinnedText(S: set<int>)
    requires CpuNumbers(S)
    ensures CpuArrText(SortedElems(S)) == Canonical(S)
    ensures Canonical(S) == "" <==> S == {}
  {
    var e := SortedElems(S);
    CanonicalIs(S);
    SortedElemsOf(S);
    SortedUnique(SortInts(e), e);
    if S != {} {
      assert e != [];
      PrintedGroups(e);
    } else {
      assert e == [];
    }
  }
}
