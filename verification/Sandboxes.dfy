/** pkg/micantainer/sandbox.go: CPU pinning and the resource totals of a sandbox. */
module Sandboxes {
  import opened Wrappers
  import opened Ints
  import opened CpuList
  import opened CpuSets
  import opened Configs
  import opened Executor
  import opened Notifier
  import opened Containers
  import opened Pinning
  import opened Ledger
  import opened Sums

  type States = map<string, StateString>

  /** The configurations that count: those without a container, or with one that is neither stopped nor down. */
  ghost function Live(configs: map<string, ContainerConfig>, states: States): set<string> {
    set k | k in configs && !IdleIn(states, configs[k].id)
  }

  /** The configuration objects of the containers; each may also be in the sandbox's table. */
  ghost function Owned(containers: map<string, Container>): set<ContainerConfig> {
    set k | k in containers :: containers[k].config
  }

  ghost function Executors(containers: map<string, Container>): set<MicaExecutor> {
    set k | k in containers :: containers[k].me
  }

  /** The entries of the table that pinning rewrites: those whose object a container has. */
  ghost function PinnedKeys(configs: map<string, ContainerConfig>, containers: map<string, Container>): set<string> {
    KeysOf(configs, Owned(containers))
  }

  /** The CPUs that end up in the sandbox's pool. */
  ghost function PoolResult(table: Table, owned: set<ContainerConfig>, shared: bool, S: set<int>): set<int> {
    if shared then S else Pool(table, owned)
  }

  /** Pinning reaches every container. */
  ghost predicate PinsAll(containers: map<string, Container>, replies: string -> Reply, was: Table, shared: bool, S: set<int>) {
    if shared then AllAcked(containers.Keys, replies, S) else AllOwnReached(containers, containers.Keys, replies, was)
  }

  /** The views of the sandbox's configurations once every container has been pinned. */
  ghost function PinnedViews(configs: map<string, ContainerConfig>, containers: map<string, Container>,
        was: Table, shared: bool, S: set<int>): Views {
    ViewsOf(configs, PinnedTable(was, Owned(containers), shared, S))
  }

  /** When pinVCPU succeeds. */
  ghost predicate PinSucceeds(configs: map<string, ContainerConfig>, containers: map<string, Container>, states: States,
        replies: string -> Reply, was: Table, shared: bool, S: set<int>) {
    PinsAll(containers, replies, was, shared, S)
    && AllCountable(PinnedViews(configs, containers, was, shared, S), Live(configs, states))
  }

  /** When checkVCPUsPinning succeeds, with pinning enabled. */
  ghost predicate CheckSucceeds(configs: map<string, ContainerConfig>, containers: map<string, Container>, states: States,
        replies: string -> Reply, was: Table, shared: bool) {
    var vs := ViewsOf(configs, was);
    var U := UnionCpus(vs, vs.Keys);
    ViewsReadable(vs, vs.Keys) && Rereadable(U) && PinSucceeds(configs, containers, states, replies, was, shared, U)
  }

  /** Shared pinning needs a union that can be read, printed and read again, which must not be empty if there is a
      container, and every container's acknowledgement. Independent pinning needs the same of the union, empty or not,
      and for each container that names CPUs a readable list that is not empty, and its acknowledgement. Both need
      the vCPUs to be counted afterwards. */
  lemma SucceedsIs(configs: map<string, ContainerConfig>, containers: map<string, Container>, states: States,
        replies: string -> Reply, was: Table, shared: bool)
    requires Owned(containers) <= was.Keys
    ensures var vs := ViewsOf(configs, was); var U := UnionCpus(vs, vs.Keys);
      CheckSucceeds(configs, containers, states, replies, was, shared) <==>
        && ViewsReadable(vs, vs.Keys) && Rereadable(U)
        && (shared ==> forall k | k in containers :: U != {} && replies(k).acked)
        && (!shared ==> forall k | k in containers && CpuMask(was[containers[k].config].resources) != "" ::
              var meaning := Meaning(CpuMask(was[containers[k].config].resources));
              meaning.Parsed? && meaning.cpus != {} && replies(k).acked)
        && AllCountable(PinnedViews(configs, containers, was, shared, U), Live(configs, states))
  {
  }

  class SandboxResource {
    var vcpuNum: nat
    var pcpuPool: seq<int>
    var containerCpuSets: map<string, CPUSet>
    var memoryPoolBytes: nat

    constructor ()
      ensures vcpuNum == 0 && pcpuPool == [] && containerCpuSets == map[] && memoryPoolBytes == 0
    {
      vcpuNum, pcpuPool, containerCpuSets, memoryPoolBytes := 0, [], map[], 0;
    }

    method ResizeVCPUs(newNum: nat) returns (was: nat, now: nat)
      modifies this`vcpuNum
      ensures was == old(vcpuNum) && now == vcpuNum == newNum
    {
      was := vcpuNum;
      vcpuNum := newNum;
      now := vcpuNum;
    }

    method ResizeMemory(newMemMB: nat) returns (was: nat, now: nat)
      modifies this`memoryPoolBytes
      ensures was == old(memoryPoolBytes) && now == memoryPoolBytes == U64(newMemMB * MIB)
    {
      var newMem := U64(newMemMB * MIB);
      was := memoryPoolBytes;
      if was == newMem {
        return was, was;
      }
      memoryPoolBytes := newMem;
      now := newMem;
    }

    method SetNewPCpuList(cpulist: seq<int>)
      modifies this`pcpuPool
      ensures pcpuPool == cpulist
    {
      pcpuPool := cpulist;
    }
  }

  class Sandbox {
    const enableVCPUsPinning: bool
    const sharedCPUPool: bool
    const staticResourceMgmt: bool
    const hugePageSupport: bool
    const infraOnly: bool
    const miniVCPUNum: nat
    const resManager: SandboxResource
    var configs: map<string, ContainerConfig>
    var containers: map<string, Container>
    var vcpuAlreadyPinned: bool

    constructor (pinning: bool, shared: bool, fixed: bool, huge: bool, infraOnly: bool, mini: nat)
      ensures configs == map[] && containers == map[] && fresh(resManager) && Valid()
    {
      enableVCPUsPinning, sharedCPUPool, staticResourceMgmt := pinning, shared, fixed;
      hugePageSupport, this.infraOnly, miniVCPUNum := huge, infraOnly, mini;
      resManager := new SandboxResource();
      configs, containers, vcpuAlreadyPinned := map[], map[], false;
    }

    ghost predicate Valid()
      reads this`containers, containers.Values
    {
      forall k | k in containers :: containers[k].id == containers[k].config.id == containers[k].me.id == k && containers[k].Valid()
    }

    // ---------- totals ----------

    /** states is what each container's state is once its client's socket has been looked for. */
    ghost predicate Finds(states: States, gone: set<string>)
      reads this`containers, containers.Values
    {
      states.Keys == containers.Keys && forall k | k in containers :: states[k] == containers[k].Effective(k in gone)
    }

    /** vs holds the views of the configurations. */
    ghost predicate Shows(vs: Views)
      reads this`configs, configs.Values
    {
      vs.Keys == configs.Keys && forall k | k in configs :: vs[k] == configs[k].View()
    }

    ghost predicate Intact(states: States, gone: set<string>)
      reads this`containers, containers.Values
    {
      Valid() && Finds(states, gone)
    }

    /** vs and states describe the configurations and the containers. */
    ghost predicate Snapshot(vs: Views, states: States, gone: set<string>)
      reads this`containers, this`configs, containers.Values, configs.Values
    {
      Valid() && Shows(vs) && Finds(states, gone)
    }

    method SkipsIdle(id: string, gone: set<string>, ghost vs: Views, ghost states: States) returns (idle: bool)
      requires Snapshot(vs, states, gone)
      modifies containers.Values
      ensures Snapshot(vs, states, gone) && unchanged(this)
      ensures idle == IdleIn(states, id)
    {
      idle := false;
      if id in containers {
        var state := containers[id].CheckState(id in gone);
        idle := state == Stopped || state == Down;
      }
    }

    /** Both loops pass over the infra container and over containers that are stopped or down. */
    method IsCounted(k: string, gone: set<string>, ghost vs: Views, ghost states: States, ghost live: set<string>)
      returns (counted: bool)
      requires Snapshot(vs, states, gone) && k in configs && live == Live(configs, states)
      modifies containers.Values
      ensures Snapshot(vs, states, gone) && unchanged(this)
      ensures counted <==> k in live && !vs[k].isInfra
    {
      var cc := configs[k];
      if cc.isInfra {
        return false;
      }
      var idle := SkipsIdle(cc.id, gone, vs, states);
      counted := !idle;
    }

    /** One turn of calculateSandboxVCPUs' loop. */
    method AddVcpus(total: nat, k: string, gone: set<string>, ghost vs: Views, ghost states: States,
          ghost live: set<string>, ghost weight: int)
      returns (sum: nat, finished: bool)
      requires Snapshot(vs, states, gone) && total < U32_LIMIT && k in configs
      requires live == Live(configs, states) && weight == VcpuWeights(vs, live)[k]
      modifies containers.Values
      ensures Snapshot(vs, states, gone) && unchanged(this)
      ensures finished <==> vs[k].isInfra || k !in live || Countable(vs[k])
      ensures finished ==> sum == U32(total + weight)
    {
      U32Small(total);
      VcpuWeightAt(vs, live, k);
      var counted := IsCounted(k, gone, vs, states, live);
      if !counted {
        return total, true;
      }
      var share;
      share, finished := CountVcpus(configs[k].View());
      sum := U32(total + share);
    }

    method CalculateSandboxVCPUs(gone: set<string>, ghost vs: Views, ghost states: States, ghost live: set<string>)
      returns (total: nat, finished: bool)
      requires Snapshot(vs, states, gone) && live == Live(configs, states)
      modifies containers.Values
      ensures Snapshot(vs, states, gone) && unchanged(this)
      ensures finished <==> AllCountable(vs, live)
      ensures finished ==> total == VcpuTotal(vs, live, 0)
    {
      ghost var weights := VcpuWeights(vs, live);
      total := 0;
      var left := configs.Keys;
      assert weights - left == map[];
      while left != {}
        invariant left <= configs.Keys
        invariant Snapshot(vs, states, gone) && unchanged(this)
        invariant total == U32(Sum(weights - left))
        invariant AllCountable(vs, live - left)
        decreases left
        modifies containers.Values
      {
        var k :| k in left;
        ghost var weight := weights[k];
        TakeNext32(weights, left, k, total, weight);
        CountableStep(vs, live, left, k);
        left := left - {k};
        total, finished := AddVcpus(total, k, gone, vs, states, live, weight);
        if !finished {
          assert !AllCountable(vs, live - left);
          return 0, false;
        }
      }
      NothingLeft(weights, live, left);
      return total, true;
    }

    /** One turn of calculateSandboxMemory's loop. */
    method AddMemory(total: nat, k: string, gone: set<string>, ghost vs: Views, ghost states: States,
          ghost live: set<string>, ghost weight: int)
      returns (sum: nat)
      requires Snapshot(vs, states, gone) && total < U64_LIMIT && k in configs
      requires live == Live(configs, states) && weight == MemWeights(vs, live, hugePageSupport)[k]
      modifies containers.Values
      ensures Snapshot(vs, states, gone) && unchanged(this)
      ensures sum == U64(total + weight)
    {
      U64Small(total);
      MemWeightAt(vs, live, hugePageSupport, k);
      var counted := IsCounted(k, gone, vs, states, live);
      if !counted {
        return total;
      }
      var share := CountMemory(configs[k].View(), hugePageSupport);
      sum := U64(total + share);
    }

    method CalculateSandboxMemory(gone: set<string>, ghost vs: Views, ghost states: States, ghost live: set<string>)
      returns (total: nat)
      requires Snapshot(vs, states, gone) && live == Live(configs, states)
      modifies containers.Values
      ensures Snapshot(vs, states, gone) && unchanged(this)
      ensures total == MemMiB(vs, live, hugePageSupport)
    {
      ghost var weights := MemWeights(vs, live, hugePageSupport);
      total := 0;
      var left := configs.Keys;
      assert weights - left == map[];
      while left != {}
        invariant left <= configs.Keys
        invariant Snapshot(vs, states, gone) && unchanged(this)
        invariant total == U64(Sum(weights - left))
        decreases left
        modifies containers.Values
      {
        var k :| k in left;
        ghost var weight := weights[k];
        TakeNext64(weights, left, k, total, weight);
        left := left - {k};
        total := AddMemory(total, k, gone, vs, states, live, weight);
      }
      NothingLeft(weights, live, left);
    }

    /** The new totals of the sandbox. finished is false when counting gets stuck in a parser. */
    method UpdateResources(gone: set<string>, ghost vs: Views, ghost states: States, ghost live: set<string>)
      returns (finished: bool)
      requires Snapshot(vs, states, gone) && live == Live(configs, states)
      modifies containers.Values, resManager`vcpuNum, resManager`memoryPoolBytes
      ensures Snapshot(vs, states, gone) && unchanged(this)
      ensures infraOnly || staticResourceMgmt ==> finished && unchanged(resManager)
      ensures !infraOnly && !staticResourceMgmt ==>
                && (finished <==> AllCountable(vs, live))
                && (finished ==> resManager.vcpuNum == VcpuTotal(vs, live, miniVCPUNum))
                && (finished ==> resManager.memoryPoolBytes == PoolBytes(vs, live, hugePageSupport))
    {
      if infraOnly {
        return true;
      }
      if staticResourceMgmt {
        return true;
      }
      var sandboxVCPUs;
      sandboxVCPUs, finished := CalculateSandboxVCPUs(gone, vs, states, live);
      if !finished {
        return;
      }
      AddMini(vs, live, miniVCPUNum);
      sandboxVCPUs := U32(sandboxVCPUs + miniVCPUNum);
      var newSandboxMemoryMB := CalculateSandboxMemory(gone, vs, states, live);
      Resize(sandboxVCPUs, newSandboxMemoryMB, gone, vs, states);
    }

    method Resize(vcpus: nat, memoryMB: nat, gone: set<string>, ghost vs: Views, ghost states: States)
      requires Snapshot(vs, states, gone)
      modifies resManager`vcpuNum, resManager`memoryPoolBytes
      ensures Snapshot(vs, states, gone)
      ensures resManager.vcpuNum == vcpus && resManager.memoryPoolBytes == U64(memoryMB * MIB)
    {
      var oldVCPUs, newVCPUs := resManager.ResizeVCPUs(vcpus);
      var oldMemBytes, newMemBytes := resManager.ResizeMemory(memoryMB);
    }

    // ---------- the sandbox cpuset ----------

    /** One turn of getSandboxCpusetStr's loop: what a configuration adds to the two unions. */
    static method CpusetsOf(v: ConfigView) returns (cpus: CPUSet, mems: CPUSet, ok: bool)
      ensures fresh(cpus) && fresh(mems)
      ensures ok <==> CpusReadable(v) && MemsReadable(v)
      ensures ok ==> cpus.Elems() == CpusIn(v) && mems.Elems() == MemsIn(v)
    {
      cpus := CPUSet.NewCPUSet([]);
      mems := CPUSet.NewCPUSet([]);
      if v.isInfra {
        return cpus, mems, true;
      }
      var cpuStr := CpuText(v);
      if cpuStr == "" {
        return cpus, mems, true;
      }
      var err;
      cpus, err := CPUSet.Parse(cpuStr);
      if !err.NoError? {
        return cpus, mems, false;
      }
      var memStr := MemText(v);
      if memStr == "" {
        return cpus, mems, true;
      }
      mems, err := CPUSet.Parse(memStr);
      ok := err.NoError?;
    }

    /** ok is false when a parse fails or does not return. */
    method GetSandboxCpusetStr(ghost vs: Views) returns (cpus: string, mems: string, ok: bool)
      requires Shows(vs)
      ensures ok <==> ViewsReadable(vs, vs.Keys)
      ensures ok ==> cpus == Canonical(UnionCpus(vs, vs.Keys)) && mems == Canonical(UnionMems(vs, vs.Keys))
    {
      var cpuResult := CPUSet.NewCPUSet([]);
      var memResult := CPUSet.NewCPUSet([]);
      var left := configs.Keys;
      while left != {}
        invariant left <= configs.Keys == vs.Keys
        invariant ViewsReadable(vs, vs.Keys - left)
        invariant cpuResult.Elems() == UnionCpus(vs, vs.Keys - left)
        invariant memResult.Elems() == UnionMems(vs, vs.Keys - left)
        decreases left
      {
        var k :| k in left;
        var currCPUSet, currMemSet;
        currCPUSet, currMemSet, ok := CpusetsOf(configs[k].View());
        if !ok {
          assert !(CpusReadable(vs[k]) && MemsReadable(vs[k]));
          return "", "", false;
        }
        cpuResult := cpuResult.Union(currCPUSet);
        memResult := memResult.Union(currMemSet);
        UnionCpusStep(vs, vs.Keys - left, k);
        UnionMemsStep(vs, vs.Keys - left, k);
        assert vs.Keys - (left - {k}) == vs.Keys - left + {k};
        left := left - {k};
      }
      assert vs.Keys - left == vs.Keys;
      cpus := cpuResult.String();
      mems := memResult.String();
      ok := true;
    }

    // ---------- pinning ----------

    /** table says what the configuration objects of the sandbox and of its containers hold. */
    ghost predicate Holds(table: Table)
      reads this`containers, this`configs, table.Keys
    {
      && Owned(containers) <= table.Keys && configs.Values <= table.Keys
      && forall c | c in table :: table[c] == c.View()
    }

    lemma HoldsShows(table: Table)
      requires Holds(table)
      ensures Shows(ViewsOf(configs, table))
    {
      forall k | k in configs
        ensures configs[k] in table
      {
        assert configs[k] in configs.Values;
      }
    }

    /** The shared-pool loop of pinVCPU: whatever fails, exactly the configurations of the containers that were
        acknowledged are pinned. */
    method PinShared(cpuSet: CPUSet, replies: string -> Reply, gone: set<string>, ghost was: Table,
          ghost states: States)
      returns (ok: bool, ghost now: Table)
      requires CpuNumbers(cpuSet.Elems()) && Holds(was) && Intact(states, gone)
      modifies Owned(containers), Executors(containers)`cpuStr, Executors(containers)`ped, resManager`containerCpuSets
      ensures Intact(states, gone) && unchanged(this) && unchanged(resManager`vcpuNum, resManager`pcpuPool, resManager`memoryPoolBytes)
      ensures ok <==> AllAcked(containers.Keys, replies, cpuSet.Elems())
      ensures Holds(now)
      ensures Progress(was, now, AckedConfigs(containers, containers.Keys, replies, cpuSet.Elems()), cpuSet.Elems())
      ensures Listed(old(resManager.containerCpuSets), resManager.containerCpuSets, containers.Keys, replies, cpuSet)
    {
      ok := true;
      now := was;
      var left := containers.Keys;
      ghost var visited: set<string> := {};
      ghost var done: set<ContainerConfig> := {};
      while left != {}
        invariant left + visited == containers.Keys
        invariant ok <==> AllAcked(visited, replies, cpuSet.Elems())
        invariant Intact(states, gone) && unchanged(this) && unchanged(resManager`vcpuNum, resManager`pcpuPool, resManager`memoryPoolBytes)
        invariant done == AckedConfigs(containers, visited, replies, cpuSet.Elems())
        invariant Holds(now) && Progress(was, now, done, cpuSet.Elems())
        invariant Listed(old(resManager.containerCpuSets), resManager.containerCpuSets, visited, replies, cpuSet)
        decreases left
        modifies Owned(containers), Executors(containers)`cpuStr, Executors(containers)`ped, resManager`containerCpuSets
      {
        var cid :| cid in left;
        MoveKey(left, visited, cid);
        Shrinks(left, cid);
        Owns(containers, cid);
        AckedStep(containers, visited, replies, cpuSet.Elems(), cid);
        var pinned;
        pinned, now := PinOne(cid, cpuSet, replies, gone, states, was, now, done,
                              old(resManager.containerCpuSets), visited);
        ok := ok && pinned;
        left := left - {cid};
        visited := visited + {cid};
        done := AckedConfigs(containers, visited, replies, cpuSet.Elems());
      }
      NoneLeft(visited);
    }

    /** One turn of the loop. */
    method PinOne(cid: string, cpuSet: CPUSet, replies: string -> Reply, gone: set<string>, ghost states: States,
          ghost was: Table, ghost now: Table, ghost done: set<ContainerConfig>,
          ghost listed: map<string, CPUSet>, ghost visited: set<string>)
      returns (ok: bool, ghost next: Table)
      requires cid in containers && CpuNumbers(cpuSet.Elems())
      requires Intact(states, gone) && Holds(now) && Progress(was, now, done, cpuSet.Elems())
      requires Listed(listed, resManager.containerCpuSets, visited, replies, cpuSet)
      modifies containers[cid].config, containers[cid].me`cpuStr, containers[cid].me`ped, resManager`containerCpuSets
      ensures Intact(states, gone) && unchanged(this) && unchanged(resManager`vcpuNum, resManager`pcpuPool, resManager`memoryPoolBytes)
      ensures ok == (cpuSet.Elems() != {} && replies(cid).acked)
      ensures containers[cid].me.ped == Told(old(containers[cid].me.ped), cpuSet.Elems(), replies(cid))
      ensures Holds(next)
      ensures ok ==> Progress(was, next, done + {containers[cid].config}, cpuSet.Elems())
      ensures !ok ==> next == now
      ensures Listed(listed, resManager.containerCpuSets, visited + {cid}, replies, cpuSet)
    {
      ListedStep(listed, resManager.containerCpuSets, visited, cid, replies, cpuSet);
      ok, next := SetAffinity(cid, cpuSet, replies(cid), gone, states, now);
      if ok {
        ProgressStep(was, now, done, cpuSet.Elems(), containers[cid].config);
        Record(cid, cpuSet, gone, states, next);
      }
    }

    method Record(cid: string, cpuSet: CPUSet, gone: set<string>, ghost states: States, ghost next: Table)
      requires Holds(next) && Intact(states, gone)
      modifies resManager`containerCpuSets
      ensures Holds(next) && Intact(states, gone)
      ensures unchanged(this) && unchanged(resManager`vcpuNum, resManager`pcpuPool, resManager`memoryPoolBytes)
      ensures resManager.containerCpuSets == old(resManager.containerCpuSets)[cid := cpuSet]
    {
      resManager.containerCpuSets := resManager.containerCpuSets[cid := cpuSet];
    }

    /** Setting one container's affinity rewrites its configuration object and no other. */
    method SetAffinity(cid: string, cpuSet: CPUSet, reply: Reply, gone: set<string>, ghost states: States, ghost now: Table)
      returns (ok: bool, ghost next: Table)
      requires cid in containers && CpuNumbers(cpuSet.Elems()) && Holds(now) && Intact(states, gone)
      modifies containers[cid].config, containers[cid].me`cpuStr, containers[cid].me`ped
      ensures Intact(states, gone) && unchanged(this) && unchanged(resManager`vcpuNum, resManager`pcpuPool, resManager`memoryPoolBytes)
      ensures unchanged(resManager`containerCpuSets)
      ensures ok == (cpuSet.Elems() != {} && reply.acked)
      ensures containers[cid].me.ped == Told(old(containers[cid].me.ped), cpuSet.Elems(), reply)
      ensures var c := containers[cid].config; ok ==> next == now[c := Pinned(now[c], cpuSet.Elems())]
      ensures !ok ==> next == now
      ensures Holds(next)
    {
      ghost var own := containers[cid].config;
      ok := PinContainer(containers[cid], cpuSet, reply);
      next := now;
      if ok {
        next := now[own := Pinned(now[own], cpuSet.Elems())];
        HoldsNext(now, own);
      } else {
        HoldsNext(now, own);
        SameEntry(now, own);
      }
    }

    static method PinContainer(c: Container, cpuSet: CPUSet, reply: Reply) returns (ok: bool)
      requires CpuNumbers(cpuSet.Elems())
      modifies c.config, c.me`cpuStr, c.me`ped
      ensures ok == (cpuSet.Elems() != {} && reply.acked)
      ensures c.config.View() == if ok then Pinned(old(c.config.View()), cpuSet.Elems()) else old(c.config.View())
      ensures c.me.ped == Told(old(c.me.ped), cpuSet.Elems(), reply)
    {
      ok := c.SetVcpuAffinity(cpuSet, reply);
    }

    /** table says what the configuration objects hold, other than one. */
    ghost predicate HoldsBut(table: Table, own: ContainerConfig)
      reads this`containers, this`configs, table.Keys
    {
      && own in table && Owned(containers) <= table.Keys && configs.Values <= table.Keys
      && forall c | c in table && c != own :: table[c] == c.View()
    }

    lemma HoldsNext(table: Table, own: ContainerConfig)
      requires HoldsBut(table, own)
      ensures Holds(table[own := own.View()])
    {
      KeysKept(table, own, own.View());
    }

    /** Reads the CPUs a container asks for. */
    static method ReadOwn(mask: string, ghost v: ConfigView) returns (kind: OwnRead, cpus: CPUSet)
      requires mask == CpuMask(v.resources)
      ensures kind.NothingNamed? <==> mask == ""
      ensures kind.NeverRead? <==> Endless(v)
      ensures kind.Unreadable? <==> !OwnReadable(v) && !Endless(v)
      ensures kind.Named? ==>
                && CpuNumbers(cpus.Elems()) && cpus.Elems() == OwnCpus(v)
                && (cpus.Elems() != {} <==> OwnReady(v)) && (cpus.Elems() != {} ==> Settled(v, Pinned(v, cpus.Elems())))
    {
      cpus := CPUSet.NewCPUSet([]);
      if mask == "" {
        return NothingNamed, cpus;
      }
      var err;
      cpus, err := CPUSet.Parse(mask);
      if err.Stuck? {
        return NeverRead, cpus;
      }
      if !err.NoError? {
        return Unreadable, cpus;
      }
      MeaningNonNegative(mask);
      OwnPinned(v, cpus.Elems());
      kind := Named;
    }

    /** One turn of the independent loop of pinVCPU. */
    method PinOwn(cid: string, reply: Reply, pool: CPUSet, gone: set<string>, ghost states: States,
          ghost own: ContainerConfig, ghost was: Table, ghost now: Table, ghost done: set<ContainerConfig>)
      returns (result: PinVerdict, grown: CPUSet, ghost next: Table)
      requires cid in containers && own == containers[cid].config && own !in done
      requires Holds(now) && OwnProgress(was, now, done)
      requires Intact(states, gone) && pool.Elems() == Pool(was, done)
      modifies containers[cid].config, containers[cid].me`cpuStr, containers[cid].me`ped, resManager`containerCpuSets
      ensures Intact(states, gone) && unchanged(this) && unchanged(resManager`vcpuNum, resManager`pcpuPool, resManager`memoryPoolBytes)
      ensures Holds(next) && result == OwnVerdict(was[own], reply)
      ensures OwnRecorded(result, was[own], cid, old(resManager.containerCpuSets), resManager.containerCpuSets)
      ensures result.PinDone? ==> OwnProgress(was, next, done + {own}) && grown.Elems() == Pool(was, done + {own})
      ensures !result.PinDone? ==> OwnProgress(was, next, done) && grown == pool
    {
      var kind, cpus := ReadOwn(CpuMask(containers[cid].config.resources), was[own]);
      if kind.Named? {
        NamedTurn(was, now, done, own, cpus.Elems(), reply);
        result, grown, next := PinNamed(cid, cpus, reply, pool, gone, states, now);
        return;
      }
      next := now;
      grown := pool;
      if kind.NothingNamed? {
        IdleTurn(was, now, done, own, reply);
        return PinDone, grown, next;
      }
      RefusedTurn(was[own], reply);
      result := if kind.NeverRead? then PinStuck else PinFailed;
    }

    /** Pins one container to the set it has asked for, and adds that set to the pool. */
    method PinNamed(cid: string, cpus: CPUSet, reply: Reply, pool: CPUSet, gone: set<string>, ghost states: States,
          ghost now: Table)
      returns (result: PinVerdict, grown: CPUSet, ghost next: Table)
      requires cid in containers && CpuNumbers(cpus.Elems()) && Holds(now) && Intact(states, gone)
      modifies containers[cid].config, containers[cid].me`cpuStr, containers[cid].me`ped, resManager`containerCpuSets
      ensures Intact(states, gone) && unchanged(this) && unchanged(resManager`vcpuNum, resManager`pcpuPool, resManager`memoryPoolBytes)
      ensures Holds(next) && result == if cpus.Elems() != {} && reply.acked then PinDone else PinFailed
      ensures containers[cid].me.ped == Told(old(containers[cid].me.ped), cpus.Elems(), reply)
      ensures var c := containers[cid].config; result.PinDone? ==> next == now[c := Pinned(now[c], cpus.Elems())]
      ensures result.PinDone? ==> grown.Elems() == pool.Elems() + cpus.Elems()
      ensures result.PinDone? ==> resManager.containerCpuSets == old(resManager.containerCpuSets)[cid := cpus]
      ensures !result.PinDone? ==> next == now && grown == pool && unchanged(resManager`containerCpuSets)
    {
      result := PinFailed;
      grown := pool;
      var pinned;
      pinned, next := SetAffinity(cid, cpus, reply, gone, states, now);
      if pinned {
        grown := pool.Union(cpus);
        Record(cid, cpus, gone, states, next);
        result := PinDone;
      }
    }

    /** The independent loop of pinVCPU. It gets stuck exactly when some list is never read to its end; otherwise it
        visits every container. Of those it visits it pins exactly the ones that ask for no CPUs, or for a readable list
        and are acknowledged. */
    method PinIndependent(replies: string -> Reply, gone: set<string>, ghost was: Table, ghost states: States)
      returns (ok: bool, stuck: bool, pool: CPUSet, ghost now: Table, ghost visited: set<string>)
      requires Holds(was) && Intact(states, gone)
      modifies Owned(containers), Executors(containers)`cpuStr, Executors(containers)`ped, resManager`containerCpuSets
      ensures Intact(states, gone) && unchanged(this) && unchanged(resManager`vcpuNum, resManager`pcpuPool, resManager`memoryPoolBytes)
      ensures Holds(now) && OwnProgress(was, now, OwnConfigs(containers, visited, replies, was))
      ensures pool.Elems() == Pool(was, OwnConfigs(containers, visited, replies, was))
      ensures visited <= containers.Keys && NoneEndless(containers, visited, was)
      ensures stuck <==> !NoneEndless(containers, containers.Keys, was)
      ensures !stuck ==> visited == containers.Keys
      ensures ok <==> AllOwnReached(containers, containers.Keys, replies, was)
      ensures ok ==> !stuck
    {
      ok, stuck := true, false;
      now := was;
      pool := CPUSet.NewCPUSet([]);
      var left := containers.Keys;
      visited := {};
      ghost var done: set<ContainerConfig> := {};
      OwnAtFirst(containers, replies, was);
      while left != {}
        invariant left <= containers.Keys && done == OwnConfigs(containers, visited, replies, was)
        invariant OwnSoFar(containers, replies, was, left, visited, ok, stuck)
        invariant Intact(states, gone) && unchanged(this) && unchanged(resManager`vcpuNum, resManager`pcpuPool, resManager`memoryPoolBytes)
        invariant Holds(now) && OwnProgress(was, now, done) && pool.Elems() == Pool(was, done)
        decreases left
        modifies Owned(containers), Executors(containers)`cpuStr, Executors(containers)`ped, resManager`containerCpuSets
      {
        var cid :| cid in left;
        ghost var own := containers[cid].config;
        OwnTurn(containers, replies, was, left, visited, ok, cid);
        Shrinks(left, cid);
        Owns(containers, cid);
        var result;
        result, pool, now := PinOwn(cid, replies(cid), pool, gone, states, own, was, now, done);
        stuck := result.PinStuck?;
        ok := ok && result.PinDone?;
        left := if stuck then {} else left - {cid};
        visited := if stuck then visited else visited + {cid};
        done := if result.PinDone? then done + {own} else done;
      }
      OwnAtEnd(containers, replies, was, visited, ok, stuck);
    }

    /** After every container has been pinned: the statistic and the list of CPUs. */
    method Publish(list: seq<int>, gone: set<string>, ghost now: Table, ghost states: States) returns (finished: bool)
      requires Holds(now) && Intact(states, gone)
      modifies containers.Values, resManager`vcpuNum, resManager`pcpuPool
      ensures Holds(now) && Intact(states, gone) && unchanged(this) && unchanged(resManager`memoryPoolBytes)
      ensures finished <==> AllCountable(ViewsOf(configs, now), Live(configs, states))
      ensures finished ==> resManager.vcpuNum == VcpuTotal(ViewsOf(configs, now), Live(configs, states), 0)
      ensures finished ==> resManager.pcpuPool == list
      ensures !finished ==> unchanged(resManager`vcpuNum, resManager`pcpuPool)
    {
      HoldsShows(now);
      var total;
      total, finished := CalculateSandboxVCPUs(gone, ViewsOf(configs, now), states, Live(configs, states));
      if finished {
        SetStatistics(total, list, gone, now, states);
      }
    }

    method SetStatistics(total: nat, list: seq<int>, gone: set<string>, ghost now: Table, ghost states: States)
      requires Holds(now) && Intact(states, gone)
      modifies resManager`vcpuNum, resManager`pcpuPool
      ensures Holds(now) && Intact(states, gone)
      ensures resManager.vcpuNum == total && resManager.pcpuPool == list
    {
      resManager.vcpuNum := total;
      resManager.SetNewPCpuList(list);
    }

    /** pinVCPU with a shared pool. */
    method PinSharedPool(cpuSet: CPUSet, replies: string -> Reply, gone: set<string>, ghost was: Table, ghost states: States)
      returns (ok: bool, ghost now: Table, ghost done: set<ContainerConfig>)
      requires CpuNumbers(cpuSet.Elems()) && Holds(was) && Intact(states, gone)
      modifies Owned(containers), Executors(containers)`cpuStr, Executors(containers)`ped, containers.Values
      modifies resManager`vcpuNum, resManager`pcpuPool, resManager`containerCpuSets
      ensures Intact(states, gone) && unchanged(this) && unchanged(resManager`memoryPoolBytes)
      ensures Holds(now) && Progress(was, now, done, cpuSet.Elems())
      ensures done == AckedConfigs(containers, containers.Keys, replies, cpuSet.Elems())
      ensures ok <==>
                && AllAcked(containers.Keys, replies, cpuSet.Elems())
                && AllCountable(PinnedViews(configs, containers, was, true, cpuSet.Elems()), Live(configs, states))
      ensures ok ==> done == Owned(containers) && resManager.pcpuPool == SortedElems(cpuSet.Elems())
      ensures ok ==> resManager.vcpuNum == VcpuTotal(ViewsOf(configs, now), Live(configs, states), 0)
      ensures !ok ==> unchanged(resManager`vcpuNum, resManager`pcpuPool)
    {
      var pcpuList := cpuSet.ToSlice();
      ok, now := PinShared(cpuSet, replies, gone, was, states);
      done := AckedConfigs(containers, containers.Keys, replies, cpuSet.Elems());
      if ok {
        AllAckedOwned(containers, replies, cpuSet.Elems());
        PinnedTableIs(was, now, done, true, cpuSet.Elems());
        ok := Publish(pcpuList, gone, now, states);
      }
    }

    /** pinVCPU without one. */
    method PinOwnPools(replies: string -> Reply, gone: set<string>, ghost was: Table, ghost states: States, ghost S: set<int>)
      returns (ok: bool, ghost now: Table, ghost done: set<ContainerConfig>)
      requires Holds(was) && Intact(states, gone)
      modifies Owned(containers), Executors(containers)`cpuStr, Executors(containers)`ped, containers.Values
      modifies resManager`vcpuNum, resManager`pcpuPool, resManager`containerCpuSets
      ensures Intact(states, gone) && unchanged(this) && unchanged(resManager`memoryPoolBytes)
      ensures Holds(now) && OwnProgress(was, now, done)
      ensures OwnReaches(containers, replies, was, done)
      ensures ok <==>
                && AllOwnReached(containers, containers.Keys, replies, was)
                && AllCountable(PinnedViews(configs, containers, was, false, S), Live(configs, states))
      ensures ok ==> done == Owned(containers) && resManager.pcpuPool == SortedElems(Pool(was, done))
      ensures ok ==> resManager.vcpuNum == VcpuTotal(ViewsOf(configs, now), Live(configs, states), 0)
      ensures !ok ==> unchanged(resManager`vcpuNum, resManager`pcpuPool)
    {
      var pool, stuck;
      ghost var visited;
      ok, stuck, pool, now, visited := PinIndependent(replies, gone, was, states);
      done := OwnConfigs(containers, visited, replies, was);
      OwnConfigsGrow(containers, visited, replies, was);
      if ok {
        AllOwnReachedOwned(containers, replies, was);
        PinnedTableIs(was, now, done, false, S);
        var list := pool.ToSlice();
        ok := Publish(list, gone, now, states);
      }
    }

    /** Whatever fails, the configurations of done and no others have been rewritten. */
    method PinVCPU(cpuSet: CPUSet, replies: string -> Reply, gone: set<string>, ghost was: Table, ghost states: States)
      returns (ok: bool, ghost now: Table, ghost done: set<ContainerConfig>)
      requires CpuNumbers(cpuSet.Elems()) && Holds(was) && Intact(states, gone)
      modifies Owned(containers), Executors(containers)`cpuStr, Executors(containers)`ped, containers.Values
      modifies resManager`vcpuNum, resManager`pcpuPool, resManager`containerCpuSets
      ensures Intact(states, gone) && unchanged(this) && unchanged(resManager`memoryPoolBytes)
      ensures Holds(now) && PinnedTo(was, now, done, sharedCPUPool, cpuSet.Elems())
      ensures sharedCPUPool ==> done == AckedConfigs(containers, containers.Keys, replies, cpuSet.Elems())
      ensures !sharedCPUPool ==> OwnReaches(containers, replies, was, done)
      ensures ok <==> PinSucceeds(configs, containers, states, replies, was, sharedCPUPool, cpuSet.Elems())
      ensures ok ==> done == Owned(containers)
      ensures ok ==> resManager.vcpuNum == VcpuTotal(ViewsOf(configs, now), Live(configs, states), 0)
      ensures ok ==> resManager.pcpuPool == SortedElems(PoolResult(was, done, sharedCPUPool, cpuSet.Elems()))
      ensures !ok ==> unchanged(resManager`vcpuNum, resManager`pcpuPool)
    {
      if sharedCPUPool {
        ok, now, done := PinSharedPool(cpuSet, replies, gone, was, states);
      } else {
        ok, now, done := PinOwnPools(replies, gone, was, states, cpuSet.Elems());
      }
    }

    method SetPinned(pinned: bool, gone: set<string>, ghost now: Table, ghost states: States)
      requires Holds(now) && Intact(states, gone)
      modifies this`vcpuAlreadyPinned
      ensures Holds(now) && Intact(states, gone) && vcpuAlreadyPinned == pinned
    {
      vcpuAlreadyPinned := pinned;
    }

    /** A CPU the host does not have, or a shared pool with another number of CPUs than the sandbox has vCPUs,
        only takes the mark back. */
    method Match(cpuList: seq<int>, physical: nat, gone: set<string>, ghost was: Table, ghost states: States)
      requires Holds(was) && Intact(states, gone)
      modifies this`vcpuAlreadyPinned
      ensures Holds(was) && Intact(states, gone)
      ensures vcpuAlreadyPinned <==>
                && old(vcpuAlreadyPinned)
                && (forall cpu | cpu in cpuList :: cpu < physical)
                && (sharedCPUPool ==> |cpuList| == resManager.vcpuNum)
    {
      var matching := true;
      var valid, outOfRangeCPUs := CpusetRangeValid(cpuList, physical);
      if !valid {
        matching := false;
      }
      if sharedCPUPool && |cpuList| != resManager.vcpuNum {
        matching := false;
      }
      if !matching && vcpuAlreadyPinned {
        vcpuAlreadyPinned := false;
      }
    }

    method CheckHost(cpuSet: CPUSet, physical: nat, gone: set<string>, ghost was: Table, ghost states: States)
      requires Holds(was) && Intact(states, gone)
      modifies this`vcpuAlreadyPinned
      ensures Holds(was) && Intact(states, gone)
      ensures vcpuAlreadyPinned == (old(vcpuAlreadyPinned) && OnHost(cpuSet.Elems(), physical, sharedCPUPool, resManager.vcpuNum))
    {
      var cpuList := cpuSet.ToSlice();
      ListOnHost(cpuSet.Elems(), physical, sharedCPUPool, resManager.vcpuNum);
      Match(cpuList, physical, gone, was, states);
    }

    /** The set of CPUs the sandbox's configurations ask for together, printed and parsed again. */
    method ReadSandboxCpuset(ghost vs: Views) returns (cpuSet: CPUSet, ok: bool)
      requires Shows(vs)
      ensures var U := UnionCpus(vs, vs.Keys);
        (ok <==> ViewsReadable(vs, vs.Keys) && Rereadable(U)) && (ok ==> cpuSet.Elems() == U && CpuNumbers(U))
    {
      var cpus, mems;
      cpus, mems, ok := GetSandboxCpusetStr(vs);
      if !ok {
        cpuSet := CPUSet.NewCPUSet([]);
        return;
      }
      UnionNumbers(vs);
      RoundTrip(UnionCpus(vs, vs.Keys));
      var err;
      cpuSet, err := CPUSet.Parse(cpus);
      ok := err.NoError?;
    }

    /** The part of checkVCPUsPinning that follows the parse. */
    method PinSandbox(cpuSet: CPUSet, physical: nat, replies: string -> Reply, gone: set<string>,
          ghost was: Table, ghost states: States)
      returns (ok: bool, ghost now: Table, ghost done: set<ContainerConfig>)
      requires CpuNumbers(cpuSet.Elems()) && Holds(was) && Intact(states, gone)
      modifies this`vcpuAlreadyPinned, Owned(containers), Executors(containers)`cpuStr, Executors(containers)`ped, containers.Values
      modifies resManager`vcpuNum, resManager`pcpuPool, resManager`containerCpuSets
      ensures unchanged(this`configs, this`containers) && unchanged(resManager`memoryPoolBytes)
      ensures Holds(now) && PinnedTo(was, now, done, sharedCPUPool, cpuSet.Elems())
      ensures ok <==> PinSucceeds(configs, containers, states, replies, was, sharedCPUPool, cpuSet.Elems())
      ensures ok ==> done == Owned(containers)
      ensures ok ==> resManager.vcpuNum == VcpuTotal(ViewsOf(configs, now), Live(configs, states), 0)
      ensures ok ==> resManager.pcpuPool == SortedElems(PoolResult(was, done, sharedCPUPool, cpuSet.Elems()))
      ensures Intact(states, gone)
      ensures ok ==> vcpuAlreadyPinned
      ensures !ok ==> unchanged(resManager`vcpuNum, resManager`pcpuPool)
      ensures !ok ==>
                vcpuAlreadyPinned == (old(vcpuAlreadyPinned) && OnHost(cpuSet.Elems(), physical, sharedCPUPool, old(resManager.vcpuNum)))
    {
      CheckHost(cpuSet, physical, gone, was, states);
      ok, now, done := PinVCPU(cpuSet, replies, gone, was, states);
      if ok {
        SetPinned(true, gone, now, states);
      }
    }

    method CheckVCPUsPinning(physical: nat, replies: string -> Reply, gone: set<string>, ghost was: Table, ghost states: States)
      returns (ok: bool, ghost now: Table)
      requires Holds(was) && Intact(states, gone)
      modifies this`vcpuAlreadyPinned, Owned(containers), Executors(containers)`cpuStr, Executors(containers)`ped, containers.Values
      modifies resManager`vcpuNum, resManager`pcpuPool, resManager`containerCpuSets
      ensures unchanged(this`configs, this`containers) && unchanged(resManager`memoryPoolBytes)
      ensures Intact(states, gone) && Holds(now)
      ensures !enableVCPUsPinning ==> ok && now == was && unchanged(this) && unchanged(resManager)
      ensures enableVCPUsPinning ==> (ok <==> CheckSucceeds(configs, containers, states, replies, was, sharedCPUPool))
      ensures ok && enableVCPUsPinning ==> PinnedOnce(was, now) && vcpuAlreadyPinned
      ensures ok && enableVCPUsPinning ==> resManager.vcpuNum == VcpuTotal(ViewsOf(configs, now), Live(configs, states), 0)
      ensures !ok ==> unchanged(resManager`vcpuNum, resManager`pcpuPool)
      ensures !ok && !Settable(was) ==> vcpuAlreadyPinned == old(vcpuAlreadyPinned)
      ensures !ok && Settable(was) ==>
                vcpuAlreadyPinned == (old(vcpuAlreadyPinned) && OnHost(Asked(was), physical, sharedCPUPool, old(resManager.vcpuNum)))
    {
      now := was;
      if !enableVCPUsPinning {
        return true, was;
      }
      ghost var vs := ViewsOf(configs, was);
      HoldsShows(was);
      var cpuSet;
      cpuSet, ok := ReadSandboxCpuset(vs);
      if !ok {
        return;
      }
      ghost var done;
      ok, now, done := PinSandbox(cpuSet, physical, replies, gone, was, states);
      if ok {
        AllReached(containers, replies, was, sharedCPUPool, cpuSet.Elems());
        PinnedTableIs(was, now, done, sharedCPUPool, cpuSet.Elems());
      }
    }

    /** The union can be read, printed and read again. */
    ghost predicate Settable(was: Table)
      reads this`configs
    {
      ViewsReadable(ViewsOf(configs, was), ViewsOf(configs, was).Keys) && Rereadable(Asked(was))
    }

    /** The union of the CPUs that the configurations ask for. */
    ghost function Asked(was: Table): set<int>
      reads this`configs
    {
      UnionCpus(ViewsOf(configs, was), ViewsOf(configs, was).Keys)
    }

    /** What a successful pinning did: every container's configuration is pinned and the pool of CPUs set. */
    ghost predicate PinnedOnce(was: Table, now: Table)
      reads this`configs, this`containers, resManager
    {
      && ViewsReadable(ViewsOf(configs, was), ViewsOf(configs, was).Keys) && Rereadable(Asked(was))
      && (sharedCPUPool && containers != map[] ==> Asked(was) != {})
      && (!sharedCPUPool ==> AllOwnReady(was, Owned(containers)))
      && now == PinnedTable(was, Owned(containers), sharedCPUPool, Asked(was))
      && resManager.pcpuPool == SortedElems(PoolResult(was, Owned(containers), sharedCPUPool, Asked(was)))
    }

    /** With a shared pool one pinning settles the sandbox: the configuration of every container, in the table or not,
        holds the union's text and size, the union stays what it was, and pinning again would change nothing; it can be
        computed again exactly when the memory nodes of the pinned entries can be read. */
    lemma SharedSettles(was: Table, now: Table)
      requires sharedCPUPool && Holds(now) && was.Keys == now.Keys && PinnedOnce(was, now)
      ensures var U := Asked(was);
        && (forall k | k in containers :: var v := containers[k].config.View();
              CpuMask(v.resources) == Canonical(U) && v.vcpuNum == U32(|U|))
        && Meaning(Canonical(U)) == Parsed(U)
        && Asked(now) == U && PinnedTable(now, Owned(containers), true, U) == now
        && resManager.pcpuPool == SortedElems(U)
      ensures ViewsReadable(ViewsOf(configs, now), ViewsOf(configs, now).Keys)
         <==> forall k | k in PinnedKeys(configs, containers) :: MemsFine(ViewsOf(configs, was)[k])
    {
      var U, vs := Asked(was), ViewsOf(configs, was);
      InTable(configs, was);
      UnionNumbers(vs);
      RoundTrip(U);
      assert Progress(was, now, Owned(containers), U);
      ProgressShows(configs, was, now, Owned(containers), U);
      SharedFixedPoint(vs, PinnedKeys(configs, containers), U);
      PinnedTableTwice(was, Owned(containers), U);
      forall k | k in containers
        ensures containers[k].config.View() == Pinned(was[containers[k].config], U)
      {
        assert containers[k].config in Owned(containers);
      }
    }

    /** The configurations that count towards the totals: neither infra nor of a container that is stopped or down. */
    ghost function Counting(states: States): set<string>
      reads this`configs
    {
      set k | k in configs && !configs[k].isInfra
        && (configs[k].id in states ==> states[configs[k].id] != Stopped && states[configs[k].id] != Down)
    }

    /** After a shared pinning every configuration that a container owns counts as many vCPUs as the union has CPUs:
        the total is their number times that, when all that count are owned, and else more by what the others weigh. */
    lemma SharedTotal(was: Table, now: Table, states: States, total: int)
      requires sharedCPUPool && Holds(now) && was.Keys == now.Keys && PinnedOnce(was, now) && |Asked(was)| < U32_LIMIT
      requires resManager.vcpuNum == VcpuTotal(ViewsOf(configs, now), Live(configs, states), 0)
      requires total == if Counting(states) <= PinnedKeys(configs, containers) then |Counting(states)| * |Asked(was)|
                        else var pinned := Counting(states) * PinnedKeys(configs, containers);
                             |pinned| * |Asked(was)| + Sum(VcpuWeights(ViewsOf(configs, now), Live(configs, states)) - pinned)
      ensures resManager.vcpuNum == U32(total)
    {
      TableSum(was, now, states, Asked(was));
      assert Sum(VcpuWeights(ViewsOf(configs, now), Live(configs, states))) == total;
    }

    lemma TableSum(was: Table, now: Table, states: States, S: set<int>)
      requires Holds(now) && was.Keys == now.Keys && now == PinnedTable(was, Owned(containers), true, S)
      requires |S| < U32_LIMIT && (containers != map[] ==> S != {})
      ensures var weights := VcpuWeights(ViewsOf(configs, now), Live(configs, states));
        var pinned := Counting(states) * PinnedKeys(configs, containers);
        && Sum(weights) == |pinned| * |S| + Sum(weights - pinned)
        && (Counting(states) <= PinnedKeys(configs, containers) ==> Sum(weights) == |Counting(states)| * |S|)
    {
      var vs := ViewsOf(configs, now);
      CountingShown(now, states);
      forall k | k in Counting(states) && k in PinnedKeys(configs, containers)
        ensures vs[k].vcpuNum == |S| > 0
      {
        InfraShown(now, k);
        NumberShown(was, Owned(containers), S, configs[k]);
        OwnerOf(containers, configs[k]);
        SizeAtLeastOne(S);
        U32Small(|S|);
      }
      OwnedSum(vs, Live(configs, states), Counting(states), PinnedKeys(configs, containers), |S|);
    }

    lemma CountingShown(now: Table, states: States)
      requires Holds(now)
      ensures var vs := ViewsOf(configs, now);
        vs.Keys == configs.Keys && forall k | k in vs :: k in Counting(states) <==> k in Live(configs, states) && !vs[k].isInfra
    {
      InTable(configs, now);
      forall k | k in configs
        ensures configs[k] in now && now[configs[k]].isInfra == configs[k].isInfra
      {
        InfraShown(now, k);
      }
    }

    lemma InfraShown(now: Table, k: string)
      requires Holds(now) && k in configs
      ensures configs[k] in now && now[configs[k]].isInfra == configs[k].isInfra
    {
      assert configs[k] in configs.Values;
    }

    /** With independent pools: the configuration of each container that asked for CPUs holds its own set's text and
        size, the pool is their union, and pinning again would change nothing. */
    lemma OwnSettles(was: Table, now: Table)
      requires !sharedCPUPool && Holds(now) && was.Keys == now.Keys && PinnedOnce(was, now)
      requires forall c | c in Owned(containers) && c in was :: Rereadable(OwnCpus(was[c]))
      ensures forall k | k in containers && CpuMask(was[containers[k].config].resources) != "" ::
                var c := containers[k].config;
                CpuMask(c.View().resources) == Canonical(OwnCpus(was[c])) && c.View().vcpuNum == U32(|OwnCpus(was[c])|)
      ensures forall c | c in was :: OwnCpus(now[c]) == OwnCpus(was[c])
      ensures PinnedTable(now, Owned(containers), false, Asked(was)) == now
      ensures resManager.pcpuPool == SortedElems(Pool(was, Owned(containers)))
    {
      OwnFixedPoint(was, Owned(containers), Asked(was));
      forall k | k in containers
        ensures containers[k].config.View() == PinnedOwn(was[containers[k].config])
      {
        assert containers[k].config in Owned(containers);
      }
    }

    // ---------- removing a container ----------

    /** The table is keyed by the configurations' own ids. */
    ghost predicate Keyed()
      reads this`configs
    {
      forall k | k in configs :: configs[k].id == k
    }

    /** What Intact says of the containers other than one. */
    ghost predicate IntactBut(id: string, states: States, gone: set<string>)
      reads this`containers, containers.Values
    {
      && states.Keys == containers.Keys
      && forall k | k in containers && k != id ::
           containers[k].id == containers[k].config.id == containers[k].me.id == k && containers[k].Valid()
           && states[k] == containers[k].Effective(k in gone)
    }

    /** ensureClientPresence of one of the containers. */
    method EnsurePresence(id: string, gone: set<string>, o: DeleteSteps, ghost states: States) returns (s: StateString, ok: bool)
      requires Intact(states, gone) && id in containers
      modifies containers[id], containers[id].me
      ensures var c, found := containers[id], states[id]; var tried := found == Down && !c.config.isInfra && id !in gone;
        && ok == (found != Down || (tried && o.valid && o.created.acked && o.saved))
        && s == (if found == Down && ok then Ready else found)
        && c.Machine() == RunOps(old(c.Machine()), PresenceOps(c.config.isInfra, id in gone, tried && o.valid && o.created.acked))
      ensures IntactBut(id, states, gone)
    {
      s, ok := containers[id].EnsureClientPresence(id in gone, o.valid, o.created, o.saved);
    }

    method DropContainer(id: string, gone: set<string>, ghost states: States)
      requires IntactBut(id, states, gone) && id in containers
      modifies this`containers
      ensures containers == old(containers) - {id} && Intact(states - {id}, gone)
    {
      containers := containers - {id};
    }

    /** Container.delete. A failed save comes after the container has been dropped. */
    method DeleteClient(id: string, gone: set<string>, o: DeleteSteps, ghost states: States) returns (ok: bool)
      requires Intact(states, gone) && id in containers
      modifies this`containers, containers[id], containers[id].me
      ensures var deletable := Deletable(states[id], old(containers)[id].config.isInfra, id in gone, o);
        && ok == (deletable && o.stored)
        && containers == if deletable then old(containers) - {id} else old(containers)
      ensures states[id] == Running || states[id] == Creating ==> !ok && id in containers
      ensures states[id] == Ready || states[id] == Paused || states[id] == Stopped ==>
                (id !in containers <==> old(containers)[id].config.isInfra || o.removed)
      ensures states[id] == Down ==>
                (id !in containers <==>
                    !old(containers)[id].config.isInfra && id !in gone && o.valid && o.created.acked && o.saved && o.removed)
      ensures ok ==> Intact(states - {id}, gone)
      ensures var c, found := old(containers)[id], states[id];
        c.Machine() == RunOps(old(containers[id].Machine()), PresenceOps(c.config.isInfra, id in gone,
                         found == Down && !c.config.isInfra && id !in gone && o.valid && o.created.acked))
    {
      var c := containers[id];
      DeletableIs(states[id], c.config.isInfra, id in gone, o);
      var currentState;
      currentState, ok := EnsurePresence(id, gone, o, states);
      if !ok {
        return;
      }
      if currentState != Ready && currentState != Paused && currentState != Stopped {
        return false;
      }
      if !c.config.isInfra {
        if !o.removed {
          return false;
        }
      }
      DropContainer(id, gone, states);
      ok := o.stored;
    }

    /** The container's entries in the tables. */
    method DropConfig(id: string, gone: set<string>, ghost was: Table, ghost states: States)
      requires Holds(was) && Intact(states, gone)
      modifies this`configs, resManager`containerCpuSets
      ensures configs == old(configs) - {id}
      ensures resManager.containerCpuSets == old(resManager.containerCpuSets) - {id}
      ensures Holds(was) && Intact(states, gone)
      ensures unchanged(resManager`vcpuNum, resManager`memoryPoolBytes)
    {
      assert (configs - {id}).Values <= configs.Values;
      configs := configs - {id};
      resManager.containerCpuSets := resManager.containerCpuSets - {id};
    }

    /** What DeleteContainer does once the container is gone. */
    method Refresh(physical: nat, replies: string -> Reply, gone: set<string>, ghost was: Table, ghost vs: Views,
          ghost states: States, ghost live: set<string>)
      returns (ok: bool)
      requires Holds(was) && Intact(states, gone) && vs == ViewsOf(configs, was) && live == Live(configs, states)
      modifies this`vcpuAlreadyPinned, Owned(containers), Executors(containers)`cpuStr, Executors(containers)`ped
      modifies containers.Values, resManager
      ensures unchanged(this`configs, this`containers)
      ensures !enableVCPUsPinning ==> unchanged(resManager`containerCpuSets)
      ensures ok <==> && (infraOnly || staticResourceMgmt || AllCountable(vs, live))
                      && (enableVCPUsPinning ==> CheckSucceeds(configs, containers, states, replies, was, sharedCPUPool))
      ensures ok && !infraOnly && !staticResourceMgmt ==> resManager.memoryPoolBytes == PoolBytes(vs, live, hugePageSupport)
      ensures ok && !infraOnly && !staticResourceMgmt && !enableVCPUsPinning ==> resManager.vcpuNum == VcpuTotal(vs, live, miniVCPUNum)
      ensures ok && enableVCPUsPinning ==>
                resManager.vcpuNum == VcpuTotal(PinnedViews(configs, containers, was, sharedCPUPool, Asked(was)), live, 0)
    {
      HoldsShows(was);
      ok := UpdateResources(gone, vs, states, live);
      if !ok {
        return;
      }
      ghost var now;
      ok, now := CheckVCPUsPinning(physical, replies, gone, was, states);
    }

    /** Takes the container and its entries out. */
    method Remove(id: string, gone: set<string>, o: DeleteSteps,
          ghost was: Table, ghost states: States, ghost deletable: bool)
      returns (ok: bool)
      requires Holds(was) && Intact(states, gone)
      requires id in containers && deletable == Deletable(states[id], containers[id].config.isInfra, id in gone, o)
      modifies this`containers, this`configs, containers[id], containers[id].me, resManager`containerCpuSets
      ensures ok == (o.stored && deletable) && (id !in containers <==> deletable)
      ensures ok ==> containers == old(containers) - {id} && configs == old(configs) - {id}
      ensures ok ==> resManager.containerCpuSets == old(resManager.containerCpuSets) - {id}
      ensures !ok ==> unchanged(this`configs) && unchanged(resManager)
      ensures ok ==> Holds(was) && Intact(states - {id}, gone)
    {
      ok := DeleteClient(id, gone, o, states);
      if ok {
        DropConfig(id, gone, was, states - {id});
      }
    }

    /** live is the set of configurations that counted before, vs what they held. A successful delete lowers the memory,
        and without pinning also the vCPUs, by exactly what the container contributed; with pinning the vCPUs are
        counted anew from the configurations that remain, as pinning leaves them. */
    method DeleteContainer(id: string, physical: nat, replies: string -> Reply, gone: set<string>, o: DeleteSteps,
          ghost was: Table, ghost vs: Views, ghost states: States, ghost live: set<string>)
      returns (ok: bool)
      requires Holds(was) && Intact(states, gone) && Keyed() && vs == ViewsOf(configs, was) && live == Live(configs, states)
      modifies this`containers, this`configs, this`vcpuAlreadyPinned
      modifies Owned(containers), Executors(containers), containers.Values, resManager
      ensures ok <==> && id != "" && id in old(containers) && o.stored && o.storedAgain
                      && Deletable(states[id], old(containers)[id].config.isInfra, id in gone, o)
                      && (infraOnly || staticResourceMgmt || AllCountable(vs - {id}, live - {id}))
                      && (enableVCPUsPinning ==>
                            CheckSucceeds(old(configs) - {id}, old(containers) - {id}, states - {id}, replies, was, sharedCPUPool))
      ensures ok ==> containers == old(containers) - {id} && configs == old(configs) - {id}
      ensures id == "" || id !in old(containers) ==> !ok && unchanged(this) && unchanged(resManager)
      ensures id != "" && id in old(containers) && (states[id] == Running || states[id] == Creating) ==> !ok && id in containers
      ensures id != "" && id in old(containers) && (states[id] == Ready || states[id] == Paused || states[id] == Stopped) ==>
                (id !in containers <==> old(containers)[id].config.isInfra || o.removed)
      ensures id != "" && id in old(containers) && states[id] == Down ==>
                (id !in containers <==>
                    !old(containers)[id].config.isInfra && id !in gone && o.valid && o.created.acked && o.saved && o.removed)
      ensures id in containers || !o.stored ==> !ok && (id != "" ==> unchanged(this`configs)) && unchanged(resManager)
      ensures ok && !enableVCPUsPinning ==> resManager.containerCpuSets == old(resManager.containerCpuSets) - {id}
      ensures ok && id in vs && !infraOnly && !staticResourceMgmt ==>
                && resManager.memoryPoolBytes == U64(MemMiBLess(vs, live, hugePageSupport, id) * MIB)
                && (!enableVCPUsPinning ==> resManager.vcpuNum == VcpusLess(vs, live, miniVCPUNum, id))
      ensures ok && enableVCPUsPinning ==>
                resManager.vcpuNum == VcpuTotal(PinnedViews(configs, containers, was, sharedCPUPool, Asked(was)), live - {id}, 0)
    {
      if id == "" {
        return false;
      }
      if id !in containers {
        return false;
      }
      DeletableIs(states[id], containers[id].config.isInfra, id in gone, o);
      ghost var deletable := Deletable(states[id], containers[id].config.isInfra, id in gone, o);
      LiveWithout(configs, states, id);
      ViewsWithout(configs, was, id);
      ok := Remove(id, gone, o, was, states, deletable);
      if !ok {
        return;
      }
      if id in vs {
        RemoveOne(vs, live, miniVCPUNum, hugePageSupport, id);
      }
      ok := Refresh(physical, replies, gone, was, vs - {id}, states - {id}, live - {id});
      ok := ok && o.storedAgain;
    }

    /** WaitContainerExit up to the point where the caller blocks on a channel. */
    method WaitContainerExit(id: string, gone: set<string>) returns (outcome: Waiting)
      requires Valid()
      modifies if id in containers then {containers[id]} else {}
      ensures Valid() && (id !in containers <==> outcome == NoContainer)
      ensures id in containers ==>
                var c, before := containers[id], old(containers[id].Machine());
                && c.Machine() == Notifier.Run(before, Steps(before, WaitExit(c.config.isInfra, id in gone)))
                && c.state == (if !c.config.isInfra && id in gone then Down else old(containers[id].state))
                && (outcome == ContainerDown <==> c.state == Down)
                && (outcome == AlreadyExited <==> c.state == Stopped)
                && (outcome.WaitOn? ==> c.exitNotifier == Some(outcome.channel) && Open(c.Machine(), outcome.channel))
    {
      if id !in containers {
        return NoContainer;
      }
      var c := containers[id];
      WaitSteps(c.Machine(), c.config.isInfra, id in gone);
      var state := c.CheckState(id in gone);
      if state == Down {
        return ContainerDown;
      }
      if state == Stopped {
        return AlreadyExited;
      }
      var notifier := c.ExitNotifierForState(state);
      outcome := WaitOn(notifier.value);
    }
  }

  /** The container asks for no CPUs, or for a readable list, and the pedestal acknowledges. */
  ghost predicate OwnReached(v: ConfigView, reply: Reply) {
    OwnReady(v) && (CpuMask(v.resources) != "" ==> reply.acked)
  }

  ghost predicate AllOwnReached(containers: map<string, Container>, keys: set<string>, replies: string -> Reply, was: Table) {
    forall k | k in keys && k in containers :: containers[k].config in was && OwnReached(was[containers[k].config], replies(k))
  }

  /** What becomes of one container. */
  ghost function OwnVerdict(v: ConfigView, reply: Reply): PinVerdict {
    if OwnReached(v, reply) then PinDone else if Endless(v) then PinStuck else PinFailed
  }

  lemma NamedTurn(was: Table, now: Table, done: set<ContainerConfig>, own: ContainerConfig, S: set<int>, reply: Reply)
    requires own in was && OwnProgress(was, now, done) && own !in done
    requires CpuMask(was[own].resources) != "" && OwnReadable(was[own]) && !Endless(was[own])
    requires S == OwnCpus(was[own]) && (S != {} ==> Settled(was[own], Pinned(was[own], S)))
    ensures OwnVerdict(was[own], reply) == if S != {} && reply.acked then PinDone else PinFailed
    ensures S != {} ==> OwnProgress(was, now[own := Pinned(now[own], S)], done + {own})
    ensures Pool(was, done + {own}) == Pool(was, done) + S
  {
    PoolStep(was, done, own);
    if S != {} {
      OwnStep(was, now, done, own, Pinned(now[own], S));
    }
  }

  lemma IdleTurn(was: Table, now: Table, done: set<ContainerConfig>, own: ContainerConfig, reply: Reply)
    requires own in was && OwnProgress(was, now, done) && own !in done && CpuMask(was[own].resources) == ""
    ensures OwnVerdict(was[own], reply) == PinDone
    ensures OwnProgress(was, now, done + {own}) && Pool(was, done + {own}) == Pool(was, done)
  {
    PoolStep(was, done, own);
    OwnStep(was, now, done, own, now[own]);
    SameEntry(now, own);
  }

  lemma RefusedTurn(v: ConfigView, reply: Reply)
    requires Endless(v) || !OwnReadable(v)
    ensures OwnVerdict(v, reply) == if Endless(v) then PinStuck else PinFailed
  {
  }

  ghost predicate NoneEndless(containers: map<string, Container>, keys: set<string>, was: Table) {
    forall k | k in keys && k in containers && containers[k].config in was :: !Endless(was[containers[k].config])
  }

  /** All containers that can be have been pinned, unless a list is never read to its end, and no others. */
  ghost predicate OwnReaches(containers: map<string, Container>, replies: string -> Reply, was: Table, done: set<ContainerConfig>) {
    var all := OwnConfigs(containers, containers.Keys, replies, was);
    done <= all && (NoneEndless(containers, containers.Keys, was) ==> done == all)
  }

  ghost function OwnConfigs(containers: map<string, Container>, keys: set<string>, replies: string -> Reply, was: Table)
    : set<ContainerConfig>
  {
    set k | k in keys && k in containers && containers[k].config in was
      && OwnReached(was[containers[k].config], replies(k)) :: containers[k].config
  }

  lemma AllReached(containers: map<string, Container>, replies: string -> Reply, was: Table, shared: bool, S: set<int>)
    requires PinsAll(containers, replies, was, shared, S)
    ensures shared && containers != map[] ==> S != {}
    ensures !shared ==> AllOwnReady(was, Owned(containers))
  {
    if shared && containers != map[] {
      var k :| k in containers;
      assert Reached(k, replies, S);
    }
  }

  lemma OwnConfigsNext(containers: map<string, Container>, keys: set<string>, replies: string -> Reply, was: Table, k: string)
    requires k in containers && containers[k].config in was
    ensures var c, done := containers[k].config, OwnConfigs(containers, keys, replies, was);
      && (OwnReached(was[c], replies(k)) ==> OwnConfigs(containers, keys + {k}, replies, was) == done + {c})
      && (!OwnReached(was[c], replies(k)) ==> OwnConfigs(containers, keys + {k}, replies, was) == done)
  {
  }

  lemma OwnConfigsGrow(containers: map<string, Container>, keys: set<string>, replies: string -> Reply, was: Table)
    requires keys <= containers.Keys
    ensures OwnConfigs(containers, keys, replies, was) <= OwnConfigs(containers, containers.Keys, replies, was)
  {
  }

  /** What the loop knows after visiting some of the containers. */
  ghost predicate OwnSoFar(containers: map<string, Container>, replies: string -> Reply, was: Table,
        left: set<string>, visited: set<string>, ok: bool, stuck: bool) {
    && left !! visited && visited <= containers.Keys && NoneEndless(containers, visited, was)
    && (if stuck then left == {} && !ok && !NoneEndless(containers, containers.Keys, was)
        else left + visited == containers.Keys && (ok <==> AllOwnReached(containers, visited, replies, was)))
  }

  lemma OwnAtFirst(containers: map<string, Container>, replies: string -> Reply, was: Table)
    ensures OwnSoFar(containers, replies, was, containers.Keys, {}, true, false)
    ensures OwnConfigs(containers, {}, replies, was) == {}
  {
    assert containers.Keys + {} == containers.Keys;
  }

  /** One more container: its configuration is its own, and its verdict tells what it adds. */
  lemma OwnTurn(containers: map<string, Container>, replies: string -> Reply, was: Table,
        left: set<string>, visited: set<string>, ok: bool, k: string)
    requires forall j | j in containers :: containers[j].config.id == j
    requires OwnSoFar(containers, replies, was, left, visited, ok, false)
    requires k in left && k in containers && containers[k].config in was
    ensures var c, done := containers[k].config, OwnConfigs(containers, visited, replies, was);
      var result := OwnVerdict(was[c], replies(k));
      var more := if result.PinStuck? then visited else visited + {k};
      && c !in done
      && OwnConfigs(containers, more, replies, was) == (if result.PinDone? then done + {c} else done)
      && OwnSoFar(containers, replies, was, if result.PinStuck? then {} else left - {k}, more, ok && result.PinDone?, result.PinStuck?)
  {
    OwnConfigsNext(containers, visited, replies, was, k);
    MoveKey(left, visited, k);
    VerdictNext(containers, replies, was, visited, k);
  }

  lemma VerdictNext(containers: map<string, Container>, replies: string -> Reply, was: Table, keys: set<string>, k: string)
    requires k in containers && containers[k].config in was
    ensures var result := OwnVerdict(was[containers[k].config], replies(k));
      && (AllOwnReached(containers, keys + {k}, replies, was) <==> AllOwnReached(containers, keys, replies, was) && result.PinDone?)
      && (NoneEndless(containers, keys + {k}, was) <==> NoneEndless(containers, keys, was) && !result.PinStuck?)
      && (result.PinStuck? ==> !NoneEndless(containers, containers.Keys, was))
  {
  }

  lemma OwnAtEnd(containers: map<string, Container>, replies: string -> Reply, was: Table, visited: set<string>, ok: bool, stuck: bool)
    requires OwnSoFar(containers, replies, was, {}, visited, ok, stuck)
    ensures stuck <==> !NoneEndless(containers, containers.Keys, was)
    ensures !stuck ==> visited == containers.Keys
    ensures ok <==> AllOwnReached(containers, containers.Keys, replies, was)
    ensures ok ==> !stuck
  {
    NoneLeft(visited);
    if AllOwnReached(containers, containers.Keys, replies, was) {
      assert NoneEndless(containers, containers.Keys, was);
    }
  }

  /** What one turn does to the recorded sets. */
  ghost predicate OwnRecorded(result: PinVerdict, v: ConfigView, k: string, before: map<string, CPUSet>, after: map<string, CPUSet>) {
    if result.PinDone? && CpuMask(v.resources) != "" then
      k in after && after == before[k := after[k]] && after[k].Elems() == OwnCpus(v)
    else after == before
  }

  lemma AllOwnReachedOwned(containers: map<string, Container>, replies: string -> Reply, was: Table)
    requires AllOwnReached(containers, containers.Keys, replies, was)
    ensures OwnConfigs(containers, containers.Keys, replies, was) == Owned(containers)
  {
  }

  /** A client that is down is created anew first; then only a ready, paused or stopped one can be deleted. */
  predicate Deletable(state: StateString, infra: bool, gone: bool, o: DeleteSteps) {
    && (if state == Down then !infra && !gone && o.valid && o.created.acked && o.saved
        else state == Ready || state == Paused || state == Stopped)
    && (infra || o.removed)
  }

  /** A running container or one that is being created stays; a ready, paused or stopped one goes exactly when the
      remove command succeeds or it is the infra container; a down one only after it has been registered anew. */
  lemma DeletableIs(state: StateString, infra: bool, gone: bool, o: DeleteSteps)
    ensures state == Running || state == Creating ==> !Deletable(state, infra, gone, o)
    ensures state == Ready || state == Paused || state == Stopped ==> (Deletable(state, infra, gone, o) <==> infra || o.removed)
    ensures state == Down ==>
              (Deletable(state, infra, gone, o) <==> !infra && !gone && o.valid && o.created.acked && o.saved && o.removed)
  {
  }

  /** What becomes of the steps of a delete: the firmware check, the create command and the save of registering anew,
      the remove command, and the two saves of the sandbox. */
  datatype DeleteSteps = DeleteSteps(valid: bool, created: Reply, saved: bool, removed: bool, stored: bool, storedAgain: bool)

  datatype Waiting = NoContainer | ContainerDown | AlreadyExited | WaitOn(channel: nat)

  datatype OwnRead = NothingNamed | Unreadable | NeverRead | Named

  datatype PinVerdict = PinDone | PinFailed | PinStuck

  /** The set has been recorded for exactly the acknowledged containers among keys. */
  ghost predicate Listed(before: map<string, CPUSet>, after: map<string, CPUSet>, keys: set<string>,
        replies: string -> Reply, cpuSet: CPUSet) {
    forall k ::
      (k in after <==> k in before || (k in keys && Reached(k, replies, cpuSet.Elems())))
      && (k in after ==> after[k] == if k in keys && Reached(k, replies, cpuSet.Elems()) then cpuSet else before[k])
  }

  ghost predicate Reached(k: string, replies: string -> Reply, S: set<int>) {
    S != {} && replies(k).acked
  }

  lemma ListedStep(before: map<string, CPUSet>, after: map<string, CPUSet>, keys: set<string>, k: string,
        replies: string -> Reply, cpuSet: CPUSet)
    requires Listed(before, after, keys, replies, cpuSet)
    ensures Listed(before, if Reached(k, replies, cpuSet.Elems()) then after[k := cpuSet] else after, keys + {k}, replies, cpuSet)
  {
  }

  /** The configuration objects of the acknowledged containers among keys. */
  ghost function AckedConfigs(containers: map<string, Container>, keys: set<string>, replies: string -> Reply, S: set<int>)
    : set<ContainerConfig>
  {
    set k | k in keys && k in containers && Reached(k, replies, S) :: containers[k].config
  }

  lemma WaitSteps(m: Machine, infra: bool, gone: bool)
    requires Sound(m)
    ensures var s := StateAfterCheck(m, infra, gone); var n := Notifier.Run(m, Checked(m, infra, gone));
      && Notifier.Run(m, Steps(m, WaitExit(infra, gone))) == (if Inactive(s) then n else Updated(n, s))
      && Sound(n) && (!Inactive(s) ==> Updated(n, s).current.Some? && Open(Updated(n, s), Updated(n, s).current.value))
  {
    var s := StateAfterCheck(m, infra, gone);
    if Inactive(s) {
      assert Steps(m, WaitExit(infra, gone)) == Checked(m, infra, gone);
      RunTwo(m, SetState(Down), Update(Down));
      UpdateKeepsSound(m.(state := Down), Down);
    } else {
      assert Steps(m, WaitExit(infra, gone)) == [Update(s), Hand];
      RunTwo(m, Update(s), Hand);
      UpdateKeepsSound(m, s);
    }
  }

  lemma InTable(configs: map<string, ContainerConfig>, was: Table)
    requires configs.Values <= was.Keys
    ensures ViewsOf(configs, was).Keys == configs.Keys
  {
    forall k | k in configs
      ensures configs[k] in was
    {
      assert configs[k] in configs.Values;
    }
  }

  lemma SameEntry(table: Table, c: ContainerConfig)
    requires c in table
    ensures table[c := table[c]] == table
  {
  }

  lemma KeysKept(table: Table, c: ContainerConfig, v: ConfigView)
    requires c in table
    ensures table[c := v].Keys == table.Keys
  {
  }

  lemma OwnerOf(containers: map<string, Container>, c: ContainerConfig)
    requires c in Owned(containers)
    ensures containers != map[]
  {
  }

  lemma NumberShown(was: Table, owned: set<ContainerConfig>, S: set<int>, c: ContainerConfig)
    requires c in was && c in owned
    ensures PinnedTable(was, owned, true, S)[c].vcpuNum == U32(|S|)
  {
    PinnedIs(was[c], S);
  }

  lemma SizeAtLeastOne(S: set<int>)
    ensures S != {} ==> |S| > 0
  {
  }

  /** The host has all the CPUs, and for a shared pool there are as many as there are vCPUs. */
  ghost predicate OnHost(S: set<int>, physical: nat, shared: bool, vcpus: nat) {
    (forall x | x in S :: x < physical) && (shared ==> |S| == vcpus)
  }

  lemma ListOnHost(S: set<int>, physical: nat, shared: bool, vcpus: nat)
    ensures var list := SortedElems(S);
      OnHost(S, physical, shared, vcpus) <==> (forall x | x in list :: x < physical) && (shared ==> |list| == vcpus)
  {
    SortedElemsOf(S);
    assert forall x :: x in SortedElems(S) <==> x in S by {
      assert forall x :: x in SortedElems(S) <==> x in Elems(SortedElems(S));
    }
  }

  lemma Shrinks(left: set<string>, k: string)
    requires k in left
    ensures {} < left && left - {k} < left
  {
  }

  lemma Owns(containers: map<string, Container>, k: string)
    requires k in containers
    ensures containers[k].config in Owned(containers) && containers[k].me in Executors(containers)
  {
  }

  lemma NoneLeft(done: set<string>)
    ensures {} + done == done
  {
  }

  lemma MoveKey(left: set<string>, visited: set<string>, k: string)
    requires k in left
    ensures (left - {k}) + (visited + {k}) == left + visited
    ensures left !! visited ==> left - {k} !! visited + {k}
  {
  }

  lemma AckedStep(containers: map<string, Container>, keys: set<string>, replies: string -> Reply, S: set<int>, k: string)
    requires k in containers
    ensures AllAcked(keys + {k}, replies, S) <==> AllAcked(keys, replies, S) && Reached(k, replies, S)
    ensures Reached(k, replies, S) ==>
              AckedConfigs(containers, keys + {k}, replies, S) == AckedConfigs(containers, keys, replies, S) + {containers[k].config}
    ensures !Reached(k, replies, S) ==>
              AckedConfigs(containers, keys + {k}, replies, S) == AckedConfigs(containers, keys, replies, S)
  {
  }

  ghost predicate AllAcked(keys: set<string>, replies: string -> Reply, S: set<int>) {
    forall k | k in keys :: Reached(k, replies, S)
  }

  lemma AllAckedOwned(containers: map<string, Container>, replies: string -> Reply, S: set<int>)
    requires AllAcked(containers.Keys, replies, S)
    ensures AckedConfigs(containers, containers.Keys, replies, S) == Owned(containers)
  {
  }

  ghost predicate IdleIn(states: map<string, StateString>, id: string) {
    id in states && Inactive(states[id])
  }

  /** Visiting k next moves its weight into the part already summed. */
  lemma TakeNext(weights: map<string, int>, left: set<string>, k: string)
    requires k in left && k in weights
    ensures Sum(weights - (left - {k})) == Sum(weights - left) + weights[k]
  {
    SumAdd(weights - left, k, weights[k]);
    assert weights - (left - {k}) == (weights - left)[k := weights[k]];
  }

  /** Taking a container and its configuration away takes just its own key out of those that count. */
  lemma LiveWithout(configs: map<string, ContainerConfig>, states: States, id: string)
    requires forall k | k in configs :: configs[k].id == k
    ensures Live(configs - {id}, states - {id}) == Live(configs, states) - {id}
  {
  }

  lemma ViewsWithout(configs: map<string, ContainerConfig>, table: Table, id: string)
    ensures ViewsOf(configs - {id}, table) == ViewsOf(configs, table) - {id}
  {
  }

  lemma TakeNext32(weights: map<string, int>, left: set<string>, k: string, total: int, weight: int)
    requires k in left && k in weights && weights[k] == weight && total == U32(Sum(weights - left))
    ensures U32(Sum(weights - (left - {k}))) == U32(total + weight)
  {
    TakeNext(weights, left, k);
    U32Add(Sum(weights - left), weights[k]);
  }

  lemma TakeNext64(weights: map<string, int>, left: set<string>, k: string, total: int, weight: int)
    requires k in left && k in weights && weights[k] == weight && total == U64(Sum(weights - left))
    ensures U64(Sum(weights - (left - {k}))) == U64(total + weight)
  {
    TakeNext(weights, left, k);
    U64Add(Sum(weights - left), weights[k]);
  }

  lemma NothingLeft(weights: map<string, int>, live: set<string>, left: set<string>)
    requires left == {}
    ensures weights - left == weights && live - left == live
  {
  }
}
