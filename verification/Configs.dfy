/** The container configuration: pkg/micantainer/container_resources.go, the range check of
    pkg/micantainer/utils.go and the runtime defaults of pkg/oci/oci_configs.go. */
module Configs {
  import opened Wrappers
  import opened Defs
  import opened Ints
  import opened Text
  import opened CpuList
  import opened MicaCpus
  import opened PedestalCpus
  import opened OciSpecs
  import opened Planner

  // ---------- reading the resources ----------

  type Resources = Option<LinuxResources>

  function Ensured(res: Resources): LinuxResources {
    if res.Some? then res.value else NO_RESOURCES
  }

  function EnsuredCPU(res: Resources): LinuxCPU {
    if Ensured(res).cpu.Some? then Ensured(res).cpu.value else NO_CPU
  }

  function EnsuredMemory(res: Resources): LinuxMemory {
    if Ensured(res).memory.Some? then Ensured(res).memory.value else NO_MEMORY
  }

  function CpuMask(res: Resources): string {
    EnsuredCPU(res).cpus
  }

  function BytesToMiB(value: Option<int>): nat {
    if value.None? || value.value <= 0 then 0 else U32(value.value / MIB)
  }

  /** Whole MiB, rounded down; nothing for a missing or a negative number of bytes. */
  lemma BytesToMiBIs(value: Option<int>)
    ensures value.None? || value.value <= 0 ==> BytesToMiB(value) == 0
    ensures value.Some? && 0 < value.value < 0x10_0000 * U32_LIMIT ==>
              0x10_0000 * BytesToMiB(value) <= value.value < 0x10_0000 * (BytesToMiB(value) + 1)
  {
  }

  function LimitMB(res: Resources): nat {
    BytesToMiB(EnsuredMemory(res).limit)
  }

  function ReservationMB(res: Resources): nat {
    BytesToMiB(EnsuredMemory(res).reservation)
  }

  function WithReservation(res: Resources, mb: nat): LinuxResources {
    Ensured(res).(memory := Some(EnsuredMemory(res).(reservation := Some(mb * MIB))))
  }

  lemma ReservationSet(res: Resources, mb: nat)
    requires mb < U32_LIMIT
    ensures ReservationMB(Some(WithReservation(res, mb))) == mb
    ensures LimitMB(Some(WithReservation(res, mb))) == LimitMB(res)
    ensures CpuMask(Some(WithReservation(res, mb))) == CpuMask(res)
  {
  }

  /** The memory a client is created with: the limit, else the reservation, else the default. */
  function MaxMemMB(res: Resources): nat {
    if LimitMB(res) != 0 then LimitMB(res)
    else if ReservationMB(res) != 0 then ReservationMB(res)
    else DEFAULT_MIN_MEM_MB
  }

  /** The limit and the reservation are read from their own fields; the limit goes first. */
  lemma MemoryIs(limit: int, reservation: int, cpu: Option<LinuxCPU>, pages: seq<nat>)
    requires 0 <= limit < U32_LIMIT && 0 <= reservation < U32_LIMIT
    ensures var res := Some(LinuxResources(cpu, Some(LinuxMemory(Some(limit * 0x10_0000), Some(reservation * 0x10_0000))), pages));
      && LimitMB(res) == limit && ReservationMB(res) == reservation
      && MaxMemMB(res) == if limit > 0 then limit else if reservation > 0 then reservation else 16
  {
  }

  // ---------- the host filter ----------

  /** The listed CPUs the host has, in the order they are listed. */
  function Kept(list: seq<int>, physical: nat): (r: seq<int>)
    ensures |r| <= |list|
    ensures forall x :: x in r <==> x in list && x < physical
  {
    if list == [] then []
    else
      var n := |list| - 1;
      assert list == list[..n] + [list[n]];
      if list[n] < physical then Kept(list[..n], physical) + [list[n]] else Kept(list[..n], physical)
  }

  lemma {:induction false} KeptAll(list: seq<int>, physical: nat)
    ensures |Kept(list, physical)| == |list| <==> forall i | 0 <= i < |list| :: list[i] < physical
  {
    if list != [] {
      var n := |list| - 1;
      KeptAll(list[..n], physical);
      if list[n] < physical {
        assert forall i | 0 <= i < n :: list[..n][i] == list[i];
      }
    }
  }

  /** The cpuset text left for a list that was read from the text s. */
  function HostText(s: string, list: seq<int>, physical: nat): string {
    if |Kept(list, physical)| == |list| then s
    else if Kept(list, physical) == [] then ""
    else CpuArrText(Kept(list, physical))
  }

  ghost function HostVcpus(s: string, list: seq<int>, physical: nat): nat {
    if |Kept(list, physical)| == |list| then PlannedVcpus(s)
    else if Kept(list, physical) == [] then 1
    else U32(|Kept(list, physical)|)
  }

  method CpusetRangeValid(cpus: seq<int>, physical: nat) returns (valid: bool, outrange: seq<int>)
    ensures forall x :: x in outrange <==> x in cpus && x >= physical
    ensures valid <==> outrange == []
    ensures valid <==> forall x | x in cpus :: x < physical
  {
    outrange := [];
    var i := 0;
    while i < |cpus|
      invariant 0 <= i <= |cpus|
      invariant forall x :: x in outrange <==> x in cpus[..i] && x >= physical
    {
      assert cpus[..i + 1] == cpus[..i] + [cpus[i]];
      if cpus[i] >= physical {
        outrange := outrange + [cpus[i]];
      }
      i := i + 1;
    }
    assert cpus[..i] == cpus;
    assert outrange != [] ==> outrange[0] in outrange;
    valid := |outrange| == 0;
  }

  /** The two loops of ParseOCIResources: collect the bad CPUs, keep the others. */
  method DropOutOfRange(cpus: seq<int>, out: seq<int>, ghost physical: nat) returns (valid: seq<int>)
    requires forall x :: x in out <==> x in cpus && x >= physical
    ensures valid == Kept(cpus, physical)
  {
    var bad: set<int> := {};
    var i := 0;
    while i < |out|
      invariant 0 <= i <= |out| && bad == Elems(out[..i])
    {
      assert Elems(out[..i + 1]) == Elems(out[..i]) + {out[i]};
      bad := bad + {out[i]};
      i := i + 1;
    }
    assert out[..i] == out;
    valid := [];
    i := 0;
    while i < |cpus|
      invariant 0 <= i <= |cpus| && valid == Kept(cpus[..i], physical)
    {
      assert cpus[..i + 1][..i] == cpus[..i];
      if cpus[i] !in bad {
        valid := valid + [cpus[i]];
      }
      i := i + 1;
    }
    assert cpus[..i] == cpus;
  }

  // ---------- the configuration object ----------

  /** What a ContainerConfig holds at one moment. */
  datatype ConfigView = ConfigView(isInfra: bool, resources: Resources, vcpuNum: nat, pcpuNum: int, memoryThresholdMB: nat)

  class ContainerConfig {
    const id: string
    const isInfra: bool
    var resources: Resources
    var vcpuNum: nat
    var pcpuNum: int
    var memoryThresholdMB: nat

    constructor (id: string, isInfra: bool, resources: Resources)
      ensures this.id == id && View() == ConfigView(isInfra, resources, 0, 0, 0)
    {
      this.id := id;
      this.isInfra := isInfra;
      this.resources := resources;
      vcpuNum, pcpuNum, memoryThresholdMB := 0, 0, 0;
    }

    function View(): ConfigView
      reads this
    {
      ConfigView(isInfra, resources, vcpuNum, pcpuNum, memoryThresholdMB)
    }

    method EnsureResources()
      modifies this`resources
      ensures resources == Some(Ensured(old(resources)))
    {
      if resources.None? {
        resources := Some(NO_RESOURCES);
      }
    }

    method EnsureCPU()
      modifies this`resources
      ensures resources == Some(Ensured(old(resources)).(cpu := Some(EnsuredCPU(old(resources)))))
    {
      EnsureResources();
      if resources.value.cpu.None? {
        resources := Some(resources.value.(cpu := Some(NO_CPU)));
      }
    }

    method SetCpus(cpus: string)
      modifies this`resources
      ensures resources == Some(Ensured(old(resources)).(cpu := Some(EnsuredCPU(old(resources)).(cpus := cpus))))
    {
      EnsureCPU();
      resources := Some(resources.value.(cpu := Some(resources.value.cpu.value.(cpus := cpus))));
    }

    method SetMemoryReservationMB(mb: nat)
      modifies this`resources
      ensures resources == Some(WithReservation(old(resources), mb))
    {
      EnsureResources();
      if resources.value.memory.None? {
        resources := Some(resources.value.(memory := Some(NO_MEMORY)));
      }
      resources := Some(resources.value.(memory := Some(resources.value.memory.value.(reservation := Some(mb * MIB)))));
    }

    /** Takes the CPU and memory part of the specification over; CPUs the host does not have are dropped.
        finished is false when a parser does not return. */
    method ParseOCIResources(spec: Resources, physical: nat) returns (finished: bool)
      requires physical < U32_LIMIT
      requires spec.Some? && spec.value.cpu.Some? && spec.value.cpu.value.period.Some? ==>
                 spec.value.cpu.value.period.value < U64_LIMIT
      modifies this`resources, this`vcpuNum
      ensures isInfra ==> finished && unchanged(this)
      ensures !isInfra && spec.Some? && spec.value.cpu.Some? ==>
                (finished <==> !Meaning(spec.value.cpu.value.cpus).NeverReturns?)
      ensures !isInfra && finished && spec.Some? && spec.value.cpu.Some? ==>
                var cpu := spec.value.cpu.value;
                var read := ListMeaning(cpu.cpus);
                && resources.Some?
                && resources.value.cpu == Some(cpu.(cpus := if read.Parsed? then HostText(cpu.cpus, read.cpus, physical) else cpu.cpus))
                && vcpuNum == if read.Parsed? then HostVcpus(cpu.cpus, read.cpus, physical) else PlannedVcpus(cpu.cpus)
      ensures !isInfra && finished && spec.Some? && spec.value.memory.Some? ==>
                resources.Some? && resources.value.memory == spec.value.memory
      ensures !isInfra && finished && (spec.None? || spec.value.memory.None?) ==>
                EnsuredMemory(resources) == old(EnsuredMemory(resources))
      ensures !isInfra && finished && (spec.None? || spec.value.cpu.None?) ==>
                EnsuredCPU(resources) == old(EnsuredCPU(resources)) && vcpuNum == old(vcpuNum)
    {
      if isInfra {
        return true;
      }
      EnsureResources();
      var essentialRes;
      essentialRes, finished := LinuxResourceToEssential(spec);
      if !finished {
        return;
      }
      if spec.Some? && spec.value.cpu.Some? {
        resources := Some(resources.value.(cpu := spec.value.cpu));
        if essentialRes.vcpu > 0 {
          vcpuNum := essentialRes.vcpu;
        }
        if essentialRes.clientCpuSet != "" {
          SetCpus(essentialRes.clientCpuSet);
        }
        finished := KeepHostCpus(physical);
        ParsersFinish(spec.value.cpu.value.cpus);
        if !finished {
          return;
        }
      }
      if spec.Some? && spec.value.memory.Some? {
        resources := Some(resources.value.(memory := spec.value.memory));
      }
    }

    /** The cpuset filter of ParseOCIResources. */
    method KeepHostCpus(physical: nat) returns (finished: bool)
      requires resources.Some? && resources.value.cpu.Some?
      requires vcpuNum == PlannedVcpus(CpuMask(resources))
      modifies this`resources, this`vcpuNum
      ensures finished <==> !ListMeaning(old(CpuMask(resources))).NeverReturns?
      ensures finished ==>
                var s := old(CpuMask(resources));
                var read := ListMeaning(s);
                && resources == Some(old(resources).value.(cpu := Some(old(EnsuredCPU(resources)).(cpus :=
                     if read.Parsed? then HostText(s, read.cpus, physical) else s))))
                && vcpuNum == if read.Parsed? then HostVcpus(s, read.cpus, physical) else old(vcpuNum)
    {
      var s := resources.value.cpu.value.cpus;
      if s == "" {
        return true;
      }
      var cpus, err := ParseCPUString(s);
      if err.Stuck? {
        return false;
      }
      if err.NoError? {
        var text, vcpus := HostCpus(s, vcpuNum, cpus, physical);
        SetCpus(text);
        vcpuNum := vcpus;
      }
      return true;
    }

    /** What the filter leaves of a parsed cpuset. */
    static method HostCpus(s: string, planned: nat, cpus: seq<int>, physical: nat) returns (text: string, vcpus: nat)
      requires planned == PlannedVcpus(s)
      ensures text == HostText(s, cpus, physical) && vcpus == HostVcpus(s, cpus, physical)
    {
      var ok, out := CpusetRangeValid(cpus, physical);
      KeptAll(cpus, physical);
      if ok {
        assert forall i | 0 <= i < |cpus| :: cpus[i] in cpus && cpus[i] !in out;
        return s, planned;
      }
      assert out[0] in out;
      var valid := DropOutOfRange(cpus, out, physical);
      if |valid| > 0 {
        text := ParseCPUArr(valid);
        vcpus := U32(|valid|);
      } else {
        text := "";
        vcpus := 1;
      }
    }

    /** Runtime defaults for the memory settings. minContainerMemMB is the runtime configuration's value. */
    method ApplyContainerRuntimeDefaults(minContainerMemMB: nat)
      requires minContainerMemMB < U32_LIMIT
      modifies this`resources, this`memoryThresholdMB
      ensures LimitMB(resources) == old(LimitMB(resources))
      ensures ReservationMB(resources) == DefaultedReservation(old(resources), minContainerMemMB)
      ensures var r, limit := old(ReservationMB(resources)), old(LimitMB(resources));
        r > 0 && (limit == 0 || r <= limit) ==> ReservationMB(resources) == r
      ensures memoryThresholdMB == ThresholdFor(MaxMemMB(resources))
      ensures CpuMask(resources) == old(CpuMask(resources))
    {
      ReservationIs(resources, minContainerMemMB);
      if ReservationMB(resources) == 0 {
        var mb := if minContainerMemMB > 0 then minContainerMemMB else DEFAULT_MIN_MEM_MB;
        ReservationSet(resources, mb);
        SetMemoryReservationMB(mb);
      }
      var limit := LimitMB(resources);
      if limit > 0 {
        if ReservationMB(resources) > limit {
          ReservationSet(resources, limit);
          SetMemoryReservationMB(limit);
        }
      }
      memoryThresholdMB := CalculateClientMemThreshold(resources, minContainerMemMB);
      ThresholdOfBase(resources, minContainerMemMB);
    }
  }

  /** The two parsers stop on the same texts once blank groups are out of the way. */
  lemma ParsersFinish(s: string)
    ensures ListMeaning(s).NeverReturns? ==> Meaning(s).NeverReturns?
  {
    if ListMeaning(s).NeverReturns? {
      ListFromMeaning(GroupsOf(Split(s, ',')), []);
      NeverMalformed(GroupsOf(Split(s, ',')), {});
      assert Elems([]) == {};
    }
  }

  /** For any cpuset the second parser accepts, the text that is left denotes exactly the CPUs
      the host has, and is empty with one vCPU when there are none. */
  lemma HostFilter(s: string, physical: nat)
    requires ListMeaning(s).Parsed? && physical < U32_LIMIT
    ensures var list := ListMeaning(s).cpus;
      && Meaning(HostText(s, list, physical)) == Parsed(Elems(Kept(list, physical)))
      && (Kept(list, physical) == [] ==> HostText(s, list, physical) == "" && HostVcpus(s, list, physical) == 1)
      && ((forall x | x in list :: x < physical) ==> HostText(s, list, physical) == s)
  {
    var list := ListMeaning(s).cpus;
    NoneDropped(list, physical);
    var kept := Kept(list, physical);
    ParsersAgree(s);
    if |kept| == |list| {
      AllKept(list, physical);
      if s != "" {
        ListedNonEmpty(s);
      }
    } else if kept == [] {
      assert Elems(kept) == {};
    } else {
      assert forall x | x in Elems(kept) :: x in list;
      CpuArrTextParses(kept);
    }
  }

  lemma NoneDropped(list: seq<int>, physical: nat)
    ensures (forall x | x in list :: x < physical) <==> |Kept(list, physical)| == |list|
  {
    KeptAll(list, physical);
    assert forall i | 0 <= i < |list| :: list[i] in list;
  }

  lemma ListedNonEmpty(s: string)
    requires ListMeaning(s).Parsed? && s != ""
    ensures ListMeaning(s).cpus != []
  {
    ParsersAgree(s);
    var gs := GroupsOf(Split(s, ','));
    CollectMeaning(gs, {});
    UnionOfMember(gs, if gs[0].Single? then gs[0].cpu else if gs[0].Span? then gs[0].lo else 0);
    GroupNonEmpty(Split(s, ',')[0]);
    assert !gs[0].Blank? && !gs[0].Bad?;
    assert Elems([]) == {};
  }

  lemma GroupNonEmpty(part: string)
    ensures ReadGroup(part).Span? ==> ReadGroup(part).lo <= ReadGroup(part).hi
  {
    GroupRead(part);
  }

  /** The vCPU count is the size of the filtered cpuset exactly when nothing was dropped
      or no CPU that is left was listed twice. */
  lemma HostVcpuCount(s: string, list: seq<int>, physical: nat)
    requires ListMeaning(s) == Parsed(list) && physical < U32_LIMIT && |list| < U32_LIMIT
    requires Kept(list, physical) != []
    ensures var kept := Kept(list, physical);
      HostVcpus(s, list, physical) == |Elems(kept)| <==> |kept| == |list| || |kept| == |Elems(kept)|
  {
    ParsersAgree(s);
    UniqueFewer(list);
    PlannedIsSize(s, list);
    VcpuCount(PlannedVcpus(s), list, physical);
  }

  lemma VcpuCount(planned: nat, list: seq<int>, physical: nat)
    requires planned == |Elems(list)| && (forall x | x in list :: 0 <= x) && |list| < U32_LIMIT
    ensures var kept := Kept(list, physical);
      (if |kept| == |list| then planned else U32(|kept|)) == |Elems(kept)| <==> |kept| == |list| || |kept| == |Elems(kept)|
  {
    KeptAll(list, physical);
    if |Kept(list, physical)| == |list| {
      AllKept(list, physical);
    } else {
      U32Small(|Kept(list, physical)|);
    }
  }

  lemma {:induction false} UniqueFewer(list: seq<int>)
    ensures |Elems(list)| <= |list|
  {
    if list != [] {
      var n := |list| - 1;
      UniqueFewer(list[..n]);
      TakeLast(list);
      ElemsSnoc(list[..n], list[n]);
    }
  }

  lemma AllKept(list: seq<int>, physical: nat)
    requires |Kept(list, physical)| == |list|
    ensures Elems(Kept(list, physical)) == Elems(list) && forall x | x in list :: x < physical
  {
    KeptAll(list, physical);
  }

  lemma PlannedIsSize(s: string, list: seq<int>)
    requires Meaning(s) == Parsed(Elems(list)) && list != [] && |Elems(list)| < U32_LIMIT
    ensures PlannedVcpus(s) == |Elems(list)|
  {
    assert list[0] in Elems(list);
    SomeSize(Elems(list), list[0]);
    if s != "" {
      U32Small(|Elems(list)|);
    }
  }

  lemma SomeSize(S: set<int>, x: int)
    requires x in S
    ensures |S| > 0
  {
  }

  // ---------- the memory settings ----------

  const MAX_U32: nat := 0xFFFF_FFFF

  function ThresholdFor(base: nat): nat {
    if base > MAX_U32 / 2 then MAX_U32 - 1 else base * 2
  }

  function CalculateClientMemThreshold(res: Resources, minContainerMemMB: nat): nat {
    var m0 := LimitMB(res);
    var m1 := if m0 == 0 then ReservationMB(res) else m0;
    var m2 := if m1 == 0 && minContainerMemMB > 0 then minContainerMemMB else m1;
    var maxMem := if m2 == 0 then DEFAULT_MIN_MEM_MB else m2;
    if maxMem > MAX_U32 / 2 then MAX_U32 - 1
    else
      var doubled := U32(maxMem * 2);
      if doubled == 0 then DEFAULT_MIN_MEM_MB * 2 else doubled
  }

  lemma ThresholdOfBase(res: Resources, minContainerMemMB: nat)
    requires LimitMB(res) > 0 || ReservationMB(res) > 0
    ensures CalculateClientMemThreshold(res, minContainerMemMB) == ThresholdFor(MaxMemMB(res))
  {
  }

  /** Twice the base, up to the largest even uint32. */
  lemma ThresholdIs(base: nat)
    ensures ThresholdFor(base) == Min(2 * base, 0xFFFF_FFFE)
  {
  }

  /** A configured reservation is kept, a missing one is the runtime's minimum or else 16; either is cut to the limit. */
  lemma ReservationIs(res: Resources, minContainerMemMB: nat)
    ensures var r := DefaultedReservation(res, minContainerMemMB); var limit := LimitMB(res);
      && (ReservationMB(res) > 0 && (limit == 0 || ReservationMB(res) <= limit) ==> r == ReservationMB(res))
      && (ReservationMB(res) > 0 && 0 < limit < ReservationMB(res) ==> r == limit)
      && (ReservationMB(res) == 0 && limit == 0 ==> r == if minContainerMemMB > 0 then minContainerMemMB else 16)
      && (ReservationMB(res) == 0 && limit > 0 ==> r == Min(if minContainerMemMB > 0 then minContainerMemMB else 16, limit))
  {
  }

  function DefaultedReservation(res: Resources, minContainerMemMB: nat): nat {
    var wanted := if ReservationMB(res) != 0 then ReservationMB(res)
                  else if minContainerMemMB > 0 then minContainerMemMB
                  else DEFAULT_MIN_MEM_MB;
    if LimitMB(res) > 0 then Min(wanted, LimitMB(res)) else wanted
  }
}
