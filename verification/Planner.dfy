/** pkg/pedestal/planner.go and pkg/utils/resource_utils.go: CPU capacity and vCPU arithmetic. */
module Planner {
  import opened Wrappers
  import opened Defs
  import opened Ints
  import opened Text
  import opened CpuList
  import opened CpuSets
  import opened OciSpecs

  const DEFAULT_VCPUS: nat := 1

  datatype EssentialResource = EssentialResource(cpuCapacity: nat, clientCpuSet: string, vcpu: nat, memoryMaxMB: nat)

  const INIT_RESOURCE: EssentialResource := EssentialResource(0, "", DEFAULT_VCPUS, DEFAULT_MIN_MEM_MB)

  /** The vCPU count a cpuset asks for: its size, or 0 when it asks for none. */
  ghost function CpusetVcpus(s: string): nat {
    match Meaning(s)
    case Parsed(c) => if s != "" then U32(|c|) else 0
    case _ => 0
  }

  ghost function PlannedVcpus(s: string): nat {
    if CpusetVcpus(s) > 0 then CpusetVcpus(s) else DEFAULT_VCPUS
  }

  /** Hundredths of a CPU that a quota grants in a period, in Go's int64 and uint32 arithmetic. */
  function QuotaCapacity(quota: int, period: nat): nat
    requires S64(period) != 0
  {
    U32(Quot(S64(quota * 100), S64(period)))
  }

  predicate QuotaGiven(cpu: LinuxCPU) {
    cpu.quota.Some? && cpu.quota.value > 0 && cpu.period.Some? && 0 < cpu.period.value < U64_LIMIT
  }

  function RawCapacity(cpu: LinuxCPU): nat
    requires QuotaGiven(cpu)
  {
    PeriodNotZero(cpu.period.value);
    QuotaCapacity(cpu.quota.value, cpu.period.value)
  }

  method ValidateCPUSet(s: string) returns (validSet: string, vcpus: nat, finished: bool)
    ensures finished <==> !Meaning(s).NeverReturns?
    ensures finished ==> vcpus == CpusetVcpus(s) && validSet == if Meaning(s).Parsed? then s else ""
  {
    var cpuSet, err := CPUSet.Parse(s);
    if err.Stuck? {
      return "", 0, false;
    }
    if !err.NoError? {
      return "", 0, true;
    }
    var size := cpuSet.Size();
    return s, U32(size), true;
  }

  /** What a cpuset of that many CPUs leaves of a capacity. */
  function Capped(raw: nat, vcpus: nat): nat {
    if raw > 0 && vcpus > 0 then Min(raw, U32(vcpus * 100)) else raw
  }

  method CapByCpuset(raw: nat, vcpuNum: nat) returns (capacity: nat)
    ensures capacity == Capped(raw, vcpuNum)
  {
    capacity := 0;
    if raw > 0 {
      capacity := raw;
      if vcpuNum > 0 {
        var maxByCpuset := U32(vcpuNum * 100);
        if raw > maxByCpuset {
          capacity := maxByCpuset;
        }
      }
    }
  }

  lemma PeriodNotZero(period: nat)
    requires 0 < period < U64_LIMIT
    ensures S64(period) != 0
  {
  }

  /** The capacity part of linuxResourceToEssential; 0 is what the plan starts with. */
  method PlanCapacity(cpu: LinuxCPU, vcpuNum: nat) returns (capacity: nat)
    requires cpu.period.Some? ==> cpu.period.value < U64_LIMIT
    requires vcpuNum == CpusetVcpus(cpu.cpus)
    ensures capacity == PlannedCapacity(cpu)
  {
    if QuotaGiven(cpu) {
      var rawCapacity := RawCapacity(cpu);
      capacity := CapByCpuset(rawCapacity, vcpuNum);
    } else {
      capacity := CpusetCapacity(vcpuNum);
    }
  }

  method CpusetCapacity(vcpuNum: nat) returns (capacity: nat)
    ensures capacity == U32(vcpuNum * 100)
  {
    capacity := 0;
    if vcpuNum > 0 {
      capacity := U32(vcpuNum * 100);
    }
  }

  method LinuxResourceToEssential(spec: Option<LinuxResources>) returns (res: EssentialResource, finished: bool)
    requires spec.Some? && spec.value.cpu.Some? && spec.value.cpu.value.period.Some? ==>
               spec.value.cpu.value.period.value < U64_LIMIT
    ensures finished <==> spec.None? || spec.value.cpu.None? || !Meaning(spec.value.cpu.value.cpus).NeverReturns?
    ensures finished && spec.Some? && spec.value.cpu.Some? ==>
              var cpu := spec.value.cpu.value;
              && res.vcpu == PlannedVcpus(cpu.cpus)
              && res.clientCpuSet == (if CpusetVcpus(cpu.cpus) > 0 then cpu.cpus else "")
              && res.cpuCapacity == PlannedCapacity(cpu)
    ensures finished && (spec.None? || spec.value.cpu.None?) ==>
              res.vcpu == DEFAULT_VCPUS && res.clientCpuSet == "" && res.cpuCapacity == 0
    ensures finished ==> res.memoryMaxMB == PlannedMemory(spec)
  {
    res := INIT_RESOURCE;
    if spec.None? {
      return res, true;
    }
    if spec.value.cpu.Some? {
      var cpu := spec.value.cpu.value;
      var vcpuNum := 0;
      var cpus, cpuSetVCpuNum;
      cpus, cpuSetVCpuNum, finished := ValidateCPUSet(cpu.cpus);
      if !finished {
        return;
      }
      if cpus != "" && cpuSetVCpuNum > 0 {
        res := res.(clientCpuSet := cpus);
        vcpuNum := cpuSetVCpuNum;
      }
      if vcpuNum > 0 {
        res := res.(vcpu := vcpuNum);
      }
      var capacity := PlanCapacity(cpu, vcpuNum);
      res := res.(cpuCapacity := capacity);
    }
    if spec.value.memory.Some? {
      var limit := spec.value.memory.value.limit;
      if limit.Some? && limit.value > 0 {
        res := res.(memoryMaxMB := U32(limit.value / MIB));
      }
    }
    return res, true;
  }

  /** The limit in whole MiB, or 16 without a positive one. */
  lemma PlannedMemoryIs(spec: Option<LinuxResources>)
    ensures var memory := if spec.Some? then spec.value.memory else None;
      var limit := if memory.Some? then memory.value.limit else None;
      && (limit.None? || limit.value <= 0 ==> PlannedMemory(spec) == 16)
      && (limit.Some? && 0 < limit.value < 0x10_0000 * U32_LIMIT ==>
            0x10_0000 * PlannedMemory(spec) <= limit.value < 0x10_0000 * (PlannedMemory(spec) + 1))
  {
  }

  /** The number of CPUs of a readable, non-empty cpuset; else one. */
  lemma PlannedVcpusIs(s: string)
    ensures var n := if Meaning(s).Parsed? then |Meaning(s).cpus| else 0;
      n < U32_LIMIT ==> PlannedVcpus(s) == if n > 0 then n else 1
  {
    if Meaning(s).Parsed? && |Meaning(s).cpus| < U32_LIMIT {
      U32Small(|Meaning(s).cpus|);
    }
  }

  ghost function PlannedMemory(spec: Option<LinuxResources>): nat {
    match spec
    case Some(LinuxResources(_, Some(LinuxMemory(Some(limit), _)), _)) =>
      if limit > 0 then U32(limit / MIB) else DEFAULT_MIN_MEM_MB
    case _ => DEFAULT_MIN_MEM_MB
  }

  /** The capacity the planner settles on. */
  ghost function PlannedCapacity(cpu: LinuxCPU): nat {
    var vcpus := CpusetVcpus(cpu.cpus);
    if QuotaGiven(cpu) then
      Capped(RawCapacity(cpu), vcpus)
    else U32(vcpus * 100)
  }

  /** ContainerConfig.cpuCapacity: the same quota, without the cpuset. */
  function ConfiguredCapacity(cpu: LinuxCPU): nat {
    if cpu.quota.None? || cpu.period.None? || cpu.period.value % U64_LIMIT == 0 || cpu.quota.value <= 0 then 0
    else
      var capacity := Quot(S64(cpu.quota.value * 100), S64(cpu.period.value));
      if capacity <= 0 then 0 else U32(capacity)
  }

  /** Quota and cpuset small enough that no conversion wraps. */
  ghost predicate NoOverflow(cpu: LinuxCPU) {
    && (cpu.quota.Some? ==> cpu.quota.value * 100 <= MAX_INT)
    && (cpu.period.Some? ==> cpu.period.value <= MAX_INT)
    && (QuotaGiven(cpu) ==> cpu.quota.value * 100 / cpu.period.value < U32_LIMIT)
    && (Meaning(cpu.cpus).Parsed? ==> |Meaning(cpu.cpus).cpus| * 100 < U32_LIMIT)
  }

  ghost function CpusetSize(s: string): nat {
    if Meaning(s).Parsed? then |Meaning(s).cpus| else 0
  }

  /** The planned capacity is the tighter of the quota's and the cpuset's. */
  lemma PlannedIsTighter(cpu: LinuxCPU)
    requires NoOverflow(cpu) && !Meaning(cpu.cpus).NeverReturns?
    ensures var n := CpusetSize(cpu.cpus);
      var given := cpu.quota.Some? && cpu.quota.value > 0 && cpu.period.Some? && cpu.period.value > 0;
      if !given then PlannedCapacity(cpu) == 100 * n
      else if 100 * cpu.quota.value < cpu.period.value then PlannedCapacity(cpu) == 0
      else
        && ConfiguredCapacity(cpu) == 100 * cpu.quota.value / cpu.period.value
        && PlannedCapacity(cpu) == if n > 0 then Min(ConfiguredCapacity(cpu), 100 * n) else ConfiguredCapacity(cpu)
  {
    CpusetPlain(cpu.cpus);
    if QuotaGiven(cpu) {
      QuotaPlain(cpu.quota.value, cpu.period.value);
      DivPositive(100 * cpu.quota.value, cpu.period.value);
    }
  }

  lemma CpusetPlain(s: string)
    requires !Meaning(s).NeverReturns? && CpusetSize(s) * 100 < U32_LIMIT
    ensures CpusetVcpus(s) == CpusetSize(s) && U32(CpusetVcpus(s) * 100) == 100 * CpusetSize(s)
  {
  }

  lemma QuotaPlain(quota: int, period: nat)
    requires 0 < quota && quota * 100 <= MAX_INT && 0 < period <= MAX_INT
    requires quota * 100 / period < U32_LIMIT
    ensures S64(period) == period && period % U64_LIMIT == period
    ensures Quot(S64(quota * 100), S64(period)) == 100 * quota / period == QuotaCapacity(quota, period)
  {
    S64Plain(quota * 100);
    S64Plain(period);
    QuotOfNats(quota * 100, period);
  }

  lemma S64Plain(n: nat)
    requires n <= MAX_INT
    ensures S64(n) == n && n % U64_LIMIT == n
  {
  }

  lemma QuotOfNats(a: nat, b: nat)
    requires b > 0
    ensures Quot(a, b) == a / b
  {
  }

  lemma DivPositive(a: nat, b: nat)
    requires b > 0
    ensures a / b > 0 <==> a >= b
  {
  }

  // ---------- milli-CPUs ----------

  function CalculateMilliCPUs(quota: int, period: nat): nat {
    if quota >= 0 && period != 0 then U32(U64(quota * 1000) / period) else 0
  }

  function CalculateVCpusFromMilliCpus(mCPU: nat): nat {
    U32(mCPU + 999) / 1000
  }

  function QuotaVcpus(quota: int, period: nat): nat {
    CalculateVCpusFromMilliCpus(CalculateMilliCPUs(quota, period))
  }

  /** No vCPUs for a quota that is negative. */
  lemma NegativeQuota(quota: int, period: nat)
    requires quota < 0
    ensures CalculateMilliCPUs(quota, period) == QuotaVcpus(quota, period) == 0
  {
  }

  predicate MilliFits(quota: nat, period: nat)
    requires period > 0
  {
    quota * 1000 < U64_LIMIT && quota * 1000 / period + 999 < U32_LIMIT
  }

  function CeilDiv(a: nat, b: nat): nat
    requires b > 0
  {
    if a % b == 0 then a / b else a / b + 1
  }

  lemma MilliPlain(q: nat, p: nat)
    requires p > 0 && MilliFits(q, p)
    ensures QuotaVcpus(q, p) == (q * 1000 / p + 999) / 1000
  {
    var m := q * 1000 / p;
    assert U64(q * 1000) == q * 1000;
    assert m >= 0 && U32(m) == m && U32(m + 999) == m + 999;
  }

  /** Milli-CPU rounding brackets the exact quotient, and misses its ceiling
      exactly when the part over the last whole CPU is less than one thousandth. */
  lemma MilliCpuBracket(q: nat, p: nat)
    requires p > 0 && MilliFits(q, p)
    ensures q / p <= QuotaVcpus(q, p) <= CeilDiv(q, p)
    ensures QuotaVcpus(q, p) == CeilDiv(q, p) <==> !(0 < 1000 * (q % p) < p)
  {
    MilliPlain(q, p);
    DivNat(q, p);
    Scale(q, p);
    DivPositive(1000 * (q % p), p);
    RoundUp(q / p, 1000 * (q % p) / p);
    Bracket(q / p, q % p, 1000 * (q % p) / p, p);
  }

  lemma Bracket(a: nat, r: nat, f: nat, p: nat)
    requires p > 0 && (f > 0 <==> 1000 * r >= p)
    ensures var v, c := if f == 0 then a else a + 1, if r == 0 then a else a + 1;
      a <= v <= c && (v == c <==> !(0 < 1000 * r < p))
  {
  }

  lemma DivNat(a: nat, b: nat)
    requires b > 0
    ensures a / b >= 0 && 0 <= a % b < b
  {
  }

  lemma RoundUp(a: nat, f: nat)
    requires f < 1000
    ensures (1000 * a + f + 999) / 1000 == if f == 0 then a else a + 1
  {
  }

  lemma Scale(q: nat, p: nat)
    requires p > 0
    ensures q * 1000 / p == 1000 * (q / p) + 1000 * (q % p) / p
    ensures 0 <= 1000 * (q % p) / p < 1000
  {
    var a, r := q / p, q % p;
    var f, g := 1000 * r / p, 1000 * r % p;
    ScaleProduct(q, p, a, r, f, g);
    DivUnique(q * 1000, p, 1000 * a + f, g);
    Below(1000 * r, p, 1000);
  }

  lemma ScaleProduct(q: nat, p: nat, a: nat, r: nat, f: nat, g: nat)
    requires q == a * p + r && 1000 * r == f * p + g
    ensures q * 1000 == (1000 * a + f) * p + g
  {
    Distribute(1000 * a, f, p);
    Associate(1000, a, p);
  }

  lemma Associate(x: int, y: int, p: int)
    ensures (x * y) * p == x * (y * p)
  {
  }

  lemma MulMonotone(x: int, y: int, p: nat)
    requires x <= y
    ensures x * p <= y * p
  {
  }

  lemma Below(n: nat, p: nat, k: nat)
    requires p > 0 && n < k * p
    ensures n / p < k
  {
    var d := n / p;
    if d >= k {
      MulMonotone(k, d, p);
    }
  }

  lemma DivUnique(n: nat, p: nat, k: nat, g: nat)
    requires p > 0 && n == k * p + g && g < p
    ensures n / p == k
  {
    var d := n / p;
    assert (k + 1) * p == k * p + p && (d + 1) * p == d * p + p;
    if d > k {
      MulMonotone(k + 1, d, p);
    } else if d < k {
      MulMonotone(d + 1, k, p);
    }
  }

  /** A larger quota never yields fewer vCPUs. */
  lemma MilliCpuMonotone(q: nat, q': nat, p: nat)
    requires p > 0 && q <= q' && MilliFits(q, p) && MilliFits(q', p)
    ensures QuotaVcpus(q, p) <= QuotaVcpus(q', p)
  {
    MilliPlain(q, p);
    MilliPlain(q', p);
    DivMonotone(q * 1000, q' * 1000, p);
    DivMonotone(q * 1000 / p + 999, q' * 1000 / p + 999, 1000);
  }

  lemma DivMonotone(a: nat, b: nat, p: nat)
    requires p > 0 && a <= b
    ensures a / p <= b / p
  {
    var d, e := a / p, b / p;
    assert (e + 1) * p == e * p + p;
    if d > e {
      MulMonotone(e + 1, d, p);
    }
  }
}
