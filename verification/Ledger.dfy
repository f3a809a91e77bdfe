/** What each configuration contributes to the sandbox totals (pkg/micantainer/utils.go). */
module Ledger {
  import opened Wrappers
  import opened Ints
  import opened CpuList
  import opened CpuSets
  import opened OciSpecs
  import opened Planner
  import opened Configs
  import opened Pinning
  import opened Sums

  // ---------- vCPUs ----------

  function QuotaShare(cpu: LinuxCPU): nat {
    if cpu.period.Some? && cpu.quota.Some? && cpu.period.value != 0 then QuotaVcpus(cpu.quota.value, cpu.period.value) else 0
  }

  /** Does counting this configuration fall back on its cpuset? */
  predicate ByCpuset(v: ConfigView) {
    v.vcpuNum == 0 && v.resources.Some? && v.resources.value.cpu.Some?
    && QuotaShare(v.resources.value.cpu.value) == 0 && CpuMask(v.resources) != ""
  }

  /** The configured count, else the quota's, else the cpuset's, else one. */
  ghost function VcpuShare(v: ConfigView): nat {
    if v.vcpuNum > 0 then v.vcpuNum
    else if v.resources.Some? && v.resources.value.cpu.Some? && QuotaShare(v.resources.value.cpu.value) > 0 then
      QuotaShare(v.resources.value.cpu.value)
    else if ByCpuset(v) && Meaning(CpuMask(v.resources)).Parsed? then U32(|Meaning(CpuMask(v.resources)).cpus|)
    else 1
  }

  /** Counting it returns: a cpuset the parser gets stuck on is the one exception. */
  ghost predicate Countable(v: ConfigView) {
    ByCpuset(v) ==> !Meaning(CpuMask(v.resources)).NeverReturns?
  }

  ghost function VcpuWeight(v: ConfigView, live: bool): nat {
    if live && !v.isInfra then VcpuShare(v) else 0
  }

  ghost function VcpuWeights(vs: Views, live: set<string>): map<string, int> {
    map k | k in vs :: VcpuWeight(vs[k], k in live)
  }

  ghost predicate AllCountable(vs: Views, live: set<string>) {
    forall k | k in vs && k in live && !vs[k].isInfra :: Countable(vs[k])
  }

  lemma CountableStep(vs: Views, live: set<string>, left: set<string>, k: string)
    requires k in vs && k in left
    ensures AllCountable(vs, live - (left - {k}))
       <==> AllCountable(vs, live - left) && (vs[k].isInfra || k !in live || Countable(vs[k]))
  {
    assert live - left <= live - (left - {k});
  }

  /** A quota that gives no vCPUs: missing, negative or less than a thousandth of its period. */
  predicate NoQuota(v: ConfigView) {
    var cpu := EnsuredCPU(v.resources);
    cpu.quota.None? || cpu.period.None? || cpu.period.value == 0 || cpu.quota.value * 1000 < cpu.period.value
  }

  /** Quota and period small enough for Go's conversions. */
  predicate QuotaFits(v: ConfigView) {
    var cpu := EnsuredCPU(v.resources);
    cpu.quota.Some? && cpu.quota.value >= 0 && cpu.period.Some? && cpu.period.value > 0 ==>
      MilliFits(cpu.quota.value, cpu.period.value)
  }

  /** The configured number when there is one; else the quota's vCPUs, between the quotient and its ceiling; else the
      number of CPUs listed, if the list can be read; else one. */
  lemma VcpuShareIs(v: ConfigView)
    requires QuotaFits(v)
    ensures v.vcpuNum > 0 ==> VcpuShare(v) == v.vcpuNum
    ensures v.vcpuNum == 0 && !NoQuota(v) ==>
              var cpu := EnsuredCPU(v.resources);
              cpu.quota.value / cpu.period.value <= VcpuShare(v) <= CeilDiv(cpu.quota.value, cpu.period.value)
    ensures v.vcpuNum == 0 && NoQuota(v) ==>
              var text := CpuMask(v.resources);
              VcpuShare(v) == if text != "" && Meaning(text).Parsed? then U32(|Meaning(text).cpus|) else 1
  {
    var cpu := EnsuredCPU(v.resources);
    if cpu.quota.Some? && cpu.period.Some? && cpu.period.value != 0 {
      if cpu.quota.value >= 0 {
        QuotaShareIs(cpu.quota.value, cpu.period.value);
      } else {
        NegativeQuota(cpu.quota.value, cpu.period.value);
      }
    }
  }

  lemma QuotaShareIs(q: nat, p: nat)
    requires p > 0 && MilliFits(q, p)
    ensures q / p <= QuotaVcpus(q, p) <= CeilDiv(q, p)
    ensures QuotaVcpus(q, p) > 0 <==> q * 1000 >= p
  {
    MilliCpuBracket(q, p);
    MilliPlain(q, p);
    ThousandUp(q * 1000, p, QuotaVcpus(q, p));
  }

  lemma ThousandUp(a: nat, p: nat, v: nat)
    requires p > 0 && v == (a / p + 999) / 1000
    ensures v > 0 <==> a >= p
  {
    DivPositive(a, p);
    Thousands(a / p);
  }

  lemma Thousands(m: nat)
    ensures (m + 999) / 1000 > 0 <==> m > 0
  {
  }

  method CountVcpus(v: ConfigView) returns (share: nat, finished: bool)
    ensures finished <==> Countable(v)
    ensures finished ==> share == VcpuShare(v)
    ensures finished && v.vcpuNum > 0 ==> share == v.vcpuNum
    ensures finished && QuotaFits(v) && v.vcpuNum == 0 && !NoQuota(v) ==>
              var cpu := EnsuredCPU(v.resources);
              cpu.quota.value / cpu.period.value <= share <= CeilDiv(cpu.quota.value, cpu.period.value)
    ensures finished && QuotaFits(v) && v.vcpuNum == 0 && NoQuota(v) ==>
              var text := CpuMask(v.resources);
              share == if text != "" && Meaning(text).Parsed? then U32(|Meaning(text).cpus|) else 1
  {
    if QuotaFits(v) {
      VcpuShareIs(v);
    }
    if v.vcpuNum > 0 {
      return v.vcpuNum, true;
    }
    if v.resources.Some? && v.resources.value.cpu.Some? {
      var cpu := v.resources.value.cpu.value;
      if cpu.period.Some? && cpu.quota.Some? && cpu.period.value != 0 {
        var m := CalculateMilliCPUs(cpu.quota.value, cpu.period.value);
        var n := CalculateVCpusFromMilliCpus(m);
        if n > 0 {
          return n, true;
        }
      }
      if cpu.cpus != "" {
        var cpuSet, err := CPUSet.Parse(cpu.cpus);
        if err.Stuck? {
          return 0, false;
        }
        if err.NoError? {
          var size := cpuSet.Size();
          return U32(size), true;
        }
      }
    }
    return 1, true;
  }

  /** With configured numbers everywhere the total is their sum. */
  lemma TotalOfNumbers(vs: Views, live: set<string>, mini: nat)
    requires forall k | k in vs && k in live && !vs[k].isInfra :: vs[k].vcpuNum > 0
    ensures VcpuTotal(vs, live, mini)
         == U32(Sum(map k | k in vs :: if k in live && !vs[k].isInfra then vs[k].vcpuNum else 0) + mini)
  {
    var m: map<string, int> := map k | k in vs :: if k in live && !vs[k].isInfra then vs[k].vcpuNum else 0;
    assert VcpuWeights(vs, live) == m;
  }

  /** Configurations that all have the same number of vCPUs contribute their count times that number. counted is what
      counts, owned what has been given n vCPUs each. */
  lemma OwnedSum(vs: Views, live: set<string>, counted: set<string>, owned: set<string>, n: nat)
    requires counted <= vs.Keys && forall k | k in vs :: k in counted <==> k in live && !vs[k].isInfra
    requires forall k | k in counted && k in owned :: vs[k].vcpuNum == n > 0
    ensures var weights := VcpuWeights(vs, live);
      && Sum(weights) == |counted * owned| * n + Sum(weights - counted * owned)
      && (counted <= owned ==> Sum(weights) == |counted| * n)
  {
    var weights := VcpuWeights(vs, live);
    SumSame(weights, counted * owned, n);
    if counted <= owned {
      assert counted * owned == counted;
      SumZero(weights - counted);
    }
  }

  // ---------- memory ----------

  function PagesMiB(pages: seq<nat>): nat {
    if pages == [] then 0 else PagesMiB(pages[..|pages| - 1]) + pages[|pages| - 1] / MIB
  }

  function PagesBytes(pages: seq<nat>): nat {
    if pages == [] then 0 else PagesBytes(pages[..|pages| - 1]) + pages[|pages| - 1]
  }

  predicate HasMemory(v: ConfigView) {
    v.resources.Some? && v.resources.value.memory.Some?
  }

  function LimitBytes(v: ConfigView): nat {
    if HasMemory(v) && EnsuredMemory(v.resources).limit.Some? && EnsuredMemory(v.resources).limit.value > 0
    then EnsuredMemory(v.resources).limit.value else 0
  }

  function Pages(v: ConfigView, huge: bool): seq<nat> {
    if HasMemory(v) && huge then v.resources.value.hugepages else []
  }

  /** The counted MiB of a configuration. */
  function MemShare(v: ConfigView, huge: bool): nat {
    LimitBytes(v) / MIB + PagesMiB(Pages(v, huge))
  }

  /** The bytes its limits ask for, and how many limits there are. */
  function MemBytes(v: ConfigView, huge: bool): nat {
    LimitBytes(v) + PagesBytes(Pages(v, huge))
  }

  function MemLimits(v: ConfigView, huge: bool): nat {
    (if LimitBytes(v) > 0 then 1 else 0) + |Pages(v, huge)|
  }

  ghost function MemWeight(v: ConfigView, live: bool, huge: bool): nat {
    if live && !v.isInfra then MemShare(v, huge) else 0
  }

  ghost function MemWeights(vs: Views, live: set<string>, huge: bool): map<string, int> {
    map k | k in vs :: MemWeight(vs[k], k in live, huge)
  }

  ghost function BytesWeights(vs: Views, live: set<string>, huge: bool): map<string, int> {
    map k | k in vs :: if k in live && !vs[k].isInfra then MemBytes(vs[k], huge) else 0
  }

  ghost function LimitCounts(vs: Views, live: set<string>, huge: bool): map<string, int> {
    map k | k in vs :: if k in live && !vs[k].isInfra then MemLimits(vs[k], huge) else 0
  }

  lemma VcpuWeightAt(vs: Views, live: set<string>, k: string)
    requires k in vs
    ensures VcpuWeights(vs, live)[k] == if k in live && !vs[k].isInfra then VcpuShare(vs[k]) else 0
  {
  }

  lemma MemWeightAt(vs: Views, live: set<string>, huge: bool, k: string)
    requires k in vs
    ensures MemWeights(vs, live, huge)[k] == if k in live && !vs[k].isInfra then MemShare(vs[k], huge) else 0
  {
  }

  lemma PagesSnoc(pages: seq<nat>, p: nat)
    ensures PagesMiB([]) == 0 && PagesMiB(pages + [p]) == PagesMiB(pages) + p / 0x10_0000
    ensures PagesBytes([]) == 0 && PagesBytes(pages + [p]) == PagesBytes(pages) + p
  {
    assert (pages + [p])[..|pages|] == pages;
  }

  /** The limit in MiB when it is positive, and with huge pages each page limit; nothing without a memory part. */
  lemma MemShareIs(v: ConfigView, huge: bool)
    ensures var pages := if huge && v.resources.Some? then v.resources.value.hugepages else [];
      var limit := EnsuredMemory(v.resources).limit;
      && (v.resources.None? || v.resources.value.memory.None? ==> MemShare(v, huge) == MemBytes(v, huge) == 0)
      && (v.resources.Some? && v.resources.value.memory.Some? ==>
            && MemShare(v, huge) == (if limit.Some? && limit.value > 0 then limit.value / 0x10_0000 else 0) + PagesMiB(pages)
            && MemBytes(v, huge) == (if limit.Some? && limit.value > 0 then limit.value else 0) + PagesBytes(pages))
  {
  }

  method CountMemory(v: ConfigView, huge: bool) returns (share: nat)
    ensures share == MemShare(v, huge)
  {
    share := 0;
    if v.resources.None? {
      return;
    }
    var m := v.resources.value.memory;
    if m.Some? {
      if m.value.limit.Some? && m.value.limit.value > 0 {
        share := share + m.value.limit.value / MIB;
      }
      if huge {
        var pages := v.resources.value.hugepages;
        var i := 0;
        while i < |pages|
          invariant 0 <= i <= |pages|
          invariant share == LimitBytes(v) / MIB + PagesMiB(pages[..i])
        {
          assert pages[..i + 1][..i] == pages[..i];
          share := share + pages[i] / MIB;
          i := i + 1;
        }
        assert pages[..i] == pages;
      }
    }
  }

  lemma {:induction false} PagesGap(pages: seq<nat>)
    ensures 0 <= PagesBytes(pages) - MIB * PagesMiB(pages) <= |pages| * (MIB - 1)
  {
    if pages != [] {
      PagesGap(pages[..|pages| - 1]);
    }
  }

  lemma ShareGap(v: ConfigView, huge: bool)
    ensures 0 <= MemBytes(v, huge) - MIB * MemShare(v, huge) <= MemLimits(v, huge) * (MIB - 1)
  {
    PagesGap(Pages(v, huge));
  }

  lemma {:induction false} SumScale(m: map<string, int>, n: map<string, int>, c: int)
    requires m.Keys == n.Keys && forall k | k in m :: n[k] == c * m[k]
    ensures Sum(n) == c * Sum(m)
    decreases m.Keys
  {
    if m != map[] {
      var k := Choose(m.Keys);
      SumScale(m - {k}, n - {k}, c);
      SumTake(m, k);
      SumTake(n, k);
      assert c * (m[k] + Sum(m - {k})) == c * m[k] + c * Sum(m - {k});
    }
  }

  /** The counted MiB fall short of the bytes asked for by less than one MiB per counted limit. */
  lemma MemoryShortfall(vs: Views, live: set<string>, huge: bool)
    ensures var bytes, mib, limits := Sum(BytesWeights(vs, live, huge)), Sum(MemWeights(vs, live, huge)), Sum(LimitCounts(vs, live, huge));
      0 <= bytes - MIB * mib <= limits * (MIB - 1)
  {
    var m := MemWeights(vs, live, huge);
    var scaled := map k | k in m :: MIB * m[k];
    SumScale(m, scaled, MIB);
    forall k | k in vs
      ensures 0 <= BytesWeights(vs, live, huge)[k] - scaled[k] <= LimitCounts(vs, live, huge)[k] * (MIB - 1)
    {
      ShareGap(vs[k], huge);
    }
    SumGap(BytesWeights(vs, live, huge), scaled, LimitCounts(vs, live, huge), MIB);
  }

  /** The totals in uint32 and uint64 arithmetic. */
  ghost function VcpuTotal(vs: Views, live: set<string>, mini: nat): nat {
    U32(Sum(VcpuWeights(vs, live)) + mini)
  }

  ghost function MemMiB(vs: Views, live: set<string>, huge: bool): nat {
    U64(Sum(MemWeights(vs, live, huge)))
  }

  /** The pool in bytes that the sandbox stores for its total of MiB. */
  ghost function PoolBytes(vs: Views, live: set<string>, huge: bool): nat {
    U64(MemMiB(vs, live, huge) * MIB)
  }

  /** The stored pool is the summed MiB in bytes, taken modulo 2^64. It falls short of the byte limits by less than one
      MiB per counted limit when that sum is below 2^64, and otherwise by a positive multiple of 2^64 on top of that. */
  lemma PoolShortfall(vs: Views, live: set<string>, huge: bool)
    ensures var bytes, limits := Sum(BytesWeights(vs, live, huge)), Sum(LimitCounts(vs, live, huge));
      var mib := Sum(MemWeights(vs, live, huge));
      var lost := MIB * mib / U64_LIMIT;
      && mib >= 0 && (lost == 0 <==> MIB * mib < U64_LIMIT)
      && 0 <= bytes - PoolBytes(vs, live, huge) - lost * U64_LIMIT <= limits * (MIB - 1)
  {
    MemoryShortfall(vs, live, huge);
    SumNonNegative(MemWeights(vs, live, huge));
    Truncated(Sum(MemWeights(vs, live, huge)));
  }

  lemma {:induction false} SumNonNegative(m: map<string, int>)
    requires forall k | k in m :: m[k] >= 0
    ensures Sum(m) >= 0
    decreases m.Keys
  {
    if m != map[] {
      SumNonNegative(m - {Choose(m.Keys)});
    }
  }

  lemma Truncated(mib: nat)
    ensures U64(U64(mib) * MIB) == MIB * mib - MIB * mib / U64_LIMIT * U64_LIMIT
    ensures MIB * mib / U64_LIMIT == 0 <==> MIB * mib < U64_LIMIT
  {
    var n := mib / U64_LIMIT;
    assert U64(mib) * MIB == MIB * mib - MIB * n * U64_LIMIT;
    U64Drop(MIB * mib, MIB * n);
  }

  lemma U64Drop(a: int, k: int)
    ensures U64(a - k * U64_LIMIT) == U64(a)
  {
  }

  lemma AddMini(vs: Views, live: set<string>, mini: nat)
    ensures U32(VcpuTotal(vs, live, 0) + mini) == VcpuTotal(vs, live, mini)
  {
    U32Add(Sum(VcpuWeights(vs, live)), mini);
  }

  // ---------- removing one configuration ----------

  /** The totals less what one configuration contributes to them. */
  ghost function VcpusLess(vs: Views, live: set<string>, mini: nat, k: string): nat
    requires k in vs
  {
    U32(Sum(VcpuWeights(vs, live)) - VcpuWeight(vs[k], k in live) + mini)
  }

  ghost function MemMiBLess(vs: Views, live: set<string>, huge: bool, k: string): nat
    requires k in vs
  {
    U64(Sum(MemWeights(vs, live, huge)) - MemWeight(vs[k], k in live, huge))
  }

  /** Taking one configuration out lowers both totals by exactly what it contributed. */
  lemma RemoveOne(vs: Views, live: set<string>, mini: nat, huge: bool, k: string)
    requires k in vs
    ensures VcpuTotal(vs - {k}, live - {k}, mini) == VcpusLess(vs, live, mini, k)
    ensures MemMiB(vs - {k}, live - {k}, huge) == MemMiBLess(vs, live, huge, k)
  {
    WeightsWithout(vs, live, huge, k);
    SumTake(VcpuWeights(vs, live), k);
    SumTake(MemWeights(vs, live, huge), k);
  }

  lemma WeightsWithout(vs: Views, live: set<string>, huge: bool, k: string)
    ensures VcpuWeights(vs - {k}, live - {k}) == VcpuWeights(vs, live) - {k}
    ensures MemWeights(vs - {k}, live - {k}, huge) == MemWeights(vs, live, huge) - {k}
  {
  }
}
