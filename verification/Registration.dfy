/** From the container's limits and the runtime defaults to the message the daemon reads
    (createMicaClientConf in pkg/micantainer/utils.go). */
module Registration {
  import opened Wrappers
  import opened Ints
  import opened Text
  import opened CpuList
  import opened Configs
  import opened Containers
  import opened Executor
  import opened Layout
  import opened OciSpecs
  import opened Planner
  import opened Wire

  // ---------- texts as bytes ----------

  function Utf8Char(c: char): seq<byte> {
    var n := c as int;
    if n < 0x80 then [n as byte]
    else if n < 0x800 then [(0xC0 + n / 0x40) as byte, (0x80 + n % 0x40) as byte]
    else if n < 0x1_0000 then [(0xE0 + n / 0x1000) as byte, (0x80 + n / 0x40 % 0x40) as byte, (0x80 + n % 0x40) as byte]
    else [(0xF0 + n / 0x4_0000) as byte, (0x80 + n / 0x1000 % 0x40) as byte,
          (0x80 + n / 0x40 % 0x40) as byte, (0x80 + n % 0x40) as byte]
  }

  function Utf8(s: string): seq<byte> {
    if s == "" then [] else Utf8(s[..|s| - 1]) + Utf8Char(s[|s| - 1])
  }

  ghost predicate Ascii(s: string) {
    forall i | 0 <= i < |s| :: 0 < s[i] as int < 0x80
  }

  lemma {:induction false} AsciiBytes(s: string)
    requires Ascii(s)
    ensures |Utf8(s)| == |s| && 0 !in Utf8(s)
  {
    if s != "" {
      AsciiBytes(s[..|s| - 1]);
    }
  }

  lemma {:induction false} RenderAscii(rs: seq<Range>)
    ensures Ascii(Render(rs))
  {
    if rs != [] {
      var init, r := rs[..|rs| - 1], rs[|rs| - 1];
      RenderAscii(init);
      TakeLast(rs);
      BeforeSnoc(init, r);
      AsciiApart(Render(init), ",");
      RangeAscii(r);
      AsciiApart(Before(init), RangeText(r));
    }
  }

  lemma AsciiApart(a: string, b: string)
    requires Ascii(a) && Ascii(b)
    ensures Ascii(a + b)
  {
  }

  lemma RangeAscii(r: Range)
    ensures Ascii(RangeText(r))
  {
    ItoaAscii(r.lo);
    ItoaAscii(r.hi);
  }

  lemma ItoaAscii(n: int)
    ensures Ascii(Itoa(n))
  {
    var digits := NatText(if n < 0 then -n else n);
    assert forall i | 0 <= i < |digits| :: IsDigit(digits[i]);
  }

  // ---------- the create message ----------

  /** The other texts of the message, as bytes. */
  datatype Names = Names(name: seq<byte>, path: seq<byte>, ped: seq<byte>, pedCfg: seq<byte>)

  function OptionsFor(v: ConfigView, names: Names, weight: int, maxVcpuNum: int): Options {
    Options(
      Utf8(CpuMask(v.resources)), names.name, names.path, names.ped, names.pedCfg,
      if v.vcpuNum <= 0 then 1 else v.vcpuNum, weight, ConfiguredCapacity(EnsuredCPU(v.resources)),
      MaxMemMB(v.resources), maxVcpuNum, v.memoryThresholdMB, [], [])
  }

  /** There is no configuration when the firmware does not pass its check. */
  method CreateMicaClientConf(config: ContainerConfig, names: Names, valid: bool, weight: int, maxVcpuNum: int, sizes: Sizes)
    returns (conf: Option<MicaClientConf>)
    ensures conf.Some? <==> valid
    ensures conf.Some? ==> fresh(conf.value) && conf.value.sizes == sizes
    ensures conf.Some? ==> conf.value.Value() == FieldsFor(OptionsFor(config.View(), names, weight, maxVcpuNum), sizes)
  {
    var cpus := GetClientCPU(config);
    var cpuCap := ConfiguredCapacity(EnsuredCPU(config.resources));
    var vcpus := config.vcpuNum;
    if vcpus <= 0 {
      vcpus := 1;
    }
    var memMB := MaxMemMB(config.resources);
    if !valid {
      return None;
    }
    var filled := new MicaClientConf(sizes, Options(
      Utf8(cpus), names.name, names.path, names.ped, names.pedCfg,
      vcpus, weight, cpuCap, memMB, maxVcpuNum, config.memoryThresholdMB, [], []));
    conf := Some(filled);
  }

  method GetClientCPU(config: ContainerConfig) returns (cpus: string)
    ensures cpus == CpuMask(config.resources)
  {
    if CpuMask(config.resources) == "" {
      return "";
    }
    return CpuMask(config.resources);
  }

  /** The numbers of a configuration as the daemon reads them: at least one vCPU, the memory, the weight, the maximum of
      vCPUs or else 8, and the threshold or else twice the memory. */
  lemma NumbersArrive(v: ConfigView, names: Names, weight: int, maxVcpuNum: int, z: Sizes)
    ensures var r := Decode(Image(Members(FieldsFor(OptionsFor(v, names, weight, maxVcpuNum), z))), z);
      && r.vcpuNum == S32(Max(v.vcpuNum, 1)) && r.cpuWeight == S32(weight)
      && r.maxVcpuNum == S32(if maxVcpuNum > 0 then maxVcpuNum else 8)
      && r.memory == S32(MaxMemMB(v.resources))
      && (v.memoryThresholdMB != 0 ==> r.maxMemory == S32(v.memoryThresholdMB))
      && (v.memoryThresholdMB == 0 ==> r.maxMemory == S32(2 * MaxMemMB(v.resources)))
      && r.cpuCapacity == S32(ConfiguredCapacity(EnsuredCPU(v.resources)))
  {
    OptionsArrive(OptionsFor(v, names, weight, maxVcpuNum), z);
    SomeMemory(v.resources);
  }

  /** Each of the other texts arrives in the field of its name; debugging, memory map and network are not set. */
  lemma TextsArrive(v: ConfigView, names: Names, weight: int, maxVcpuNum: int, z: Sizes)
    requires z.Positive()
    ensures var r := Decode(Image(Members(FieldsFor(OptionsFor(v, names, weight, maxVcpuNum), z))), z);
      && r.name == CString(Clip(names.name, z.name - 1)) && r.path == CString(Clip(names.path, z.path - 1))
      && r.ped == CString(Clip(names.ped, z.ped - 1)) && r.pedCfg == CString(Clip(names.pedCfg, z.path - 1))
      && r.cpuStr == CString(Clip(Utf8(CpuMask(v.resources)), z.cpu - 1))
      && r.iomem == Padded([], z.config) && r.network == [] && !r.debug
  {
    StringsArrive(OptionsFor(v, names, weight, maxVcpuNum), z);
  }

  lemma SomeMemory(res: Resources)
    ensures MaxMemMB(res) > 0
  {
  }

  /** A quota and a period for which no conversion wraps. */
  predicate PlainQuota(cpu: LinuxCPU) {
    && cpu.quota.Some? && 0 < 100 * cpu.quota.value <= MAX_INT && cpu.period.Some? && 0 < cpu.period.value <= MAX_INT
    && 100 * cpu.quota.value / cpu.period.value < U32_LIMIT
  }

  /** The capacity that is sent: hundredths of a CPU, none without a quota. The cpuset does not count here. */
  lemma CapacitySent(cpu: LinuxCPU)
    ensures cpu.quota.None? || cpu.quota.value <= 0 || cpu.period.None? || cpu.period.value == 0 ==> ConfiguredCapacity(cpu) == 0
    ensures PlainQuota(cpu) ==> ConfiguredCapacity(cpu) == 100 * cpu.quota.value / cpu.period.value
  {
    if PlainQuota(cpu) {
      QuotaPlain(cpu.quota.value, cpu.period.value);
      U64Small(cpu.period.value);
      U32Small(100 * cpu.quota.value / cpu.period.value);
    }
  }

  /** The maximum that registration gives the pedestal is the one in the container's own message. */
  lemma ConfMaxArrives(c: Container, names: Names, weight: int, maxVcpuNum: int, z: Sizes, s: MemState)
    ensures var v := c.config.View(); var base := MaxMemMB(v.resources);
      var r := Decode(Image(Members(FieldsFor(OptionsFor(v, names, weight, maxVcpuNum), z))), z);
      var ped := Registered(s, base, c.ConfMax(), Reply(true, true)).ped;
      ped.mem == r.memory && ped.max == r.maxMemory
  {
    var v := c.config.View();
    PairArrives(FieldsFor(OptionsFor(v, names, weight, maxVcpuNum), z), z);
    RegisterReaches(s, MaxMemMB(v.resources), c.ConfMax(), Reply(true, true));
  }

  /** The printed cpuset of a configuration arrives whole exactly when it is shorter than its field. */
  lemma CpusArrive(v: ConfigView, S: set<int>, names: Names, weight: int, maxVcpuNum: int, z: Sizes)
    requires z.Positive() && CpuNumbers(S) && CpuMask(v.resources) == Canonical(S)
    ensures var r := Decode(Image(Members(FieldsFor(OptionsFor(v, names, weight, maxVcpuNum), z))), z);
      r.cpuStr == Utf8(Canonical(S)) <==> |Canonical(S)| < z.cpu
  {
    StringsArrive(OptionsFor(v, names, weight, maxVcpuNum), z);
    CanonicalIs(S);
    RenderAscii(Runs(SortedElems(S)));
    AsciiBytes(Canonical(S));
    ClipArrives(Utf8(Canonical(S)), z.cpu - 1);
  }

  lemma ClipArrives(b: seq<byte>, n: nat)
    requires 0 !in b
    ensures CString(Clip(b, n)) == b <==> |b| <= n
  {
    NoNulString(Clip(b, n));
  }

  /** v is what the runtime defaults make of a configuration with these resources. */
  ghost predicate Defaulted(before: Resources, v: ConfigView, minContainerMemMB: nat) {
    && LimitMB(v.resources) == LimitMB(before)
    && ReservationMB(v.resources) == DefaultedReservation(before, minContainerMemMB)
    && v.memoryThresholdMB == ThresholdFor(MaxMemMB(v.resources))
  }

  /** The memory settings as the daemon reads them. They are the configured memory and twice that, both positive,
      with the reservation at most the memory, exactly when the memory is below 2^30 MiB. */
  lemma MemoryArrives(before: Resources, v: ConfigView, minContainerMemMB: nat, names: Names, weight: int,
        maxVcpuNum: int, z: Sizes)
    requires minContainerMemMB < U32_LIMIT && Defaulted(before, v, minContainerMemMB)
    ensures var r := Decode(Image(Members(FieldsFor(OptionsFor(v, names, weight, maxVcpuNum), z))), z);
      var base := MaxMemMB(v.resources);
      && base > 0 && r.memory == S32(base) && r.maxMemory == S32(ThresholdFor(base))
      && (0 < ReservationMB(v.resources) <= r.memory && r.maxMemory == 2 * r.memory <==> base < 0x4000_0000)
  {
    BasePositive(before, v, minContainerMemMB);
    PairArrives(FieldsFor(OptionsFor(v, names, weight, maxVcpuNum), z), z);
    Doubled(MaxMemMB(v.resources), ReservationMB(v.resources));
  }

  lemma PairArrives(f: Fields, z: Sizes)
    requires Fits(f, z)
    ensures Decode(Image(Members(f)), z).memory == S32(f.memoryMB)
    ensures Decode(Image(Members(f)), z).maxMemory == S32(f.memoryThresholdMB)
  {
    IntsArrive(f, z);
  }

  lemma Doubled(base: uint32, reservation: nat)
    requires 0 < reservation <= base
    ensures reservation <= S32(base) && S32(ThresholdFor(base)) == 2 * S32(base) <==> base < 0x4000_0000
  {
    WireThreshold(base);
  }

  lemma BasePositive(before: Resources, v: ConfigView, minContainerMemMB: nat)
    requires minContainerMemMB < U32_LIMIT && Defaulted(before, v, minContainerMemMB)
    ensures 0 < ReservationMB(v.resources) <= MaxMemMB(v.resources) < U32_LIMIT
    ensures ThresholdFor(MaxMemMB(v.resources)) > 0
  {
  }

  /** What is registered at the pedestal with these numbers, below 2^30 MiB, starts safe. From there on a run keeps
      the whole invariant throughout exactly when nothing breaks it. It does so, whatever becomes of the create commands,
      in every run that sets limits up to twice the memory, has no falsely acknowledged maximum, and creates the client
      with these same numbers again. */
  lemma DefaultsAreSafe(before: Resources, v: ConfigView, minContainerMemMB: nat, s: MemState, events: seq<Event>)
    requires minContainerMemMB < U32_LIMIT && Defaulted(before, v, minContainerMemMB)
    requires s.thresholdMB == 0 && MaxMemMB(v.resources) < 0x4000_0000
    ensures var base := MaxMemMB(v.resources); var confMax := InitialThreshold(base, v.memoryThresholdMB);
      var r := Registered(s, base, confMax, Reply(true, true));
      && Safe(r)
      && (CreatesUpTo(events, base) ==> Bounded(Executor.Run(r, events)) && Executor.Run(r, events).thresholdMB >= base)
      && (AllAgain(events, base, confMax) || NoneAnew(events) ==> Safe(Executor.Run(r, events)))
      && (SafeThroughout(r, events) <==> NoneBreaks(r, events))
  {
    var base := MaxMemMB(v.resources);
    BasePositive(before, v, minContainerMemMB);
    AgainWithin(events, base);
    SafeFromRegistration(s, base, events, 2 * base);
    SafeFromRegistration(s, base, events, MAX_U32);
  }

  /** An operation on a client with this configuration, with a limit of up to twice the memory and no falsely
      acknowledged maximum. */
  predicate Again(e: Event, base: uint32, confMax: int) {
    match e
    case Register(b, m, _) => b == base && m == confMax
    case _ => e.target <= 2 * base && !FalseAck(e)
  }

  ghost predicate AllAgain(events: seq<Event>, base: uint32, confMax: int) {
    forall e | e in events :: Again(e, base, confMax)
  }

  /** No client is created again and no maximum falsely acknowledged; limits are free. */
  ghost predicate NoneAnew(events: seq<Event>) {
    forall e | e in events :: !e.Register? && !FalseAck(e)
  }

  lemma AgainWithin(events: seq<Event>, base: uint32)
    requires 0 < base < 0x4000_0000
    ensures AllAgain(events, base, ThresholdFor(base)) ==> AllWithin(events, base, 2 * base)
    ensures NoneAnew(events) ==> AllWithin(events, base, MAX_U32)
  {
    WireThreshold(base);
  }
}
