/** The create message: pkg/libmica/client.go packs it, the daemon's create_mica_client reads it as a C struct. */
module Wire {
  import opened Defs
  import opened Ints
  import opened Layout

  const DEFAULT_MAX_VCPUS: int := 8
  const FALLBACK_MAX_MEMORY_MB: int := DEFAULT_MIN_MEM_MB * 2

  /** The field sizes both sides agree on. */
  datatype Sizes = Sizes(name: nat, path: nat, ped: nat, cpu: nat, config: nat) {
    ghost predicate Positive() {
      name > 0 && path > 0 && ped > 0 && cpu > 0 && config > 0
    }

    function Prefix(): nat {
      name + path + ped + path + 1 + cpu
    }

    function PaddingAfterCPU(): nat {
      (INT_SIZE - Prefix() % INT_SIZE) % INT_SIZE
    }

    function SerializedBufSize(): nat {
      Prefix() + PaddingAfterCPU() + 6 * INT_SIZE + config * 2
    }
  }

  const MICA: Sizes := Sizes(66, 256, 16, 128, 512)

  datatype Options = Options(
    cpu: seq<byte>, name: seq<byte>, path: seq<byte>, ped: seq<byte>, pedCfg: seq<byte>,
    vcpus: int, cpuWeight: int, cpuCapacity: int, memoryMB: int, maxVCPUs: int, memoryThreshold: int,
    iomem: seq<byte>, network: seq<byte>)

  datatype Fields = Fields(
    name: seq<byte>, path: seq<byte>, ped: seq<byte>, pedcfg: seq<byte>, debug: bool, cpuStr: seq<byte>,
    vcpuNum: int, maxVcpuNum: int, cpuWeight: int, cpuCapacity: int, memoryMB: int, memoryThresholdMB: int,
    iomem: seq<byte>, network: seq<byte>)

  /** copy() of a string into a zeroed array of n bytes. */
  function Padded(s: seq<byte>, n: nat): (f: seq<byte>)
    ensures |f| == n
  {
    if |s| >= n then s[..n] else s + Zeros(n - |s|)
  }

  function InitialThreshold(memoryMB: int, threshold: int): int {
    if threshold != 0 then threshold
    else if memoryMB > 0 then memoryMB * 2
    else FALLBACK_MAX_MEMORY_MB
  }

  function FieldsFor(o: Options, z: Sizes): Fields {
    Fields(
      Padded(o.name, z.name), Padded(o.path, z.path), Padded(o.ped, z.ped), Padded(o.pedCfg, z.path), false,
      Padded(o.cpu, z.cpu),
      o.vcpus, if o.maxVCPUs > 0 then o.maxVCPUs else DEFAULT_MAX_VCPUS, o.cpuWeight, o.cpuCapacity,
      o.memoryMB, InitialThreshold(o.memoryMB, o.memoryThreshold),
      Padded(o.iomem, z.config), Padded(o.network, z.config))
  }

  ghost predicate Fits(f: Fields, z: Sizes) {
    && |f.name| == z.name && |f.path| == z.path && |f.ped| == z.ped && |f.pedcfg| == z.path
    && |f.cpuStr| == z.cpu && |f.iomem| == z.config && |f.network| == z.config
  }

  /** struct create_msg: characters anywhere, ints on word boundaries. */
  function Struct(z: Sizes): seq<Shape> {
    [Shape(z.name, Anywhere), Shape(z.path, Anywhere), Shape(z.ped, Anywhere), Shape(z.path, Anywhere),
     Shape(1, Anywhere), Shape(z.cpu, Anywhere),
     Shape(INT_SIZE, OnWord), Shape(INT_SIZE, OnWord), Shape(INT_SIZE, OnWord),
     Shape(INT_SIZE, OnWord), Shape(INT_SIZE, OnWord), Shape(INT_SIZE, OnWord),
     Shape(z.config, Anywhere), Shape(z.config, Anywhere)]
  }

  function Chars(b: seq<byte>): Member {
    Member(b, Anywhere)
  }

  function IntMember(v: int): Member {
    Member(LittleEndian(U32(v)), OnWord)
  }

  function BoolByte(b: bool): byte {
    if b then 1 else 0
  }

  /** The same struct filled with the fields of a configuration. */
  function Members(f: Fields): seq<Member> {
    [Chars(f.name), Chars(f.path), Chars(f.ped), Chars(f.pedcfg), Chars([BoolByte(f.debug)]), Chars(f.cpuStr),
     IntMember(f.vcpuNum), IntMember(f.maxVcpuNum), IntMember(f.cpuWeight),
     IntMember(f.cpuCapacity), IntMember(f.memoryMB), IntMember(f.memoryThresholdMB),
     Chars(f.iomem), Chars(f.network)]
  }

  lemma MembersFit(f: Fields, z: Sizes)
    requires Fits(f, z)
    ensures Shapes(Members(f)) == Struct(z)
  {
  }

  class MicaClientConf {
    const sizes: Sizes
    var name: seq<byte>
    var path: seq<byte>
    var ped: seq<byte>
    var pedcfg: seq<byte>
    var debug: bool
    var cpuStr: seq<byte>
    var vcpuNum: int
    var maxVcpuNum: int
    var cpuWeight: int
    var cpuCapacity: int
    var memoryMB: int
    var memoryThresholdMB: int
    var iomem: seq<byte>
    var network: seq<byte>

    function Value(): Fields
      reads this
    {
      Fields(name, path, ped, pedcfg, debug, cpuStr, vcpuNum, maxVcpuNum, cpuWeight,
             cpuCapacity, memoryMB, memoryThresholdMB, iomem, network)
    }

    constructor (sizes: Sizes, opts: Options)
      ensures this.sizes == sizes && Value() == FieldsFor(opts, sizes)
    {
      this.sizes := sizes;
      new;
      InitWithOpts(opts);
    }

    method InitWithOpts(opts: Options)
      modifies this
      ensures Value() == FieldsFor(opts, sizes)
      ensures vcpuNum == opts.vcpus && cpuWeight == opts.cpuWeight && cpuCapacity == opts.cpuCapacity
      ensures maxVcpuNum == (if opts.maxVCPUs > 0 then opts.maxVCPUs else 8) && memoryMB == opts.memoryMB
      ensures opts.memoryThreshold != 0 ==> memoryThresholdMB == opts.memoryThreshold
      ensures opts.memoryThreshold == 0 ==> memoryThresholdMB == if opts.memoryMB > 0 then 2 * opts.memoryMB else 32
    {
      InitStrings(opts);
      vcpuNum := opts.vcpus;
      cpuWeight := opts.cpuWeight;
      cpuCapacity := opts.cpuCapacity;
      InitLimits(opts);
    }

    method InitStrings(opts: Options)
      modifies this`name, this`path, this`ped, this`pedcfg, this`debug, this`cpuStr, this`iomem, this`network
      ensures name == Padded(opts.name, sizes.name) && path == Padded(opts.path, sizes.path)
      ensures ped == Padded(opts.ped, sizes.ped) && pedcfg == Padded(opts.pedCfg, sizes.path)
      ensures !debug && cpuStr == Padded(opts.cpu, sizes.cpu)
      ensures iomem == Padded(opts.iomem, sizes.config) && network == Padded(opts.network, sizes.config)
    {
      name := Padded(opts.name, sizes.name);
      path := Padded(opts.path, sizes.path);
      ped := Padded(opts.ped, sizes.ped);
      pedcfg := Padded(opts.pedCfg, sizes.path);
      debug := false;
      cpuStr := Padded(opts.cpu, sizes.cpu);
      iomem := Padded(opts.iomem, sizes.config);
      network := Padded(opts.network, sizes.config);
    }

    method InitLimits(opts: Options)
      modifies this`maxVcpuNum, this`memoryMB, this`memoryThresholdMB
      ensures maxVcpuNum == if opts.maxVCPUs > 0 then opts.maxVCPUs else DEFAULT_MAX_VCPUS
      ensures memoryMB == opts.memoryMB && memoryThresholdMB == InitialThreshold(opts.memoryMB, opts.memoryThreshold)
    {
      if opts.maxVCPUs > 0 {
        maxVcpuNum := opts.maxVCPUs;
      } else {
        maxVcpuNum := DEFAULT_MAX_VCPUS;
      }
      memoryMB := opts.memoryMB;
      var memInitThreshold := opts.memoryThreshold;
      if memInitThreshold == 0 {
        if opts.memoryMB > 0 {
          memInitThreshold := opts.memoryMB * 2;
        } else {
          memInitThreshold := FALLBACK_MAX_MEMORY_MB;
        }
      }
      memoryThresholdMB := memInitThreshold;
    }

    /** The message is the image of the daemon's struct. */
    method Pack() returns (buf: array<byte>)
      requires Fits(Value(), sizes)
      ensures fresh(buf) && buf.Length == sizes.SerializedBufSize()
      ensures buf[..] == Image(Members(Value()))
    {
      var f := Value();
      buf := new byte[sizes.SerializedBufSize()](i => 0);
      MembersAre(f);
      Fill(buf, f, sizes, Members(f));
    }
  }

  ghost predicate AreMembers(ms: seq<Member>, f: Fields) {
    && |ms| == 14
    && ms[0] == Chars(f.name) && ms[1] == Chars(f.path) && ms[2] == Chars(f.ped) && ms[3] == Chars(f.pedcfg)
    && ms[4] == Chars([BoolByte(f.debug)]) && ms[5] == Chars(f.cpuStr)
    && ms[6] == IntMember(f.vcpuNum) && ms[7] == IntMember(f.maxVcpuNum) && ms[8] == IntMember(f.cpuWeight)
    && ms[9] == IntMember(f.cpuCapacity) && ms[10] == IntMember(f.memoryMB) && ms[11] == IntMember(f.memoryThresholdMB)
    && ms[12] == Chars(f.iomem) && ms[13] == Chars(f.network)
  }

  lemma MembersAre(f: Fields)
    ensures AreMembers(Members(f), f)
  {
    StringMembers(f);
    IntMembers(f);
  }

  lemma StringMembers(f: Fields)
    ensures var ms := Members(f);
      && ms[0] == Chars(f.name) && ms[1] == Chars(f.path) && ms[2] == Chars(f.ped) && ms[3] == Chars(f.pedcfg)
      && ms[4] == Chars([BoolByte(f.debug)]) && ms[5] == Chars(f.cpuStr)
      && ms[12] == Chars(f.iomem) && ms[13] == Chars(f.network)
  {
  }

  lemma IntMembers(f: Fields)
    ensures var ms := Members(f);
      && ms[6] == IntMember(f.vcpuNum) && ms[7] == IntMember(f.maxVcpuNum) && ms[8] == IntMember(f.cpuWeight)
      && ms[9] == IntMember(f.cpuCapacity) && ms[10] == IntMember(f.memoryMB) && ms[11] == IntMember(f.memoryThresholdMB)
  {
  }

  /** Writes the fields at a moving offset. */
  method Fill(buf: array<byte>, f: Fields, z: Sizes, ghost ms: seq<Member>)
    requires AreMembers(ms, f) && Fits(f, z)
    requires buf.Length == z.SerializedBufSize() && forall i | 0 <= i < buf.Length :: buf[i] == 0
    modifies buf
    ensures buf[..] == Image(ms)
  {
    NoneWritten(buf[..], ms);
    var offset := PackStrings(buf, f, ms);
    offset := offset + z.PaddingAfterCPU();
    offset := PackInts(buf, offset, f, ms, z.Prefix());
    offset := PackConfigs(buf, offset, f, ms);
    AllWritten(buf[..], ms);
  }

  lemma NoneWritten(buf: seq<byte>, ms: seq<Member>)
    requires forall i | 0 <= i < |buf| :: buf[i] == 0
    ensures Written(buf, 0, ms, 0)
  {
    assert ms[..0] == [];
  }

  lemma AllWritten(buf: seq<byte>, ms: seq<Member>)
    requires Written(buf, |buf|, ms, |ms|)
    ensures buf == Image(ms)
  {
    assert ms[..|ms|] == ms && buf[..|buf|] == buf;
  }

  method PackStrings(buf: array<byte>, f: Fields, ghost ms: seq<Member>) returns (offset: nat)
    requires AreMembers(ms, f)
    requires buf.Length >= |f.name| + |f.path| + |f.ped| + |f.pedcfg| + 1 + |f.cpuStr|
    requires Written(buf[..], 0, ms, 0)
    modifies buf
    ensures offset == |f.name| + |f.path| + |f.ped| + |f.pedcfg| + 1 + |f.cpuStr|
    ensures Written(buf[..], offset, ms, 6)
  {
    offset := 0;
    offset := Put(buf, offset, f.name, ms, 0, offset);
    offset := Put(buf, offset, f.path, ms, 1, offset);
    offset := Put(buf, offset, f.ped, ms, 2, offset);
    offset := PackMoreStrings(buf, offset, f, ms);
  }

  method PackMoreStrings(buf: array<byte>, start: nat, f: Fields, ghost ms: seq<Member>) returns (offset: nat)
    requires AreMembers(ms, f) && buf.Length >= start + |f.pedcfg| + 1 + |f.cpuStr|
    requires Written(buf[..], start, ms, 3)
    modifies buf
    ensures offset == start + |f.pedcfg| + 1 + |f.cpuStr|
    ensures Written(buf[..], offset, ms, 6)
  {
    offset := Put(buf, start, f.pedcfg, ms, 3, start);
    offset := Put(buf, offset, [BoolByte(f.debug)], ms, 4, offset);
    offset := Put(buf, offset, f.cpuStr, ms, 5, offset);
  }

  method PackInts(buf: array<byte>, start: nat, f: Fields, ghost ms: seq<Member>, ghost end: nat) returns (offset: nat)
    requires AreMembers(ms, f)
    requires start == end + Padding(end, OnWord) && start + 6 * INT_SIZE <= buf.Length
    requires Written(buf[..], end, ms, 6)
    modifies buf
    ensures offset == start + 6 * INT_SIZE && Written(buf[..], offset, ms, 12)
  {
    offset := PutUint32(buf, start, f.vcpuNum, ms, 6, end);
    offset := PackMoreInts(buf, offset, f, ms);
  }

  method PackMoreInts(buf: array<byte>, start: nat, f: Fields, ghost ms: seq<Member>) returns (offset: nat)
    requires AreMembers(ms, f)
    requires start % INT_SIZE == 0 && start + 5 * INT_SIZE <= buf.Length
    requires Written(buf[..], start, ms, 7)
    modifies buf
    ensures offset == start + 5 * INT_SIZE && Written(buf[..], offset, ms, 12)
  {
    offset := PutUint32(buf, start, f.maxVcpuNum, ms, 7, start);
    offset := PutUint32(buf, offset, f.cpuWeight, ms, 8, offset);
    offset := PackLastInts(buf, offset, f, ms);
  }

  method PackLastInts(buf: array<byte>, start: nat, f: Fields, ghost ms: seq<Member>) returns (offset: nat)
    requires AreMembers(ms, f)
    requires start % INT_SIZE == 0 && start + 3 * INT_SIZE <= buf.Length
    requires Written(buf[..], start, ms, 9)
    modifies buf
    ensures offset == start + 3 * INT_SIZE && Written(buf[..], offset, ms, 12)
  {
    offset := PutUint32(buf, start, f.cpuCapacity, ms, 9, start);
    offset := PutUint32(buf, offset, f.memoryMB, ms, 10, offset);
    offset := PutUint32(buf, offset, f.memoryThresholdMB, ms, 11, offset);
  }

  method PackConfigs(buf: array<byte>, start: nat, f: Fields, ghost ms: seq<Member>) returns (offset: nat)
    requires AreMembers(ms, f) && start + |f.iomem| + |f.network| <= buf.Length
    requires Written(buf[..], start, ms, 12)
    modifies buf
    ensures offset == start + |f.iomem| + |f.network| && Written(buf[..], offset, ms, 14)
  {
    offset := Put(buf, start, f.iomem, ms, 12, start);
    offset := Put(buf, offset, f.network, ms, 13, offset);
  }

  /** The first k members are in place, ending at end, and the rest is still zero. */
  ghost predicate Written(buf: seq<byte>, end: nat, ms: seq<Member>, k: nat) {
    && k <= |ms| && end <= |buf|
    && buf[..end] == Image(ms[..k])
    && forall i | end <= i < |buf| :: buf[i] == 0
  }

  lemma WrittenNext(before: seq<byte>, after: seq<byte>, end: nat, offset: nat, ms: seq<Member>, k: nat)
    requires k < |ms| && Written(before, end, ms, k)
    requires offset == end + Padding(end, ms[k].align) && offset + |ms[k].bytes| <= |before| == |after|
    requires after == before[..offset] + ms[k].bytes + before[offset + |ms[k].bytes|..]
    ensures Written(after, offset + |ms[k].bytes|, ms, k + 1)
  {
    ImageNext(ms, k);
    assert before[..offset] == before[..end] + Zeros(offset - end);
    assert after[..offset + |ms[k].bytes|] == before[..offset] + ms[k].bytes;
  }

  method Put(buf: array<byte>, offset: nat, src: seq<byte>, ghost ms: seq<Member>, ghost k: nat, ghost end: nat)
    returns (next: nat)
    requires k < |ms| && src == ms[k].bytes && Written(buf[..], end, ms, k)
    requires offset == end + Padding(end, ms[k].align) && offset + |src| <= buf.Length
    modifies buf
    ensures next == offset + |src| && Written(buf[..], next, ms, k + 1)
  {
    ghost var before := buf[..];
    forall i | 0 <= i < |src| {
      buf[offset + i] := src[i];
    }
    next := offset + |src|;
    assert buf[..] == before[..offset] + src + before[next..];
    WrittenNext(before, buf[..], end, offset, ms, k);
  }

  method PutUint32(buf: array<byte>, offset: nat, v: int, ghost ms: seq<Member>, ghost k: nat, ghost end: nat)
    returns (next: nat)
    requires k < |ms| && ms[k] == IntMember(v) && Written(buf[..], end, ms, k)
    requires offset == end + Padding(end, OnWord) && offset + INT_SIZE <= buf.Length
    modifies buf
    ensures next == offset + INT_SIZE && next % INT_SIZE == 0 && Written(buf[..], next, ms, k + 1)
  {
    WordAligned(end);
    next := Put(buf, offset, LittleEndian(U32(v)), ms, k, end);
  }

  // ---------- the receiver ----------

  /** What create_mica_client has after reading the struct. The iomem field is kept as raw bytes:
      the receiver does not terminate it. */
  datatype Received = Received(
    name: seq<byte>, path: seq<byte>, ped: seq<byte>, pedCfg: seq<byte>, debug: bool, cpuStr: seq<byte>,
    vcpuNum: int, maxVcpuNum: int, cpuWeight: int, cpuCapacity: int, memory: int, maxMemory: int,
    iomem: seq<byte>, network: seq<byte>)

  /** The C string at the start of a field: the bytes before the first NUL. */
  function CString(b: seq<byte>): seq<byte> {
    if b == [] || b[0] == 0 then [] else [b[0]] + CString(b[1..])
  }

  /** The last byte of a field forced to NUL. */
  function Terminated(b: seq<byte>): (t: seq<byte>)
    ensures |t| == |b|
  {
    if b == [] then b else b[|b| - 1 := 0]
  }

  /** n bytes of a zeroed struct at an offset, after the bytes b have been received into it. */
  function FieldAt(b: seq<byte>, off: nat, n: nat): (f: seq<byte>)
    ensures |f| == n
  {
    seq(n, i requires 0 <= i < n => if off + i < |b| then b[off + i] else 0)
  }

  function MemberAt(b: seq<byte>, z: Sizes, k: nat): seq<byte>
    requires k < 14
  {
    FieldAt(b, OffsetOf(Struct(z), k), Struct(z)[k].size)
  }

  function StringAt(b: seq<byte>, z: Sizes, k: nat): seq<byte>
    requires k < 14
  {
    CString(Terminated(MemberAt(b, z, k)))
  }

  function IntAt(b: seq<byte>, z: Sizes, k: nat): int
    requires 6 <= k < 12
  {
    S32(FromLittleEndian(MemberAt(b, z, k)))
  }

  function Decode(b: seq<byte>, z: Sizes): Received {
    Received(
      StringAt(b, z, 0), StringAt(b, z, 1), StringAt(b, z, 2), StringAt(b, z, 3), MemberAt(b, z, 4) != [0], StringAt(b, z, 5),
      IntAt(b, z, 6), IntAt(b, z, 7), IntAt(b, z, 8), IntAt(b, z, 9), IntAt(b, z, 10), IntAt(b, z, 11),
      MemberAt(b, z, 12), StringAt(b, z, 13))
  }

  /** The daemon's struct create_msg. */
  class CreateMsg {
    const sizes: Sizes
    var name: seq<byte>
    var path: seq<byte>
    var ped: seq<byte>
    var pedCfg: seq<byte>
    var debug: seq<byte>
    var cpuStr: seq<byte>
    var ints: seq<int>
    var iomem: seq<byte>
    var network: seq<byte>

    ghost predicate Holds(b: seq<byte>)
      reads this
    {
      && name == MemberAt(b, sizes, 0) && path == MemberAt(b, sizes, 1) && ped == MemberAt(b, sizes, 2)
      && pedCfg == MemberAt(b, sizes, 3) && debug == MemberAt(b, sizes, 4) && cpuStr == MemberAt(b, sizes, 5)
      && |ints| == 6 && (forall i | 0 <= i < 6 :: ints[i] == IntAt(b, sizes, 6 + i))
      && iomem == MemberAt(b, sizes, 12) && network == MemberAt(b, sizes, 13)
    }

    /** recv() into the zeroed struct. */
    constructor Recv(b: seq<byte>, sizes: Sizes)
      ensures this.sizes == sizes && Holds(b)
    {
      this.sizes := sizes;
      name, path, ped := MemberAt(b, sizes, 0), MemberAt(b, sizes, 1), MemberAt(b, sizes, 2);
      pedCfg, debug, cpuStr := MemberAt(b, sizes, 3), MemberAt(b, sizes, 4), MemberAt(b, sizes, 5);
      ints := seq(6, i requires 0 <= i < 6 => IntAt(b, sizes, 6 + i));
      iomem, network := MemberAt(b, sizes, 12), MemberAt(b, sizes, 13);
    }

    /** The NULs create_mica_client writes before it uses the strings. */
    method Terminate()
      modifies this`name, this`path, this`ped, this`pedCfg, this`cpuStr, this`network
      ensures name == Terminated(old(name)) && path == Terminated(old(path)) && ped == Terminated(old(ped))
      ensures pedCfg == Terminated(old(pedCfg)) && cpuStr == Terminated(old(cpuStr)) && network == Terminated(old(network))
    {
      name := Terminated(name);
      path := Terminated(path);
      ped := Terminated(ped);
      pedCfg := Terminated(pedCfg);
      cpuStr := Terminated(cpuStr);
      network := Terminated(network);
    }
  }

  method CreateMicaClient(b: seq<byte>, z: Sizes) returns (r: Received)
    ensures r == Decode(b, z)
  {
    var msg := new CreateMsg.Recv(b, z);
    msg.Terminate();
    r := Received(
      CString(msg.name), CString(msg.path), CString(msg.ped), CString(msg.pedCfg), msg.debug != [0], CString(msg.cpuStr),
      msg.ints[0], msg.ints[1], msg.ints[2], msg.ints[3], msg.ints[4], msg.ints[5],
      msg.iomem, CString(msg.network));
  }

  // ---------- what arrives ----------

  /** The receiver finds every member of the packed message at its own offset. */
  lemma MemberArrives(f: Fields, z: Sizes, k: nat)
    requires Fits(f, z) && k < 14
    ensures MemberAt(Image(Members(f)), z, k) == Members(f)[k].bytes
  {
    MembersFit(f, z);
    ReadMember(Members(f), k);
    var off := OffsetOf(Struct(z), k);
    assert Struct(z)[k].size == |Members(f)[k].bytes|;
    HeldIsRead(Image(Members(f)), off, Members(f)[k].bytes);
  }

  lemma HeldIsRead(b: seq<byte>, off: nat, part: seq<byte>)
    requires HoldsAt(b, off, part)
    ensures FieldAt(b, off, |part|) == part
  {
    assert forall i | 0 <= i < |part| :: part[i] == b[off..off + |part|][i] == b[off + i];
  }

  /** Each of the six ints arrives as its low 32 bits, read as an int32. */
  lemma IntsArrive(f: Fields, z: Sizes)
    requires Fits(f, z)
    ensures var r := Decode(Image(Members(f)), z);
      && r.vcpuNum == S32(f.vcpuNum) && r.maxVcpuNum == S32(f.maxVcpuNum) && r.cpuWeight == S32(f.cpuWeight)
      && r.cpuCapacity == S32(f.cpuCapacity) && r.memory == S32(f.memoryMB) && r.maxMemory == S32(f.memoryThresholdMB)
  {
    MembersAre(f);
    IntArrives(f, z, 6, f.vcpuNum);
    IntArrives(f, z, 7, f.maxVcpuNum);
    IntArrives(f, z, 8, f.cpuWeight);
    IntArrives(f, z, 9, f.cpuCapacity);
    IntArrives(f, z, 10, f.memoryMB);
    IntArrives(f, z, 11, f.memoryThresholdMB);
  }

  lemma FieldsAre(o: Options, z: Sizes)
    ensures var f := FieldsFor(o, z);
      && f.vcpuNum == o.vcpus && f.cpuWeight == o.cpuWeight && f.cpuCapacity == o.cpuCapacity && f.memoryMB == o.memoryMB
      && f.maxVcpuNum == (if o.maxVCPUs > 0 then o.maxVCPUs else 8)
      && (o.memoryThreshold != 0 ==> f.memoryThresholdMB == o.memoryThreshold)
      && (o.memoryThreshold == 0 ==> f.memoryThresholdMB == if o.memoryMB > 0 then 2 * o.memoryMB else 32)
      && Fits(f, z)
  {
  }

  /** The way of all six ints from the options to the daemon: each is the option of its name as an int32, with 8 for a
      missing maximum of vCPUs, and twice the memory, or 32 without any, for a missing threshold. */
  lemma OptionsArrive(o: Options, z: Sizes)
    ensures var r := Decode(Image(Members(FieldsFor(o, z))), z);
      && r.vcpuNum == S32(o.vcpus) && r.cpuWeight == S32(o.cpuWeight) && r.cpuCapacity == S32(o.cpuCapacity)
      && r.memory == S32(o.memoryMB) && r.maxVcpuNum == S32(if o.maxVCPUs > 0 then o.maxVCPUs else 8)
      && (o.memoryThreshold != 0 ==> r.maxMemory == S32(o.memoryThreshold))
      && (o.memoryThreshold == 0 ==> r.maxMemory == S32(if o.memoryMB > 0 then 2 * o.memoryMB else 32))
  {
    FieldsAre(o, z);
    IntsArrive(FieldsFor(o, z), z);
  }

  /** Where the ints of the message are with the sizes both sides use, and how long it is. */
  lemma MicaLayout()
    ensures OffsetOf(Struct(MICA), 6) == 724 && MICA.SerializedBufSize() == SizeOf(Struct(MICA)) == 1772
  {
    SizesAgree(MICA);
  }

  predicate FitsInt32(v: int) {
    -0x8000_0000 <= v < 0x8000_0000
  }

  /** All six ints arrive unchanged exactly when all of them fit an int32. */
  lemma IntsUnchanged(f: Fields, z: Sizes)
    requires Fits(f, z)
    ensures var r := Decode(Image(Members(f)), z);
      && r.vcpuNum == f.vcpuNum && r.maxVcpuNum == f.maxVcpuNum && r.cpuWeight == f.cpuWeight
      && r.cpuCapacity == f.cpuCapacity && r.memory == f.memoryMB && r.maxMemory == f.memoryThresholdMB
      <==>
      && FitsInt32(f.vcpuNum) && FitsInt32(f.maxVcpuNum) && FitsInt32(f.cpuWeight)
      && FitsInt32(f.cpuCapacity) && FitsInt32(f.memoryMB) && FitsInt32(f.memoryThresholdMB)
  {
    IntsArrive(f, z);
    forall v: int
      ensures S32(v) == v <==> FitsInt32(v)
    {
      S32Exact(v);
    }
  }

  lemma IntArrives(f: Fields, z: Sizes, k: nat, v: int)
    requires Fits(f, z) && 6 <= k < 12 && Members(f)[k] == IntMember(v)
    ensures IntAt(Image(Members(f)), z, k) == S32(v)
  {
    MemberArrives(f, z, k);
    IntOfBytes(MemberAt(Image(Members(f)), z, k), v);
  }

  lemma IntOfBytes(b: seq<byte>, v: int)
    requires b == LittleEndian(U32(v))
    ensures S32(FromLittleEndian(b)) == S32(v)
  {
    LittleEndianRoundTrip(U32(v));
    S32OfU32(v);
  }

  lemma S32OfU32(v: int)
    ensures S32(U32(v)) == S32(v)
  {
  }

  function Clip(s: seq<byte>, n: nat): seq<byte> {
    if |s| <= n then s else s[..n]
  }

  /** Each string arrives as its longest prefix that leaves room for the NUL. */
  lemma StringsArrive(o: Options, z: Sizes)
    requires z.Positive()
    ensures var r := Decode(Image(Members(FieldsFor(o, z))), z);
      && r.name == CString(Clip(o.name, z.name - 1)) && r.path == CString(Clip(o.path, z.path - 1))
      && r.ped == CString(Clip(o.ped, z.ped - 1)) && r.pedCfg == CString(Clip(o.pedCfg, z.path - 1))
      && r.cpuStr == CString(Clip(o.cpu, z.cpu - 1)) && r.network == CString(Clip(o.network, z.config - 1))
      && r.iomem == Padded(o.iomem, z.config) && !r.debug
  {
    var f := FieldsFor(o, z);
    MembersAre(f);
    NamesArrive(f, o, z);
    ConfigsArrive(f, o, z);
  }

  lemma NamesArrive(f: Fields, o: Options, z: Sizes)
    requires z.Positive() && Fits(f, z) && AreMembers(Members(f), f)
    requires f.name == Padded(o.name, z.name) && f.path == Padded(o.path, z.path) && f.ped == Padded(o.ped, z.ped)
    ensures var b := Image(Members(f));
      && StringAt(b, z, 0) == CString(Clip(o.name, z.name - 1))
      && StringAt(b, z, 1) == CString(Clip(o.path, z.path - 1))
      && StringAt(b, z, 2) == CString(Clip(o.ped, z.ped - 1))
  {
    StringArrives(f, z, 0, o.name, z.name);
    StringArrives(f, z, 1, o.path, z.path);
    StringArrives(f, z, 2, o.ped, z.ped);
  }

  lemma ConfigsArrive(f: Fields, o: Options, z: Sizes)
    requires z.Positive() && Fits(f, z) && AreMembers(Members(f), f) && !f.debug
    requires f.pedcfg == Padded(o.pedCfg, z.path) && f.cpuStr == Padded(o.cpu, z.cpu)
    requires f.network == Padded(o.network, z.config)
    ensures var b := Image(Members(f));
      && StringAt(b, z, 3) == CString(Clip(o.pedCfg, z.path - 1))
      && MemberAt(b, z, 4) == [0]
      && StringAt(b, z, 5) == CString(Clip(o.cpu, z.cpu - 1))
      && MemberAt(b, z, 12) == f.iomem
      && StringAt(b, z, 13) == CString(Clip(o.network, z.config - 1))
  {
    StringArrives(f, z, 3, o.pedCfg, z.path);
    StringArrives(f, z, 5, o.cpu, z.cpu);
    StringArrives(f, z, 13, o.network, z.config);
    MemberArrives(f, z, 4);
    MemberArrives(f, z, 12);
  }

  lemma StringArrives(f: Fields, z: Sizes, k: nat, s: seq<byte>, n: nat)
    requires Fits(f, z) && k < 14 && n > 0 && Members(f)[k] == Chars(Padded(s, n))
    ensures StringAt(Image(Members(f)), z, k) == CString(Clip(s, n - 1))
  {
    MemberArrives(f, z, k);
    TerminatedPadded(s, n);
  }

  lemma TerminatedPadded(s: seq<byte>, n: nat)
    requires n > 0
    ensures CString(Terminated(Padded(s, n))) == CString(Clip(s, n - 1))
  {
    var t, c := Terminated(Padded(s, n)), Clip(s, n - 1);
    assert t[..|c|] == c && t[|c|] == 0;
    CStringStops(c, t[|c| + 1..]);
    assert t == c + [0] + t[|c| + 1..];
  }

  lemma {:induction false} CStringStops(a: seq<byte>, rest: seq<byte>)
    ensures CString(a + [0] + rest) == CString(a)
  {
    if a != [] && a[0] != 0 {
      CStringStops(a[1..], rest);
      assert (a + [0] + rest)[1..] == a[1..] + [0] + rest;
    }
  }

  /** A string without NUL bytes is its own C string. */
  lemma {:induction false} NoNulString(s: seq<byte>)
    ensures CString(s) == s <==> 0 !in s
  {
    if s != [] {
      assert s == [s[0]] + s[1..];
      NoNulString(s[1..]);
    }
  }

  /** sizeof: the end rounded up to the struct's own alignment. */
  function SizeOf(ss: seq<Shape>): nat {
    End(ss) + Padding(End(ss), OnWord)
  }

  /** The message fills the daemon's struct exactly when no padding follows its last field. */
  lemma SizesAgree(z: Sizes)
    ensures SizeOf(Struct(z)) == z.SerializedBufSize() <==> z.config % 2 == 0
    ensures OffsetOf(Struct(z), 6) == z.Prefix() + z.PaddingAfterCPU()
  {
    StructHead(z);
    StructTail(z);
    EvenConfig(z.SerializedBufSize() - 2 * z.config, z.config);
  }

  lemma EvenConfig(words: nat, config: nat)
    requires words % INT_SIZE == 0
    ensures Padding(words + 2 * config, OnWord) == 0 <==> config % 2 == 0
  {
    var h := config / 2;
    assert words + 2 * config == words + 4 * h + 2 * (config % 2);
  }

  lemma StructHead(z: Sizes)
    ensures End(Struct(z)[..6]) == z.Prefix()
  {
    var ss := Struct(z);
    assert ss[..0] == [];
    EndNext(ss, 0); EndNext(ss, 1); EndNext(ss, 2); EndNext(ss, 3); EndNext(ss, 4); EndNext(ss, 5);
  }

  lemma StructTail(z: Sizes)
    requires End(Struct(z)[..6]) == z.Prefix()
    ensures End(Struct(z)) == z.SerializedBufSize()
    ensures (z.SerializedBufSize() - 2 * z.config) % INT_SIZE == 0
  {
    var ss := Struct(z);
    StructInts(ss);
    StructConfigs(ss, z.config);
    assert z.SerializedBufSize() - 2 * z.config == End(ss[..12]);
  }

  lemma StructConfigs(ss: seq<Shape>, config: nat)
    requires |ss| == 14 && ss[12] == ss[13] == Shape(config, Anywhere)
    ensures End(ss) == End(ss[..12]) + 2 * config
  {
    EndNext(ss, 12);
    EndNext(ss, 13);
    AllTaken(ss, 14);
  }

  lemma AllTaken<T>(s: seq<T>, n: nat)
    requires n == |s|
    ensures s[..n] == s
  {
  }

  lemma StructInts(ss: seq<Shape>)
    requires |ss| == 14 && forall k | 6 <= k < 12 :: ss[k] == Shape(INT_SIZE, OnWord)
    ensures End(ss[..12]) == End(ss[..6]) + Padding(End(ss[..6]), OnWord) + 6 * INT_SIZE
    ensures End(ss[..12]) % INT_SIZE == 0
  {
    EndNext(ss, 6);
    WordAligned(End(ss[..6]));
    WordsNext(ss, 7, 5);
  }

  lemma WordAligned(end: nat)
    ensures (end + Padding(end, OnWord) + INT_SIZE) % INT_SIZE == 0
  {
  }

  lemma {:induction false} WordsNext(ss: seq<Shape>, k: nat, n: nat)
    requires k + n <= |ss| && forall i | k <= i < k + n :: ss[i] == Shape(INT_SIZE, OnWord)
    requires End(ss[..k]) % INT_SIZE == 0
    ensures End(ss[..k + n]) == End(ss[..k]) + n * INT_SIZE && End(ss[..k + n]) % INT_SIZE == 0
  {
    if n > 0 {
      WordsNext(ss, k, n - 1);
      WordNext(ss, k + n - 1);
    }
  }

  lemma NoPadding(end: nat)
    requires end % INT_SIZE == 0
    ensures Padding(end, OnWord) == 0 && (end + INT_SIZE) % INT_SIZE == 0
  {
  }

  lemma WordNext(ss: seq<Shape>, k: nat)
    requires k < |ss| && ss[k] == Shape(INT_SIZE, OnWord) && End(ss[..k]) % INT_SIZE == 0
    ensures End(ss[..k + 1]) == End(ss[..k]) + INT_SIZE && End(ss[..k + 1]) % INT_SIZE == 0
  {
    EndNext(ss, k);
    NoPadding(End(ss[..k]));
  }

  lemma EndNext(ss: seq<Shape>, k: nat)
    requires k < |ss|
    ensures End(ss[..k + 1]) == End(ss[..k]) + Padding(End(ss[..k]), ss[k].align) + ss[k].size
  {
    assert ss[..k + 1][..k] == ss[..k];
  }
}
