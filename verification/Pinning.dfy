/** CPU pinning of a sandbox as functions on the views of its configurations: the union that
    getSandboxCpusetStr computes, what pinning makes of the views, and why once is enough. */
module Pinning {
  import opened Wrappers
  import opened Ints
  import opened Text
  import opened CpuList
  import opened Configs
  import opened Containers

  // ---------- the sandbox's union ----------

  function CpuText(v: ConfigView): string {
    TrimSpace(CpuMask(v.resources))
  }

  function MemText(v: ConfigView): string {
    TrimSpace(EnsuredCPU(v.resources).mems)
  }

  /** A configuration without CPUs is skipped before its memory nodes are looked at. */
  predicate Counted(v: ConfigView) {
    !v.isInfra && CpuText(v) != ""
  }

  ghost predicate CpusReadable(v: ConfigView) {
    Counted(v) ==> Meaning(CpuText(v)).Parsed?
  }

  ghost predicate MemsReadable(v: ConfigView) {
    Counted(v) && MemText(v) != "" ==> Meaning(MemText(v)).Parsed?
  }

  ghost function CpusIn(v: ConfigView): set<int> {
    if Counted(v) && Meaning(CpuText(v)).Parsed? then Meaning(CpuText(v)).cpus else {}
  }

  ghost function MemsIn(v: ConfigView): set<int> {
    if Counted(v) && MemText(v) != "" && Meaning(MemText(v)).Parsed? then Meaning(MemText(v)).cpus else {}
  }

  type Views = map<string, ConfigView>

  /** What configuration objects hold. A container's object is its own, and is usually in the sandbox's table as well. */
  type Table = map<ContainerConfig, ConfigView>

  ghost function ViewsOf(configs: map<string, ContainerConfig>, table: Table): Views {
    map k | k in configs && configs[k] in table :: table[configs[k]]
  }

  ghost function KeysOf(configs: map<string, ContainerConfig>, objects: set<ContainerConfig>): set<string> {
    set k | k in configs && configs[k] in objects
  }

  ghost predicate ViewsReadable(vs: Views, keys: set<string>) {
    forall k | k in keys && k in vs :: CpusReadable(vs[k]) && MemsReadable(vs[k])
  }

  ghost function UnionCpus(vs: Views, keys: set<string>): set<int> {
    set k, x | k in keys && k in vs && x in CpusIn(vs[k]) :: x
  }

  ghost function UnionMems(vs: Views, keys: set<string>): set<int> {
    set k, x | k in keys && k in vs && x in MemsIn(vs[k]) :: x
  }

  /** A text that is not blank can be read and lists x. */
  ghost predicate Lists(text: string, x: int) {
    TrimSpace(text) != "" && Meaning(TrimSpace(text)).Parsed? && x in Meaning(TrimSpace(text)).cpus
  }

  ghost predicate AddsCpu(v: ConfigView, x: int) {
    !v.isInfra && Lists(CpuMask(v.resources), x)
  }

  ghost predicate AddsMem(v: ConfigView, x: int) {
    !v.isInfra && TrimSpace(CpuMask(v.resources)) != "" && Lists(EnsuredCPU(v.resources).mems, x)
  }

  lemma AddsIs(v: ConfigView, x: int)
    ensures x in CpusIn(v) <==> AddsCpu(v, x)
    ensures x in MemsIn(v) <==> AddsMem(v, x)
  {
  }

  /** The unions are over all but the infra configurations; the memory nodes of one without CPUs do not count. */
  lemma UnionIs(vs: Views, keys: set<string>, x: int)
    ensures x in UnionCpus(vs, keys) <==> exists k | k in keys && k in vs :: AddsCpu(vs[k], x)
    ensures x in UnionMems(vs, keys) <==> exists k | k in keys && k in vs :: AddsMem(vs[k], x)
  {
    forall k | k in keys && k in vs
      ensures x in CpusIn(vs[k]) <==> AddsCpu(vs[k], x)
      ensures x in MemsIn(vs[k]) <==> AddsMem(vs[k], x)
    {
      AddsIs(vs[k], x);
    }
  }

  lemma ReadableIs(vs: Views, keys: set<string>)
    ensures ViewsReadable(vs, keys) <==>
            forall k | k in keys && k in vs && !vs[k].isInfra && TrimSpace(CpuMask(vs[k].resources)) != "" ::
              var mems := TrimSpace(EnsuredCPU(vs[k].resources).mems);
              Meaning(TrimSpace(CpuMask(vs[k].resources))).Parsed? && (mems != "" ==> Meaning(mems).Parsed?)
  {
  }

  lemma UnionCpusStep(vs: Views, keys: set<string>, k: string)
    requires k in vs
    ensures UnionCpus(vs, keys + {k}) == UnionCpus(vs, keys) + CpusIn(vs[k])
  {
    var a, b := UnionCpus(vs, keys + {k}), UnionCpus(vs, keys) + CpusIn(vs[k]);
    assert forall x | x in a :: x in b;
    assert forall j | j in keys :: j in keys + {k};
    assert forall x | x in b :: x in a;
  }

  lemma UnionMemsStep(vs: Views, keys: set<string>, k: string)
    requires k in vs
    ensures UnionMems(vs, keys + {k}) == UnionMems(vs, keys) + MemsIn(vs[k])
  {
    var a, b := UnionMems(vs, keys + {k}), UnionMems(vs, keys) + MemsIn(vs[k]);
    assert forall x | x in a :: x in b;
    assert forall j | j in keys :: j in keys + {k};
    assert forall x | x in b :: x in a;
  }

  lemma UnionNumbers(vs: Views)
    ensures CpuNumbers(UnionCpus(vs, vs.Keys))
  {
    forall k, x | k in vs && x in CpusIn(vs[k])
      ensures 0 <= x <= MAX_INT
    {
      MeaningNonNegative(CpuText(vs[k]));
    }
  }

  // ---------- shared pool ----------

  /** The views after the configurations with these keys have been pinned to S. */
  ghost function Repinned(vs: Views, pinned: set<string>, S: set<int>): Views {
    map k | k in vs :: if k in pinned then Pinned(vs[k], S) else vs[k]
  }

  /** The objects of done have been pinned to S and the others are what they were. */
  ghost predicate Progress(was: Table, now: Table, done: set<ContainerConfig>, S: set<int>) {
    now.Keys == was.Keys && forall c | c in was :: now[c] == if c in done then Pinned(was[c], S) else was[c]
  }

  lemma ProgressStep(was: Table, now: Table, done: set<ContainerConfig>, S: set<int>, c: ContainerConfig)
    requires Progress(was, now, done, S) && c in was
    ensures Progress(was, now[c := Pinned(now[c], S)], done + {c}, S)
  {
    PinnedTwice(was[c], S);
  }

  /** The table of configurations then reads as if exactly the entries with these objects had been rewritten. */
  lemma ProgressShows(configs: map<string, ContainerConfig>, was: Table, now: Table, done: set<ContainerConfig>, S: set<int>)
    requires Progress(was, now, done, S) && configs.Values <= was.Keys
    ensures ViewsOf(configs, now) == Repinned(ViewsOf(configs, was), KeysOf(configs, done), S)
  {
    forall k | k in configs
      ensures configs[k] in was
    {
      assert configs[k] in configs.Values;
    }
  }

  lemma PinnedTwice(v: ConfigView, S: set<int>)
    ensures Pinned(Pinned(v, S), S) == Pinned(v, S)
  {
  }

  /** A pinned configuration denotes the set it was pinned to, and counts unless it is the infra container's. */
  lemma PinnedDenotes(v: ConfigView, S: set<int>)
    requires CpuNumbers(S) && S != {} && Rereadable(S)
    ensures CpuText(Pinned(v, S)) == CpuMask(Pinned(v, S).resources) == Canonical(S)
    ensures Meaning(CpuText(Pinned(v, S))) == Parsed(S)
    ensures Counted(Pinned(v, S)) <==> !v.isInfra
    ensures CpusIn(Pinned(v, S)) == if v.isInfra then {} else S
    ensures MemText(Pinned(v, S)) == MemText(v)
  {
    RoundTrip(S);
    PinnedText(S);
    CanonicalSolid(S);
    TrimSolid(Canonical(S));
    TextDenotes(Pinned(v, S), Canonical(S), S);
  }

  lemma TextDenotes(w: ConfigView, text: string, S: set<int>)
    requires CpuMask(w.resources) == text != "" && TrimSpace(text) == text && Meaning(text) == Parsed(S)
    ensures CpuText(w) == text && Meaning(CpuText(w)) == Parsed(S)
    ensures Counted(w) <==> !w.isInfra
    ensures CpusIn(w) == if w.isInfra then {} else S
  {
  }

  lemma CanonicalSolid(S: set<int>)
    requires CpuNumbers(S)
    ensures Solid(Canonical(S))
  {
    CanonicalIs(S);
    SortedElemsOf(S);
    RunsPlausible(SortedElems(S));
    RenderSolid(Runs(SortedElems(S)));
  }

  lemma RangeTextSolid(r: Range)
    requires Plausible(r)
    ensures Solid(RangeText(r))
  {
    NatTextPlain(r.lo);
    NatTextPlain(r.hi);
  }

  lemma {:induction false} RenderSolid(rs: seq<Range>)
    requires forall r | r in rs :: Plausible(r)
    ensures Solid(Render(rs))
  {
    if rs != [] {
      var n := |rs| - 1;
      assert forall r | r in rs[..n] :: r in rs;
      RenderSolid(rs[..n]);
      assert rs == rs[..n] + [rs[n]] && rs[n] in rs;
      RenderSnoc(rs[..n], rs[n]);
      RangeTextSolid(rs[n]);
      SolidComma(Render(rs[..n]), RangeText(rs[n]));
    }
  }

  lemma SolidComma(a: string, b: string)
    requires Solid(a) && Solid(b)
    ensures Solid(a + "," + b)
  {
  }

  /** After shared pinning to their union, the sandbox's union is still the same set. */
  lemma UnionKept(vs: Views, pinned: set<string>)
    requires var U := UnionCpus(vs, vs.Keys); Rereadable(U) && (U != {} || pinned == {})
    ensures UnionCpus(Repinned(vs, pinned, UnionCpus(vs, vs.Keys)), vs.Keys) == UnionCpus(vs, vs.Keys)
  {
    var U := UnionCpus(vs, vs.Keys);
    var ws := Repinned(vs, pinned, U);
    UnionNumbers(vs);
    forall k | k in vs
      ensures CpusIn(vs[k]) <= U && CpusIn(vs[k]) <= CpusIn(ws[k]) <= U
    {
      assert forall x | x in CpusIn(vs[k]) :: x in U;
      if k in pinned {
        PinnedDenotes(vs[k], U);
      }
    }
    forall x | x in U
      ensures x in UnionCpus(ws, vs.Keys)
    {
      var k :| k in vs && x in CpusIn(vs[k]);
      assert x in CpusIn(ws[k]);
    }
  }

  /** Memory nodes that can be read as soon as the configuration counts. */
  ghost predicate MemsFine(v: ConfigView) {
    v.isInfra || MemText(v) == "" || Meaning(MemText(v)).Parsed?
  }

  lemma ReadableAfter(vs: Views, pinned: set<string>, U: set<int>)
    requires ViewsReadable(vs, vs.Keys) && pinned <= vs.Keys
    requires CpuNumbers(U) && Rereadable(U) && (U != {} || pinned == {})
    ensures ViewsReadable(Repinned(vs, pinned, U), vs.Keys) <==> forall k | k in pinned :: MemsFine(vs[k])
  {
    var ws := Repinned(vs, pinned, U);
    forall k | k in vs
      ensures CpusReadable(ws[k])
      ensures MemsReadable(ws[k]) <==> (k in pinned ==> MemsFine(vs[k]))
    {
      assert CpusReadable(vs[k]) && MemsReadable(vs[k]);
      if k in pinned {
        PinnedDenotes(vs[k], U);
      }
    }
    if ViewsReadable(ws, vs.Keys) {
      forall k | k in pinned
        ensures MemsFine(vs[k])
      {
        assert MemsReadable(ws[k]);
      }
    }
  }

  lemma RepinnedTwice(vs: Views, pinned: set<string>, S: set<int>)
    ensures Repinned(Repinned(vs, pinned, S), pinned, S) == Repinned(vs, pinned, S)
  {
    forall k | k in vs
      ensures Pinned(Pinned(vs[k], S), S) == Pinned(vs[k], S)
    {
      PinnedTwice(vs[k], S);
    }
  }

  /** One step reaches a fixed point: computing the sandbox cpuset again succeeds and gives the same string,
      exactly when every configuration that was pinned has memory nodes that can be read. Those of
      a configuration that had no CPUs before were skipped the first time. */
  lemma SharedFixedPoint(vs: Views, pinned: set<string>, U: set<int>)
    requires ViewsReadable(vs, vs.Keys) && pinned <= vs.Keys
    requires U == UnionCpus(vs, vs.Keys) && Rereadable(U) && (U != {} || pinned == {})
    ensures var ws := Repinned(vs, pinned, U);
      && ws.Keys == vs.Keys && UnionCpus(ws, vs.Keys) == U
      && (ViewsReadable(ws, vs.Keys) <==> forall k | k in pinned :: MemsFine(vs[k]))
      && Repinned(ws, pinned, U) == ws
  {
    UnionNumbers(vs);
    UnionKept(vs, pinned);
    ReadableAfter(vs, pinned, U);
    RepinnedTwice(vs, pinned, U);
  }

  /** Two containers, one with CPUs and one with none but with unreadable memory nodes: the first run
      succeeds, and after it the cpuset can no longer be computed. */
  lemma FixedPointLost(vs: Views, a: string, b: string)
    requires vs.Keys == {a, b}
    requires CpusReadable(vs[a]) && MemsReadable(vs[a]) && CpusIn(vs[a]) != {} && Rereadable(CpusIn(vs[a]))
    requires !Counted(vs[b]) && !MemsFine(vs[b])
    ensures ViewsReadable(vs, vs.Keys) && UnionCpus(vs, vs.Keys) == CpusIn(vs[a])
    ensures !ViewsReadable(Repinned(vs, vs.Keys, UnionCpus(vs, vs.Keys)), vs.Keys)
  {
    UnionOfTwo(vs, a, b);
    assert CpusIn(vs[b]) == {};
    TwoReadable(vs, a, b);
    SharedFixedPoint(vs, vs.Keys, CpusIn(vs[a]));
  }

  lemma TwoReadable(vs: Views, a: string, b: string)
    requires vs.Keys == {a, b} && CpusReadable(vs[a]) && MemsReadable(vs[a]) && !Counted(vs[b])
    ensures ViewsReadable(vs, vs.Keys)
  {
    forall k | k in vs
      ensures k == a || k == b
    {
      assert k in vs.Keys;
    }
  }

  lemma UnionOfTwo(vs: Views, a: string, b: string)
    requires vs.Keys == {a, b}
    ensures UnionCpus(vs, vs.Keys) == CpusIn(vs[a]) + CpusIn(vs[b])
  {
    assert {} + {a} + {b} == vs.Keys;
    UnionCpusStep(vs, {}, a);
    UnionCpusStep(vs, {} + {a}, b);
  }

  /** "0-1" for the CPUs of the first and "x" for the memory nodes of the second is such a case. */
  lemma LostTexts()
    ensures Meaning(TrimSpace("0-1")) == Parsed({0, 1}) && Meaning(TrimSpace("x")).Malformed? && TrimSpace("") == ""
  {
    ReadZeroOne();
    ReadX();
  }

  lemma ReadZeroOne()
    ensures TrimSpace("0-1") == "0-1" && Meaning("0-1") == Parsed({0, 1}) && TrimSpace("") == ""
  {
    assert Solid("0-1");
    TrimSolid("0-1");
    TrimSolid("");
    SpanText();
    OneRange(Range(0, 1));
    assert Interval(0, 1) == {0, 1};
  }

  lemma SpanText()
    ensures RangeText(Range(0, 1)) == "0-1"
  {
    assert NatText(0) == "0" && NatText(1) == "1";
  }

  /** The text of one range denotes that range. */
  lemma OneRange(r: Range)
    requires Plausible(r) && r.lo < r.hi < MAX_INT
    ensures Meaning(RangeText(r)) == Parsed(Interval(r.lo, r.hi))
  {
    RangeTextReads(r);
    SplitWhole(RangeText(r), ',');
    OneGroup(GroupsOf(Split(RangeText(r), ',')), r.lo, r.hi);
  }

  lemma OneGroup(gs: seq<Group>, lo: int, hi: int)
    requires |gs| == 1 && gs[0] == Span(lo, hi) && hi < MAX_INT
    ensures Collect(gs, {}) == Parsed(Interval(lo, hi))
  {
    assert gs[1..] == [];
    assert {} + Interval(lo, hi) == Interval(lo, hi);
  }

  lemma ReadX()
    ensures TrimSpace("x") == "x" && Meaning("x") == Malformed
  {
    assert Solid("x");
    TrimSolid("x");
    SplitWhole("x", ',');
    var gs := GroupsOf(Split("x", ','));
    assert Atoi("x") == None by { assert !IsDigit("x"[0]); }
    assert gs == [Bad];
  }

  // ---------- independent pools ----------

  ghost predicate OwnReadable(v: ConfigView) {
    CpuMask(v.resources) != "" ==> Meaning(CpuMask(v.resources)).Parsed?
  }

  /** The CPUs a container asks for itself. */
  ghost function OwnCpus(v: ConfigView): set<int> {
    if CpuMask(v.resources) != "" && Meaning(CpuMask(v.resources)).Parsed? then Meaning(CpuMask(v.resources)).cpus else {}
  }

  /** A container without CPUs is left alone. */
  ghost function PinnedOwn(v: ConfigView): ConfigView {
    if CpuMask(v.resources) == "" then v else Pinned(v, OwnCpus(v))
  }

  ghost function Pool(table: Table, objects: set<ContainerConfig>): set<int> {
    set c, x | c in objects && c in table && x in OwnCpus(table[c]) :: x
  }

  lemma OwnNumbers(v: ConfigView)
    ensures CpuNumbers(OwnCpus(v))
  {
    MeaningNonNegative(CpuMask(v.resources));
  }

  /** A pinned configuration reads back to its own set, and pinning it again changes nothing,
      exactly when the set is one that the printer and the parser agree on. */
  lemma IndependentFixedPoint(v: ConfigView)
    requires OwnReadable(v) && OwnCpus(v) != {}
    ensures CpuMask(PinnedOwn(v).resources) == Canonical(OwnCpus(v))
    ensures PinnedOwn(v).vcpuNum == U32(|OwnCpus(v)|)
    ensures Meaning(CpuMask(PinnedOwn(v).resources)) == Parsed(OwnCpus(v)) <==> Rereadable(OwnCpus(v))
    ensures Rereadable(OwnCpus(v)) ==> OwnCpus(PinnedOwn(v)) == OwnCpus(v) && PinnedOwn(PinnedOwn(v)) == PinnedOwn(v)
  {
    OwnNumbers(v);
    RoundTrip(OwnCpus(v));
    PinnedText(OwnCpus(v));
    PinnedTwice(v, OwnCpus(v));
  }

  /** The container asks for no CPUs, or for a list that can be read and is not empty. */
  ghost predicate OwnReady(v: ConfigView) {
    OwnReadable(v) && (CpuMask(v.resources) != "" ==> OwnCpus(v) != {})
  }

  ghost predicate AllOwnReady(table: Table, objects: set<ContainerConfig>) {
    forall c | c in objects && c in table :: OwnReady(table[c])
  }

  ghost predicate Settled(was: ConfigView, now: ConfigView) {
    now == PinnedOwn(was) && OwnReady(was)
  }

  /** The objects of done have been pinned to their own CPUs and the others are what they were. */
  ghost predicate OwnProgress(was: Table, now: Table, done: set<ContainerConfig>) {
    now.Keys == was.Keys && forall c | c in was :: if c in done then Settled(was[c], now[c]) else now[c] == was[c]
  }

  /** The list a container asks for is never read to its end. */
  ghost predicate Endless(v: ConfigView) {
    CpuMask(v.resources) != "" && Meaning(CpuMask(v.resources)).NeverReturns?
  }

  lemma OwnPinned(v: ConfigView, S: set<int>)
    requires CpuMask(v.resources) != "" && Meaning(CpuMask(v.resources)) == Parsed(S)
    ensures S == OwnCpus(v) && (S != {} <==> OwnReady(v))
    ensures S != {} ==> Settled(v, Pinned(v, S))
  {
  }

  lemma OwnStep(was: Table, now: Table, done: set<ContainerConfig>, c: ContainerConfig, v: ConfigView)
    requires OwnProgress(was, now, done) && c in was && Settled(was[c], v)
    ensures OwnProgress(was, now[c := v], done + {c})
  {
  }

  // ---------- either way ----------

  /** The objects of done are pinned, to S or to their own CPUs. */
  ghost predicate PinnedTo(was: Table, now: Table, done: set<ContainerConfig>, shared: bool, S: set<int>) {
    if shared then Progress(was, now, done, S) else OwnProgress(was, now, done)
  }

  ghost function PinnedTable(was: Table, done: set<ContainerConfig>, shared: bool, S: set<int>): Table {
    map c | c in was :: if c in done then (if shared then Pinned(was[c], S) else PinnedOwn(was[c])) else was[c]
  }

  lemma PinnedTableIs(was: Table, now: Table, done: set<ContainerConfig>, shared: bool, S: set<int>)
    requires PinnedTo(was, now, done, shared, S)
    ensures now == PinnedTable(was, done, shared, S)
  {
    if !shared {
      assert forall c | c in was && c in done :: Settled(was[c], now[c]);
    }
  }

  lemma PinnedTableTwice(was: Table, done: set<ContainerConfig>, S: set<int>)
    ensures PinnedTable(PinnedTable(was, done, true, S), done, true, S) == PinnedTable(was, done, true, S)
  {
    forall c | c in was
      ensures Pinned(Pinned(was[c], S), S) == Pinned(was[c], S)
    {
      PinnedTwice(was[c], S);
    }
  }

  /** Once is enough for independent pools too: each pinned configuration keeps its own set, under its canonical
      text and with its size as the number of vCPUs, and pinning again changes no configuration. */
  lemma OwnFixedPoint(was: Table, done: set<ContainerConfig>, S: set<int>)
    requires AllOwnReady(was, done)
    requires forall c | c in done && c in was :: Rereadable(OwnCpus(was[c]))
    ensures var now := PinnedTable(was, done, false, S);
      && AllOwnReady(now, done) && PinnedTable(now, done, false, S) == now
      && (forall c | c in was :: OwnCpus(now[c]) == OwnCpus(was[c]))
      && (forall c | c in was && c in done && CpuMask(was[c].resources) != "" ::
            CpuMask(now[c].resources) == Canonical(OwnCpus(was[c])) && now[c].vcpuNum == U32(|OwnCpus(was[c])|))
  {
    forall c | c in was && c in done
      ensures var w, own := PinnedOwn(was[c]), OwnCpus(was[c]);
        && OwnReady(w) && PinnedOwn(w) == w && OwnCpus(w) == own
        && (CpuMask(was[c].resources) != "" ==> CpuMask(w.resources) == Canonical(own) && w.vcpuNum == U32(|own|))
    {
      assert OwnReady(was[c]);
      if CpuMask(was[c].resources) != "" {
        IndependentFixedPoint(was[c]);
      }
    }
  }

  lemma PoolStep(table: Table, objects: set<ContainerConfig>, c: ContainerConfig)
    requires c in table
    ensures Pool(table, objects + {c}) == Pool(table, objects) + OwnCpus(table[c])
  {
    var a, b := Pool(table, objects + {c}), Pool(table, objects) + OwnCpus(table[c]);
    assert forall x | x in a :: x in b;
    assert forall o | o in objects :: o in objects + {c};
    assert forall x | x in b :: x in a;
  }
}
