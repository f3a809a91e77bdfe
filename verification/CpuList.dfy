/** The list format of cpuset(7), "0,2-5": what a text denotes, how a set is printed,
    and the laws that tie the two together. */
module CpuList {
  import opened Wrappers
  import opened Text

  // ---------- reading ----------

  function Interval(lo: int, hi: int): (r: set<int>)
    ensures forall x :: x in r <==> lo <= x <= hi
    decreases hi - lo
  {
    if lo > hi then {} else Interval(lo, hi - 1) + {hi}
  }

  /** One comma-separated group. A Span comes from the dashed form, which the reader unrolls CPU by CPU. */
  datatype Group = Blank | Bad | Single(cpu: int) | Span(lo: int, hi: int) {
    function Cpus(): set<int> {
      match this
      case Single(n) => {n}
      case Span(lo, hi) => Interval(lo, hi)
      case _ => {}
    }

    /** `for i := start; i <= end; i++` never leaves the loop when end is the largest int: i++ wraps. */
    predicate Endless() {
      Span? && hi == MAX_INT
    }

    predicate Readable() {
      !Bad? && !Endless()
    }
  }

  /** A range is two numbers with a dash in between. */
  function ReadGroup(part: string): Group
    decreases |part|, 1
  {
    TrimShortens(part);
    ReadTrimmed(TrimSpace(part))
  }

  function ReadTrimmed(g: string): Group
    decreases |g|, 0
  {
    if g == "" then Blank
    else if '-' in g then
      var ends := Split(g, '-');
      if |ends| != 2 then Bad
      else
        SplitShortens(g, '-');
        match (ReadGroup(ends[0]), ReadGroup(ends[1]))
        case (Single(lo), Single(hi)) => if lo > hi then Bad else Span(lo, hi)
        case _ => Bad
    else
      match Atoi(g)
      case Some(n) => Single(n)
      case None => Bad
  }

  lemma ReadEnd(end: string)
    requires '-' !in end
    ensures Atoi(TrimSpace(end)).Some? ==> ReadGroup(end) == Single(Atoi(TrimSpace(end)).value)
    ensures Atoi(TrimSpace(end)).None? ==> !ReadGroup(end).Single?
  {
    TrimKeepsOut(end, '-');
    assert ReadGroup(end) == ReadTrimmed(TrimSpace(end));
  }

  /** How the two readers go about it. */
  lemma GroupRead(part: string)
    ensures var g := TrimSpace(part); var ends := Split(g, '-');
      && (g == "" ==> ReadGroup(part) == Blank)
      && ('-' in g && |ends| != 2 ==> ReadGroup(part) == Bad)
      && ('-' in g && |ends| == 2 ==>
            var lo, hi := Atoi(TrimSpace(ends[0])), Atoi(TrimSpace(ends[1]));
            ReadGroup(part) == if lo.Some? && hi.Some? && lo.value <= hi.value then Span(lo.value, hi.value) else Bad)
      && (g != "" && '-' !in g ==> ReadGroup(part) == if Atoi(g).Some? then Single(Atoi(g).value) else Bad)
  {
    var g := TrimSpace(part);
    assert ReadGroup(part) == ReadTrimmed(g);
    if '-' in g && |Split(g, '-')| == 2 {
      var ends := Split(g, '-');
      assert ends[0] in ends && ends[1] in ends;
      ReadEnd(ends[0]);
      ReadEnd(ends[1]);
    }
  }

  datatype Outcome<+T> = Parsed(cpus: T) | Malformed | NeverReturns

  function GroupsOf(parts: seq<string>): (gs: seq<Group>)
    ensures |gs| == |parts| && forall i | 0 <= i < |gs| :: gs[i] == ReadGroup(parts[i])
  {
    seq(|parts|, i requires 0 <= i < |parts| => ReadGroup(parts[i]))
  }

  /** Taking the groups in order on top of the CPUs seen so far; the first group that fails decides. */
  function Collect(gs: seq<Group>, seen: set<int>): Outcome<set<int>> {
    if gs == [] then Parsed(seen)
    else if gs[0].Bad? then Malformed
    else if gs[0].Endless() then NeverReturns
    else Collect(gs[1..], seen + gs[0].Cpus())
  }

  /** What cpuset.Parse makes of a text. */
  function Meaning(s: string): Outcome<set<int>> {
    if s == "" then Parsed({}) else Collect(GroupsOf(Split(s, ',')), {})
  }

  predicate AllReadable(gs: seq<Group>) {
    forall i | 0 <= i < |gs| :: gs[i].Readable()
  }

  function UnionOf(gs: seq<Group>): set<int> {
    if gs == [] then {} else UnionOf(gs[..|gs| - 1]) + gs[|gs| - 1].Cpus()
  }

  lemma {:induction false} UnionOfMember(gs: seq<Group>, x: int)
    ensures x in UnionOf(gs) <==> exists i :: 0 <= i < |gs| && x in gs[i].Cpus()
  {
    if gs != [] {
      UnionOfMember(gs[..|gs| - 1], x);
    }
  }

  lemma {:induction false} UnionOfCons(gs: seq<Group>)
    requires gs != []
    ensures UnionOf(gs) == gs[0].Cpus() + UnionOf(gs[1..])
  {
    var n := |gs| - 1;
    if n > 0 {
      UnionOfCons(gs[..n]);
      assert gs[..n][1..] == gs[1..][..n - 1];
    } else {
      assert gs[..0] == [] && gs[1..] == [];
    }
  }

  /** Parsing succeeds exactly when every group is readable, and then yields the union of the groups. */
  lemma {:induction false} CollectMeaning(gs: seq<Group>, seen: set<int>)
    ensures Collect(gs, seen).Parsed? <==> AllReadable(gs)
    ensures AllReadable(gs) ==> Collect(gs, seen) == Parsed(seen + UnionOf(gs))
  {
    if gs == [] {
      assert seen + UnionOf(gs) == seen;
    } else {
      CollectMeaning(gs[1..], seen + gs[0].Cpus());
      UnionOfCons(gs);
      assert AllReadable(gs) <==> gs[0].Readable() && AllReadable(gs[1..]) by {
        assert forall i | 0 <= i < |gs| - 1 :: gs[1..][i] == gs[i + 1];
        assert AllReadable(gs) ==> gs[0].Readable();
        assert forall i | 1 <= i < |gs| :: gs[i] == gs[1..][i - 1];
      }
      assert seen + gs[0].Cpus() + UnionOf(gs[1..]) == seen + UnionOf(gs);
    }
  }

  /** Atoi takes signs, yet no group ever names a negative CPU: a minus sign is always read as a dash. */
  lemma GroupCpusNonNegative(part: string)
    ensures forall x | x in ReadGroup(part).Cpus() :: 0 <= x <= MAX_INT
  {
    GroupRead(part);
    var g := TrimSpace(part);
    if g != "" && '-' in g && |Split(g, '-')| == 2 {
      var ends := Split(g, '-');
      assert ends[0] in ends && ends[1] in ends;
      TrimKeepsOut(ends[0], '-');
      TrimKeepsOut(ends[1], '-');
      AtoiUnsigned(TrimSpace(ends[0]));
    } else if g != "" && '-' !in g {
      AtoiUnsigned(g);
    }
  }

  lemma MeaningNonNegative(s: string)
    ensures Meaning(s).Parsed? ==> forall x | x in Meaning(s).cpus :: 0 <= x <= MAX_INT
  {
    var parts := Split(s, ',');
    var gs := GroupsOf(parts);
    CollectMeaning(gs, {});
    if Meaning(s).Parsed? && s != "" {
      forall x | x in Meaning(s).cpus
        ensures 0 <= x <= MAX_INT
      {
        UnionOfMember(gs, x);
        var i :| 0 <= i < |gs| && x in gs[i].Cpus();
        GroupCpusNonNegative(parts[i]);
      }
    }
  }

  // ---------- sorting ----------

  ghost predicate Sorted(s: seq<int>) {
    forall i, j | 0 <= i < j < |s| :: s[i] <= s[j]
  }

  ghost predicate Increasing(s: seq<int>) {
    forall i, j | 0 <= i < j < |s| :: s[i] < s[j]
  }

  ghost function Elems(s: seq<int>): set<int> {
    set x | x in s
  }

  function Insert(x: int, s: seq<int>): (r: seq<int>)
    ensures multiset(r) == multiset(s) + multiset{x}
  {
    if s == [] || x <= s[0] then
      [x] + s
    else
      assert s == [s[0]] + s[1..];
      [s[0]] + Insert(x, s[1..])
  }

  lemma SortedCons(x: int, s: seq<int>)
    requires Sorted(s) && forall y | y in s :: x <= y
    ensures Sorted([x] + s)
  {
    var t := [x] + s;
    forall i, j | 0 <= i < j < |t|
      ensures t[i] <= t[j]
    {
      assert t[j] == s[j - 1] && s[j - 1] in s;
      assert i > 0 ==> t[i] == s[i - 1];
    }
  }

  lemma InsertMembers(x: int, s: seq<int>)
    ensures forall y | y in Insert(x, s) :: y == x || y in s
  {
    forall y | y in Insert(x, s)
      ensures y == x || y in s
    {
      assert y in multiset(s) + multiset{x};
    }
  }

  lemma HeadSmallest(s: seq<int>)
    requires Sorted(s) && s != []
    ensures Sorted(s[1..]) && forall y | y in s :: s[0] <= y
  {
  }

  lemma {:induction false} InsertSorted(x: int, s: seq<int>)
    requires Sorted(s)
    ensures Sorted(Insert(x, s))
  {
    if s == [] {
      SortedCons(x, s);
    } else {
      HeadSmallest(s);
      if x <= s[0] {
        SortedCons(x, s);
      } else {
        InsertSorted(x, s[1..]);
        InsertMembers(x, s[1..]);
        SortedCons(s[0], Insert(x, s[1..]));
      }
    }
  }

  /** sort.Ints */
  function SortInts(s: seq<int>): (r: seq<int>)
    ensures Sorted(r) && multiset(r) == multiset(s)
  {
    if s == [] then []
    else
      assert s == [s[0]] + s[1..];
      InsertSorted(s[0], SortInts(s[1..]));
      Insert(s[0], SortInts(s[1..]))
  }

  lemma SameHead(a: seq<int>, b: seq<int>)
    requires Sorted(a) && Sorted(b) && multiset(a) == multiset(b) && a != []
    ensures b != [] && a[0] == b[0]
  {
    assert a[0] in multiset(b);
    assert b[0] in multiset(a);
    var i :| 0 <= i < |b| && b[i] == a[0];
    var j :| 0 <= j < |a| && a[j] == b[0];
    assert b[0] <= b[i] && a[0] <= a[j];
  }

  lemma HeadTail(s: seq<int>)
    requires s != []
    ensures s == [s[0]] + s[1..] && multiset(s[1..]) == multiset(s) - multiset{s[0]}
  {
    assert s == [s[0]] + s[1..];
  }

  lemma SortedTail(s: seq<int>)
    requires s != [] && Sorted(s)
    ensures Sorted(s[1..])
  {
  }

  /** Sorted sequences with the same elements are the same sequence. */
  lemma {:induction false} SortedUnique(a: seq<int>, b: seq<int>)
    requires Sorted(a) && Sorted(b) && multiset(a) == multiset(b)
    ensures a == b
  {
    if a == [] {
      assert |multiset(b)| == 0;
    } else {
      SameHead(a, b);
      HeadTail(a);
      HeadTail(b);
      SortedTail(a);
      SortedTail(b);
      SortedUnique(a[1..], b[1..]);
    }
  }

  ghost function AnyOrder(S: set<int>): (r: seq<int>)
    ensures multiset(r) == multiset(S)
  {
    if S == {} then []
    else
      var x := Choose(S);
      assert multiset(S) == multiset(S - {x}) + multiset{x};
      AnyOrder(S - {x}) + [x]
  }

  /** The CPUs of a set in increasing order. */
  ghost function SortedElems(S: set<int>): (r: seq<int>)
    ensures Sorted(r) && multiset(r) == multiset(S)
  {
    SortInts(AnyOrder(S))
  }

  lemma SortedElemsOf(S: set<int>)
    ensures Increasing(SortedElems(S)) && Elems(SortedElems(S)) == S && |SortedElems(S)| == |S|
  {
    NoDuplicates(SortedElems(S), S);
  }

  lemma CountedTwice(r: seq<int>, i: int, j: int)
    requires 0 <= i < j < |r| && r[i] == r[j]
    ensures multiset(r)[r[i]] >= 2
  {
    assert r == r[..j] + [r[j]] + r[j + 1..];
    assert r[i] == r[..j][i];
    assert multiset(r) == multiset(r[..j]) + multiset{r[j]} + multiset(r[j + 1..]);
  }

  lemma NoDuplicates(r: seq<int>, S: set<int>)
    requires Sorted(r) && multiset(r) == multiset(S)
    ensures Increasing(r) && Elems(r) == S && |r| == |S|
  {
    forall i, j | 0 <= i < j < |r|
      ensures r[i] < r[j]
    {
      if r[i] == r[j] {
        CountedTwice(r, i, j);
      }
    }
    assert |multiset(r)| == |r| && |multiset(S)| == |S|;
    assert forall x :: x in r <==> x in multiset(r);
  }

  lemma ElemsSnoc(s: seq<int>, x: int)
    ensures Elems(s + [x]) == Elems(s) + {x}
  {
  }

  lemma TakeAll<T>(s: seq<T>)
    ensures s[..|s|] == s
  {
  }

  lemma TakeLast<T>(s: seq<T>)
    requires s != []
    ensures s == s[..|s| - 1] + [s[|s| - 1]]
  {
  }

  lemma {:induction false} IncreasingMultiset(s: seq<int>)
    requires Increasing(s)
    ensures multiset(s) == multiset(Elems(s))
  {
    if s != [] {
      var n := |s| - 1;
      var init := s[..n];
      IncreasingMultiset(init);
      TakeLast(s);
      ElemsSnoc(init, s[n]);
      assert s[n] !in Elems(init);
      MultisetAdd(Elems(init), s[n]);
      MultisetSnoc(init, s[n]);
    }
  }

  lemma MultisetAdd(S: set<int>, x: int)
    requires x !in S
    ensures multiset(S + {x}) == multiset(S) + multiset{x}
  {
  }

  lemma MultisetSnoc(s: seq<int>, x: int)
    ensures multiset(s + [x]) == multiset(s) + multiset{x}
  {
  }

  // ---------- printing ----------

  datatype Range = Range(lo: int, hi: int)

  /** One more element: it extends the last range when it comes right after it, else begins a new one. */
  function AddTo(rs: seq<Range>, x: int): (r: seq<Range>)
    ensures r != [] && r[|r| - 1].hi == x
  {
    var m := |rs| - 1;
    if m >= 0 && rs[m].hi + 1 == x then rs[..m] + [Range(rs[m].lo, x)] else rs + [Range(x, x)]
  }

  /** Consecutive elements merged into ranges, from left to right. */
  function Runs(s: seq<int>): (rs: seq<Range>)
    ensures s == [] <==> rs == []
    ensures s != [] ==> rs[|rs| - 1].hi == s[|s| - 1]
  {
    if s == [] then [] else AddTo(Runs(s[..|s| - 1]), s[|s| - 1])
  }

  /** What a printing loop has read so far: the finished ranges and the one still open. */
  datatype Scan = Scan(done: seq<Range>, lo: int, hi: int) {
    function Next(x: int): Scan {
      if x == hi + 1 then Scan(done, lo, x) else Scan(done + [Range(lo, hi)], x, x)
    }

    function Ranges(): seq<Range> {
      done + [Range(lo, hi)]
    }
  }

  function Scanned(s: seq<int>): Scan
    requires s != []
  {
    if |s| == 1 then Scan([], s[0], s[0]) else Scanned(s[..|s| - 1]).Next(s[|s| - 1])
  }

  lemma ScannedNext(s: seq<int>, i: nat)
    requires 0 < i < |s|
    ensures Scanned(s[..i + 1]) == Scanned(s[..i]).Next(s[i])
  {
    assert s[..i + 1][..i] == s[..i];
  }

  lemma NextAdds(c: Scan, x: int)
    ensures c.Next(x).Ranges() == AddTo(c.Ranges(), x)
  {
    assert c.Ranges()[..|c.done|] == c.done;
  }

  /** The ranges of a list that has been read to its end. */
  lemma {:induction false} ScannedRuns(s: seq<int>)
    requires s != []
    ensures Scanned(s).Ranges() == Runs(s)
  {
    var n := |s| - 1;
    if n > 0 {
      ScannedRuns(s[..n]);
      NextAdds(Scanned(s[..n]), s[n]);
    }
  }

  function RangeText(r: Range): string {
    if r.lo == r.hi then Itoa(r.lo) else Itoa(r.lo) + "-" + Itoa(r.hi)
  }

  function Texts(rs: seq<Range>): (ts: seq<string>)
    ensures |ts| == |rs| && forall i | 0 <= i < |rs| :: ts[i] == RangeText(rs[i])
  {
    if rs == [] then [] else Texts(rs[..|rs| - 1]) + [RangeText(rs[|rs| - 1])]
  }

  function Render(rs: seq<Range>): string {
    Join(Texts(rs), ',')
  }

  ghost function Top(S: set<int>): (m: int)
    requires S != {}
    ensures m in S && forall x | x in S :: x <= m
    decreases S
  {
    var x := Choose(S);
    if S == {x} then x
    else
      assert forall y | y in S :: y == x || y in S - {x};
      var rest := Top(S - {x});
      if x > rest then x else rest
  }

  function Below(S: set<int>, x: int): set<int> {
    set y | y in S && y < x
  }

  /** The text of a set of CPUs, from its largest one down: the last run of consecutive CPUs, and before it the text of
      what lies below. */
  ghost function Canonical(S: set<int>): string
    decreases S, 1
  {
    if S == {} then "" else RunDown(S, Top(S), Top(S))
  }

  /** The run that ends at hi has been followed down to lo. */
  ghost function RunDown(S: set<int>, lo: int, hi: int): string
    requires lo in S
    decreases S, 0, Below(S, lo)
  {
    if lo - 1 in S then
      assert lo - 1 in Below(S, lo) && lo - 1 !in Below(S, lo - 1);
      RunDown(S, lo - 1, hi)
    else if Below(S, lo) == {} then RangeText(Range(lo, hi))
    else
      assert lo !in Below(S, lo);
      Canonical(Below(S, lo)) + "," + RangeText(Range(lo, hi))
  }

  function GroupOf(r: Range): Group {
    if r.lo == r.hi then Single(r.lo) else Span(r.lo, r.hi)
  }

  ghost predicate Plausible(r: Range) {
    0 <= r.lo <= r.hi <= MAX_INT
  }

  lemma NatTextPlain(n: nat)
    ensures ',' !in Itoa(n) && '-' !in Itoa(n) && Solid(Itoa(n))
  {
    DigitsAreSolid(NatText(n));
  }

  lemma SplitPair(a: string, b: string)
    requires '-' !in a && '-' !in b
    ensures Split(a + "-" + b, '-') == [a, b]
  {
    SplitAfter(a, '-', b);
    SplitWhole(b, '-');
    assert a + ['-'] + b == a + "-" + b;
  }

  lemma RangeGroup(part: string, a: string, b: string)
    requires TrimSpace(part) == a + "-" + b && '-' !in a && '-' !in b
    ensures var lo, hi := Atoi(TrimSpace(a)), Atoi(TrimSpace(b));
      ReadGroup(part) == if lo.Some? && hi.Some? && lo.value <= hi.value then Span(lo.value, hi.value) else Bad
  {
    SplitPair(a, b);
    DashIn(a, b);
    GroupRead(part);
  }

  lemma DashIn(a: string, b: string)
    ensures '-' in a + "-" + b
  {
    assert (a + "-" + b)[|a|] == '-';
  }

  lemma SpanSolid(a: string, b: string)
    requires Solid(a) && Solid(b)
    ensures Solid(a + "-" + b) && TrimSpace(a + "-" + b) == a + "-" + b && '-' in a + "-" + b
  {
    var t := a + "-" + b;
    assert Solid(t);
    assert t[|a|] == '-';
    TrimSolid(t);
  }

  lemma SpanReads(a: string, b: string)
    requires Solid(a) && Solid(b) && '-' !in a && '-' !in b
    requires Atoi(a).Some? && Atoi(b).Some? && Atoi(a).value < Atoi(b).value
    ensures ReadGroup(a + "-" + b) == Span(Atoi(a).value, Atoi(b).value)
  {
    SpanSolid(a, b);
    RangeGroup(a + "-" + b, a, b);
    TrimSolid(a);
    TrimSolid(b);
  }

  /** One printed range reads back as that range. */
  lemma RangeTextReads(r: Range)
    requires Plausible(r)
    ensures ReadGroup(RangeText(r)) == GroupOf(r) && ',' !in RangeText(r) && RangeText(r) != ""
  {
    NatTextPlain(r.lo);
    NatTextPlain(r.hi);
    AtoiItoa(r.lo);
    AtoiItoa(r.hi);
    if r.lo == r.hi {
      TrimSolid(Itoa(r.lo));
      GroupRead(Itoa(r.lo));
    } else {
      SpanReads(Itoa(r.lo), Itoa(r.hi));
    }
  }

  lemma RenderSplits(rs: seq<Range>)
    requires rs != [] && forall r | r in rs :: Plausible(r)
    ensures Render(rs) != "" && Split(Render(rs), ',') == Texts(rs)
  {
    forall t | t in Texts(rs)
      ensures ',' !in t
    {
      var i :| 0 <= i < |rs| && t == RangeText(rs[i]);
      RangeTextReads(rs[i]);
    }
    SplitJoin(Texts(rs), ',');
    RangeTextReads(rs[0]);
    assert Texts(rs)[0] == RangeText(rs[0]) != "";
  }

  lemma RenderSnoc(rs: seq<Range>, r: Range)
    ensures Render(rs + [r]) == if rs == [] then RangeText(r) else Render(rs) + "," + RangeText(r)
  {
    assert (rs + [r])[..|rs|] == rs;
    if rs == [] {
      assert Texts([r]) == [RangeText(r)];
    } else {
      JoinSnoc(Texts(rs), RangeText(r), ',');
    }
  }

  /** What is printed before a further range. */
  function Before(rs: seq<Range>): string {
    if rs == [] then "" else Render(rs) + ","
  }

  lemma BeforeSnoc(rs: seq<Range>, r: Range)
    ensures Render(rs + [r]) == Before(rs) + RangeText(r)
    ensures Before(rs + [r]) == Before(rs) + RangeText(r) + ","
  {
    RenderSnoc(rs, r);
  }

  function RangesSet(rs: seq<Range>): set<int> {
    if rs == [] then {} else RangesSet(rs[..|rs| - 1]) + Interval(rs[|rs| - 1].lo, rs[|rs| - 1].hi)
  }

  lemma RunsStep(s: seq<int>)
    requires |s| >= 2
    ensures var n := |s| - 1; var prev := Runs(s[..n]);
      Runs(s) == if s[n] == s[n - 1] + 1 then prev[..|prev| - 1] + [Range(prev[|prev| - 1].lo, s[n])]
                 else prev + [Range(s[n], s[n])]
  {
  }

  lemma RangesSetSnoc(rs: seq<Range>, r: Range)
    ensures RangesSet(rs + [r]) == RangesSet(rs) + Interval(r.lo, r.hi)
  {
    assert (rs + [r])[..|rs|] == rs;
  }

  ghost predicate Within(r: Range, s: seq<int>) {
    r.lo <= r.hi && r.lo in s && r.hi in s
  }

  lemma IntervalGrows(lo: int, hi: int)
    requires lo <= hi + 1
    ensures Interval(lo, hi + 1) == Interval(lo, hi) + {hi + 1}
  {
  }

  lemma LastGrows(done: seq<Range>, r: Range, x: int)
    requires r.lo <= r.hi && x == r.hi + 1
    ensures RangesSet(AddTo(done + [r], x)) == RangesSet(done + [r]) + {x}
  {
    AddToLast(done, r, x);
    RangesSetSnoc(done, r);
    RangesSetSnoc(done, Range(r.lo, x));
    IntervalGrows(r.lo, r.hi);
    UnionApart(RangesSet(done), Interval(r.lo, r.hi), x);
  }

  lemma AddToLast(done: seq<Range>, r: Range, x: int)
    requires x == r.hi + 1
    ensures AddTo(done + [r], x) == done + [Range(r.lo, x)]
  {
    assert (done + [r])[..|done|] == done;
  }

  lemma UnionApart(S: set<int>, T: set<int>, x: int)
    ensures S + (T + {x}) == S + T + {x}
  {
  }

  lemma AddToCovers(rs: seq<Range>, x: int)
    requires rs != [] ==> rs[|rs| - 1].lo <= rs[|rs| - 1].hi
    ensures RangesSet(AddTo(rs, x)) == RangesSet(rs) + {x}
  {
    var m := |rs| - 1;
    if m >= 0 && rs[m].hi + 1 == x {
      TakeLast(rs);
      LastGrows(rs[..m], rs[m], x);
    } else {
      RangesSetSnoc(rs, Range(x, x));
      OneInterval(x);
    }
  }

  lemma OneInterval(x: int)
    ensures Interval(x, x) == {x}
  {
  }

  lemma AddToWithin(rs: seq<Range>, seen: seq<int>, x: int, r: Range)
    requires (forall q | q in rs :: Within(q, seen)) && r in AddTo(rs, x)
    ensures Within(r, seen + [x])
  {
    var m := |rs| - 1;
    if r in rs {
      assert Within(r, seen);
    } else if m >= 0 && rs[m].hi + 1 == x {
      assert Within(rs[m], seen);
      assert r == Range(rs[m].lo, x);
    } else {
      assert r == Range(x, x);
    }
  }

  lemma RunsSnoc(init: seq<int>, x: int)
    ensures Runs(init + [x]) == AddTo(Runs(init), x)
  {
    assert (init + [x])[..|init|] == init;
  }

  lemma {:induction false} RunsWithin(s: seq<int>, r: Range)
    requires r in Runs(s)
    ensures Within(r, s)
    decreases |s|
  {
    var init, x := s[..|s| - 1], s[|s| - 1];
    forall q | q in Runs(init)
      ensures Within(q, init)
    {
      RunsWithin(init, q);
    }
    TakeLast(s);
    RunsSnoc(init, x);
    AddToWithin(Runs(init), init, x, r);
  }

  /** The ranges printed for any list, sorted or not, cover exactly its elements. */
  lemma {:induction false} RunsCover(s: seq<int>)
    ensures RangesSet(Runs(s)) == Elems(s)
    ensures forall r | r in Runs(s) :: Within(r, s)
  {
    forall r | r in Runs(s)
      ensures Within(r, s)
    {
      RunsWithin(s, r);
    }
    if s != [] {
      var init, x := s[..|s| - 1], s[|s| - 1];
      RunsCover(init);
      TakeLast(s);
      RunsSnoc(init, x);
      LastWithin(Runs(init), init);
      AddToCovers(Runs(init), x);
      ElemsSnoc(init, x);
    }
  }

  lemma LastWithin(rs: seq<Range>, s: seq<int>)
    requires forall r | r in rs :: Within(r, s)
    ensures rs != [] ==> rs[|rs| - 1].lo <= rs[|rs| - 1].hi
  {
    assert rs != [] ==> Within(rs[|rs| - 1], s);
  }

  function RangeGroups(rs: seq<Range>): (gs: seq<Group>)
    ensures |gs| == |rs| && forall i | 0 <= i < |gs| :: gs[i] == GroupOf(rs[i])
  {
    seq(|rs|, i requires 0 <= i < |rs| => GroupOf(rs[i]))
  }

  /** Printed ranges of non-negative CPUs are read back group by group. */
  lemma RenderReads(rs: seq<Range>)
    requires rs != [] && forall r | r in rs :: Plausible(r)
    ensures Render(rs) != "" && GroupsOf(Split(Render(rs), ',')) == RangeGroups(rs)
  {
    RenderSplits(rs);
    forall i | 0 <= i < |rs|
      ensures ReadGroup(Texts(rs)[i]) == GroupOf(rs[i])
    {
      RangeTextReads(rs[i]);
    }
  }

  lemma {:induction false} RangeGroupsDenote(rs: seq<Range>)
    ensures UnionOf(RangeGroups(rs)) == RangesSet(rs)
  {
    if rs != [] {
      var n := |rs| - 1;
      RangeGroupsDenote(rs[..n]);
      assert RangeGroups(rs)[..n] == RangeGroups(rs[..n]);
      assert GroupOf(rs[n]).Cpus() == Interval(rs[n].lo, rs[n].hi);
    }
  }

  // ---------- the text of a set is the text of its sorted list ----------

  /** The open range of a scan is the last run of the list: it begins at index j. */
  ghost predicate OpensAt(s: seq<int>, j: nat) {
    && j < |s| && Scanned(s) == Scan(Runs(s[..j]), s[j], s[|s| - 1])
    && s[|s| - 1] - s[j] == |s| - 1 - j && (j > 0 ==> s[j - 1] < s[j] - 1)
  }

  lemma {:induction false} ScanShape(s: seq<int>) returns (j: nat)
    requires Increasing(s) && s != []
    ensures OpensAt(s, j)
  {
    var n := |s| - 1;
    if n == 0 {
      j := 0;
    } else {
      j := ScanShape(s[..n]);
      TakeTake(s, j, n);
      if s[n] != s[n - 1] + 1 {
        ScannedRuns(s[..n]);
        j := n;
      }
    }
  }

  lemma TakeTake(s: seq<int>, j: nat, n: nat)
    requires j <= n <= |s|
    ensures s[..n][..j] == s[..j]
  {
  }

  lemma TopOf(s: seq<int>)
    requires Increasing(s) && s != []
    ensures Elems(s) != {} && Top(Elems(s)) == s[|s| - 1]
  {
    assert s[|s| - 1] in Elems(s);
    var m := Top(Elems(s));
    var i :| 0 <= i < |s| && s[i] == m;
  }

  lemma BelowOf(s: seq<int>, j: nat)
    requires Increasing(s) && j < |s|
    ensures Below(Elems(s), s[j]) == Elems(s[..j])
  {
    forall x | x in Below(Elems(s), s[j])
      ensures x in Elems(s[..j])
    {
      var i :| 0 <= i < |s| && s[i] == x;
      assert x == s[..j][i];
    }
  }

  /** A run may be followed down from any of its CPUs. */
  lemma {:induction false} DownTo(S: set<int>, lo: int, x: int, hi: int)
    requires lo <= x && forall y | lo <= y <= x :: y in S
    ensures RunDown(S, x, hi) == RunDown(S, lo, hi)
    decreases x - lo
  {
    if lo < x {
      DownTo(S, lo, x - 1, hi);
    }
  }

  lemma {:induction false} Spread(s: seq<int>, j: nat, i: nat)
    requires Increasing(s) && j <= i < |s|
    ensures s[i] - s[j] >= i - j
  {
    if j < i {
      Spread(s, j, i - 1);
    }
  }

  lemma RunSolid(s: seq<int>, j: nat)
    requires Increasing(s) && j < |s| && s[|s| - 1] - s[j] == |s| - 1 - j
    ensures forall y | s[j] <= y <= s[|s| - 1] :: y in Elems(s)
  {
    forall y | s[j] <= y <= s[|s| - 1]
      ensures y in Elems(s)
    {
      var i := j + (y - s[j]);
      Spread(s, j, i);
      Spread(s, i, |s| - 1);
      assert s[i] in s;
    }
  }

  lemma GapBelow(s: seq<int>, j: nat)
    requires Increasing(s) && j < |s| && (j > 0 ==> s[j - 1] < s[j] - 1)
    ensures s[j] - 1 !in Elems(s)
  {
    forall i | 0 <= i < |s|
      ensures s[i] != s[j] - 1
    {
      if i < j {
        assert s[i] <= s[j - 1];
      }
    }
  }

  /** Printing from the left, as the loops do, gives the same text. */
  lemma {:induction false} CanonicalOf(s: seq<int>)
    requires Increasing(s)
    ensures Canonical(Elems(s)) == Render(Runs(s))
    decreases |s|
  {
    if s == [] {
      assert Elems(s) == {};
    } else {
      var j := ScanShape(s);
      TakeIncreasing(s, j);
      CanonicalOf(s[..j]);
      ScannedRuns(s);
      LastRun(s, j);
      FromTop(s, j);
    }
  }

  lemma TakeIncreasing(s: seq<int>, j: nat)
    requires Increasing(s) && j <= |s|
    ensures Increasing(s[..j])
  {
  }

  lemma FromTop(s: seq<int>, j: nat)
    requires Increasing(s) && j < |s| && s[|s| - 1] - s[j] == |s| - 1 - j && s[j] in Elems(s)
    ensures Canonical(Elems(s)) == RunDown(Elems(s), s[j], s[|s| - 1])
  {
    TopOf(s);
    RunSolid(s, j);
    Spread(s, j, |s| - 1);
    DownTo(Elems(s), s[j], s[|s| - 1], s[|s| - 1]);
  }

  lemma LastRun(s: seq<int>, j: nat)
    requires Increasing(s) && j < |s| && (j > 0 ==> s[j - 1] < s[j] - 1)
    requires Canonical(Elems(s[..j])) == Render(Runs(s[..j]))
    ensures s[j] in Elems(s)
    ensures RunDown(Elems(s), s[j], s[|s| - 1]) == Render(Runs(s[..j]) + [Range(s[j], s[|s| - 1])])
  {
    GapBelow(s, j);
    BelowOf(s, j);
    RenderSnoc(Runs(s[..j]), Range(s[j], s[|s| - 1]));
    if j > 0 {
      assert s[..j][0] in Elems(s[..j]);
    }
  }

  lemma CanonicalIs(S: set<int>)
    ensures Canonical(S) == Render(Runs(SortedElems(S)))
  {
    SortedElemsOf(S);
    CanonicalOf(SortedElems(S));
  }

  // ---------- round trip ----------

  /** CPU numbers a 64-bit host can hold. */
  ghost predicate CpuNumbers(S: set<int>) {
    forall x | x in S :: 0 <= x <= MAX_INT
  }

  /** The two largest ints together are printed as a range that the parser never gets to the end of. */
  ghost predicate Rereadable(S: set<int>) {
    !(MAX_INT in S && MAX_INT - 1 in S)
  }

  lemma RunsPlausible(s: seq<int>)
    requires CpuNumbers(Elems(s))
    ensures forall r | r in Runs(s) :: Plausible(r)
  {
    RunsCover(s);
    forall r | r in Runs(s)
      ensures Plausible(r)
    {
      assert Within(r, s);
      assert r.lo in Elems(s) && r.hi in Elems(s);
    }
  }

  lemma {:induction false} RangeInSet(rs: seq<Range>, i: nat)
    requires i < |rs|
    ensures Interval(rs[i].lo, rs[i].hi) <= RangesSet(rs)
  {
    if i < |rs| - 1 {
      RangeInSet(rs[..|rs| - 1], i);
    }
  }

  /** The groups of the text printed for a list denote the elements of the list. */
  lemma PrintedGroups(s: seq<int>)
    requires s != [] && CpuNumbers(Elems(s))
    ensures Render(Runs(s)) != ""
    ensures GroupsOf(Split(Render(Runs(s)), ',')) == RangeGroups(Runs(s))
    ensures UnionOf(RangeGroups(Runs(s))) == Elems(s)
  {
    RunsPlausible(s);
    RunsCover(s);
    RenderReads(Runs(s));
    RangeGroupsDenote(Runs(s));
  }

  ghost predicate HasEndlessRun(s: seq<int>) {
    exists i :: 0 <= i < |Runs(s)| && GroupOf(Runs(s)[i]).Endless()
  }

  lemma CollectRanges(rs: seq<Range>)
    ensures Collect(RangeGroups(rs), {})
         == if AllReadable(RangeGroups(rs)) then Parsed(UnionOf(RangeGroups(rs))) else NeverReturns
  {
    CollectMeaning(RangeGroups(rs), {});
    NeverMalformed(RangeGroups(rs), {});
    assert {} + UnionOf(RangeGroups(rs)) == UnionOf(RangeGroups(rs));
  }

  /** Printing any list of CPUs and parsing the text gives back the set of its elements,
      unless a printed range ends at the largest int. */
  lemma PrintThenParse(s: seq<int>)
    requires CpuNumbers(Elems(s))
    ensures Meaning(Render(Runs(s))) == if HasEndlessRun(s) then NeverReturns else Parsed(Elems(s))
  {
    if s == [] {
      assert Elems(s) == {};
      assert !HasEndlessRun(s);
    } else {
      PrintedGroups(s);
      CollectRanges(Runs(s));
      EndlessIsUnreadable(s);
    }
  }

  lemma EndlessIsUnreadable(s: seq<int>)
    ensures AllReadable(RangeGroups(Runs(s))) <==> !HasEndlessRun(s)
  {
    var gs := RangeGroups(Runs(s));
    assert forall i | 0 <= i < |gs| :: gs[i] == GroupOf(Runs(s)[i]);
    if i :| 0 <= i < |gs| && GroupOf(Runs(s)[i]).Endless() {
      assert !gs[i].Readable();
    }
  }

  lemma {:induction false} NeverMalformed(gs: seq<Group>, seen: set<int>)
    requires forall g | g in gs :: !g.Bad?
    ensures !Collect(gs, seen).Malformed?
  {
    if gs != [] {
      assert forall g | g in gs[1..] :: g in gs;
      NeverMalformed(gs[1..], seen + gs[0].Cpus());
    }
  }

  lemma EndlessRunNeedsBoth(s: seq<int>)
    requires HasEndlessRun(s) && CpuNumbers(Elems(s))
    ensures MAX_INT in s && MAX_INT - 1 in s
  {
    var i :| 0 <= i < |Runs(s)| && GroupOf(Runs(s)[i]).Endless();
    RunsCover(s);
    RangeInSet(Runs(s), i);
    var r := Runs(s)[i];
    assert Within(r, s);
    assert MAX_INT in Interval(r.lo, r.hi) && MAX_INT - 1 in Interval(r.lo, r.hi);
    assert MAX_INT in Elems(s) && MAX_INT - 1 in Elems(s);
  }

  /** Reading on from a list with an endless range keeps it: no int extends it. */
  lemma EndlessStays(init: seq<int>, x: int)
    requires HasEndlessRun(init) && x <= MAX_INT
    ensures HasEndlessRun(init + [x])
  {
    var i :| 0 <= i < |Runs(init)| && GroupOf(Runs(init)[i]).Endless();
    RunsSnoc(init, x);
    AddToKeeps(Runs(init), x, i);
  }

  lemma AddToKeeps(rs: seq<Range>, x: int, i: nat)
    requires i < |rs| && rs[i].hi >= x
    ensures i < |AddTo(rs, x)| && AddTo(rs, x)[i] == rs[i]
  {
  }

  /** In a sorted list the first of the largest ints extends the range of the one before it. */
  lemma {:induction false} EndlessRunOfSorted(s: seq<int>)
    requires Sorted(s) && CpuNumbers(Elems(s)) && MAX_INT in s && MAX_INT - 1 in s
    ensures HasEndlessRun(s)
  {
    var init, x := s[..|s| - 1], s[|s| - 1];
    TakeLast(s);
    ElemsSnoc(init, x);
    LastIsLargest(s);
    if MAX_INT in init {
      assert MAX_INT - 1 in init;
      EndlessRunOfSorted(init);
      EndlessStays(init, x);
    } else {
      LargestBefore(init);
      SecondLargestLast(init);
      EndlessBegins(init);
    }
  }

  lemma LastIsLargest(s: seq<int>)
    requires Sorted(s) && CpuNumbers(Elems(s)) && MAX_INT in s
    ensures s[|s| - 1] == MAX_INT
  {
    var i :| 0 <= i < |s| && s[i] == MAX_INT;
    assert s[|s| - 1] in Elems(s);
    assert i < |s| - 1 ==> s[i] <= s[|s| - 1];
  }

  lemma LargestBefore(init: seq<int>)
    requires Sorted(init) && CpuNumbers(Elems(init)) && MAX_INT !in init
    ensures forall x | x in init :: x < MAX_INT
  {
    forall x | x in init
      ensures x < MAX_INT
    {
      assert x in Elems(init);
    }
  }

  lemma SecondLargestLast(init: seq<int>)
    requires Sorted(init) && MAX_INT - 1 in init && forall x | x in init :: x < MAX_INT
    ensures init[|init| - 1] == MAX_INT - 1
  {
    var i :| 0 <= i < |init| && init[i] == MAX_INT - 1;
    assert init[|init| - 1] in init;
    assert i < |init| - 1 ==> init[i] <= init[|init| - 1];
  }

  lemma EndlessBegins(init: seq<int>)
    requires init != [] && init[|init| - 1] == MAX_INT - 1
    ensures HasEndlessRun(init + [MAX_INT])
  {
    var rs := Runs(init);
    var m := |rs| - 1;
    RunsSnoc(init, MAX_INT);
    RunsWithin(init, rs[m]);
    AddToLastGrows(rs, MAX_INT);
    assert GroupOf(Range(rs[m].lo, MAX_INT)).Endless();
  }

  lemma AddToLastGrows(rs: seq<Range>, x: int)
    requires rs != [] && rs[|rs| - 1].hi + 1 == x
    ensures |AddTo(rs, x)| == |rs| && AddTo(rs, x)[|rs| - 1] == Range(rs[|rs| - 1].lo, x)
  {
  }

  lemma EndlessRunIff(s: seq<int>)
    requires Sorted(s) && CpuNumbers(Elems(s))
    ensures HasEndlessRun(s) <==> !Rereadable(Elems(s))
  {
    if HasEndlessRun(s) {
      EndlessRunNeedsBoth(s);
      assert MAX_INT in Elems(s) && MAX_INT - 1 in Elems(s);
    }
    if !Rereadable(Elems(s)) {
      EndlessRunOfSorted(s);
    }
  }

  /** Parse undoes String: for every set of CPU numbers but those that hold both of the two largest ints,
      and for those the parser never returns. */
  lemma RoundTrip(S: set<int>)
    requires CpuNumbers(S)
    ensures Meaning(Canonical(S)) == if Rereadable(S) then Parsed(S) else NeverReturns
  {
    CanonicalIs(S);
    SortedElemsOf(S);
    PrintThenParse(SortedElems(S));
    EndlessRunIff(SortedElems(S));
  }

  /** Two sets print alike exactly when they are the same set. */
  lemma CanonicalInjective(S: set<int>, T: set<int>)
    requires CpuNumbers(S) && CpuNumbers(T)
    ensures Canonical(S) == Canonical(T) <==> S == T
  {
    var s, t := SortedElems(S), SortedElems(T);
    CanonicalIs(S);
    CanonicalIs(T);
    SortedElemsOf(S);
    SortedElemsOf(T);
    assert s == [] ==> Canonical(S) == "";
    assert t == [] ==> Canonical(T) == "";
    if s != [] { PrintedGroups(s); }
    if t != [] { PrintedGroups(t); }
  }

  // ---------- the printed text is shortest ----------

  ghost predicate Begins(x: int, S: set<int>) {
    x in S && x - 1 !in S
  }

  /** The CPUs of a set whose predecessor is missing: each begins a run. */
  ghost function Starts(S: set<int>): set<int> {
    set x | x in S && Begins(x, S)
  }

  lemma StartsGrow(P: set<int>, x: int)
    requires forall y | y in P :: y < x
    ensures Starts(P + {x}) == if x - 1 in P then Starts(P) else Starts(P) + {x}
  {
    forall y | y in P
      ensures Begins(y, P + {x}) <==> Begins(y, P)
    {
    }
    assert x - 1 in P ==> !Begins(x, P + {x});
  }

  lemma StartsCount(P: set<int>, x: int)
    requires forall y | y in P :: y < x
    ensures |Starts(P + {x})| == |Starts(P)| + if x - 1 in P then 0 else 1
  {
    StartsGrow(P, x);
    assert x !in Starts(P);
  }

  lemma AddToCount(rs: seq<Range>, x: int)
    ensures |AddTo(rs, x)| == |rs| + if rs != [] && rs[|rs| - 1].hi + 1 == x then 0 else 1
  {
  }

  lemma RunCount(init: seq<int>, x: int)
    ensures |Runs(init + [x])| == |Runs(init)| + if init != [] && x == init[|init| - 1] + 1 then 0 else 1
  {
    RunsSnoc(init, x);
    AddToCount(Runs(init), x);
  }

  lemma PredecessorLast(init: seq<int>, x: int)
    requires Increasing(init + [x])
    ensures forall y | y in Elems(init) :: y < x
    ensures x - 1 in Elems(init) <==> init != [] && x == init[|init| - 1] + 1
  {
    var s, n := init + [x], |init|;
    forall i | 0 <= i < n
      ensures init[i] < x && init[i] <= init[n - 1]
    {
      assert s[i] < s[n] && s[i] <= s[n - 1];
    }
  }

  lemma {:induction false} RunPerStart(s: seq<int>)
    requires Increasing(s)
    ensures |Runs(s)| == |Starts(Elems(s))|
  {
    if s == [] {
      assert Starts(Elems(s)) == {};
    } else {
      var init, x := s[..|s| - 1], s[|s| - 1];
      RunPerStart(init);
      TakeLast(s);
      RunStartsNext(init, x);
    }
  }

  lemma RunStartsNext(init: seq<int>, x: int)
    requires Increasing(init + [x]) && |Runs(init)| == |Starts(Elems(init))|
    ensures |Runs(init + [x])| == |Starts(Elems(init + [x]))|
  {
    PredecessorLast(init, x);
    RunCount(init, x);
    ElemsSnoc(init, x);
    StartsCount(Elems(init), x);
  }

  function NonBlank(gs: seq<Group>): nat {
    if gs == [] then 0 else NonBlank(gs[..|gs| - 1]) + if gs[|gs| - 1].Blank? then 0 else 1
  }

  ghost function Lows(gs: seq<Group>): set<int> {
    set i | 0 <= i < |gs| && (gs[i].Single? || gs[i].Span?) :: if gs[i].Single? then gs[i].cpu else gs[i].lo
  }

  lemma {:induction false} FewLows(gs: seq<Group>)
    ensures |Lows(gs)| <= NonBlank(gs)
  {
    if gs == [] {
      assert Lows(gs) == {};
    } else {
      var n := |gs| - 1;
      FewLows(gs[..n]);
      var last := gs[n];
      if last.Single? || last.Span? {
        var lo := if last.Single? then last.cpu else last.lo;
        assert Lows(gs) == Lows(gs[..n]) + {lo};
      } else {
        assert Lows(gs) == Lows(gs[..n]);
      }
    }
  }

  lemma StartsAreLows(gs: seq<Group>)
    ensures Starts(UnionOf(gs)) <= Lows(gs)
  {
    forall x | x in Starts(UnionOf(gs))
      ensures x in Lows(gs)
    {
      UnionOfMember(gs, x);
      UnionOfMember(gs, x - 1);
      var i :| 0 <= i < |gs| && x in gs[i].Cpus();
      assert x - 1 !in gs[i].Cpus();
    }
  }

  lemma {:induction false} AllNonBlank(rs: seq<Range>)
    ensures NonBlank(RangeGroups(rs)) == |rs|
  {
    if rs != [] {
      AllNonBlank(rs[..|rs| - 1]);
      assert RangeGroups(rs)[..|rs| - 1] == RangeGroups(rs[..|rs| - 1]);
    }
  }

  function GroupCount(s: string): nat {
    if s == "" then 0 else NonBlank(GroupsOf(Split(s, ',')))
  }

  lemma PrintedCount(S: set<int>)
    requires CpuNumbers(S)
    ensures GroupCount(Canonical(S)) == |Starts(S)|
  {
    CanonicalIs(S);
    SortedElemsOf(S);
    var e := SortedElems(S);
    RunPerStart(e);
    if e != [] {
      PrintedGroups(e);
      AllNonBlank(Runs(e));
    }
  }

  lemma EnoughGroups(gs: seq<Group>, S: set<int>)
    requires Collect(gs, {}) == Parsed(S)
    ensures |Starts(S)| <= NonBlank(gs)
  {
    CollectMeaning(gs, {});
    assert {} + UnionOf(gs) == UnionOf(gs);
    StartsAreLows(gs);
    FewLows(gs);
    SubsetSize(Starts(S), Lows(gs));
  }

  /** String is shortest: a text that denotes the set needs at least one non-blank group
      for every run, and the printed text has exactly that many. */
  lemma Shortest(s: string, S: set<int>)
    requires Meaning(s) == Parsed(S)
    ensures GroupCount(Canonical(S)) == |Starts(S)| <= GroupCount(s)
  {
    MeaningNonNegative(s);
    PrintedCount(S);
    if s == "" {
      assert Starts(S) == {};
    } else {
      EnoughGroups(GroupsOf(Split(s, ',')), S);
    }
  }

  lemma {:induction false} SubsetSize<T>(a: set<T>, b: set<T>)
    requires a <= b
    ensures |a| <= |b|
  {
    if a != {} {
      var x :| x in a;
      SubsetSize(a - {x}, b - {x});
    }
  }

  /** The printed ranges are increasing and separated by gaps, hence maximal. */
  lemma {:induction false} RunsGapped(s: seq<int>)
    requires Increasing(s)
    ensures forall i | 0 <= i < |Runs(s)| - 1 :: Runs(s)[i].hi + 1 < Runs(s)[i + 1].lo
    ensures s != [] ==> Runs(s)[|Runs(s)| - 1].hi == s[|s| - 1]
  {
    if |s| >= 2 {
      RunsGapped(s[..|s| - 1]);
      RunsStep(s);
    }
  }
}
