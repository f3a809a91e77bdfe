/** pkg/pedestal/parser.go: the second printer, which bubble-sorts a copy and keeps duplicates. */
module PedestalCpus {
  import opened Text
  import opened CpuList

  /** The CPU string handed to the pedestal for a list. */
  function CpuArrText(cpus: seq<int>): string {
    Render(Runs(SortInts(cpus)))
  }

  ghost predicate SortedFrom(s: seq<int>, k: int) {
    forall i, j | 0 <= i < j < |s| && k <= j :: s[i] <= s[j]
  }

  method BubbleSort(a: array<int>)
    modifies a
    ensures a[..] == SortInts(old(a[..]))
  {
    var i := 0;
    while i < a.Length - 1
      invariant 0 <= i && (a.Length > 0 ==> i <= a.Length - 1)
      invariant multiset(a[..]) == multiset(old(a[..]))
      invariant SortedFrom(a[..], a.Length - i)
    {
      BubblePass(a, i);
      i := i + 1;
    }
    SortedUnique(a[..], SortInts(old(a[..])));
  }

  /** The inner loop: the largest of the first elements moves to their end. */
  method BubblePass(a: array<int>, i: nat)
    requires i < a.Length && SortedFrom(a[..], a.Length - i)
    modifies a
    ensures multiset(a[..]) == multiset(old(a[..]))
    ensures SortedFrom(a[..], a.Length - i - 1)
  {
    var j := 0;
    while j < a.Length - i - 1
      invariant 0 <= j <= a.Length - i - 1
      invariant multiset(a[..]) == multiset(old(a[..]))
      invariant SortedFrom(a[..], a.Length - i) && Largest(a[..], j)
    {
      CompareNext(a, j, a.Length - i);
      j := j + 1;
    }
    LargestLast(a[..], j);
  }

  /** One turn of it. */
  method CompareNext(a: array<int>, j: nat, ghost k: nat)
    requires j + 1 < k <= a.Length && SortedFrom(a[..], k) && Largest(a[..], j)
    modifies a
    ensures multiset(a[..]) == multiset(old(a[..]))
    ensures SortedFrom(a[..], k) && Largest(a[..], j + 1)
  {
    BubbleStep(a[..], j, k);
    if a[j] > a[j + 1] {
      Swap(a, j);
    }
  }

  /** The first elements do not exceed the one at j. */
  ghost predicate Largest(s: seq<int>, j: nat) {
    j < |s| && forall i | 0 <= i < j :: s[i] <= s[j]
  }

  lemma BubbleStep(s: seq<int>, j: nat, k: nat)
    requires j + 1 < k <= |s| && SortedFrom(s, k) && Largest(s, j)
    ensures s[j] > s[j + 1] ==>
              var t := s[j := s[j + 1]][j + 1 := s[j]]; SortedFrom(t, k) && Largest(t, j + 1)
    ensures s[j] <= s[j + 1] ==> Largest(s, j + 1)
  {
  }

  lemma LargestLast(s: seq<int>, j: nat)
    requires Largest(s, j) && SortedFrom(s, j + 1)
    ensures SortedFrom(s, j)
  {
  }

  method Swap(a: array<int>, j: nat)
    requires j + 1 < a.Length
    modifies a
    ensures a[..] == old(a[..])[j := old(a[j + 1])][j + 1 := old(a[j])]
    ensures multiset(a[..]) == multiset(old(a[..]))
  {
    a[j], a[j + 1] := a[j + 1], a[j];
  }

  method ParseCPUArr(cpus: seq<int>) returns (text: string)
    ensures text == CpuArrText(cpus)
  {
    if |cpus| == 0 {
      return "";
    }
    var sorted := new int[|cpus|](i requires 0 <= i < |cpus| => cpus[i]);
    assert sorted[..] == cpus;
    BubbleSort(sorted);
    text := WriteRuns(sorted[..]);
  }

  method WriteRange(result: string, start: int, end: int) returns (text: string)
    ensures text == result + RangeText(Range(start, end))
  {
    if start == end {
      text := result + Itoa(start);
    } else {
      text := result + Itoa(start);
      text := text + "-";
      text := text + Itoa(end);
    }
  }

  /** The printing half of ParseCPUArr. */
  method WriteRuns(sorted: seq<int>) returns (result: string)
    requires sorted != []
    ensures result == Render(Runs(sorted))
  {
    result := "";
    var start := sorted[0];
    var end := sorted[0];
    ghost var done: seq<Range> := [];
    var i := 1;
    while i < |sorted|
      invariant 1 <= i <= |sorted|
      invariant Scanned(sorted[..i]) == Scan(done, start, end)
      invariant result == Before(done)
    {
      ScannedNext(sorted, i);
      if sorted[i] == end + 1 {
        end := sorted[i];
      } else {
        BeforeSnoc(done, Range(start, end));
        done := done + [Range(start, end)];
        result := WriteRange(result, start, end);
        result := result + ",";
        start := sorted[i];
        end := sorted[i];
      }
      i := i + 1;
    }
    TakeAll(sorted);
    ScannedRuns(sorted);
    BeforeSnoc(done, Range(start, end));
    result := WriteRange(result, start, end);
  }

  // ---------- the two printers ----------

  lemma SortKeepsElems(cpus: seq<int>)
    ensures Elems(SortInts(cpus)) == Elems(cpus)
  {
    SameElems(SortInts(cpus), cpus);
  }

  lemma SameElems(s: seq<int>, t: seq<int>)
    requires multiset(s) == multiset(t)
    ensures Elems(s) == Elems(t)
  {
    assert forall x :: x in multiset(s) <==> x in s;
    assert forall x :: x in multiset(t) <==> x in t;
  }

  /** The pedestal's text parses back to the set of the list, duplicates or not, exactly when the list does not hold
      the two largest ints together; then parsing never returns. */
  lemma CpuArrTextParses(cpus: seq<int>)
    requires CpuNumbers(Elems(cpus))
    ensures Meaning(CpuArrText(cpus)) == if Rereadable(Elems(cpus)) then Parsed(Elems(cpus)) else NeverReturns
  {
    var s := SortInts(cpus);
    SortKeepsElems(cpus);
    PrintThenParse(s);
    EndlessRunIff(s);
  }

  function Width(rs: seq<Range>): int {
    if rs == [] then 0 else Width(rs[..|rs| - 1]) + rs[|rs| - 1].hi - rs[|rs| - 1].lo + 1
  }

  lemma {:induction false} RunsWidth(s: seq<int>)
    ensures Width(Runs(s)) == |s|
  {
    if s != [] {
      var n := |s| - 1;
      RunsWidth(s[..n]);
      TakeLast(s);
      RunsSnoc(s[..n], s[n]);
      AddToWidth(Runs(s[..n]), s[n]);
    }
  }

  lemma AddToWidth(rs: seq<Range>, x: int)
    ensures Width(AddTo(rs, x)) == Width(rs) + 1
  {
    var m := |rs| - 1;
    if m >= 0 && rs[m].hi + 1 == x {
      assert AddTo(rs, x)[..m] == rs[..m];
    } else {
      assert AddTo(rs, x)[..|rs|] == rs;
    }
  }

  lemma NoDuplicatesIff(cpus: seq<int>)
    ensures |cpus| == |Elems(cpus)| <==> multiset(cpus) == multiset(Elems(cpus))
  {
    assert |multiset(cpus)| == |cpus|;
    assert multiset(Elems(cpus)) <= multiset(cpus);
    if |cpus| == |Elems(cpus)| {
      var rest := multiset(cpus) - multiset(Elems(cpus));
      assert multiset(cpus) == multiset(Elems(cpus)) + rest;
      assert |rest| == 0;
    }
  }

  /** Both printers give the same text exactly when no CPU is listed twice. */
  lemma PrintersAgree(cpus: seq<int>)
    requires CpuNumbers(Elems(cpus))
    ensures CpuArrText(cpus) == Canonical(Elems(cpus)) <==> |cpus| == |Elems(cpus)|
  {
    var s, e := SortInts(cpus), SortedElems(Elems(cpus));
    SortKeepsElems(cpus);
    CanonicalIs(Elems(cpus));
    SortedElemsOf(Elems(cpus));
    NoDuplicatesIff(cpus);
    assert |multiset(s)| == |s| && |multiset(cpus)| == |cpus|;
    if |cpus| == |Elems(cpus)| {
      SortedUnique(s, e);
    }
    if cpus == [] {
      assert Elems(cpus) == {};
    } else if CpuArrText(cpus) == Canonical(Elems(cpus)) {
      assert cpus[0] in Elems(cpus);
      PrintedGroups(s);
      PrintedGroups(e);
      GroupsDetermineRanges(Runs(s), Runs(e));
      RunsWidth(s);
      RunsWidth(e);
    }
  }

  lemma GroupsDetermineRanges(a: seq<Range>, b: seq<Range>)
    requires RangeGroups(a) == RangeGroups(b)
    ensures a == b
  {
    forall i | 0 <= i < |a|
      ensures a[i] == b[i]
    {
      assert RangeGroups(a)[i] == RangeGroups(b)[i];
    }
  }
}
