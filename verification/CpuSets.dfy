/** pkg/cpuset: the set class, its parser and its canonical printer. */
module CpuSets {
  import opened Wrappers
  import opened Text
  import opened CpuList

  datatype ParseError = NoError | BadGroup | Stuck

  ghost function ErrorOf<T>(o: Outcome<T>): ParseError {
    match o
    case Parsed(_) => NoError
    case Malformed => BadGroup
    case NeverReturns => Stuck
  }

  /** A set of CPUs. The map is filled while the set is being built and never changes afterwards. */
  class CPUSet {
    const cpus: map<int, bool>

    /** Only true is ever stored, so membership is presence of the key. */
    ghost predicate Valid() {
      forall k | k in cpus :: cpus[k]
    }

    ghost function Elems(): set<int> {
      cpus.Keys
    }

    constructor Of(cpus: map<int, bool>)
      ensures this.cpus == cpus
    {
      this.cpus := cpus;
    }

    static method NewCPUSet(list: seq<int>) returns (r: CPUSet)
      ensures fresh(r) && r.Valid() && r.Elems() == CpuList.Elems(list)
    {
      var m: map<int, bool> := map[];
      var i := 0;
      while i < |list|
        invariant 0 <= i <= |list|
        invariant m.Keys == CpuList.Elems(list[..i]) && forall k | k in m :: m[k]
      {
        m := m[list[i] := true];
        assert CpuList.Elems(list[..i + 1]) == CpuList.Elems(list[..i]) + {list[i]};
        i := i + 1;
      }
      assert list[..i] == list;
      r := new CPUSet.Of(m);
    }

    /** On an error the set holds the CPUs read so far. */
    static method Parse(s: string) returns (r: CPUSet, err: ParseError)
      ensures fresh(r) && r.Valid()
      ensures err == ErrorOf(Meaning(s))
      ensures err.NoError? ==> Meaning(s) == Parsed(r.Elems())
    {
      var m: map<int, bool> := map[];
      assert m.Keys == {};
      err := NoError;
      if s != "" {
        m, err := ParseGroups(Split(s, ','));
      }
      r := new CPUSet.Of(m);
    }

    /** The loop of Parse. */
    static method ParseGroups(parts: seq<string>) returns (m: map<int, bool>, err: ParseError)
      ensures forall k | k in m :: m[k]
      ensures err == ErrorOf(Collect(GroupsOf(parts), {}))
      ensures err.NoError? ==> Collect(GroupsOf(parts), {}) == Parsed(m.Keys)
    {
      m := map[];
      ghost var gs := GroupsOf(parts);
      var p := 0;
      assert gs[0..] == gs && m.Keys == {};
      while p < |parts|
        invariant 0 <= p <= |parts|
        invariant forall k | k in m :: m[k]
        invariant Collect(gs[p..], m.Keys) == Collect(gs, {})
      {
        m, err := ParseGroup(m, parts[p]);
        assert gs[p..][0] == gs[p] && gs[p..][1..] == gs[p + 1..];
        if !err.NoError? {
          return;
        }
        p := p + 1;
      }
      assert gs[p..] == [];
      err := NoError;
    }

    /** One turn of the loop. */
    static method ParseGroup(had: map<int, bool>, part: string) returns (m: map<int, bool>, err: ParseError)
      requires forall k | k in had :: had[k]
      ensures err == var g := ReadGroup(part); if g.Bad? then BadGroup else if g.Endless() then Stuck else NoError
      ensures forall k | k in m :: m[k]
      ensures err.NoError? ==> m.Keys == had.Keys + ReadGroup(part).Cpus()
    {
      m := had;
      GroupRead(part);
      var group := TrimSpace(part);
      if group == "" {
        return m, NoError;
      }
      if '-' in group {
        var rangeParts := Split(group, '-');
        if |rangeParts| != 2 {
          return m, BadGroup;
        }
        var start := Atoi(TrimSpace(rangeParts[0]));
        if start.None? {
          return m, BadGroup;
        }
        var end := Atoi(TrimSpace(rangeParts[1]));
        if end.None? {
          return m, BadGroup;
        }
        if start.value > end.value {
          return m, BadGroup;
        }
        if end.value == MAX_INT {
          // i <= end holds for every int: the loop below would wrap around and go on for ever.
          return m, Stuck;
        }
        m := AddRange(m, start.value, end.value);
      } else {
        var cpu := Atoi(group);
        if cpu.None? {
          return m, BadGroup;
        }
        m := m[cpu.value := true];
      }
      return m, NoError;
    }

    static method AddRange(had: map<int, bool>, start: int, end: int) returns (m: map<int, bool>)
      requires start <= end && forall k | k in had :: had[k]
      ensures m.Keys == had.Keys + Interval(start, end) && forall k | k in m :: m[k]
    {
      m := had;
      var i := start;
      while i <= end
        invariant start <= i <= end + 1
        invariant m.Keys == had.Keys + Interval(start, i - 1) && forall k | k in m :: m[k]
      {
        m := m[i := true];
        i := i + 1;
      }
    }

    method Contains(cpu: int) returns (b: bool)
      requires Valid()
      ensures b <==> cpu in Elems()
    {
      b := cpu in cpus && cpus[cpu];
    }

    method Size() returns (n: nat)
      ensures n == |Elems()|
    {
      n := |cpus|;
    }

    /** The order in which the map is visited does not show in the result. */
    method ToSlice() returns (r: seq<int>)
      ensures r == SortedElems(Elems())
    {
      r := [];
      var left := cpus.Keys;
      while left != {}
        invariant left <= cpus.Keys
        invariant multiset(r) + multiset(left) == multiset(cpus.Keys)
        decreases left
      {
        var cpu := AnyOf(left);
        assert multiset(left) == multiset(left - {cpu}) + multiset{cpu};
        left := left - {cpu};
        r := r + [cpu];
      }
      r := SortInts(r);
      SortedUnique(r, SortedElems(Elems()));
    }

    method String() returns (text: string)
      ensures text == Canonical(Elems())
    {
      if |cpus| == 0 {
        assert Elems() == {};
        return "";
      }
      CanonicalIs(Elems());
      var list := ToSlice();
      SortedElemsOf(Elems());
      if |list| == 1 {
        SingleRun(list[0]);
        assert list == [list[0]];
        return Itoa(list[0]);
      }
      var parts := RunTexts(list);
      text := Join(parts, ',');
    }

    /** The loop of String. */
    static method RunTexts(list: seq<int>) returns (parts: seq<string>)
      ensures parts == Texts(Runs(list))
    {
      parts := [];
      ghost var done: seq<Range> := [];
      var i := 0;
      while i < |list|
        invariant 0 <= i <= |list| && parts == Texts(done)
        invariant RunStarts(list, i, done)
      {
        var start := list[i];
        i := RunEnd(list, i, done);
        var end := list[i];
        var text := RangeString(start, end);
        parts := parts + [text];
        RunEnds(list, i, done, start);
        TextsSnoc(done, Range(start, end));
        done := done + [Range(start, end)];
        i := i + 1;
      }
      if list != [] {
        ScannedRuns(list);
      }
    }

    static method RangeString(start: int, end: int) returns (text: string)
      ensures text == RangeText(Range(start, end))
    {
      if start == end {
        text := Itoa(start);
      } else {
        text := Itoa(start) + "-" + Itoa(end);
      }
    }

    /** The inner loop: the index of the last element of the run that begins at index at. */
    static method RunEnd(list: seq<int>, at: nat, ghost done: seq<Range>) returns (i: nat)
      requires at < |list| && Scanned(list[..at + 1]) == Scan(done, list[at], list[at])
      ensures at <= i < |list| && Scanned(list[..i + 1]) == Scan(done, list[at], list[i])
      ensures i + 1 < |list| ==> list[i + 1] != list[i] + 1
    {
      i := at;
      while i + 1 < |list| && list[i + 1] == list[i] + 1
        invariant at <= i < |list|
        invariant Scanned(list[..i + 1]) == Scan(done, list[at], list[i])
      {
        i := i + 1;
        ScannedNext(list, i);
      }
    }

    method IsEmpty() returns (b: bool)
      ensures b <==> Elems() == {}
    {
      b := |cpus| == 0;
    }

    method Equals(other: CPUSet) returns (b: bool)
      requires Valid() && other.Valid()
      ensures b <==> Elems() == other.Elems()
    {
      if |cpus| != |other.cpus| {
        return false;
      }
      var left := cpus.Keys;
      while left != {}
        invariant left <= cpus.Keys
        invariant cpus.Keys - left <= other.cpus.Keys
        decreases left
      {
        var cpu := AnyOf(left);
        left := left - {cpu};
        var held := other.Contains(cpu);
        if !held {
          return false;
        }
      }
      SameSizeSubset(cpus.Keys, other.cpus.Keys);
      return true;
    }

    method Union(other: CPUSet) returns (r: CPUSet)
      ensures fresh(r) && r.Valid() && r.Elems() == Elems() + other.Elems()
    {
      var result: map<int, bool> := map[];
      var left := cpus.Keys;
      while left != {}
        invariant left <= cpus.Keys && result.Keys + left == Elems()
        invariant forall k | k in result :: result[k]
        decreases left
      {
        var cpu := AnyOf(left);
        left := left - {cpu};
        result := result[cpu := true];
      }
      left := other.cpus.Keys;
      while left != {}
        invariant left <= other.cpus.Keys && result.Keys + left == Elems() + other.Elems()
        invariant forall k | k in result :: result[k]
        decreases left
      {
        var cpu := AnyOf(left);
        left := left - {cpu};
        result := result[cpu := true];
      }
      r := new CPUSet.Of(result);
    }

    method Intersection(other: CPUSet) returns (r: CPUSet)
      requires other.Valid()
      ensures fresh(r) && r.Valid() && r.Elems() == Elems() * other.Elems()
    {
      r := Select(other, true);
    }

    method Difference(other: CPUSet) returns (r: CPUSet)
      requires other.Valid()
      ensures fresh(r) && r.Valid() && r.Elems() == Elems() - other.Elems()
    {
      r := Select(other, false);
    }

    /** The loop Intersection and Difference share: keep the CPUs whose presence in other is as wanted. */
    method Select(other: CPUSet, wanted: bool) returns (r: CPUSet)
      requires other.Valid()
      ensures fresh(r) && r.Valid()
      ensures r.Elems() == if wanted then Elems() * other.Elems() else Elems() - other.Elems()
    {
      var result: map<int, bool> := map[];
      var left := cpus.Keys;
      while left != {}
        invariant left <= cpus.Keys && forall k | k in result :: result[k]
        invariant result.Keys == set x | x in cpus.Keys - left && (x in other.Elems()) == wanted
        decreases left
      {
        var cpu := AnyOf(left);
        left := left - {cpu};
        var held := other.Contains(cpu);
        if held == wanted {
          result := result[cpu := true];
        }
      }
      r := new CPUSet.Of(result);
    }
  }

  lemma SingleRun(n: int)
    ensures Render(Runs([n])) == Itoa(n)
  {
    RenderSnoc([], Range(n, n));
    assert [] + [Range(n, n)] == [Range(n, n)];
  }

  /** At index i a run begins, or the list ends. */
  ghost predicate RunStarts(list: seq<int>, i: nat, done: seq<Range>) {
    if i < |list| then Scanned(list[..i + 1]) == Scan(done, list[i], list[i]) else done == if list == [] then [] else Scanned(list).Ranges()
  }

  lemma RunEnds(list: seq<int>, i: nat, done: seq<Range>, lo: int)
    requires i < |list| && Scanned(list[..i + 1]) == Scan(done, lo, list[i])
    requires i + 1 < |list| ==> list[i + 1] != list[i] + 1
    ensures RunStarts(list, i + 1, done + [Range(lo, list[i])])
  {
    if i + 1 < |list| {
      ScannedNext(list, i + 1);
    } else {
      TakeAll(list);
    }
  }

  lemma TextsSnoc(rs: seq<Range>, r: Range)
    ensures Texts(rs + [r]) == Texts(rs) + [RangeText(r)]
  {
    assert (rs + [r])[..|rs|] == rs;
  }

  lemma SameSizeSubset<T>(a: set<T>, b: set<T>)
    requires a <= b && |a| == |b|
    ensures a == b
  {
    assert |b - a| == |b| - |a|;
  }
}
