/** pkg/libmica/utils.go: the second parser of the CPU-list language, strict about blank groups
    and returning a list that keeps order and duplicates. */
module MicaCpus {
  import opened Text
  import opened CpuList
  import opened CpuSets

  predicate HasBlank(s: string) {
    s != "" && exists i :: 0 <= i < |GroupsOf(Split(s, ','))| && GroupsOf(Split(s, ','))[i].Blank?
  }

  predicate HasBad(s: string) {
    s != "" && exists i :: 0 <= i < |GroupsOf(Split(s, ','))| && GroupsOf(Split(s, ','))[i].Bad?
  }

  function Counting(lo: int, hi: int): (r: seq<int>)
    ensures forall x :: x in r <==> lo <= x <= hi
    ensures lo <= hi + 1 ==> |r| == hi + 1 - lo
    ensures forall k | 0 <= k < |r| :: r[k] == lo + k
    decreases hi - lo
  {
    if lo > hi then [] else Counting(lo, hi - 1) + [hi]
  }

  function GroupList(g: Group): seq<int> {
    match g
    case Single(n) => [n]
    case Span(lo, hi) => Counting(lo, hi)
    case _ => []
  }

  /** Listing the groups in order after the CPUs seen so far. */
  function ListFrom(gs: seq<Group>, seen: seq<int>): Outcome<seq<int>> {
    if gs == [] then Parsed(seen)
    else if gs[0].Endless() then NeverReturns
    else ListFrom(gs[1..], seen + GroupList(gs[0]))
  }

  /** What ParseCPUString makes of a text. */
  function ListMeaning(s: string): Outcome<seq<int>> {
    if HasBlank(s) || HasBad(s) then Malformed
    else if s == "" then Parsed([])
    else ListFrom(GroupsOf(Split(s, ',')), [])
  }

  /** One turn of isValidCPUString's loop. Its sign tests can never fire. */
  method IsValidGroup(part: string, ghost g: Group) returns (ok: bool)
    requires g == ReadGroup(part)
    ensures ok <==> !g.Blank? && !g.Bad?
  {
    GroupRead(part);
    var group := TrimSpace(part);
    if group == "" {
      return false;
    }
    if '-' in group {
      var parts := Split(group, '-');
      if |parts| != 2 {
        return false;
      }
      var start := Atoi(TrimSpace(parts[0]));
      var end := Atoi(TrimSpace(parts[1]));
      if start.None? || end.None? {
        return false;
      }
      assert parts[0] in parts && parts[1] in parts;
      TrimKeepsOut(parts[0], '-');
      TrimKeepsOut(parts[1], '-');
      AtoiUnsigned(TrimSpace(parts[0]));
      AtoiUnsigned(TrimSpace(parts[1]));
      if start.value < 0 || end.value < 0 || start.value > end.value {
        return false;
      }
    } else {
      var n := Atoi(group);
      if n.None? {
        return false;
      }
    }
    return true;
  }

  method IsValidCPUString(cpuStr: string) returns (ok: bool)
    ensures ok <==> !HasBlank(cpuStr) && !HasBad(cpuStr)
  {
    if cpuStr == "" {
      return true;
    }
    var groups := Split(cpuStr, ',');
    Faultless(cpuStr, groups);
    ok := AreValidGroups(groups);
  }

  predicate GoodPart(part: string) {
    !ReadGroup(part).Blank? && !ReadGroup(part).Bad?
  }

  /** How many of the first groups are blank or cannot be read. */
  function Faults(groups: seq<string>, n: nat): nat
    requires n <= |groups|
  {
    if n == 0 then 0 else Faults(groups, n - 1) + if GoodPart(groups[n - 1]) then 0 else 1
  }

  lemma {:induction false} NoFaultsIff(groups: seq<string>, n: nat)
    requires n <= |groups|
    ensures Faults(groups, n) == 0 <==> forall k | 0 <= k < n :: GoodPart(groups[k])
  {
    if n > 0 {
      NoFaultsIff(groups, n - 1);
    }
  }

  lemma BadStops(groups: seq<string>, i: nat)
    requires i < |groups| && !GoodPart(groups[i])
    ensures Faults(groups, |groups|) > 0
  {
    NoFaultsIff(groups, |groups|);
  }

  ghost predicate AllGood(gs: seq<Group>) {
    forall k | 0 <= k < |gs| :: !gs[k].Blank? && !gs[k].Bad?
  }

  lemma NoFault(s: string, gs: seq<Group>)
    requires s != "" && gs == GroupsOf(Split(s, ','))
    ensures AllGood(gs) <==> !HasBlank(s) && !HasBad(s)
  {
  }

  lemma Faultless(s: string, groups: seq<string>)
    requires s != "" && groups == Split(s, ',')
    ensures Faults(groups, |groups|) == 0 <==> !HasBlank(s) && !HasBad(s)
  {
    var gs := GroupsOf(groups);
    NoFault(s, gs);
    NoFaultsIff(groups, |groups|);
    forall k | 0 <= k < |groups|
      ensures GoodPart(groups[k]) <==> !gs[k].Blank? && !gs[k].Bad?
    {
    }
  }

  /** The loop of isValidCPUString. */
  method AreValidGroups(groups: seq<string>) returns (ok: bool)
    ensures ok <==> Faults(groups, |groups|) == 0
  {
    var i := 0;
    while i < |groups|
      invariant 0 <= i <= |groups| && Faults(groups, i) == 0
    {
      var good := StillValid(groups, i);
      if !good {
        return false;
      }
      i := i + 1;
    }
    return true;
  }

  /** One turn of it. */
  method StillValid(groups: seq<string>, i: nat) returns (good: bool)
    requires i < |groups| && Faults(groups, i) == 0
    ensures good ==> Faults(groups, i + 1) == 0
    ensures !good ==> Faults(groups, |groups|) > 0
  {
    good := IsValidGroup(groups[i], ReadGroup(groups[i]));
    if !good {
      BadStops(groups, i);
    }
  }

  method ParseCPUString(cpuStr: string) returns (cpus: seq<int>, err: ParseError)
    ensures err == ErrorOf(ListMeaning(cpuStr))
    ensures err.NoError? ==> ListMeaning(cpuStr) == Parsed(cpus)
  {
    cpus := [];
    var valid := IsValidCPUString(cpuStr);
    if !valid {
      return cpus, BadGroup;
    }
    if cpuStr == "" {
      return cpus, NoError;
    }
    cpus, err := ListGroups(Split(cpuStr, ','), GroupsOf(Split(cpuStr, ',')));
  }

  /** The loop of ParseCPUString, over groups that have been validated. */
  method ListGroups(groups: seq<string>, ghost gs: seq<Group>) returns (cpus: seq<int>, err: ParseError)
    requires gs == GroupsOf(groups)
    requires forall i | 0 <= i < |gs| :: !gs[i].Blank? && !gs[i].Bad?
    ensures err == ErrorOf(ListFrom(gs, []))
    ensures err.NoError? ==> ListFrom(gs, []) == Parsed(cpus)
  {
    cpus := [];
    var i := 0;
    assert gs[0..] == gs;
    while i < |groups|
      invariant 0 <= i <= |gs|
      invariant ListFrom(gs[i..], cpus) == ListFrom(gs, [])
    {
      ListFromNext(gs, i, cpus);
      cpus, err := AppendGroup(cpus, groups[i], gs[i]);
      if err.Stuck? {
        return cpus, Stuck;
      }
      i := i + 1;
    }
    assert gs[i..] == [];
    return cpus, NoError;
  }

  lemma ListFromNext(gs: seq<Group>, i: nat, seen: seq<int>)
    requires i < |gs|
    ensures ListFrom(gs[i..], seen) == if gs[i].Endless() then NeverReturns else ListFrom(gs[i + 1..], seen + GroupList(gs[i]))
  {
    assert gs[i..][0] == gs[i] && gs[i..][1..] == gs[i + 1..];
  }

  /** One turn of ParseCPUString's loop. */
  method AppendGroup(cpus: seq<int>, part: string, ghost g: Group) returns (more: seq<int>, err: ParseError)
    requires g == ReadGroup(part) && !g.Blank? && !g.Bad?
    ensures if g.Endless() then err == Stuck else err == NoError
    ensures err.NoError? ==> more == cpus + GroupList(g)
  {
    more := cpus;
    GroupRead(part);
    var group := TrimSpace(part);
    if '-' in group {
      var parts := Split(group, '-');
      var start := Atoi(TrimSpace(parts[0])).value;
      var end := Atoi(TrimSpace(parts[1])).value;
      if end == MAX_INT {
        // As in cpuset.Parse, i <= end would hold for ever.
        return more, Stuck;
      }
      more := AppendRange(cpus, start, end);
    } else {
      more := more + [Atoi(group).value];
    }
    return more, NoError;
  }

  method AppendRange(cpus: seq<int>, start: int, end: int) returns (more: seq<int>)
    requires start <= end
    ensures more == cpus + Counting(start, end)
  {
    more := cpus;
    var i := start;
    while i <= end
      invariant start <= i <= end + 1
      invariant more == cpus + Counting(start, i - 1)
    {
      more := more + [i];
      i := i + 1;
    }
  }

  // ---------- the two parsers agree ----------

  lemma {:induction false} ListFromMeaning(gs: seq<Group>, seen: seq<int>)
    requires forall i | 0 <= i < |gs| :: !gs[i].Bad?
    ensures ListFrom(gs, seen).Parsed? <==> Collect(gs, Elems(seen)).Parsed?
    ensures ListFrom(gs, seen).Parsed? ==> Elems(ListFrom(gs, seen).cpus) == Collect(gs, Elems(seen)).cpus
    ensures !ListFrom(gs, seen).Malformed?
  {
    if gs != [] {
      assert Elems(seen + GroupList(gs[0])) == Elems(seen) + gs[0].Cpus();
      ListFromMeaning(gs[1..], seen + GroupList(gs[0]));
    }
  }

  /** The two parsers accept the same texts but for blank groups, which only the first one skips,
      and give an accepted text the same CPUs, none of them negative. */
  lemma ParsersAgree(s: string)
    ensures ListMeaning(s).Parsed? <==> Meaning(s).Parsed? && !HasBlank(s)
    ensures ListMeaning(s).Parsed? ==> Meaning(s) == Parsed(Elems(ListMeaning(s).cpus))
    ensures ListMeaning(s).Parsed? ==> forall x | x in ListMeaning(s).cpus :: 0 <= x <= MAX_INT
  {
    MeaningNonNegative(s);
    assert Elems([]) == {};
    if s != "" {
      var gs := GroupsOf(Split(s, ','));
      if HasBad(s) {
        CollectMeaning(gs, {});
      } else {
        ListFromMeaning(gs, []);
      }
      if ListMeaning(s).Parsed? {
        assert forall x | x in ListMeaning(s).cpus :: x in Elems(ListMeaning(s).cpus);
      }
    }
  }

  lemma RangesAreValid(t: string, rs: seq<Range>)
    requires t != "" ==> GroupsOf(Split(t, ',')) == RangeGroups(rs)
    ensures !HasBlank(t) && !HasBad(t)
  {
  }

  /** A printed set is always valid for the second parser. */
  lemma CanonicalIsValid(S: set<int>)
    requires CpuNumbers(S)
    ensures !HasBlank(Canonical(S)) && !HasBad(Canonical(S))
  {
    var e := SortedElems(S);
    CanonicalIs(S);
    SortedElemsOf(S);
    if e != [] {
      PrintedGroups(e);
    }
    RangesAreValid(Canonical(S), Runs(e));
  }
}
