/** Sums over maps whose keys are visited in no particular order. */
module Sums {
  import opened Ints
  import opened Wrappers

  ghost function Sum(m: map<string, int>): int
    decreases m.Keys
  {
    if m == map[] then 0
    else
      var k := Choose(m.Keys);
      m[k] + Sum(m - {k})
  }

  /** Any key can be taken out first. */
  lemma {:induction false} SumTake(m: map<string, int>, k: string)
    requires k in m
    ensures Sum(m) == m[k] + Sum(m - {k})
    decreases m.Keys
  {
    var c := Choose(m.Keys);
    if c != k {
      SumTake(m - {c}, k);
      SumTake(m - {k}, c);
      assert m - {c} - {k} == m - {k} - {c};
    }
  }

  /** Keys that all weigh the same. */
  lemma {:induction false} SumSame(m: map<string, int>, keys: set<string>, c: int)
    requires keys <= m.Keys && forall k | k in keys :: m[k] == c
    ensures Sum(m) == |keys| * c + Sum(m - keys)
    decreases keys
  {
    if keys == {} {
      assert m - keys == m;
    } else {
      var k := Choose(keys);
      SumTake(m, k);
      SumSame(m - {k}, keys - {k}, c);
      assert m - {k} - (keys - {k}) == m - keys;
      assert |keys| * c == (|keys| - 1) * c + c;
    }
  }

  lemma {:induction false} SumZero(m: map<string, int>)
    requires forall k | k in m :: m[k] == 0
    ensures Sum(m) == 0
    decreases m.Keys
  {
    if m != map[] {
      var k := Choose(m.Keys);
      SumZero(m - {k});
    }
  }

  lemma SumAdd(m: map<string, int>, k: string, v: int)
    requires k !in m
    ensures Sum(m[k := v]) == Sum(m) + v
  {
    SumTake(m[k := v], k);
    assert m[k := v] - {k} == m;
  }

  /** Two ledgers that differ at each key by at least 0 and, where a count allows it, less than step. */
  lemma {:induction false} SumGap(exact: map<string, int>, rounded: map<string, int>, count: map<string, int>, step: int)
    requires exact.Keys == rounded.Keys == count.Keys && step > 0
    requires forall k | k in exact :: count[k] >= 0 && 0 <= exact[k] - rounded[k] <= count[k] * (step - 1)
    ensures Sum(count) >= 0 && 0 <= Sum(exact) - Sum(rounded) <= Sum(count) * (step - 1)
    decreases exact.Keys
  {
    if exact != map[] {
      var k := Choose(exact.Keys);
      assert k in exact && k in rounded && k in count;
      SumGap(exact - {k}, rounded - {k}, count - {k}, step);
      SumTake(exact, k);
      SumTake(rounded, k);
      SumTake(count, k);
      Distribute(count[k], Sum(count - {k}), step - 1);
    }
  }
}
