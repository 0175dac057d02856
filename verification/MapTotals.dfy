/** Sums over maps from names to amounts. */
module MapTotals {
  import opened Collections

  ghost function Total(m: map<string, int>): int
    decreases |m|
  {
    if m.Keys == {} then 0
    else
      var k := Pick(m.Keys);
      SmallerWithout(m, k);
      m[k] + Total(m - {k})
  }

  lemma SmallerWithout(m: map<string, int>, k: string)
    requires k in m
    ensures |m - {k}| < |m|
  {
    assert m.Keys == (m - {k}).Keys + {k};
  }

  function AmountOf(m: map<string, int>, k: string): int {
    if k in m then m[k] else 0
  }

  lemma RemovalsCommute(m: map<string, int>, k: string, l: string)
    ensures m - {k} - {l} == m - {l} - {k}
  {
  }

  lemma {:induction false} TotalWithout(m: map<string, int>, k: string)
    ensures Total(m) == AmountOf(m, k) + Total(m - {k})
    decreases |m|
  {
    if k !in m {
      assert m - {k} == m;
    } else {
      var p := Pick(m.Keys);
      if p != k {
        SmallerWithout(m, p);
        SmallerWithout(m, k);
        TotalWithout(m - {p}, k);
        TotalWithout(m - {k}, p);
        RemovalsCommute(m, p, k);
      }
    }
  }

  /** Storing an amount changes the sum by the difference to what was there. */
  lemma TotalPut(m: map<string, int>, k: string, v: int)
    ensures Total(m[k := v]) == Total(m) - AmountOf(m, k) + v
  {
    TotalWithout(m, k);
    TotalWithout(m[k := v], k);
    assert m[k := v] - {k} == m - {k};
  }

  lemma EmptyTotal()
    ensures Total(map[]) == 0
  {
    var none: map<string, int> := map[];
    assert none.Keys == {};
  }

  ghost predicate NonNegative(m: map<string, int>) {
    forall k | k in m :: m[k] >= 0
  }

  /** Without negative amounts no entry exceeds the sum. */
  lemma {:induction false} EntriesBelowTotal(m: map<string, int>, k: string)
    requires NonNegative(m)
    ensures 0 <= AmountOf(m, k) <= Total(m)
    decreases |m|
  {
    TotalWithout(m, k);
    TotalNonNegative(m - {k});
  }

  lemma {:induction false} TotalNonNegative(m: map<string, int>)
    requires NonNegative(m)
    ensures Total(m) >= 0
    decreases |m|
  {
    if m.Keys != {} {
      var k := Pick(m.Keys);
      SmallerWithout(m, k);
      TotalNonNegative(m - {k});
    }
  }

  /** Two entries of a map without negative amounts. */
  lemma TwoEntriesBelowTotal(m: map<string, int>, k: string, l: string)
    requires NonNegative(m) && k != l
    ensures AmountOf(m, k) + AmountOf(m, l) <= Total(m)
  {
    TotalWithout(m, k);
    EntriesBelowTotal(m - {k}, l);
  }
}
