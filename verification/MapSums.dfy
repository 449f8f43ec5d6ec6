/** Sums of the values of a finite map. The map records how much every key contributes, so two sums
    are equal as soon as the two maps are. */
module MapSums {
  ghost function Sum<K>(m: map<K, int>): int
  {
    if m == map[] then 0 else
      var k :| k in m;
      m[k] + Sum(m - {k})
  }

  lemma {:induction false} SumRemove<K>(m: map<K, int>, k: K)
    requires k in m
    ensures Sum(m) == m[k] + Sum(m - {k})
    decreases |m|
  {
    var j :| j in m && Sum(m) == m[j] + Sum(m - {j});
    if j != k {
      SumRemove(m - {j}, k);
      SumRemove(m - {k}, j);
      assert m - {j} - {k} == m - {k} - {j};
    }
  }

  lemma SumPut<K>(m: map<K, int>, k: K, v: int)
    ensures Sum(m[k := v]) == Sum(m) + v - (if k in m then m[k] else 0)
  {
    SumRemove(m[k := v], k);
    assert m[k := v] - {k} == m - {k};
    if k in m {
      SumRemove(m, k);
    } else {
      assert m - {k} == m;
    }
  }

  /** Pointwise comparison; equality of the sums then means equality of the maps. */
  lemma {:induction false} SumMonotone<K>(a: map<K, int>, b: map<K, int>)
    requires a.Keys == b.Keys
    requires forall k | k in a :: a[k] <= b[k]
    ensures Sum(a) <= Sum(b)
    ensures Sum(a) == Sum(b) <==> a == b
    decreases |a|
  {
    if a == map[] {
      assert b == map[];
    } else {
      var k :| k in a;
      SumRemove(a, k);
      SumRemove(b, k);
      SumMonotone(a - {k}, b - {k});
      if Sum(a) == Sum(b) {
        forall j | j in a
          ensures a[j] == b[j]
        {
          if j != k {
            assert (a - {k})[j] == (b - {k})[j];
          }
        }
      }
    }
  }

  lemma {:induction false} SumOfOnes<K>(m: map<K, int>)
    requires forall k | k in m :: m[k] == 1
    ensures Sum(m) == |m|
    decreases |m|
  {
    if m != map[] {
      var k :| k in m;
      SumRemove(m, k);
      SumOfOnes(m - {k});
    }
  }

  /** The keys that `owner` sends to `h`. */
  ghost function Fibre<K, H>(owner: map<K, H>, h: H): set<K> {
    set k | k in owner && owner[k] == h
  }

  ghost function WeightByTarget<K, H>(weight: map<H, int>, owner: map<K, H>): map<H, int> {
    map h | h in weight :: weight[h] * |Fibre(owner, h)|
  }

  ghost function WeightBySource<K, H>(weight: map<H, int>, owner: map<K, H>): map<K, int>
    requires owner.Values <= weight.Keys
  {
    map k | k in owner :: weight[owner[k]]
  }

  lemma FibreRemove<K, H>(owner: map<K, H>, k: K, g: H)
    requires k in owner
    ensures |Fibre(owner, g)| == |Fibre(owner - {k}, g)| + (if owner[k] == g then 1 else 0)
  {
    var rest := owner - {k};
    if owner[k] == g {
      assert Fibre(owner, g) == Fibre(rest, g) + {k};
    } else {
      assert Fibre(owner, g) == Fibre(rest, g);
    }
  }

  lemma FibrePut<K, H>(owner: map<K, H>, k: K, h: H, g: H)
    ensures |Fibre(owner[k := h], g)| ==
            |Fibre(owner, g)| + (if g == h then 1 else 0) - (if k in owner && owner[k] == g then 1 else 0)
  {
    FibreRemove(owner[k := h], k, g);
    assert owner[k := h] - {k} == owner - {k};
    if k in owner {
      FibreRemove(owner, k, g);
    } else {
      assert owner - {k} == owner;
    }
  }

  lemma TargetWeightRemove<K, H>(weight: map<H, int>, owner: map<K, H>, k: K)
    requires k in owner && owner[k] in weight
    ensures Sum(WeightByTarget(weight, owner)) == Sum(WeightByTarget(weight, owner - {k})) + weight[owner[k]]
  {
    var h := owner[k];
    var before, after := WeightByTarget(weight, owner - {k}), WeightByTarget(weight, owner);
    var expected := before[h := before[h] + weight[h]];
    forall g | g in weight
      ensures after[g] == expected[g]
    {
      FibreRemove(owner, k, g);
      assert weight[h] * (|Fibre(owner - {k}, h)| + 1) == weight[h] * |Fibre(owner - {k}, h)| + weight[h];
    }
    assert after == expected;
    SumPut(before, h, before[h] + weight[h]);
  }

  lemma {:induction false} AllZero<K>(m: map<K, int>)
    requires forall k | k in m :: m[k] == 0
    ensures Sum(m) == 0
    decreases |m|
  {
    if m != map[] {
      var k :| k in m;
      SumRemove(m, k);
      AllZero(m - {k});
    }
  }

  /** Counting a weight once per source equals counting it per target, times the number of its sources. */
  lemma {:induction false} DoubleCounting<K, H>(weight: map<H, int>, owner: map<K, H>)
    requires owner.Values <= weight.Keys
    ensures Sum(WeightByTarget(weight, owner)) == Sum(WeightBySource(weight, owner))
    decreases |owner|
  {
    if owner == map[] {
      AllZero(WeightByTarget(weight, owner));
    } else {
      var k :| k in owner;
      DoubleCounting(weight, owner - {k});
      TargetWeightRemove(weight, owner, k);
      SumRemove(WeightBySource(weight, owner), k);
      assert WeightBySource(weight, owner) - {k} == WeightBySource(weight, owner - {k});
    }
  }
}
