/** Shared vocabulary: optional values, component paths and sums over finite maps. */
module Collections {

  datatype Option<+T> = None | Some(value: T)

  type byte = bv8

  function Max(a: int, b: int): int {
    if a < b then b else a
  }

  function Min(a: int, b: int): int {
    if b < a then b else a
  }

  predicate IsDigit(c: char) {
    '0' <= c <= '9'
  }

  predicate AllDigits(s: string) {
    forall c | c in s :: IsDigit(c)
  }

  predicate Distinct<T(==)>(s: seq<T>) {
    forall i, j | 0 <= i < j < |s| :: s[i] != s[j]
  }

  /** The values of `m` added up. */
  ghost function Sum<K>(m: map<K, int>): int
    decreases |m|
  {
    if |m| == 0 then 0 else
      var k := Pick(m);
      assert |m - {k}| < |m| by { RemoveShrinks(m, k); }
      m[k] + Sum(m - {k})
  }

  ghost function Pick<K, V>(m: map<K, V>): (k: K)
    requires |m| != 0
    ensures k in m
  {
    assert m.Keys != {};
    var k :| k in m; k
  }

  lemma RemoveShrinks<K, V>(m: map<K, V>, k: K)
    requires k in m
    ensures |m - {k}| == |m| - 1
  {
    assert (m - {k}).Keys == m.Keys - {k};
  }

  /** The sum does not depend on which entry is counted first. */
  lemma {:induction false} SumRemove<K>(m: map<K, int>, k: K)
    requires k in m
    ensures Sum(m) == m[k] + Sum(m - {k})
    decreases |m|
  {
    hide Sum;
    RemoveShrinks(m, k);
    var j := SumPick(m);
    RemoveShrinks(m, j);
    if j != k {
      SumRemove(m - {j}, k);
      SumRemove(m - {k}, j);
      assert m - {j} - {k} == m - {j, k} == m - {k} - {j};
    }
  }

  lemma SumPick<K>(m: map<K, int>) returns (j: K)
    requires m != map[]
    ensures j in m && Sum(m) == m[j] + Sum(m - {j})
  {
    assert |m| != 0;
    j := Pick(m);
  }

  lemma SumUpdate<K>(m: map<K, int>, k: K, v: int)
    ensures Sum(m[k := v]) == Sum(m) + v - (if k in m then m[k] else 0)
  {
    SumRemove(m[k := v], k);
    assert m[k := v] - {k} == m - {k};
    if k in m {
      SumRemove(m, k);
    } else {
      assert m - {k} == m;
    }
  }

  lemma {:induction false} SumNonNegative<K>(m: map<K, int>)
    requires forall k | k in m :: m[k] >= 0
    ensures Sum(m) >= 0
    ensures forall k | k in m :: m[k] <= Sum(m)
    decreases |m|
  {
    forall k | k in m
      ensures 0 <= m[k] <= Sum(m)
    {
      RemoveShrinks(m, k);
      SumNonNegative(m - {k});
      SumRemove(m, k);
    }
    if |m| != 0 {
      var k :| k in m;
      assert 0 <= m[k] <= Sum(m);
    }
  }

  lemma RemoveTwice<K, V>(m: map<K, V>, k: K, keys: set<K>)
    ensures (m - {k}) - keys == (m - keys) - {k}
    ensures k in keys ==> (m - keys) - {k} == m - keys
  {}

  lemma {:induction false} SumMonotone<K>(m: map<K, int>, keys: set<K>)
    requires forall k | k in m :: m[k] >= 0
    ensures Sum(m - keys) <= Sum(m)
    decreases |m|
  {
    if |m| == 0 {
      assert m - keys == m;
    } else {
      var k := Pick(m);
      RemoveShrinks(m, k);
      SumMonotone(m - {k}, keys);
      RemoveTwice(m, k, keys);
      if k !in keys {
        SumRemove(m - keys, k);
      }
    }
  }

  /** A map whose entries all occur in a larger one, up to zeros, has no larger sum. */
  lemma {:induction false} SumDominated<K>(a: map<K, int>, b: map<K, int>)
    requires forall k | k in b :: b[k] >= 0
    requires forall k | k in a :: a[k] == if k in b then b[k] else 0
    ensures Sum(a) <= Sum(b)
    decreases |a|
  {
    if |a| == 0 {
      SumNonNegative(b);
    } else {
      var k := Pick(a);
      RemoveShrinks(a, k);
      SumDominated(a - {k}, b - {k});
      if k in b {
        SumRemove(b, k);
      } else {
        assert b - {k} == b;
      }
    }
  }
}
