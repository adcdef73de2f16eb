/** Sums over the contracts' storage mappings, in which an absent key reads as zero. */
module Ledger {
  import opened Numbers

  function Get<K>(m: map<K, nat>, k: K): nat {
    if k in m then m[k] else 0
  }

  /** The sum of every entry of a storage mapping. */
  ghost function Sum<K>(m: map<K, nat>): nat
    decreases |m|
  {
    if m == map[] then 0 else
      var k :| k in m;
      assert |m - {k}| < |m| by { RemoveSmaller(m, k); }
      m[k] + Sum(m - {k})
  }

  lemma RemoveSmaller<K, V>(m: map<K, V>, k: K)
    requires k in m
    ensures |m - {k}| == |m| - 1
  {
    assert (m - {k}).Keys == m.Keys - {k};
    assert |m.Keys - {k}| == |m.Keys| - 1;
  }

  /** The sum does not depend on the order in which the keys are taken. */
  lemma {:induction false} SumPick<K>(m: map<K, nat>, k: K)
    requires k in m
    ensures Sum(m) == m[k] + Sum(m - {k})
    decreases |m|
  {
    var j :| j in m && Sum(m) == m[j] + Sum(m - {j});
    if j != k {
      RemoveSmaller(m, j);
      RemoveSmaller(m, k);
      SumPick(m - {j}, k);
      SumPick(m - {k}, j);
      assert m - {j} - {k} == m - {k} - {j};
    }
  }

  lemma SumPut<K>(m: map<K, nat>, k: K, v: nat)
    ensures Sum(m[k := v]) + Get(m, k) == Sum(m) + v
  {
    SumPick(m[k := v], k);
    if k in m {
      SumPick(m, k);
      assert m[k := v] - {k} == m - {k};
    } else {
      assert m[k := v] - {k} == m;
    }
  }

  lemma SumAtLeast<K>(m: map<K, nat>, k: K)
    ensures Get(m, k) <= Sum(m)
  {
    if k in m {
      SumPick(m, k);
    }
  }

  /** Mappings that read the same everywhere have the same sum. */
  lemma {:induction false} SumSame<K>(m: map<K, nat>, m': map<K, nat>)
    requires forall k :: Get(m, k) == Get(m', k)
    ensures Sum(m) == Sum(m')
    decreases |m| + |m'|
  {
    if k :| k in m {
      SumPick(m, k);
      SumPut(m', k, 0);
      if k in m' {
        RemoveSmaller(m, k);
        RemoveSmaller(m', k);
        SumPick(m', k);
        forall j ensures Get(m - {k}, j) == Get(m' - {k}, j) {
          assert Get(m, j) == Get(m', j);
        }
        SumSame(m - {k}, m' - {k});
      } else {
        assert Get(m, k) == Get(m', k);
        RemoveSmaller(m, k);
        forall j ensures Get(m - {k}, j) == Get(m', j) {
          assert Get(m, j) == Get(m', j);
        }
        SumSame(m - {k}, m');
      }
    } else if k :| k in m' {
      RemoveSmaller(m', k);
      SumPick(m', k);
      assert Get(m, k) == Get(m', k);
      forall j ensures Get(m, j) == Get(m' - {k}, j) {
        assert Get(m, j) == Get(m', j);
      }
      SumSame(m, m' - {k});
    }
  }

  /** An empty mapping, or one that holds only zeros, sums to zero. */
  lemma {:induction false} SumZero<K>(m: map<K, nat>)
    requires forall k :: k in m ==> m[k] == 0
    ensures Sum(m) == 0
    decreases |m|
  {
    if k :| k in m {
      RemoveSmaller(m, k);
      SumPick(m, k);
      SumZero(m - {k});
    }
  }

  lemma SumDrop<K>(m: map<K, nat>, k: K)
    ensures Sum(m) == Get(m, k) + Sum(m - {k})
    ensures |m - {k}| <= |m| && (k in m ==> |m - {k}| < |m|)
    ensures forall j :: Get(m - {k}, j) == if j == k then 0 else Get(m, j)
  {
    if k in m {
      SumPick(m, k);
    } else {
      assert m - {k} == m;
    }
    hide Sum;
    DropSmaller(m, k);
  }

  lemma DropSmaller<K>(m: map<K, nat>, k: K)
    ensures |m - {k}| <= |m| && (k in m ==> |m - {k}| < |m|)
  {
    if k in m {
      RemoveSmaller(m, k);
    } else {
      assert m - {k} == m;
    }
  }

  predicate LinearAt<K>(m: map<K, nat>, a: map<K, nat>, b: map<K, nat>, d: nat, k: K) {
    Get(m, k) == Get(a, k) + d * Get(b, k)
  }

  lemma LinearAtDrop<K>(m: map<K, nat>, a: map<K, nat>, b: map<K, nat>, d: nat, k: K, j: K)
    requires LinearAt(m, a, b, d, j)
    ensures LinearAt(m - {k}, a - {k}, b - {k}, d, j)
  {
    hide Sum;
    SumDrop(m, k);
    SumDrop(a, k);
    SumDrop(b, k);
    if j == k {
      assert Get(m - {k}, j) == 0 && Get(a - {k}, j) == 0 && Get(b - {k}, j) == 0;
    }
  }

  ghost predicate SumsLinear<K>(m: map<K, nat>, a: map<K, nat>, b: map<K, nat>, d: nat) {
    Sum(m) == Sum(a) + d * Sum(b)
  }

  lemma AddLinearInts(d: int, gm: int, ga: int, gb: int, rm: int, ra: int, rb: int, sm: int, sa: int, sb: int)
    requires gm == ga + d * gb && rm == ra + d * rb && sm == gm + rm && sa == ga + ra && sb == gb + rb
    ensures sm == sa + d * sb
  {
    Distribute(gb, rb, d);
  }

  lemma AddLinear<K>(m: map<K, nat>, a: map<K, nat>, b: map<K, nat>, d: nat, k: K)
    requires LinearAt(m, a, b, d, k) && SumsLinear(m - {k}, a - {k}, b - {k}, d)
    ensures SumsLinear(m, a, b, d)
  {
    hide Sum;
    SumDrop(m, k);
    SumDrop(a, k);
    SumDrop(b, k);
    AddLinearInts(d, Get(m, k), Get(a, k), Get(b, k), Sum(m - {k}), Sum(a - {k}), Sum(b - {k}), Sum(m), Sum(a), Sum(b));
  }

  /** Sums are linear: entries that exceed others by d times those of a third mapping do so in sum as well. */
  lemma {:induction false} SumLinear<K>(m: map<K, nat>, a: map<K, nat>, b: map<K, nat>, d: nat)
    requires forall k :: LinearAt(m, a, b, d, k)
    ensures SumsLinear(m, a, b, d)
    decreases |m| + |a| + |b|
  {
    hide Sum, LinearAt;
    var keys := m.Keys + a.Keys + b.Keys;
    if keys == {} {
      assert m == map[] && a == map[] && b == map[];
      SumZero(m);
      SumZero(a);
      SumZero(b);
    } else {
      hide SumsLinear;
      var k :| k in keys;
      SumDrop(m, k);
      SumDrop(a, k);
      SumDrop(b, k);
      forall j ensures LinearAt(m - {k}, a - {k}, b - {k}, d, j) {
        LinearAtDrop(m, a, b, d, k, j);
      }
      SumLinear(m - {k}, a - {k}, b - {k}, d);
      AddLinear(m, a, b, d, k);
    }
  }

  lemma {:induction false} SumMono<K>(m: map<K, nat>, a: map<K, nat>)
    requires forall k :: Get(m, k) <= Get(a, k)
    ensures Sum(m) <= Sum(a)
    decreases |m|
  {
    if k :| k in m {
      SumDrop(m, k);
      SumDrop(a, k);
      forall j ensures Get(m - {k}, j) <= Get(a - {k}, j) {
        assert Get(m, j) <= Get(a, j);
      }
      SumMono(m - {k}, a - {k});
      assert Get(m, k) <= Get(a, k);
    }
  }

  function SumSeq(s: seq<nat>): nat {
    if s == [] then 0 else SumSeq(s[..|s| - 1]) + s[|s| - 1]
  }

  ghost predicate Distinct<T>(s: seq<T>) {
    forall i, j :: 0 <= i < j < |s| ==> s[i] != s[j]
  }
}
