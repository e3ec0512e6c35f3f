/** Totals over string-keyed maps. A map has no order, so the total is
    defined by removing an arbitrary key; the lemmas show that the choice
    does not matter. */
module Sums {

  ghost function Pick<V>(m: map<string, V>): (k: string)
    requires m != map[]
    ensures k in m
  {
    var k :| k in m; k
  }

  /** The sum of `f` over the values of `m`. */
  ghost function SumBy<V>(m: map<string, V>, f: V -> nat): nat
    decreases m.Keys
  {
    if m == map[] then 0
    else
      var k := Pick(m);
      f(m[k]) + SumBy(m - {k}, f)
  }

  /** Taking out any key, not only the one the definition picks, leaves the
      rest of the sum. */
  lemma {:induction false} SumByRemove<V>(m: map<string, V>, f: V -> nat, k: string)
    requires k in m
    ensures SumBy(m, f) == f(m[k]) + SumBy(m - {k}, f)
    decreases m.Keys
  {
    var j := Pick(m);
    if j != k {
      SumByRemove(m - {j}, f, k);
      SumByRemove(m - {k}, f, j);
      assert m - {j} - {k} == m - {k} - {j};
    }
  }

  /** Setting a key to `v` replaces its share of the sum by `f(v)`. */
  lemma SumByUpdate<V>(m: map<string, V>, f: V -> nat, k: string, v: V)
    ensures SumBy(m[k := v], f) == SumBy(m - {k}, f) + f(v)
  {
    SumByRemove(m[k := v], f, k);
    assert m[k := v] - {k} == m - {k};
  }

  lemma RemoveAbsent<V>(m: map<string, V>, f: V -> nat, k: string)
    requires k !in m
    ensures m - {k} == m
  {
  }

  function Count(n: nat): nat { n }

  /** The total of a counter map. */
  ghost function Total(m: map<string, nat>): nat {
    SumBy(m, Count)
  }

  /** `counter[k] = counter.get(k, 0) + 1`, as the fold does it: the key is
      created at zero if missing, then incremented. */
  function Bump(m: map<string, nat>, k: string): (r: map<string, nat>)
    ensures r.Keys == m.Keys + {k}
    ensures r[k] == (if k in m then m[k] else 0) + 1
    ensures forall j :: j in m && j != k ==> r[j] == m[j]
  {
    var base := if k in m then m else m[k := 0];
    base[k := base[k] + 1]
  }

  /** A bump adds exactly one to the total. */
  lemma BumpTotal(m: map<string, nat>, k: string)
    ensures Total(Bump(m, k)) == Total(m) + 1
  {
    var r := Bump(m, k);
    SumByUpdate(m, Count, k, r[k]);
    assert r == m[k := r[k]];
    if k in m {
      SumByRemove(m, Count, k);
    } else {
      RemoveAbsent(m, Count, k);
    }
  }

  /** The total of a map of counter maps: every inner count added up. */
  ghost function NestedTotal(m: map<string, map<string, nat>>): nat {
    SumBy(m, Total)
  }

  /** Bumping one inner counter, creating it empty if missing, adds one to
      the nested total. */
  lemma BumpNestedTotal(m: map<string, map<string, nat>>, outer: string, inner: string)
    ensures var base := if outer in m then m[outer] else map[];
      NestedTotal(m[outer := Bump(base, inner)]) == NestedTotal(m) + 1
  {
    var base := if outer in m then m[outer] else map[];
    SumByUpdate(m, Total, outer, Bump(base, inner));
    BumpTotal(base, inner);
    if outer in m {
      SumByRemove(m, Total, outer);
    } else {
      RemoveAbsent(m, Total, outer);
      assert Total(base) == 0;
    }
  }
}
