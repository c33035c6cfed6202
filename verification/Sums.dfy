/** Sums over finite maps, for pool sizes and balances. */
module Sums {
  import opened Basics

  function Sum(m: map<nat, nat>): (n: nat)
    decreases |m|
  {
    if |m| == 0 then 0 else
      var k := MinOf(m.Keys);
      m[k] + Sum(m - {k})
  }

  /** The sum does not depend on the order in which keys are taken. */
  lemma {:induction false} SumOut(m: map<nat, nat>, a: nat)
    requires a in m
    ensures Sum(m) == m[a] + Sum(m - {a})
    decreases |m|
  {
    var k := MinOf(m.Keys);
    if k != a {
      SumOut(m - {k}, a);
      SumOut(m - {a}, k);
      assert m - {k} - {a} == m - {a} - {k};
    }
  }

  lemma SumUpdate(m: map<nat, nat>, a: nat, v: nat)
    requires a in m
    ensures Sum(m[a := v]) == Sum(m) - m[a] + v
  {
    SumOut(m, a);
    SumOut(m[a := v], a);
    assert m[a := v] - {a} == m - {a};
  }

  /** Sums are monotone, and differ by at most one for each key that differs by one. */
  lemma {:induction false} SumWithin(m: map<nat, nat>, m': map<nat, nat>, big: set<nat>)
    requires m.Keys == m'.Keys && big <= m.Keys
    requires forall a :: a in m ==> m[a] <= m'[a] <= m[a] + (if a in big then 1 else 0)
    ensures Sum(m) <= Sum(m') <= Sum(m) + |big|
    decreases |m|
  {
    if |m| != 0 {
      var k := MinOf(m.Keys);
      SumWithin(m - {k}, m' - {k}, big - {k});
    }
  }

  /** Maps that differ at one key only. */
  lemma SumBut(m: map<nat, nat>, m': map<nat, nat>, a: nat)
    requires forall b :: b != a ==> (b in m <==> b in m') && (b in m ==> m[b] == m'[b])
    ensures Sum(m') - (if a in m' then m'[a] else 0) == Sum(m) - (if a in m then m[a] else 0)
  {
    hide Sum;
    assert m - {a} == m' - {a};
    SumWithout(m, a);
    SumWithout(m', a);
  }

  lemma SumWithout(m: map<nat, nat>, a: nat)
    ensures Sum(m) - (if a in m then m[a] else 0) == Sum(m - {a})
  {
    hide Sum;
    if a in m {
      SumOut(m, a);
    } else {
      assert m - {a} == m;
    }
  }
}
