/** Sums over the values of a finite map. */
module Sums {

  ghost function Any(m: map<nat, int>): (a: nat)
    requires m != map[]
    ensures a in m
  {
    var a :| a in m;
    a
  }

  ghost function Sum(m: map<nat, int>): int
    decreases |m|
  {
    if m == map[] then 0
    else
      Smaller(m, Any(m));
      m[Any(m)] + Sum(m - {Any(m)})
  }

  lemma Smaller(m: map<nat, int>, a: nat)
    requires a in m
    ensures |m - {a}| < |m|
  {
    assert (m - {a}).Keys == m.Keys - {a};
    assert |m.Keys| == |m| && |(m - {a}).Keys| == |m - {a}|;
  }

  /** Any value may be taken out first. */
  lemma {:induction false} SumTake(m: map<nat, int>, a: nat)
    requires a in m
    ensures Sum(m) == m[a] + Sum(m - {a})
    decreases |m|
  {
    var c := Any(m);
    if a != c {
      Smaller(m, a);
      Smaller(m, c);
      SumTake(m - {c}, a);
      SumTake(m - {a}, c);
      assert m - {c} - {a} == m - {a} - {c};
    }
  }

  lemma {:induction false} SumNotNegative(m: map<nat, int>)
    requires forall a | a in m :: m[a] >= 0
    ensures Sum(m) >= 0
    decreases |m|
  {
    if m != map[] {
      Smaller(m, Any(m));
      SumNotNegative(m - {Any(m)});
    }
  }

  function Get(m: map<nat, int>, a: nat): int {
    if a in m then m[a] else 0
  }

  /** Changing one value changes the sum by as much. */
  lemma SumChange(m: map<nat, int>, a: nat, x: int)
    ensures Sum(m[a := x]) == Sum(m) - Get(m, a) + x
    ensures Sum(m - {a}) == Sum(m) - Get(m, a)
  {
    SumTake(m[a := x], a);
    assert m[a := x] - {a} == m - {a};
    if a in m {
      SumTake(m, a);
    } else {
      assert m - {a} == m;
    }
  }
}
