/**
  The chance of an item to be chosen by weightedRandomSelect of les/randselect.go when the weights of items have gone
  down since they were stored: a choice is accepted only with the share of the weight that is left, and otherwise the
  lower weight is stored and another item is tried.
 */
module RejectionChance {
  import opened Options
  import opened WeightedSelect

  /** The weight that the item of slot j reports now. */
  function Now(s: Slots, current: Item -> nat, j: nat): nat
    requires j < |s|
  {
    if s[j].Some? then current(s[j].value.item) else 0
  }

  ghost function SumNow(s: Slots, current: Item -> nat, n: nat): nat
    requires n <= |s|
  {
    if n == 0 then 0 else SumNow(s, current, n - 1) + Now(s, current, n - 1)
  }

  /** No stored weight is below the one reported now. */
  ghost predicate Fallen(s: Slots, current: Item -> nat) {
    forall j | 0 <= j < |s| :: Now(s, current, j) <= WeightAt(s[j])
  }

  /** The slots when the weight of slot j has been brought up to date. */
  function Updated(s: Slots, current: Item -> nat, j: nat): Slots
    requires j < |s|
  {
    if s[j].Some? then s[j := Reweighted(s[j], Now(s, current, j))] else s
  }

  lemma UpdatedFacts(s: Slots, current: Item -> nat, j: nat)
    requires j < |s| && Fallen(s, current)
    ensures |Updated(s, current, j)| == |s| && Fallen(Updated(s, current, j), current)
    ensures NonNegative(Updated(s, current, j))
    ensures Total(Updated(s, current, j)) == Total(s) - WeightAt(s[j]) + Now(s, current, j)
    ensures forall k | 0 <= k < |s| :: Now(Updated(s, current, j), current, k) == Now(s, current, k)
  {
    if s[j].Some? {
      Update(s, j, Reweighted(s[j], Now(s, current, j)));
    }
  }

  /** As many of the random values below the stored weight accept the choice. */
  ghost function Accepted(weight: nat, lastWeight: nat): set<int> {
    set r: int | 0 <= r < lastWeight && Accepts(weight, lastWeight, r)
  }

  /** The share of a set of outcomes, all equally likely. */
  function Share(part: int, whole: int): real
    requires whole > 0
  {
    part as real / whole as real
  }

  function Prod(a: real, b: real): real {
    a * b
  }

  /** The chance that the item of slot i is returned: in the first round, or after any number of rejections. */
  ghost function Chance(s: Slots, current: Item -> nat, i: nat): real
    requires Fallen(s, current) && i < |s|
    decreases Total(s), |s| + 1
  {
    FallenIsTotal(s, current);
    if Total(s) == 0 then 0.0 else ChanceBelow(s, current, i, |s|)
  }

  /** The same, when the first round chooses one of the first n slots. */
  ghost function ChanceBelow(s: Slots, current: Item -> nat, i: nat, n: nat): real
    requires Fallen(s, current) && i < |s| && n <= |s| && NonNegative(s) && Total(s) > 0
    decreases Total(s), n
  {
    if n == 0 then 0.0
    else ChanceBelow(s, current, i, n - 1) + Prod(Share(|Values(s, n - 1)|, Total(s)), After(s, current, i, n - 1))
  }

  /** The same, when the first round has chosen slot j. */
  ghost function After(s: Slots, current: Item -> nat, i: nat, j: nat): real
    requires Fallen(s, current) && i < |s| && j < |s| && NonNegative(s) && Total(s) > 0
    decreases Total(s), j
  {
    var now, last := Now(s, current, j), WeightAt(s[j]);
    UpdatedFacts(s, current, j);
    TotalNonNegative(Updated(s, current, j));
    if last == 0 then 0.0
    else
      var accepted := Share(|Accepted(now, last)|, last);
      (if j == i then accepted else 0.0)
        + (if now < last then Prod(1.0 - accepted, Chance(Updated(s, current, j), current, i)) else 0.0)
  }

  lemma FallenIsTotal(s: Slots, current: Item -> nat)
    requires Fallen(s, current)
    ensures NonNegative(s) && Total(s) >= 0
  {
    assert NonNegative(s);
    TotalNonNegative(s);
  }

  // ---------- The chance is the share of the weights reported now ----------

  lemma {:induction false} SumNowWithin(s: Slots, current: Item -> nat, n: nat)
    requires Fallen(s, current) && n <= |s|
    ensures SumNow(s, current, n) <= Total(s[..n])
  {
    if n > 0 {
      SumNowWithin(s, current, n - 1);
      TotalOneMore(s, n - 1);
    } else {
      assert s[..0] == [];
    }
  }

  lemma TotalOneMore(s: Slots, n: nat)
    requires n < |s|
    ensures Total(s[..n + 1]) == Total(s[..n]) + WeightAt(s[n])
  {
    assert s[..n + 1] == s[..n] + [s[n]];
    Concat(s[..n], [s[n]]);
  }

  lemma {:induction false} SumNowSame(s: Slots, t: Slots, current: Item -> nat, n: nat)
    requires n <= |s| == |t| && forall k | 0 <= k < |s| :: Now(t, current, k) == Now(s, current, k)
    ensures SumNow(t, current, n) == SumNow(s, current, n)
  {
    if n > 0 {
      SumNowSame(s, t, current, n - 1);
    }
  }

  // ---------- Products ----------

  lemma ShareTimes(part: int, whole: int, x: real)
    requires whole > 0
    ensures Prod(whole as real, Share(part, whole)) == part as real
    ensures Prod(whole as real, Prod(Share(part, whole), x)) == Prod(part as real, x)
  {
    var p, w := part as real, whole as real;
    assert w * (p / w) == p;
    assert w * ((p / w) * x) == (w * (p / w)) * x;
  }

  lemma ProdAdd(a: real, x: real, y: real)
    ensures Prod(a, x + y) == Prod(a, x) + Prod(a, y) && Prod(x + y, a) == Prod(x, a) + Prod(y, a)
    ensures Prod(a, x) == Prod(x, a) && Prod(a, 0.0) == 0.0
  {
  }

  lemma ProdCancel(a: real, x: real, y: real)
    requires a > 0.0 && Prod(a, x) == Prod(a, y)
    ensures x == y
  {
    assert a * (x - y) == 0.0;
  }

  lemma ProdRest(last: real, a: real, m: real, q: real)
    requires Prod(last, a) == m
    ensures Prod(last, Prod(1.0 - a, q)) == Prod(last - m, q)
  {
    assert last * ((1.0 - a) * q) == (last - last * a) * q;
  }

  /** One round that has chosen slot j, taken as often as its weight: q stands for the chance after a rejection. */
  lemma AfterIs(s: Slots, current: Item -> nat, i: nat, j: nat, q: real)
    requires Fallen(s, current) && i < |s| && j < |s| && NonNegative(s) && Total(s) > 0
    requires ThenIs(s, current, i, j, q)
    ensures Prod(WeightAt(s[j]) as real, After(s, current, i, j))
            == (if j == i then Now(s, current, j) as real else 0.0)
              + Prod((WeightAt(s[j]) - Now(s, current, j)) as real, q)
  {
    var now, last := Now(s, current, j), WeightAt(s[j]);
    if last > 0 {
      AcceptanceChance(now, last);
      var a := Share(now, last);
      ShareTimes(now, last, 0.0);
      ProdRest(last as real, a, now as real, q);
      var hit, rest := if j == i then a else 0.0, if now < last then Prod(1.0 - a, q) else 0.0;
      assert Accepted(now, last) == set r: int | 0 <= r < last && Accepts(now, last, r);
      assert After(s, current, i, j) == hit + rest;
      ProdAdd(last as real, hit, rest);
      ProdAdd(last as real, 0.0, 0.0);
      ProdAdd(q, 0.0, 0.0);
    } else {
      ProdAdd(q, 0.0, 0.0);
      ProdAdd(0.0, 0.0, 0.0);
    }
  }

  /** If slot j is rejected, the chance is q from there on. */
  ghost predicate ThenIs(s: Slots, current: Item -> nat, i: nat, j: nat, q: real)
    requires j < |s| && i < |s|
  {
    Now(s, current, j) < WeightAt(s[j]) ==>
      && Fallen(Updated(s, current, j), current) && |Updated(s, current, j)| == |s|
      && Chance(Updated(s, current, j), current, i) == q
  }

  lemma {:induction false} BelowIs(s: Slots, current: Item -> nat, i: nat, n: nat, q: real)
    requires Fallen(s, current) && i < |s| && n <= |s| && NonNegative(s) && Total(s) > 0
    requires forall j {:trigger ThenIs(s, current, i, j, q)} | 0 <= j < |s| :: ThenIs(s, current, i, j, q)
    ensures Prod(Total(s) as real, ChanceBelow(s, current, i, n))
            == (if i < n then Now(s, current, i) as real else 0.0)
              + Prod((Total(s[..n]) - SumNow(s, current, n)) as real, q)
  {
    var w := Total(s) as real;
    if n == 0 {
      assert s[..0] == [];
      ProdAdd(w, 0.0, 0.0);
      ProdAdd(q, 0.0, 0.0);
    } else {
      var j := n - 1;
      BelowIs(s, current, i, j, q);
      assert ThenIs(s, current, i, j, q);
      AfterIs(s, current, i, j, q);
      ChancesAreWeights(s, j);
      TotalOneMore(s, j);
      ShareTimes(WeightAt(s[j]), Total(s), After(s, current, i, j));
      ProdAdd(w, ChanceBelow(s, current, i, j), Prod(Share(WeightAt(s[j]), Total(s)), After(s, current, i, j)));
      ProdAdd(q, (Total(s[..j]) - SumNow(s, current, j)) as real, (WeightAt(s[j]) - Now(s, current, j)) as real);
    }
  }

  /** Over all rounds, an item is chosen with the share of its weight among all weights, as they are reported now. */
  lemma {:induction false} ChanceIsShare(s: Slots, current: Item -> nat, i: nat)
    requires Fallen(s, current) && i < |s| && SumNow(s, current, |s|) > 0
    ensures Chance(s, current, i) == Share(Now(s, current, i), SumNow(s, current, |s|))
    decreases Total(s)
  {
    FallenIsTotal(s, current);
    SumNowWithin(s, current, |s|);
    assert s[..|s|] == s;
    var left := SumNow(s, current, |s|);
    var q := Share(Now(s, current, i), left);
    forall j | 0 <= j < |s|
      ensures ThenIs(s, current, i, j, q)
    {
      if Now(s, current, j) < WeightAt(s[j]) {
        UpdatedFacts(s, current, j);
        FallenIsTotal(Updated(s, current, j), current);
        SumNowSame(s, Updated(s, current, j), current, |s|);
        ChanceIsShare(Updated(s, current, j), current, i);
      }
    }
    BelowIs(s, current, i, |s|, q);
    ShareTimes(Now(s, current, i), left, 0.0);
    ProdAdd(q, left as real, (Total(s) - left) as real);
    ProdAdd(q, Total(s) as real, 0.0);
    ProdCancel(Total(s) as real, Chance(s, current, i), q);
  }

  lemma {:induction false} NowIsStored(s: Slots, current: Item -> nat, n: nat)
    requires n <= |s| && forall j | 0 <= j < |s| && s[j].Some? :: current(s[j].value.item) == s[j].value.weight
    ensures forall j | 0 <= j < |s| :: Now(s, current, j) == WeightAt(s[j])
    ensures SumNow(s, current, n) == Total(s[..n])
  {
    if n > 0 {
      NowIsStored(s, current, n - 1);
      assert s[..n] == s[..n - 1] + [s[n - 1]];
      Concat(s[..n - 1], [s[n - 1]]);
    }
  }

  /** As long as no weight has changed, the chances are the shares of the stored weights. */
  lemma UnchangedChance(s: Slots, current: Item -> nat, i: nat)
    requires i < |s| && Total(s) > 0
    requires forall j | 0 <= j < |s| && s[j].Some? :: current(s[j].value.item) == s[j].value.weight
    ensures Chance(s, current, i) == Share(WeightAt(s[i]), Total(s))
  {
    NowIsStored(s, current, |s|);
    assert s[..|s|] == s;
    ChanceIsShare(s, current, i);
  }
}
