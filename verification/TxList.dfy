/**
  txList of core/tx_list.go: the transactions of one account, with the highest cost and gas
  limit among them cached, so that filtering by balance can be skipped. A strict list has no
  gaps between its nonces and drops what a removal would leave behind a gap.
 */
module TxList {
  import opened Options
  import opened TxSortedMap

  const MAX_U64: nat := 0xFFFF_FFFF_FFFF_FFFF

  predicate TooDear(tx: Tx, costLimit: nat, gasLimit: nat) {
    tx.cost > costLimit || tx.gasLimit > gasLimit
  }

  function DearerThan(costLimit: nat, gasLimit: nat): Tx -> bool {
    (tx: Tx) => TooDear(tx, costLimit, gasLimit)
  }

  function Above(nonce: nat): Tx -> bool {
    (tx: Tx) => tx.nonce > nonce
  }

  /** The new price must exceed the old one by a percentage. */
  function Threshold(prior: Tx, priceBump: nat): nat {
    prior.price * (100 + priceBump) / 100
  }

  /** Without rounding: the new price is above the old one by more than the percentage. */
  ghost predicate Outbids(tx: Tx, prior: Tx, priceBump: nat) {
    prior.price * (100 + priceBump) < 100 * tx.price
  }

  /** Rounding the threshold down decides the same. */
  lemma OutbidsIff(tx: Tx, prior: Tx, priceBump: nat)
    ensures Threshold(prior, priceBump) < tx.price <==> Outbids(tx, prior, priceBump)
    ensures Outbids(tx, prior, priceBump) ==> prior.price < tx.price
  {
    var raised := prior.price * (100 + priceBump);
    assert raised == 100 * prior.price + prior.price * priceBump;
    assert prior.price * priceBump >= 0;
  }

  /** Every transaction costs at most the cap, and nonces are 64-bit. */
  predicate Capped(items: Items, costcap: nat, gascap: nat) {
    forall n | n in items :: n <= MAX_U64 && items[n].cost <= costcap && items[n].gasLimit <= gascap
  }

  /** There is no gap between nonces. */
  ghost predicate Gapless(items: Items) {
    forall a, b, n: nat | a in items && b in items && a <= n <= b :: n in items
  }

  /** What strict mode leaves when the transactions in gone are taken out: nothing above the lowest of them. */
  ghost predicate Truncated(items: Items, items': Items, gone: Items) {
    forall n :: n in items' <==> n in items && forall g | g in gone :: n < g
  }

  lemma FromIsGapless(items: Items, n: nat)
    requires Gapless(items)
    ensures Gapless(From(items, n))
  {
  }

  lemma TruncatedIsGapless(items: Items, items': Items, gone: Items)
    requires Gapless(items) && Truncated(items, items', gone)
    ensures Gapless(items')
  {
  }

  /** Capping keeps the lowest nonces. */
  lemma CapKeepsLowest(items: Items, items': Items, drops: seq<Tx>, a: nat, b: nat)
    requires ByNonce(items) && ByNonce(items') && Flat(items) == Flat(items') + Reverse(drops)
    requires a in items' && b in items && b !in items'
    ensures a < b
  {
    FlatIs(items);
    FlatIs(items');
    PrefixIsLower(Flat(items), Flat(items'), items', items'[a], items[b]);
  }

  lemma PrefixIsLower(flat: seq<Tx>, low: seq<Tx>, items: Items, x: Tx, y: Tx)
    requires low <= flat && (forall i | 0 <= i < |low| :: Has(items, low[i]))
    requires forall i, j | 0 <= i < j < |flat| :: flat[i].nonce < flat[j].nonce
    requires x in low && y in flat && y.nonce !in items
    ensures x.nonce < y.nonce
  {
    var i :| 0 <= i < |low| && low[i] == x;
    var j :| 0 <= j < |flat| && flat[j] == y;
    assert flat[i] == x;
  }

  lemma CapIsGapless(items: Items, items': Items, drops: seq<Tx>)
    requires ByNonce(items) && ByNonce(items') && Flat(items) == Flat(items') + Reverse(drops)
    requires Gapless(items) && forall n | n in items' :: n in items
    ensures Gapless(items')
  {
    forall a, b, n: nat | a in items' && b in items' && a <= n <= b
      ensures n in items'
    {
      if n !in items' {
        CapKeepsLowest(items, items', drops, b, n);
      }
    }
  }

  class List {
    const strict: bool
    const txs: SortedMap
    var costcap: nat
    var gascap: nat

    ghost predicate Valid()
      reads this, txs
    {
      txs.Valid() && Capped(txs.items, costcap, gascap)
    }

    constructor (strict: bool)
      ensures Valid() && fresh(txs) && this.strict == strict && txs.items == map[] && costcap == gascap == 0
    {
      this.strict := strict;
      txs := new SortedMap();
      costcap, gascap := 0, 0;
    }

    /** Add: replaces a transaction with the same nonce only for a price above the threshold. */
    method Add(tx: Tx, priceBump: nat) returns (inserted: bool, prior: Option<Tx>)
      requires Valid() && tx.nonce <= MAX_U64
      modifies this, txs
      ensures Valid()
      ensures inserted <==>
                tx.nonce !in old(txs.items) || old(txs.items)[tx.nonce].price * (100 + priceBump) < 100 * tx.price
      ensures inserted && tx.nonce in old(txs.items) ==> old(txs.items)[tx.nonce].price < tx.price
      ensures txs.items == if inserted then old(txs.items)[tx.nonce := tx] else old(txs.items)
      ensures prior == if inserted && tx.nonce in old(txs.items) then Some(old(txs.items)[tx.nonce]) else None
      ensures costcap == if inserted && tx.cost > old(costcap) then tx.cost else old(costcap)
      ensures gascap == if inserted && tx.gasLimit > old(gascap) then tx.gasLimit else old(gascap)
    {
      prior := txs.Get(tx.nonce);
      if prior.Some? {
        OutbidsIff(tx, prior.value, priceBump);
      }
      if prior.Some? && Threshold(prior.value, priceBump) >= tx.price {
        return false, None;
      }
      txs.Put(tx);
      if costcap < tx.cost {
        costcap := tx.cost;
      }
      if gascap < tx.gasLimit {
        gascap := tx.gasLimit;
      }
      inserted := true;
    }

    method Forward(threshold: nat) returns (removed: seq<Tx>)
      requires Valid()
      modifies txs
      ensures Valid() && txs.items == From(old(txs.items), threshold)
      ensures Flat(old(txs.items)) == removed + Flat(txs.items)
      ensures old(Gapless(txs.items)) ==> Gapless(txs.items)
    {
      removed := txs.Forward(threshold);
    }

    method Cap(threshold: nat) returns (drops: seq<Tx>)
      requires Valid()
      modifies txs
      ensures Valid() && Flat(old(txs.items)) == Flat(txs.items) + Reverse(drops)
      ensures |txs.items| == if |old(txs.items)| <= threshold then |old(txs.items)| else threshold
      ensures forall n | n in txs.items :: n in old(txs.items) && txs.items[n] == old(txs.items)[n]
      ensures old(Gapless(txs.items)) ==> Gapless(txs.items)
    {
      ghost var items := txs.items;
      drops := txs.Cap(threshold);
      if Gapless(items) {
        CapIsGapless(items, txs.items, drops);
      }
    }

    method Ready(start: nat) returns (ready: seq<Tx>)
      requires Valid()
      modifies txs
      ensures Valid() && IsRun(ready, old(txs.items), txs.items)
      ensures ready == [] <==> forall n | n in old(txs.items) :: n > start
    {
      ready := txs.Ready(start);
    }

    /** The lowest nonce among the removed transactions. */
    static method LowestOf(removed: seq<Tx>) returns (lowest: nat)
      requires removed != [] && forall tx | tx in removed :: tx.nonce <= MAX_U64
      ensures (exists tx :: tx in removed && tx.nonce == lowest) && forall tx | tx in removed :: lowest <= tx.nonce
    {
      lowest := MAX_U64;
      for i := 0 to |removed|
        invariant forall k | 0 <= k < i :: lowest <= removed[k].nonce
        invariant (lowest == MAX_U64 && forall k | 0 <= k < i :: removed[k].nonce == MAX_U64) || exists k ::
                    0 <= k < i && removed[k].nonce == lowest
      {
        if lowest > removed[i].nonce {
          lowest := removed[i].nonce;
        }
      }
      assert removed[0] in removed;
    }

    /** The work of Filter: takes out what is too dear, and in strict mode all above the lowest of these. */
    method FilterAll(costLimit: nat, gasLimit: nat) returns (removed: seq<Tx>, invalids: seq<Tx>)
      requires Valid()
      modifies this, txs
      ensures Valid() && IsFiltered(strict, old(txs.items), costLimit, gasLimit, txs.items, removed, invalids)
      ensures costcap == costLimit && gascap == gasLimit
    {
      ghost var items := txs.items;
      costcap, gascap := costLimit, gasLimit;
      removed := txs.Filter(DearerThan(costLimit, gasLimit));
      invalids := [];
      DearIsRemoved(items, costLimit, gasLimit, removed);
      if strict && |removed| > 0 {
        var lowest := LowestOf(removed);
        StrictFilter(items, txs.items, costLimit, gasLimit, removed, lowest);
        invalids := txs.Filter(Above(lowest));
      } else {
        PlainFilter(strict, items, costLimit, gasLimit, removed);
      }
    }

    /**
      Filter: what is too dear is removed; a strict list also loses everything above the lowest of these.
      The caps only save the work: the result is the same whether or not they are asked first.
     */
    method Filter(costLimit: nat, gasLimit: nat) returns (removed: seq<Tx>, invalids: seq<Tx>)
      requires Valid()
      modifies this, txs
      ensures Valid() && IsFiltered(strict, old(txs.items), costLimit, gasLimit, txs.items, removed, invalids)
      ensures strict && old(Gapless(txs.items)) ==> Gapless(txs.items)
      ensures if old(costcap) <= costLimit && old(gascap) <= gasLimit
                then costcap == old(costcap) && gascap == old(gascap)
                else costcap == costLimit && gascap == gasLimit
    {
      StrictIsGapless(txs.items, costLimit, gasLimit);
      if costcap <= costLimit && gascap <= gasLimit {
        NothingDear(strict, txs.items, costcap, gascap, costLimit, gasLimit);
        return [], [];
      }
      removed, invalids := FilterAll(costLimit, gasLimit);
    }

    /** Remove: goes by the nonce; a strict list also loses everything above it. */
    method Remove(tx: Tx) returns (found: bool, invalids: seq<Tx>)
      requires Valid()
      modifies txs
      ensures Valid() && (found <==> tx.nonce in old(txs.items))
      ensures IsRemoved(strict, old(txs.items), tx.nonce, txs.items, invalids)
      ensures strict && old(Gapless(txs.items)) ==> Gapless(txs.items)
    {
      RemovedIsGapless(txs.items, tx.nonce);
      AboveGoes(txs.items, tx.nonce);
      found := txs.Remove(tx.nonce);
      if !found || !strict {
        return found, [];
      }
      invalids := txs.Filter(Above(tx.nonce));
    }
  }

  /** The nonce is gone, and in strict mode, if it was there, everything above it. */
  ghost predicate IsRemoved(strict: bool, items: Items, n: nat, items': Items, invalids: seq<Tx>) {
    if strict && n in items then items' == Upto(items, n) && multiset(invalids) == ValuesOf(From(items, n + 1))
    else items' == items - {n} && invalids == []
  }

  lemma RemovedIsGapless(items: Items, n: nat)
    ensures Gapless(items) ==> Gapless(Upto(items, n)) && (n !in items ==> Gapless(items - {n}))
  {
  }

  /** The transactions with nonces below n. */
  function Upto(items: Items, n: nat): Items {
    map k | k in items && k < n :: items[k]
  }

  lemma AboveGoes(items: Items, n: nat)
    requires ByNonce(items)
    ensures Kept(items - {n}, Above(n)) == Upto(items, n)
    ensures Dropped(items - {n}, Above(n)) == From(items, n + 1)
  {
  }

  /** The transactions that cost too much. */
  function Dear(items: Items, costLimit: nat, gasLimit: nat): Items {
    Dropped(items, DearerThan(costLimit, gasLimit))
  }

  /** What an unconditional filter leaves. */
  function Filtered(strict: bool, items: Items, costLimit: nat, gasLimit: nat): Items {
    map n | n in items && !TooDear(items[n], costLimit, gasLimit)
            && (strict ==> forall g | g in Dear(items, costLimit, gasLimit) :: n < g) :: items[n]
  }

  /** The affordable transactions that strict mode gives up. */
  function Behind(strict: bool, items: Items, costLimit: nat, gasLimit: nat): Items {
    map n | n in items && !TooDear(items[n], costLimit, gasLimit)
            && strict && exists g :: g in Dear(items, costLimit, gasLimit) && g < n :: items[n]
  }

  /** An unconditional filter was applied. */
  ghost predicate IsFiltered(strict: bool, items: Items, costLimit: nat, gasLimit: nat, items': Items, removed: seq<Tx>,
                             invalids: seq<Tx>) {
    && items' == Filtered(strict, items, costLimit, gasLimit)
    && multiset(removed) == ValuesOf(Dear(items, costLimit, gasLimit))
    && multiset(invalids) == ValuesOf(Behind(strict, items, costLimit, gasLimit))
  }

  lemma NothingDear(strict: bool, items: Items, costcap: nat, gascap: nat, costLimit: nat, gasLimit: nat)
    requires Capped(items, costcap, gascap) && costcap <= costLimit && gascap <= gasLimit
    ensures Dear(items, costLimit, gasLimit) == Behind(strict, items, costLimit, gasLimit) == map[]
    ensures Filtered(strict, items, costLimit, gasLimit) == items
  {
    assert Dear(items, costLimit, gasLimit) == map[];
  }

  lemma DearIsRemoved(items: Items, costLimit: nat, gasLimit: nat, removed: seq<Tx>)
    requires ByNonce(items) && multiset(removed) == ValuesOf(Dear(items, costLimit, gasLimit))
    ensures forall tx :: tx in removed <==> Has(Dear(items, costLimit, gasLimit), tx)
  {
    var dear := Dear(items, costLimit, gasLimit);
    forall tx
      ensures tx in removed <==> Has(dear, tx)
    {
      assert tx in removed <==> tx in multiset(removed);
    }
  }

  lemma PlainFilter(strict: bool, items: Items, costLimit: nat, gasLimit: nat, removed: seq<Tx>)
    requires multiset(removed) == ValuesOf(Dear(items, costLimit, gasLimit)) && (strict ==> removed == [])
    ensures Kept(items, DearerThan(costLimit, gasLimit)) == Filtered(strict, items, costLimit, gasLimit)
    ensures Behind(strict, items, costLimit, gasLimit) == map[]
  {
    ValuesListed(removed, Dear(items, costLimit, gasLimit));
  }

  lemma StrictFilter(items: Items, left: Items, costLimit: nat, gasLimit: nat, removed: seq<Tx>, lowest: nat)
    requires ByNonce(items) && left == Kept(items, DearerThan(costLimit, gasLimit))
    requires forall tx :: tx in removed <==> Has(Dear(items, costLimit, gasLimit), tx)
    requires (exists tx :: tx in removed && tx.nonce == lowest) && forall tx | tx in removed :: lowest <= tx.nonce
    ensures Kept(left, Above(lowest)) == Filtered(true, items, costLimit, gasLimit)
    ensures Dropped(left, Above(lowest)) == Behind(true, items, costLimit, gasLimit)
  {
    var dear := Dear(items, costLimit, gasLimit);
    assert lowest in dear;
    forall g | g in dear
      ensures lowest <= g
    {
      assert Has(dear, dear[g]);
    }
  }

  lemma StrictIsGapless(items: Items, costLimit: nat, gasLimit: nat)
    ensures Gapless(items) ==> Gapless(Filtered(true, items, costLimit, gasLimit))
  {
    var left := Filtered(true, items, costLimit, gasLimit);
    if Gapless(items) {
      forall n
        ensures n in left <==> n in items && forall g | g in Dear(items, costLimit, gasLimit) :: n < g
      {
        assert n in items && TooDear(items[n], costLimit, gasLimit) ==> n in Dear(items, costLimit, gasLimit);
      }
      TruncatedIsGapless(items, left, Dear(items, costLimit, gasLimit));
    }
  }
}
