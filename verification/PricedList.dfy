/**
  txPricedList of core/tx_list.go: a heap of the pool's transactions by price. It is cleaned
  lazily: entries of transactions that have left the pool stay in it for a while, and an entry
  may be there more than once. A transaction hash stands for its transaction, so the pool's
  map of all transactions is a set here.
 */
module PricedList {
  import opened TxSortedMap
  import Heaps

  type Accounts = set<nat>

  function PriceOf(tx: Tx): int { tx.price }

  predicate IsLocal(tx: Tx, local: Accounts) {
    tx.sender in local
  }

  /** Every transaction of the pool has an entry. */
  predicate Covers(items: seq<Tx>, all: set<Tx>) {
    forall tx | tx in all :: tx in items
  }

  /** The price is not above any price in the pool. */
  predicate IsCheapest(tx: Tx, all: set<Tx>) {
    forall other | other in all :: tx.price <= other.price
  }

  predicate AtLeast(items: seq<Tx>, price: int) {
    forall tx | tx in items :: tx.price >= price
  }

  lemma PoppedMembers(items: seq<Tx>, x: Tx, rest: seq<Tx>)
    requires multiset(rest) + multiset{x} == multiset(items)
    ensures x in items && (forall tx | tx in rest :: tx in items) && forall tx | tx in items :: tx == x || tx in rest
    ensures |rest| < |items|
  {
    assert |rest| == |multiset(rest)| && |items| == |multiset(items)|;
    forall tx
      ensures tx in rest ==> tx in items
      ensures tx in items ==> tx == x || tx in rest
    {
      assert tx in items <==> tx in multiset(items);
      assert tx in rest <==> tx in multiset(rest);
    }
    assert x in multiset(items);
  }

  lemma PushedMembers(items: seq<Tx>, x: Tx, more: seq<Tx>)
    requires multiset(more) == multiset(items) + multiset{x}
    ensures forall tx :: tx in more <==> tx == x || tx in items
  {
    forall tx
      ensures tx in more <==> tx == x || tx in items
    {
      assert tx in items <==> tx in multiset(items);
      assert tx in more <==> tx in multiset(more);
    }
  }

  /** The transactions of a set in any order. */
  method SetToSeq(all: set<Tx>) returns (s: seq<Tx>)
    ensures |s| == |all| && forall tx :: tx in s <==> tx in all
  {
    s := [];
    var todo := all;
    while todo != {}
      invariant |s| + |todo| == |all| && forall tx :: tx in all <==> tx in s || tx in todo
      decreases |todo|
    {
      var tx :| tx in todo;
      s := s + [tx];
      todo := todo - {tx};
    }
  }

  // ---------- Taking cheap transactions out ----------

  /**
    Entries have been taken from the heap by rising price, up to a price: those to drop and those
    to save are of the pool, remote and local; every transaction of the pool is still in the heap
    or in one of the two, and nothing cheaper is left in the heap.
   */
  ghost predicate Taking(all: set<Tx>, local: Accounts, items: seq<Tx>, drop: seq<Tx>, save: seq<Tx>, price: int) {
    && Heaps.IsHeap(items, PriceOf) && AtLeast(items, price)
    && (forall tx | tx in drop :: tx in all && !IsLocal(tx, local) && tx.price <= price)
    && (forall tx | tx in save :: tx in all && IsLocal(tx, local))
    && (forall tx | tx in all :: tx in items || tx in drop || tx in save)
  }

  lemma TakeOne(all: set<Tx>, local: Accounts, items: seq<Tx>, drop: seq<Tx>, save: seq<Tx>, price: int, x: Tx,
                rest: seq<Tx>)
    requires Taking(all, local, items, drop, save, price)
    requires Heaps.IsHeap(rest, PriceOf) && multiset(rest) + multiset{x} == multiset(items) && AtLeast(items, x.price)
    ensures x.price >= price && |rest| + 1 == |items|
    ensures x !in all ==> Taking(all, local, rest, drop, save, x.price)
    ensures x in all && IsLocal(x, local) ==> Taking(all, local, rest, drop, save + [x], x.price)
    ensures x in all && !IsLocal(x, local) ==> Taking(all, local, rest, drop + [x], save, x.price)
  {
    PoppedMembers(items, x, rest);
    assert |multiset(rest)| == |rest| && |multiset(items)| == |items|;
  }

  /** heap.Pop, with the least price. */
  method PopCheapest(items: seq<Tx>) returns (tx: Tx, rest: seq<Tx>)
    requires Heaps.IsHeap(items, PriceOf) && items != []
    ensures tx == items[0] && Heaps.IsHeap(rest, PriceOf) && multiset(rest) + multiset{tx} == multiset(items)
    ensures AtLeast(items, tx.price) && |rest| + 1 == |items|
  {
    tx, rest := Heaps.Pop(items, PriceOf);
    forall y | y in items
      ensures y.price >= tx.price
    {
      assert PriceOf(tx) <= PriceOf(y);
    }
    assert |multiset(rest)| == |rest| && |multiset(items)| == |items|;
  }

  /** Saved transactions go back into the heap. */
  method PushAll(items0: seq<Tx>, save: seq<Tx>) returns (items: seq<Tx>)
    requires Heaps.IsHeap(items0, PriceOf)
    ensures Heaps.IsHeap(items, PriceOf) && forall tx :: tx in items <==> tx in items0 || tx in save
    ensures |items| == |items0| + |save|
  {
    items := items0;
    for i := 0 to |save|
      invariant Heaps.IsHeap(items, PriceOf) && forall tx :: tx in items <==> tx in items0 || tx in save[..i]
      invariant |items| == |items0| + i
    {
      var more := Heaps.Push(items, PriceOf, save[i]);
      PushedMembers(items, save[i], more);
      assert |more| == |multiset(more)|;
      assert save[..i + 1] == save[..i] + [save[i]];
      items := more;
    }
    assert save[..|save|] == save;
  }

  /** One more entry is counted as stale, or there is one for each of the n transactions. */
  ghost predicate IsNoted(stales: int, entries: nat, stales': int, entries': nat, n: nat) {
    (stales' == stales + 1 && entries' == entries) || (stales' == 0 && entries' == n)
  }

  class Priced {
    var items: seq<Tx>
    var stales: int

    ghost predicate Valid(all: set<Tx>)
      reads this
    {
      Heaps.IsHeap(items, PriceOf) && Covers(items, all)
    }

    ghost function Entries(): nat
      reads this
    {
      |items|
    }

    /** The entries that are not counted as stale. */
    ghost function Live(): int
      reads this
    {
      |items| - stales
    }

    constructor ()
      ensures Valid({}) && items == [] && stales == 0
    {
      items, stales := [], 0;
    }

    method Put(tx: Tx, ghost all: set<Tx>)
      requires Valid(all)
      modifies this
      ensures Valid(all + {tx}) && multiset(items) == multiset(old(items)) + multiset{tx} && stales == old(stales)
    {
      var more := Heaps.Push(items, PriceOf, tx);
      PushedMembers(items, tx, more);
      items := more;
    }

    /** Removed: counts a stale entry, and builds the heap anew from the pool when there are many. */
    method Removed(all: set<Tx>, ghost covered: set<Tx>)
      requires Valid(covered) && covered <= all
      modifies this
      ensures Valid(covered)
      ensures if old(stales) + 1 <= |old(items)| / 4 then stales == old(stales) + 1 && items == old(items)
              else stales == 0 && |items| == |all| && forall tx :: tx in items <==> tx in all
    {
      stales := stales + 1;
      if stales <= |items| / 4 {
        return;
      }
      var listed := SetToSeq(all);
      var heap := Heaps.Init(listed, PriceOf);
      assert forall tx :: tx in heap <==> tx in multiset(heap);
      assert |heap| == |multiset(heap)|;
      stales, items := 0, heap;
    }

    /** Cap: drops what is remote and below the threshold, and nothing else. */
    method Cap(threshold: nat, local: Accounts, all: set<Tx>) returns (drop: seq<Tx>)
      requires Valid(all)
      modifies this
      ensures forall tx :: tx in drop <==> tx in all && !IsLocal(tx, local) && tx.price < threshold
      ensures Valid(all - set tx | tx in drop) && Live() == old(Live()) - |drop|
    {
      drop := [];
      var save: seq<Tx> := [];
      ghost var price := 0;
      var more := true;
      while |items| > 0 && more
        invariant more ==>
                    Taking(all, local, items, drop, save, price) && forall tx | tx in drop :: tx.price < threshold
        invariant !more ==> Capped(all, local, items, drop, save, threshold)
        invariant Live() == old(Live()) - |drop| - |save|
        decreases |items|, more
      {
        var tx, rest := PopCheapest(items);
        TakeOne(all, local, items, drop, save, price, tx, rest);
        items := rest;
        if tx !in all {
          stales := stales - 1;
        } else if tx.price >= threshold {
          save := save + [tx];
          more := false;
        } else if IsLocal(tx, local) {
          save := save + [tx];
        } else {
          drop := drop + [tx];
        }
        price := tx.price;
      }
      items := PushAll(items, save);
    }

    /**
      Underpriced: remote, and not above the cheapest transaction of the pool. The stale entries at the
      top of the heap are dropped first.
     */
    method Underpriced(tx: Tx, local: Accounts, all: set<Tx>) returns (underpriced: bool)
      requires Valid(all)
      modifies this
      ensures Valid(all) && Live() == old(Live())
      ensures underpriced <==> !IsLocal(tx, local) && all != {} && IsCheapest(tx, all)
    {
      if IsLocal(tx, local) {
        return false;
      }
      while |items| > 0 && items[0] !in all
        invariant Valid(all) && Live() == old(Live())
        decreases |items|
      {
        stales := stales - 1;
        var head, rest := PopCheapest(items);
        PoppedMembers(items, head, rest);
        items := rest;
      }
      if |items| == 0 {
        assert all == {};
        return false;
      }
      var cheapest := items[0];
      CheapestFirst(items, all);
      underpriced := cheapest.price >= tx.price;
    }

    /** Discard: drops remote transactions by rising price, until there are enough or no more. */
    method Discard(count: int, local: Accounts, all: set<Tx>) returns (drop: seq<Tx>)
      requires Valid(all)
      modifies this
      ensures forall tx | tx in drop :: tx in all && !IsLocal(tx, local)
      ensures forall tx, other | tx in drop && other in all && !IsLocal(other, local) && other !in drop ::
                tx.price <= other.price
      ensures |drop| == (if count < 0 then 0 else count) || forall tx | tx in all && !IsLocal(tx, local) :: tx in drop
      ensures |drop| == 0 || |drop| <= count
      ensures Valid(all - set tx | tx in drop) && Live() == old(Live()) - |drop|
    {
      drop := [];
      var save: seq<Tx> := [];
      ghost var price := 0;
      while |items| > 0 && |drop| < count
        invariant Taking(all, local, items, drop, save, price) && (|drop| == 0 || |drop| <= count)
        invariant Live() == old(Live()) - |drop| - |save|
        decreases |items|
      {
        var tx, rest := PopCheapest(items);
        TakeOne(all, local, items, drop, save, price, tx, rest);
        items := rest;
        if tx !in all {
          stales := stales - 1;
        } else if IsLocal(tx, local) {
          save := save + [tx];
        } else {
          drop := drop + [tx];
        }
        price := tx.price;
      }
      items := PushAll(items, save);
    }
  }

  /** Of the transactions of the pool no more go than are listed, and some if any is. */
  lemma {:induction false} DropSize(all: set<Tx>, drop: seq<Tx>)
    ensures var left := all - set tx | tx in drop;
            |left| >= |all| - |drop| && (|drop| > 0 && drop[0] in all ==> left != all)
  {
    if |drop| > 0 {
      DropSize(all, drop[1..]);
      var tail := set tx | tx in drop[1..];
      assert (set tx | tx in drop) == tail + {drop[0]};
      assert all - (tail + {drop[0]}) == (all - tail) - {drop[0]};
    }
  }

  lemma CheapestFirst(items: seq<Tx>, all: set<Tx>)
    requires Heaps.IsHeap(items, PriceOf) && Covers(items, all) && items != [] && items[0] in all
    ensures forall tx | tx in all :: items[0].price <= tx.price
  {
    forall tx | tx in all
      ensures items[0].price <= tx.price
    {
      var k :| 0 <= k < |items| && items[k] == tx;
      Heaps.HeapMin(items, PriceOf, k);
    }
  }

  ghost predicate Capped(all: set<Tx>, local: Accounts, items: seq<Tx>, drop: seq<Tx>, save: seq<Tx>, threshold: int) {
    && Heaps.IsHeap(items, PriceOf)
    && (forall tx :: tx in drop <==> tx in all && !IsLocal(tx, local) && tx.price < threshold)
    && (forall tx | tx in all :: tx in items || tx in drop || tx in save)
  }
}
