/**
  txSortedMap of core/tx_list.go: transactions by nonce in a map, with a heap of the nonces
  and, when it has been asked for, a cache of the transactions in the order of their nonces.
 */
module TxSortedMap {
  import opened Options
  import Heaps

  /** A transaction; sender, hash, price and cost are fields here. */
  datatype Tx = Tx(hash: nat, sender: nat, nonce: nat, price: nat, gasLimit: nat, cost: nat)

  type Items = map<nat, Tx>

  function NonceOf(tx: Tx): int { tx.nonce }

  function Itself(n: nat): int { n }

  // ---------- What the operations keep and return ----------

  predicate ByNonce(items: Items) {
    forall n | n in items :: items[n].nonce == n
  }

  /** The transactions with nonces from n on. */
  function From(items: Items, n: nat): Items {
    map k | k in items && k >= n :: items[k]
  }

  function Kept(items: Items, drop: Tx -> bool): Items {
    map k | k in items && !drop(items[k]) :: items[k]
  }

  function Dropped(items: Items, drop: Tx -> bool): Items {
    map k | k in items && drop(items[k]) :: items[k]
  }

  predicate Has(items: Items, tx: Tx) {
    tx.nonce in items && items[tx.nonce] == tx
  }

  predicate IsLowest(items: Items, n: nat) {
    n in items && forall k | k in items :: n <= k
  }

  lemma {:induction false} LowestExists(s: set<nat>) returns (n: nat)
    requires s != {}
    ensures n in s && forall k | k in s :: n <= k
    decreases |s|
  {
    var x :| x in s;
    if s == {x} {
      n := x;
    } else {
      var rest := s - {x};
      n := LowestExists(rest);
      if x < n {
        n := x;
      }
      assert forall k | k in s :: k == x || k in rest;
    }
  }

  ghost function Lowest(items: Items): (n: nat)
    requires items != map[]
    ensures IsLowest(items, n)
  {
    assert exists n :: IsLowest(items, n) by {
      assert items.Keys != {};
      var n := LowestExists(items.Keys);
      assert IsLowest(items, n);
    }
    var n :| IsLowest(items, n);
    n
  }

  /** The transactions of the map in the order of their nonces. */
  ghost function Flat(items: Items): seq<Tx>
    decreases |items|
  {
    if items == map[] then []
    else
      var n := Lowest(items);
      Smaller(items, n);
      [items[n]] + Flat(items - {n})
  }

  lemma Smaller(items: Items, n: nat)
    requires n in items
    ensures |items - {n}| == |items| - 1
  {
    assert (items - {n}).Keys == items.Keys - {n};
    assert |items.Keys| == |items| && |(items - {n}).Keys| == |items - {n}|;
  }

  lemma FlatLowest(items: Items, n: nat)
    requires IsLowest(items, n)
    ensures Flat(items) == [items[n]] + Flat(items - {n})
  {
    assert Lowest(items) == n;
  }

  lemma {:induction false} FlatHighest(items: Items, n: nat)
    requires n in items && forall k | k in items :: k <= n
    ensures Flat(items) == Flat(items - {n}) + [items[n]]
    decreases |items|
  {
    var m := Lowest(items);
    Smaller(items, m);
    if m == n {
      assert items - {n} == map[];
    } else {
      var rest := items - {m};
      FlatHighest(rest, n);
      FlatLowest(items - {n}, m);
      assert items - {n} - {m} == rest - {n};
    }
  }

  /** Flat holds the transactions of the map and no others, each once, by rising nonce. */
  lemma {:induction false} FlatIs(items: Items)
    requires ByNonce(items)
    ensures |Flat(items)| == |items|
    ensures forall i | 0 <= i < |Flat(items)| :: Has(items, Flat(items)[i])
    ensures forall n | n in items :: items[n] in Flat(items)
    ensures forall i, j | 0 <= i < j < |Flat(items)| :: Flat(items)[i].nonce < Flat(items)[j].nonce
    decreases |items|
  {
    if items != map[] {
      var n := Lowest(items);
      var rest := items - {n};
      Smaller(items, n);
      FlatIs(rest);
      FlatFirst(items, rest, n, Flat(rest));
    }
  }

  lemma FlatFirst(items: Items, rest: Items, n: nat, s: seq<Tx>)
    requires ByNonce(items) && IsLowest(items, n) && rest == items - {n}
    requires forall i | 0 <= i < |s| :: Has(rest, s[i])
    requires forall k | k in rest :: rest[k] in s
    requires forall i, j | 0 <= i < j < |s| :: s[i].nonce < s[j].nonce
    ensures var t := [items[n]] + s;
            && (forall i | 0 <= i < |t| :: Has(items, t[i]))
            && (forall k | k in items :: items[k] in t)
            && (forall i, j | 0 <= i < j < |t| :: t[i].nonce < t[j].nonce)
  {
    var t := [items[n]] + s;
    forall i | 0 <= i < |t|
      ensures Has(items, t[i]) && (i > 0 ==> t[i].nonce > n)
    {
      if i > 0 {
        assert Has(rest, s[i - 1]);
      }
    }
    forall k | k in items
      ensures items[k] in t
    {
      if k == n {
        assert t[0] == items[n];
      } else {
        assert rest[k] in s;
      }
    }
  }

  ghost function ValuesOf(items: Items): multiset<Tx> {
    multiset(items.Values)
  }

  predicate Ordered(s: seq<Tx>) {
    forall i, j | 0 <= i < j < |s| :: s[i].nonce <= s[j].nonce
  }

  /** Sorting the transactions of the map by nonce gives just this. */
  lemma {:induction false} SortedIsFlat(s: seq<Tx>, items: Items)
    requires ByNonce(items) && Ordered(s) && multiset(s) == ValuesOf(items)
    ensures s == Flat(items)
    decreases |s|
  {
    if s == [] {
      ValuesListed(s, items);
    } else {
      var n := s[0].nonce;
      FirstIsLowest(s, items);
      var rest := items - {n};
      ValuesDrop(items, n);
      assert s == [s[0]] + s[1..];
      assert multiset(s[1..]) == multiset(s) - multiset{s[0]};
      SortedIsFlat(s[1..], rest);
      FlatLowest(items, n);
    }
  }

  lemma ValuesListed(s: seq<Tx>, items: Items)
    requires multiset(s) == ValuesOf(items)
    ensures forall n | n in items :: items[n] in s
    ensures s == [] ==> items == map[]
  {
    forall n | n in items
      ensures items[n] in s
    {
      assert items[n] in items.Values;
      assert items[n] in multiset(s);
    }
  }

  lemma FirstIsLowest(s: seq<Tx>, items: Items)
    requires ByNonce(items) && Ordered(s) && multiset(s) == ValuesOf(items) && s != []
    ensures IsLowest(items, s[0].nonce) && items[s[0].nonce] == s[0]
  {
    assert s[0] in multiset(s);
    ValuesListed(s, items);
  }

  lemma ValuesDrop(items: Items, n: nat)
    requires ByNonce(items) && n in items
    ensures ValuesOf(items - {n}) == ValuesOf(items) - multiset{items[n]}
    ensures ByNonce(items - {n})
  {
    var rest := items - {n};
    forall tx | tx in items.Values - {items[n]}
      ensures tx in rest.Values
    {
      var k :| k in items && items[k] == tx;
      assert rest[k] == tx;
    }
    forall tx | tx in rest.Values
      ensures tx in items.Values && tx != items[n]
    {
      var k :| k in rest && rest[k] == tx;
      assert items[k] == tx;
    }
    assert rest.Values == items.Values - {items[n]};
  }

  // ---------- The index ----------

  ghost predicate IsIndex(index: seq<nat>, items: Items) {
    Heaps.IsHeap(index, Itself) && multiset(index) == multiset(items.Keys)
  }

  lemma IndexMembers(index: seq<nat>, items: Items)
    requires IsIndex(index, items)
    ensures forall n :: n in index <==> n in items
    ensures |index| == |items|
  {
    assert |index| == |multiset(index)|;
    forall n
      ensures n in index <==> n in items
    {
      assert n in index <==> n in multiset(index);
    }
    MultisetSize(items.Keys);
    assert |items.Keys| == |items|;
  }

  lemma {:induction false} MultisetSize(s: set<nat>)
    ensures |multiset(s)| == |s|
  {
    if s != {} {
      var x :| x in s;
      MultisetSize(s - {x});
      assert multiset(s) == multiset(s - {x}) + multiset{x};
    }
  }

  lemma IndexMin(index: seq<nat>, items: Items)
    requires IsIndex(index, items) && index != []
    ensures index[0] in items && forall n | n in items :: index[0] <= n
  {
    IndexMembers(index, items);
    assert index[0] in index;
    forall n | n in items
      ensures index[0] <= n
    {
      var k :| 0 <= k < |index| && index[k] == n;
      Heaps.HeapMin(index, Itself, k);
    }
  }

  lemma IndexDrop(index: seq<nat>, items: Items, r: seq<nat>, n: nat)
    requires multiset(index) == multiset(items.Keys) && n in items && multiset(r) + multiset{n} == multiset(index)
    ensures multiset(r) == multiset((items - {n}).Keys)
  {
    assert items.Keys == (items - {n}).Keys + {n};
    assert multiset(items.Keys) == multiset((items - {n}).Keys) + multiset{n};
    assert multiset(r) == multiset(index) - multiset{n};
  }

  lemma IndexAdd(index: seq<nat>, items: Items, r: seq<nat>, tx: Tx)
    requires multiset(index) == multiset(items.Keys) && tx.nonce !in items
    requires multiset(r) == multiset(index) + multiset{tx.nonce}
    ensures multiset(r) == multiset(items[tx.nonce := tx].Keys)
  {
    assert items[tx.nonce := tx].Keys == items.Keys + {tx.nonce};
    assert multiset(items.Keys + {tx.nonce}) == multiset(items.Keys) + multiset{tx.nonce};
  }

  function Reverse(s: seq<Tx>): seq<Tx> {
    if s == [] then [] else [s[|s| - 1]] + Reverse(s[..|s| - 1])
  }

  /** The transactions with nonces from the lowest one up to next have been taken, and there is none missing between. */
  ghost predicate Running(items0: Items, items: Items, ready: seq<Tx>, next: nat) {
    && Flat(items0) == ready + Flat(items)
    && (forall i | 0 <= i < |ready| :: ready[i].nonce == ready[0].nonce + i)
    && (ready != [] ==> next == ready[0].nonce + |ready|)
    && items == From(items0, next) && (ready == [] ==> items == items0)
  }

  /** Nothing, or the whole run of nonces from the lowest one on without a gap, has been taken. */
  ghost predicate IsRun(ready: seq<Tx>, items0: Items, items: Items) {
    if ready == [] then items == items0
    else Running(items0, items, ready, ready[0].nonce + |ready|) && ready[0].nonce + |ready| !in items
  }

  class SortedMap {
    var items: Items
    var index: seq<nat>
    var cache: Option<seq<Tx>>

    /** The index is a heap of the nonces of the map, and the cache, if there is one, its contents in order. */
    ghost predicate Valid()
      reads this
    {
      && ByNonce(items)
      && IsIndex(index, items)
      && (cache.Some? ==> cache.value == Flat(items))
    }

    constructor ()
      ensures Valid() && items == map[]
    {
      items, index, cache := map[], [], None;
    }

    method Get(nonce: nat) returns (tx: Option<Tx>)
      requires Valid()
      ensures tx == if nonce in items then Some(items[nonce]) else None
    {
      tx := if nonce in items then Some(items[nonce]) else None;
    }

    method Put(tx: Tx)
      requires Valid()
      modifies this
      ensures Valid() && items == old(items)[tx.nonce := tx]
    {
      if tx.nonce !in items {
        var r := Heaps.Push(index, Itself, tx.nonce);
        IndexAdd(index, items, r, tx);
        index := r;
      } else {
        assert items[tx.nonce := tx].Keys == items.Keys;
      }
      items, cache := items[tx.nonce := tx], None;
    }

    /** Forward: what is below the threshold goes, and is returned in order. */
    method Forward(threshold: nat) returns (removed: seq<Tx>)
      requires Valid()
      modifies this
      ensures Valid() && items == From(old(items), threshold)
      ensures Flat(old(items)) == removed + Flat(items)
    {
      items, index, removed := TakeBelow(items, index, threshold);
      if cache.Some? {
        cache := Some(cache.value[|removed|..]);
      }
    }

    /** Remove: tells whether there was a transaction with the nonce. */
    method Remove(nonce: nat) returns (found: bool)
      requires Valid()
      modifies this
      ensures Valid() && (found <==> nonce in old(items)) && items == old(items) - {nonce}
    {
      if nonce !in items {
        return false;
      }
      IndexMembers(index, items);
      for i := 0 to |index|
        invariant forall k | 0 <= k < i :: index[k] != nonce
        invariant index == old(index) && items == old(items)
      {
        if index[i] == nonce {
          var x, r := Heaps.Remove(index, Itself, i);
          IndexDrop(index, items, r, nonce);
          index, items, cache := r, items - {nonce}, None;
          return true;
        }
      }
      assert false;
    }

    /** Ready: nothing if the lowest nonce is above start, else the run of nonces from the lowest one. */
    method Ready(start: nat) returns (ready: seq<Tx>)
      requires Valid()
      modifies this
      ensures Valid() && IsRun(ready, old(items), items)
      ensures ready == [] <==> forall n | n in old(items) :: n > start
    {
      IndexMembers(index, items);
      if |index| > 0 {
        IndexMin(index, items);
      }
      if |index| == 0 || index[0] > start {
        return [];
      }
      items, index, ready := TakeRun(items, index);
      cache := None;
    }

    /** Filter: what the function says goes, and is returned in any order. */
    method Filter(drop: Tx -> bool) returns (removed: seq<Tx>)
      requires Valid()
      modifies this
      ensures Valid() && items == Kept(old(items), drop)
      ensures multiset(removed) == ValuesOf(Dropped(old(items), drop))
      ensures removed == [] ==> items == old(items)
    {
      items, removed := FilterOut(items, drop);
      if |removed| > 0 {
        var keys := KeysOf(items);
        index := Heaps.Init(keys, Itself);
        cache := None;
      }
    }

    /** Cap: what exceeds the limit goes from the highest nonce down. */
    method Cap(threshold: nat) returns (drops: seq<Tx>)
      requires Valid()
      modifies this
      ensures Valid() && Flat(old(items)) == Flat(items) + Reverse(drops)
      ensures |items| == if |old(items)| <= threshold then |old(items)| else threshold
      ensures forall n | n in items :: n in old(items) && items[n] == old(items)[n]
    {
      drops := [];
      if |items| <= threshold {
        return;
      }
      IndexMembers(index, items);
      var sorted := Heaps.Sort(index, Itself);
      assert |sorted| == |multiset(sorted)| == |multiset(index)| == |index|;
      items, drops := DropHighest(items, sorted, threshold);
      index := Heaps.Init(sorted[..threshold], Itself);
      if cache.Some? {
        CapCache(old(items), items, drops);
        cache := Some(cache.value[..|cache.value| - |drops|]);
      }
    }

    method Flatten() returns (txs: seq<Tx>)
      requires Valid()
      modifies this`cache
      ensures Valid() && txs == Flat(items)
    {
      if cache == None {
        var all := Listed(items);
        var sorted := Heaps.Sort(all, NonceOf);
        SortedIsFlat(sorted, items);
        cache := Some(sorted);
      }
      txs := cache.value;
    }
  }

  lemma RunOneMore(items0: Items, items: Items, ready: seq<Tx>, next: nat)
    requires ByNonce(items) && Running(items0, items, ready, next) && IsLowest(items, next)
    ensures Running(items0, items - {next}, ready + [items[next]], next + 1)
  {
    FlatLowest(items, next);
    assert items - {next} == From(items0, next + 1);
  }

  /** heap.Pop, with the transaction going from the map. */
  method PopLowest(items: Items, index: seq<nat>) returns (tx: Tx, items': Items, index': seq<nat>)
    requires ByNonce(items) && IsIndex(index, items) && index != []
    ensures ByNonce(items') && IsIndex(index', items')
    ensures IsLowest(items, index[0]) && tx == items[index[0]] && items' == items - {index[0]}
    ensures Flat(items) == [tx] + Flat(items') && |items'| < |items|
  {
    IndexMin(index, items);
    var nonce, r := Heaps.Pop(index, Itself);
    IndexDrop(index, items, r, nonce);
    FlatLowest(items, nonce);
    Smaller(items, nonce);
    tx, items', index' := items[nonce], items - {nonce}, r;
  }

  ghost predicate Passing(items0: Items, items: Items, threshold: nat, removed: seq<Tx>) {
    Flat(items0) == removed + Flat(items) && From(items, threshold) == From(items0, threshold)
  }

  lemma PassOne(items0: Items, items: Items, threshold: nat, removed: seq<Tx>, n: nat)
    requires Passing(items0, items, threshold, removed) && n in items && n < threshold
    requires Flat(items) == [items[n]] + Flat(items - {n})
    ensures Passing(items0, items - {n}, threshold, removed + [items[n]])
  {
    assert From(items - {n}, threshold) == From(items, threshold);
  }

  /** Takes the transactions with nonces below a threshold from a map and its index. */
  method TakeBelow(items0: Items, index0: seq<nat>, threshold: nat)
      returns (items: Items, index: seq<nat>, removed: seq<Tx>)
    requires ByNonce(items0) && IsIndex(index0, items0)
    ensures ByNonce(items) && IsIndex(index, items)
    ensures items == From(items0, threshold) && Flat(items0) == removed + Flat(items)
  {
    items, index, removed := items0, index0, [];
    while |index| > 0 && index[0] < threshold
      invariant ByNonce(items) && IsIndex(index, items) && Passing(items0, items, threshold, removed)
      decreases |items|
    {
      ghost var before, n := items, index[0];
      var tx;
      tx, items, index := PopLowest(items, index);
      PassOne(items0, before, threshold, removed, n);
      removed := removed + [tx];
    }
    AllFrom(index, items, threshold);
  }

  /** The run so far, with the index of what is left. */
  ghost predicate MidRun(items0: Items, items: Items, index: seq<nat>, ready: seq<Tx>, next: nat) {
    && ByNonce(items) && IsIndex(index, items) && Running(items0, items, ready, next)
    && (ready == [] ==> index != [] && index[0] == next)
  }

  lemma RunStarts(items: Items, index: seq<nat>)
    requires ByNonce(items) && IsIndex(index, items) && index != []
    ensures MidRun(items, items, index, [], index[0])
  {
    IndexMin(index, items);
    assert items == From(items, index[0]);
  }

  lemma RunEnds(items0: Items, items: Items, index: seq<nat>, ready: seq<Tx>, next: nat)
    requires MidRun(items0, items, index, ready, next) && (|index| == 0 || index[0] != next)
    ensures IsRun(ready, items0, items) && ready != []
  {
    NextNotThere(index, items, next);
  }

  /** The next transaction of a run is taken. */
  method TakeNext(ghost items0: Items, items: Items, index: seq<nat>, ready: seq<Tx>, next: nat)
      returns (items': Items, index': seq<nat>, ready': seq<Tx>)
    requires MidRun(items0, items, index, ready, next) && |index| > 0 && index[0] == next
    ensures MidRun(items0, items', index', ready', next + 1) && |items'| < |items|
  {
    var tx;
    tx, items', index' := PopLowest(items, index);
    RunOneMore(items0, items, ready, next);
    ready' := ready + [tx];
  }

  /** Takes transactions from a map and its index as long as their nonces follow each other. */
  method TakeRun(items0: Items, index0: seq<nat>) returns (items: Items, index: seq<nat>, ready: seq<Tx>)
    requires ByNonce(items0) && IsIndex(index0, items0) && index0 != []
    ensures ByNonce(items) && IsIndex(index, items) && IsRun(ready, items0, items) && ready != []
  {
    items, index, ready := items0, index0, [];
    var next := index[0];
    RunStarts(items, index);
    while |index| > 0 && index[0] == next
      invariant MidRun(items0, items, index, ready, next)
      decreases |items|
    {
      items, index, ready := TakeNext(items0, items, index, ready, next);
      next := next + 1;
    }
    RunEnds(items0, items, index, ready, next);
  }

  /** Takes out of a map what the function says. */
  method FilterOut(items0: Items, drop: Tx -> bool) returns (items: Items, removed: seq<Tx>)
    requires ByNonce(items0)
    ensures items == Kept(items0, drop) && ByNonce(items)
    ensures multiset(removed) == ValuesOf(Dropped(items0, drop)) && (removed == [] ==> items == items0)
  {
    items, removed := items0, [];
    var todo := items.Keys;
    assert Gone(items0, items) == map[];
    while todo != {}
      invariant Filtering(items0, items, todo, drop, removed)
      decreases |todo|
    {
      var nonce :| nonce in todo;
      FilterStep(items0, items, todo, drop, removed, nonce);
      if drop(items[nonce]) {
        removed := removed + [items[nonce]];
        items := items - {nonce};
      }
      todo := todo - {nonce};
    }
    FilterEnd(items0, items, drop, removed);
  }

  /** Takes the transactions with the highest nonces out of a map, until a number of them is left. */
  method DropHighest(items0: Items, sorted: seq<nat>, threshold: nat) returns (items: Items, drops: seq<Tx>)
    requires ByNonce(items0) && Heaps.Sorted(sorted, Itself) && threshold < |items0| == |sorted|
    requires multiset(sorted) == multiset(items0.Keys)
    ensures |items| == threshold && Capping(items0, items, sorted, threshold, drops)
  {
    items, drops := items0, [];
    var size := |items|;
    assert sorted[..size] == sorted;
    while size > threshold
      invariant threshold <= size && Capping(items0, items, sorted, size, drops)
    {
      CapOne(items0, items, sorted, size, drops);
      drops := drops + [items[sorted[size - 1]]];
      items := items - {sorted[size - 1]};
      size := size - 1;
    }
  }

  lemma AllFrom(index: seq<nat>, items: Items, n: nat)
    requires IsIndex(index, items) && (|index| > 0 ==> index[0] >= n)
    ensures items == From(items, n)
  {
    IndexMembers(index, items);
    if index != [] {
      IndexMin(index, items);
    } else {
      assert forall k | k in items :: k in index;
    }
  }

  lemma NextNotThere(index: seq<nat>, items: Items, next: nat)
    requires IsIndex(index, items) && (|index| > 0 ==> index[0] != next) && forall n | n in items :: n >= next
    ensures next !in items
  {
    IndexMembers(index, items);
    if index != [] {
      IndexMin(index, items);
    }
  }

  /** What of items0 is not in items any more. */
  function Gone(items0: Items, items: Items): Items {
    map k | k in items0 && k !in items :: items0[k]
  }

  ghost predicate Filtering(items0: Items, items: Items, todo: set<nat>, drop: Tx -> bool, removed: seq<Tx>) {
    && ByNonce(items0) && todo <= items.Keys
    && (forall n | n in items :: n in items0 && items[n] == items0[n])
    && (forall n | n in items0 :: n in items <==> n in todo || !drop(items0[n]))
    && multiset(removed) == ValuesOf(Gone(items0, items))
    && (removed == [] ==> items == items0)
  }

  lemma FilterStep(items0: Items, items: Items, todo: set<nat>, drop: Tx -> bool, removed: seq<Tx>, n: nat)
    requires Filtering(items0, items, todo, drop, removed) && n in todo
    ensures if drop(items[n]) then Filtering(items0, items - {n}, todo - {n}, drop, removed + [items[n]])
            else Filtering(items0, items, todo - {n}, drop, removed)
  {
    if drop(items[n]) {
      FilterOne(items0, items, n);
    }
  }

  lemma FilterEnd(items0: Items, items: Items, drop: Tx -> bool, removed: seq<Tx>)
    requires Filtering(items0, items, {}, drop, removed)
    ensures items == Kept(items0, drop) && ByNonce(items)
    ensures multiset(removed) == ValuesOf(Dropped(items0, drop))
  {
    assert Gone(items0, items) == Dropped(items0, drop);
  }

  lemma FilterOne(items0: Items, items: Items, n: nat)
    requires ByNonce(items0) && n in items && n in items0 && items[n] == items0[n]
    ensures ValuesOf(Gone(items0, items - {n})) == ValuesOf(Gone(items0, items)) + multiset{items[n]}
  {
    var gone: Items := Gone(items0, items - {n});
    ValuesDrop(gone, n);
    assert gone - {n} == Gone(items0, items);
    assert gone[n] in gone.Values;
  }

  ghost predicate Capping(items0: Items, items: Items, sorted: seq<nat>, size: nat, drops: seq<Tx>) {
    && ByNonce(items) && Heaps.Sorted(sorted, Itself) && size == |items| && size <= |sorted|
    && multiset(sorted[..size]) == multiset(items.Keys)
    && Flat(items0) == Flat(items) + Reverse(drops)
    && (forall n | n in items :: n in items0 && items[n] == items0[n])
  }

  lemma CapOne(items0: Items, items: Items, sorted: seq<nat>, size: nat, drops: seq<Tx>)
    requires Capping(items0, items, sorted, size, drops) && size > 0
    ensures sorted[size - 1] in items
    ensures Capping(items0, items - {sorted[size - 1]}, sorted, size - 1, drops + [items[sorted[size - 1]]])
  {
    var n := sorted[size - 1];
    HighestOf(sorted, size, items);
    FlatHighest(items, n);
    Smaller(items, n);
    var more := drops + [items[n]];
    assert more[..|more| - 1] == drops;
  }

  lemma CapCache(items0: Items, items: Items, drops: seq<Tx>)
    requires Flat(items0) == Flat(items) + Reverse(drops)
    ensures |drops| <= |Flat(items0)| && Flat(items) == Flat(items0)[..|Flat(items0)| - |drops|]
  {
    ReverseLength(drops);
  }

  lemma HighestOf(sorted: seq<nat>, size: nat, items: Items)
    requires Heaps.Sorted(sorted, Itself) && 0 < size <= |sorted| && multiset(sorted[..size]) == multiset(items.Keys)
    ensures var n := sorted[size - 1];
            n in items && (forall k | k in items :: k <= n)
              && multiset(sorted[..size - 1]) == multiset((items - {n}).Keys)
  {
    var n := sorted[size - 1];
    var s := sorted[..size];
    assert s == sorted[..size - 1] + [n];
    assert n in multiset(s);
    IndexDrop(s, items, sorted[..size - 1], n);
    forall k | k in items
      ensures k <= n
    {
      assert k in multiset(s);
      var i :| 0 <= i < size && s[i] == k;
      assert Itself(sorted[i]) <= Itself(sorted[size - 1]);
    }
  }

  lemma {:induction false} ReverseLength(s: seq<Tx>)
    ensures |Reverse(s)| == |s|
  {
    if s != [] {
      ReverseLength(s[..|s| - 1]);
    }
  }

  /** The nonces of the map in any order. */
  method KeysOf(items: Items) returns (s: seq<nat>)
    ensures multiset(s) == multiset(items.Keys)
  {
    s := [];
    var rest := items.Keys;
    while rest != {}
      invariant multiset(s) + multiset(rest) == multiset(items.Keys)
      decreases |rest|
    {
      var n :| n in rest;
      assert multiset(rest) == multiset(rest - {n}) + multiset{n};
      s := s + [n];
      rest := rest - {n};
    }
  }

  /** The transactions of the map in any order, as ranging over it gives them. */
  method Listed(items: Items) returns (s: seq<Tx>)
    requires ByNonce(items)
    ensures multiset(s) == ValuesOf(items)
  {
    s := [];
    var rest := items;
    while rest != map[]
      invariant ByNonce(rest) && multiset(s) + ValuesOf(rest) == ValuesOf(items)
      decreases |rest|
    {
      var n :| n in rest;
      ValuesDrop(rest, n);
      Smaller(rest, n);
      assert rest[n] in rest.Values;
      s := s + [rest[n]];
      rest := rest - {n};
    }
  }
}
