/**
  The lists of the transaction pool of core/tx_pool.go as values: what every step of the pool
  keeps of them, what promoting, demoting, requeueing and removing do to them, and when pending
  transactions are shared fairly. A missing list is an empty one.
 */
module PoolLists {
  import opened TxSortedMap
  import TxList
  import Heaps
  import Sums

  type Addr = nat
  type Lists = map<Addr, Items>

  datatype Config = Config(priceBump: nat, accountSlots: nat, globalSlots: nat, accountQueue: nat, globalQueue: nat)

  function At(lists: Lists, a: Addr): Items {
    if a in lists then lists[a] else map[]
  }

  function Put(lists: Lists, a: Addr, items: Items): Lists {
    if items == map[] then lists - {a} else lists[a := items]
  }

  lemma PutAt(lists: Lists, a: Addr, items: Items)
    ensures At(Put(lists, a, items), a) == items
    ensures OnlyAt(lists, Put(lists, a, items), a)
  {
  }

  /** The lists of all accounts but one are the same. */
  ghost predicate OnlyAt(lists: Lists, lists': Lists, a: Addr) {
    forall b: Addr {:trigger At(lists', b)} | b != a :: At(lists', b) == At(lists, b)
  }

  // ---------- What every step keeps ----------

  /** A list of the account a: by nonce, of this sender, and known to the pool. */
  predicate ListOk(items: Items, a: Addr, all: set<Tx>) {
    forall n | n in items :: items[n].nonce == n && items[n].sender == a && items[n] in all
  }

  ghost predicate AddrOk(pending: Items, queued: Items, a: Addr, all: set<Tx>) {
    ListOk(pending, a, all) && ListOk(queued, a, all) && pending.Keys !! queued.Keys
  }

  ghost predicate AddrIn(pending: Lists, queue: Lists, all: set<Tx>, a: Addr) {
    AddrOk(At(pending, a), At(queue, a), a, all)
  }

  ghost predicate NoneEmpty(lists: Lists) {
    forall a | a in lists :: lists[a] != map[]
  }

  /** Each listed transaction is in all, and no nonce of an account is both pending and queued. */
  ghost predicate PoolOk(pending: Lists, queue: Lists, all: set<Tx>) {
    && NoneEmpty(pending) && NoneEmpty(queue)
    && forall a: Addr {:trigger AddrIn(pending, queue, all, a)} :: AddrIn(pending, queue, all, a)
  }

  /** All transactions of other accounts stay known. */
  ghost predicate OthersStay(all: set<Tx>, all': set<Tx>, a: Addr) {
    forall tx | tx in all && tx.sender != a :: tx in all'
  }

  /** A step that concerns one account only. */
  lemma StepKeepsPool(pending: Lists, queue: Lists, all: set<Tx>, a: Addr, p: Items, q: Items, all': set<Tx>)
    requires PoolOk(pending, queue, all) && AddrOk(p, q, a, all') && OthersStay(all, all', a)
    ensures PoolOk(Put(pending, a, p), Put(queue, a, q), all')
  {
    var pending', queue' := Put(pending, a, p), Put(queue, a, q);
    PutAt(pending, a, p);
    PutAt(queue, a, q);
    forall b: Addr
      ensures AddrIn(pending', queue', all', b)
    {
      if b != a {
        assert AddrIn(pending, queue, all, b);
      }
    }
  }

  lemma PutSame(lists: Lists, a: Addr)
    requires NoneEmpty(lists)
    ensures Put(lists, a, At(lists, a)) == lists
  {
  }

  /** A list takes a transaction unless it has one with this nonce and a price not much lower. */
  ghost predicate Takes(items: Items, tx: Tx, priceBump: nat) {
    tx.nonce !in items || TxList.Outbids(tx, items[tx.nonce], priceBump)
  }

  /** So it is decided. */
  predicate IsRefused(items: Items, tx: Tx, priceBump: nat): (refused: bool)
    ensures refused <==> !Takes(items, tx, priceBump)
  {
    if tx.nonce in items then
      TxList.OutbidsIff(tx, items[tx.nonce], priceBump);
      TxList.Threshold(items[tx.nonce], priceBump) >= tx.price
    else false
  }

  /** What the pool knows after a list has taken a transaction, in place of the one with this nonce. */
  function AllAfter(all: set<Tx>, items: Items, tx: Tx): set<Tx> {
    (if tx.nonce in items then all - {items[tx.nonce]} else all) + {tx}
  }

  lemma EnqueueKeeps(pending: Lists, queue: Lists, all: set<Tx>, tx: Tx)
    requires PoolOk(pending, queue, all) && tx.nonce !in At(pending, tx.sender)
    ensures var items := At(queue, tx.sender);
            PoolOk(pending, Put(queue, tx.sender, items[tx.nonce := tx]), AllAfter(all, items, tx))
  {
    var a := tx.sender;
    var items := At(queue, a);
    assert AddrIn(pending, queue, all, a);
    StepKeepsPool(pending, queue, all, a, At(pending, a), items[tx.nonce := tx], AllAfter(all, items, tx));
    PutSame(pending, a);
  }

  /** A pending list takes a transaction in place of the one with this nonce. */
  lemma PromoteKeeps(pending: Lists, queue: Lists, all: set<Tx>, tx: Tx)
    requires PoolOk(pending, queue, all) && tx.nonce !in At(queue, tx.sender)
    ensures var items := At(pending, tx.sender);
            PoolOk(Put(pending, tx.sender, items[tx.nonce := tx]), queue, AllAfter(all, items, tx))
  {
    var a := tx.sender;
    var items := At(pending, a);
    assert AddrIn(pending, queue, all, a);
    StepKeepsPool(pending, queue, all, a, items[tx.nonce := tx], At(queue, a), AllAfter(all, items, tx));
    PutSame(queue, a);
  }

  /** A transaction that is in no list may be forgotten. */
  lemma UnlistedGoes(pending: Lists, queue: Lists, all: set<Tx>, tx: Tx)
    requires PoolOk(pending, queue, all) && !Has(At(pending, tx.sender), tx) && !Has(At(queue, tx.sender), tx)
    ensures PoolOk(pending, queue, all - {tx})
  {
    var all' := all - {tx};
    forall b: Addr
      ensures AddrIn(pending, queue, all', b)
    {
      assert AddrIn(pending, queue, all, b);
    }
  }

  /** The list falls into two parts. */
  ghost predicate Splits(items: Items, kept: Items, gone: Items) {
    && kept.Keys !! gone.Keys
    && (forall n | n in kept :: n in items && kept[n] == items[n])
    && (forall n | n in gone :: n in items && gone[n] == items[n])
    && (forall n | n in items :: n in kept || n in gone)
  }

  /** A part of a queue may be forgotten. */
  lemma DropKeeps(pending: Lists, queue: Lists, all: set<Tx>, a: Addr, kept: Items, gone: Items)
    requires PoolOk(pending, queue, all) && Splits(At(queue, a), kept, gone)
    ensures PoolOk(pending, Put(queue, a, kept), all - gone.Values) && ByNonce(gone)
  {
    var p, q := At(pending, a), At(queue, a);
    assert AddrIn(pending, queue, all, a);
    forall tx | tx in gone.Values
      ensures tx.sender == a && tx.nonce in gone
    {
      var n :| n in gone && gone[n] == tx;
      assert q[n] == tx;
    }
    StepKeepsPool(pending, queue, all, a, p, kept, all - gone.Values);
    PutSame(pending, a);
  }

  /** Taking a nonce out of the pending list, with all above it, or else out of the queue. */
  lemma RemoveKeeps(pending: Lists, queue: Lists, all: set<Tx>, tx: Tx)
    requires PoolOk(pending, queue, all)
    ensures var a, n := tx.sender, tx.nonce;
            var p, q := At(pending, a), At(queue, a);
            if n in p then
              && PoolOk(Put(pending, a, TxList.Upto(p, n)), queue, all - {tx})
              && ListOk(From(p, n + 1), a, all - {tx}) && From(p, n + 1).Keys !! q.Keys
              && From(p, n + 1).Keys !! TxList.Upto(p, n).Keys
            else PoolOk(pending, Put(queue, a, q - {n}), all - {tx})
  {
    var a, n := tx.sender, tx.nonce;
    var p, q := At(pending, a), At(queue, a);
    assert AddrIn(pending, queue, all, a);
    if n in p {
      StepKeepsPool(pending, queue, all, a, TxList.Upto(p, n), q, all - {tx});
      PutSame(queue, a);
    } else {
      StepKeepsPool(pending, queue, all, a, p, q - {n}, all - {tx});
      PutSame(pending, a);
    }
  }

  // ---------- Pending transactions are the next ones to execute ----------

  type Nonces = map<Addr, nat>

  /** The pending nonce of the account: what was set, or the nonce of the state. */
  function NonceFor(nonces: Nonces, stateNonce: Addr -> nat, a: Addr): nat {
    if a in nonces then nonces[a] else stateNonce(a)
  }

  /** The pending nonces of all accounts but one are the same. */
  ghost predicate OnlyNonce(nonces: Nonces, nonces': Nonces, stateNonce: Addr -> nat, a: Addr) {
    forall b: Addr {:trigger NonceFor(nonces', stateNonce, b)} | b != a ::
      NonceFor(nonces', stateNonce, b) == NonceFor(nonces, stateNonce, b)
  }

  /** The pending nonces are the run from the account's nonce up to its pending nonce. */
  ghost predicate IsRunOf(items: Items, from: nat, to: nat) {
    from <= to && forall n: nat :: n in items <==> from <= n < to
  }

  ghost predicate RunIn(pending: Lists, nonces: Nonces, stateNonce: Addr -> nat, a: Addr) {
    IsRunOf(At(pending, a), stateNonce(a), NonceFor(nonces, stateNonce, a))
  }

  ghost predicate Runs(pending: Lists, nonces: Nonces, stateNonce: Addr -> nat) {
    forall a: Addr {:trigger RunIn(pending, nonces, stateNonce, a)} :: RunIn(pending, nonces, stateNonce, a)
  }

  lemma StepKeepsRuns(pending: Lists, nonces: Nonces, stateNonce: Addr -> nat, a: Addr, p: Items, to: nat)
    requires Runs(pending, nonces, stateNonce) && IsRunOf(p, stateNonce(a), to)
    ensures Runs(Put(pending, a, p), nonces[a := to], stateNonce)
  {
    PutAt(pending, a, p);
    var pending', nonces' := Put(pending, a, p), nonces[a := to];
    forall b: Addr
      ensures RunIn(pending', nonces', stateNonce, b)
    {
      if b != a {
        assert RunIn(pending, nonces, stateNonce, b);
      }
    }
  }

  function Lowered(nonces: Nonces, stateNonce: Addr -> nat, a: Addr, n: nat): Nonces {
    if NonceFor(nonces, stateNonce, a) > n then nonces[a := n] else nonces
  }

  lemma LowerKeepsRuns(pending: Lists, nonces: Nonces, stateNonce: Addr -> nat, a: Addr, n: nat)
    requires n in At(pending, a)
    ensures Runs(pending, nonces, stateNonce) ==>
              Runs(Put(pending, a, TxList.Upto(At(pending, a), n)), Lowered(nonces, stateNonce, a, n), stateNonce)
  {
    if Runs(pending, nonces, stateNonce) {
      assert RunIn(pending, nonces, stateNonce, a);
      StepKeepsRuns(pending, nonces, stateNonce, a, TxList.Upto(At(pending, a), n), n);
    }
  }

  /** The next transaction extends the run, and another price at the same nonce does not change it. */
  lemma PromoteKeepsRuns(pending: Lists, nonces: Nonces, stateNonce: Addr -> nat, a: Addr, tx: Tx)
    ensures Runs(pending, nonces, stateNonce) && tx.nonce == NonceFor(nonces, stateNonce, a) ==>
              && tx.nonce !in At(pending, a)
              && Runs(Put(pending, a, At(pending, a)[tx.nonce := tx]), nonces[a := tx.nonce + 1], stateNonce)
    ensures Runs(pending, nonces, stateNonce) && tx.nonce in At(pending, a) ==>
              Runs(Put(pending, a, At(pending, a)[tx.nonce := tx]), nonces, stateNonce)
  {
    if Runs(pending, nonces, stateNonce) {
      assert RunIn(pending, nonces, stateNonce, a);
      var more := At(pending, a)[tx.nonce := tx];
      if tx.nonce == NonceFor(nonces, stateNonce, a) {
        StepKeepsRuns(pending, nonces, stateNonce, a, more, tx.nonce + 1);
      }
      if tx.nonce in At(pending, a) {
        PutAt(pending, a, more);
        var pending' := Put(pending, a, more);
        forall b: Addr
          ensures RunIn(pending', nonces, stateNonce, b)
        {
          assert RunIn(pending, nonces, stateNonce, b);
        }
      }
    }
  }

  // ---------- Nothing executable is left in a queue ----------

  /** The next transaction of the account is in its queue. */
  predicate ReadyAt(queue: Lists, nonces: Nonces, stateNonce: Addr -> nat, a: Addr) {
    NonceFor(nonces, stateNonce, a) in At(queue, a)
  }

  ghost predicate NoneReady(queue: Lists, nonces: Nonces, stateNonce: Addr -> nat) {
    forall a: Addr {:trigger ReadyAt(queue, nonces, stateNonce, a)} :: !ReadyAt(queue, nonces, stateNonce, a)
  }

  /** Nothing has become ready that was not, but for some accounts. */
  ghost predicate NoNewReady(queue: Lists, nonces: Nonces, queue': Lists, nonces': Nonces, stateNonce: Addr -> nat,
                             but: set<Addr>) {
    forall a: Addr {:trigger ReadyAt(queue', nonces', stateNonce, a)} | a !in but ::
      ReadyAt(queue', nonces', stateNonce, a) ==> ReadyAt(queue, nonces, stateNonce, a)
  }

  /** Where the queue of one account has changed, and perhaps its nonce, nothing becomes ready for others. */
  lemma OthersNotReady(queue: Lists, nonces: Nonces, queue': Lists, nonces': Nonces, stateNonce: Addr -> nat, a: Addr)
    requires OnlyAt(queue, queue', a) && OnlyNonce(nonces, nonces', stateNonce, a)
    ensures NoNewReady(queue, nonces, queue', nonces', stateNonce, {a})
    ensures (ReadyAt(queue', nonces', stateNonce, a) ==> ReadyAt(queue, nonces, stateNonce, a)) ==>
              NoNewReady(queue, nonces, queue', nonces', stateNonce, {})
  {
    forall b: Addr | b != a
      ensures ReadyAt(queue', nonces', stateNonce, b) <==> ReadyAt(queue, nonces, stateNonce, b)
    {
      assert At(queue', b) == At(queue, b) && NonceFor(nonces', stateNonce, b) == NonceFor(nonces, stateNonce, b);
    }
  }

  /** A transaction that fits its list is not too cheap for its nonce. */
  ghost predicate Fits(pending: Lists, queue: Lists, tx: Tx, priceBump: nat) {
    Takes(if tx.nonce in At(pending, tx.sender) then At(pending, tx.sender) else At(queue, tx.sender), tx, priceBump)
  }

  /** When a pending list is cut at a nonce, the next transaction is not queued, as this nonce was pending. */
  lemma CutLeavesNoneReady(pending: Lists, queue: Lists, all: set<Tx>, nonces: Nonces, stateNonce: Addr -> nat, a: Addr,
                           n: nat)
    requires PoolOk(pending, queue, all) && n in At(pending, a)
    ensures Runs(pending, nonces, stateNonce) ==>
              && NoNewReady(queue, nonces, queue, Lowered(nonces, stateNonce, a, n), stateNonce, {})
              && NoNewReady(queue, nonces, Requeued(queue, a, At(pending, a), n), Lowered(nonces, stateNonce, a, n),
                            stateNonce, {})
  {
    if Runs(pending, nonces, stateNonce) {
      assert RunIn(pending, nonces, stateNonce, a) && AddrIn(pending, queue, all, a);
      PutAt(queue, a, At(queue, a) + From(At(pending, a), n + 1));
      OthersNotReady(queue, nonces, queue, Lowered(nonces, stateNonce, a, n), stateNonce, a);
      OthersNotReady(queue, nonces, Requeued(queue, a, At(pending, a), n), Lowered(nonces, stateNonce, a, n),
                     stateNonce, a);
    }
  }

  /** The queue after a pending list has been cut at nonce n. */
  function Requeued(queue: Lists, a: Addr, p: Items, n: nat): Lists {
    if TxList.Upto(p, n) == map[] then queue else Put(queue, a, At(queue, a) + From(p, n + 1))
  }

  /** The lists before and after a transaction of the pool is removed. */
  ghost predicate IsRemoval(pending: Lists, queue: Lists, pending': Lists, queue': Lists, tx: Tx) {
    var a, n := tx.sender, tx.nonce;
    var p, q := At(pending, a), At(queue, a);
    if n in p then pending' == Put(pending, a, TxList.Upto(p, n)) && queue' == Requeued(queue, a, p, n)
    else pending' == pending && queue' == Put(queue, a, q - {n})
  }

  lemma PutTwice(lists: Lists, a: Addr, x: Items, y: Items)
    ensures Put(Put(lists, a, x), a, y) == Put(lists, a, y)
  {
  }

  // ---------- Requeueing ----------

  ghost predicate Requeuing(queue0: Lists, a: Addr, queue: Lists, items: Items, done: Items, rest: Items, all: set<Tx>,
                            p: Items) {
    && queue == Put(queue0, a, At(queue0, a) + done)
    && done + rest == items && done.Keys !! rest.Keys && rest.Keys !! At(queue0, a).Keys && rest.Keys !! p.Keys
    && ListOk(rest, a, all)
  }

  lemma RequeueStart(queue: Lists, a: Addr, items: Items, all: set<Tx>, p: Items)
    requires NoneEmpty(queue) && ListOk(items, a, all) && items.Keys !! p.Keys && items.Keys !! At(queue, a).Keys
    ensures Requeuing(queue, a, queue, items, map[], items, all, p)
  {
    PutSame(queue, a);
    assert At(queue, a) + map[] == At(queue, a);
    assert map[] + items == items;
  }

  lemma RequeueStep(queue0: Lists, a: Addr, queue: Lists, items: Items, done: Items, rest: Items, all: set<Tx>,
                    p: Items, n: nat)
    requires Requeuing(queue0, a, queue, items, done, rest, all, p) && n in rest
    ensures rest[n].sender == a && rest[n].nonce == n && n !in At(queue, a) && n !in p
    ensures AllAfter(all, At(queue, a), rest[n]) == all
    ensures Requeuing(queue0, a, Put(queue, a, At(queue, a)[n := rest[n]]), items, done[n := rest[n]], rest - {n}, all,
                      p)
    ensures |rest - {n}| < |rest|
  {
    var tx, q := rest[n], At(queue0, a) + done;
    PutAt(queue0, a, q);
    AllAfterKnown(all, q, tx);
    assert Put(queue, a, q[n := tx]) == Put(queue0, a, At(queue0, a) + done[n := tx]) by {
      UnionAdd(At(queue0, a), done, n, tx);
      PutTwice(queue0, a, q, q[n := tx]);
    }
    assert done[n := tx] + (rest - {n}) == items by { UnionMove(done, rest, n); }
    Smaller(rest, n);
  }

  lemma AllAfterKnown(all: set<Tx>, items: Items, tx: Tx)
    requires tx in all && tx.nonce !in items
    ensures AllAfter(all, items, tx) == all
  {
  }

  lemma UnionAdd(q: Items, done: Items, n: nat, tx: Tx)
    ensures (q + done)[n := tx] == q + done[n := tx]
  {
  }

  lemma UnionMove(done: Items, rest: Items, n: nat)
    requires n in rest && done.Keys !! rest.Keys
    ensures done[n := rest[n]] + (rest - {n}) == done + rest
  {
  }

  lemma ListedIs(items: Items, txs: seq<Tx>)
    requires multiset(txs) == ValuesOf(items)
    ensures (set tx | tx in txs) == items.Values
  {
    forall tx
      ensures tx in txs <==> tx in items.Values
    {
      assert tx in txs <==> tx in multiset(txs);
    }
  }

  // ---------- Promoting ----------

  /** list.Ready on the transactions of a queue. */
  method Ready(items: Items, start: nat) returns (ready: seq<Tx>, rest: Items)
    requires ByNonce(items)
    ensures IsRun(ready, items, rest) && (ready == [] <==> forall n | n in items :: n > start)
  {
    var keys := KeysOf(items);
    var index := Heaps.Init(keys, Itself);
    IndexMembers(index, items);
    if |index| > 0 {
      IndexMin(index, items);
    }
    if |index| == 0 || index[0] > start {
      return [], items;
    }
    rest, index, ready := TakeRun(items, index);
  }

  /** list.Cap on the transactions of a queue: keeps the lowest nonces. */
  method CapList(items: Items, limit: nat) returns (kept: Items)
    requires ByNonce(items) && |items| > limit
    ensures |kept| == limit && Splits(items, kept, Gone(items, kept))
    ensures forall n, g | n in kept && g in items && g !in kept :: n < g
  {
    var keys := KeysOf(items);
    var sorted := Heaps.Sort(keys, Itself);
    MultisetSize(items.Keys);
    assert |sorted| == |multiset(sorted)|;
    var drops;
    kept, drops := DropHighest(items, sorted, limit);
    forall n, g | n in kept && g in items && g !in kept
      ensures n < g
    {
      TxList.CapKeepsLowest(items, kept, drops, n, g);
    }
  }

  /** The transactions from i on are of the account, and their nonces are neither pending nor queued. */
  ghost predicate Waiting(p: Items, rest: Items, a: Addr, ready: seq<Tx>, i: nat) {
    && (forall k | 0 <= k < |ready| :: ready[k].nonce == ready[0].nonce + k)
    && (forall k | i <= k < |ready| :: ready[k].sender == a && ready[k].nonce !in rest && ready[k].nonce !in p)
  }

  /** What Ready returns was in the list, and its nonces are not in the rest. */
  lemma RunMembers(ready: seq<Tx>, items: Items, rest: Items)
    requires ByNonce(items) && IsRun(ready, items, rest)
    ensures forall k | 0 <= k < |ready| ::
              Has(items, ready[k]) && ready[k].nonce == ready[0].nonce + k && ready[k].nonce !in rest
    ensures forall n | n in rest :: n in items && rest[n] == items[n]
    ensures ready != [] ==> forall n | n in items :: ready[0].nonce <= n
  {
    if ready != [] {
      FlatIs(items);
      var flat := Flat(items);
      forall k | 0 <= k < |ready|
        ensures Has(items, ready[k])
      {
        assert flat[k] == ready[k];
      }
      forall n | n in items
        ensures ready[0].nonce <= n
      {
        var j :| 0 <= j < |flat| && flat[j] == items[n];
        assert flat[0] == ready[0];
      }
    }
  }

  lemma TakeFromQueue(pending: Lists, queue: Lists, all: set<Tx>, a: Addr, ready: seq<Tx>, rest: Items)
    requires PoolOk(pending, queue, all) && IsRun(ready, At(queue, a), rest)
    ensures PoolOk(pending, Put(queue, a, rest), all) && Waiting(At(pending, a), rest, a, ready, 0)
  {
    var p, q := At(pending, a), At(queue, a);
    assert AddrIn(pending, queue, all, a);
    RunMembers(ready, q, rest);
    forall k | 0 <= k < |ready|
      ensures ready[k].sender == a && ready[k].nonce !in p
    {
      assert Has(q, ready[k]);
    }
    StepKeepsPool(pending, queue, all, a, p, rest, all);
    PutSame(pending, a);
  }

  /** With pending transactions being a run, what is ready begins with the pending nonce. */
  lemma ReadyIsNext(p: Items, q: Items, ready: seq<Tx>, rest: Items, from: nat, to: nat)
    requires IsRunOf(p, from, to) && p.Keys !! q.Keys && ByNonce(q) && IsRun(ready, q, rest)
    requires (ready == [] <==> forall n | n in q :: n > to) && forall n | n in q :: n >= from
    ensures ready != [] ==> ready[0].nonce == to && to + |ready| !in rest
    ensures ready == [] ==> to !in rest
  {
    if ready != [] {
      RunMembers(ready, q, rest);
      assert Has(q, ready[0]);
    }
  }

  // ---------- Sizes ----------

  ghost function Sizes(lists: Lists): map<nat, int> {
    map a | a in lists :: |lists[a]|
  }

  ghost function Total(lists: Lists): nat {
    Sums.SumNotNegative(Sizes(lists));
    Sums.Sum(Sizes(lists))
  }

  lemma TotalPut(lists: Lists, a: Addr, items: Items)
    ensures Total(Put(lists, a, items)) == Total(lists) - |At(lists, a)| + |items|
  {
    Sums.SumChange(Sizes(lists), a, |items|);
    SizesTake(lists, a);
    SizesPut(lists, a, items);
  }

  lemma SizesTake(lists: Lists, a: Addr)
    ensures Sizes(lists - {a}) == Sizes(lists) - {a}
  {
  }

  lemma SizesPut(lists: Lists, a: Addr, items: Items)
    ensures Sizes(lists[a := items]) == Sizes(lists)[a := |items|]
  {
  }

  /** The total size of all lists. */
  method CountAll(lists: Lists) returns (count: nat)
    ensures count == Total(lists)
  {
    count := 0;
    var rest := lists;
    while rest != map[]
      invariant count + Total(rest) == Total(lists)
      decreases |rest|
    {
      var a :| a in rest;
      TotalPut(rest, a, map[]);
      ListSmaller(rest, a);
      count := count + |rest[a]|;
      rest := rest - {a};
    }
    assert Sizes(rest) == map[];
  }

  /** There are as many transactions in a list as nonces. */
  lemma {:induction false} AsManyValues(items: Items)
    requires ByNonce(items)
    ensures |items.Values| == |items|
    decreases |items|
  {
    if items != map[] {
      var n :| n in items;
      Smaller(items, n);
      AsManyValues(items - {n});
      forall tx | tx in items.Values && tx != items[n]
        ensures tx in (items - {n}).Values
      {
        var k :| k in items && items[k] == tx;
        assert k in items - {n} && (items - {n})[k] == tx;
      }
      assert items.Values == (items - {n}).Values + {items[n]};
      assert items[n] !in (items - {n}).Values;
    } else {
      assert items.Values == {};
    }
  }

  /** Lists of known transactions, each by its sender and nonce. */
  ghost predicate AreLists(lists: Lists, all: set<Tx>) {
    forall a | a in lists :: ListOk(lists[a], a, all)
  }

  /** There are no more transactions in such lists than are known. */
  lemma {:induction false} TotalWithin(lists: Lists, all: set<Tx>)
    requires AreLists(lists, all)
    ensures Total(lists) <= |all|
    decreases |lists|
  {
    if lists == map[] {
      assert Sizes(lists) == map[];
    } else {
      var a :| a in lists;
      TotalPut(lists, a, map[]);
      ListSmaller(lists, a);
      assert ListOk(lists[a], a, all);
      AsManyValues(lists[a]);
      var rest := all - lists[a].Values;
      assert lists[a].Values <= all;
      assert |rest| == |all| - |lists[a].Values|;
      forall b | b in lists - {a}
        ensures ListOk(lists[b], b, rest)
      {
        assert ListOk(lists[b], b, all);
      }
      TotalWithin(lists - {a}, rest);
    }
  }

  lemma PoolWithin(pending: Lists, queue: Lists, all: set<Tx>)
    requires PoolOk(pending, queue, all)
    ensures Total(pending) <= |all| && Total(queue) <= |all|
  {
    forall a
      ensures a in pending ==> ListOk(pending[a], a, all)
      ensures a in queue ==> ListOk(queue[a], a, all)
    {
      assert AddrIn(pending, queue, all, a);
    }
    TotalWithin(pending, all);
    TotalWithin(queue, all);
  }

  /** A list without nonces of its own is not longer. */
  lemma NotLonger(items: Items, items': Items)
    requires items'.Keys <= items.Keys
    ensures |items'| <= |items|
  {
    assert items.Keys == items'.Keys + (items.Keys - items'.Keys);
    assert |items'.Keys| == |items'| && |items.Keys| == |items|;
  }

  /** Where no list is longer, there are not more in all. */
  lemma {:induction false} TotalLess(lists: Lists, lists': Lists)
    requires forall a: Addr {:trigger At(lists', a)} :: |At(lists', a)| <= |At(lists, a)|
    ensures Total(lists') <= Total(lists)
    decreases |lists'|
  {
    if lists' == map[] {
      assert Sizes(lists') == map[];
    } else {
      var a :| a in lists';
      TotalPut(lists, a, map[]);
      TotalPut(lists', a, map[]);
      ListSmaller(lists', a);
      forall b: Addr
        ensures |At(lists' - {a}, b)| <= |At(lists - {a}, b)|
      {
        assert |At(lists', b)| <= |At(lists, b)|;
      }
      TotalLess(lists - {a}, lists' - {a});
    }
  }

  lemma ListSmaller(lists: Lists, a: Addr)
    requires a in lists
    ensures |lists - {a}| < |lists|
  {
    assert (lists - {a}).Keys == lists.Keys - {a};
    assert |lists.Keys| == |lists| && |(lists - {a}).Keys| == |lists - {a}|;
  }

  method HighestNonce(items: Items) returns (n: nat)
    requires items != map[]
    ensures n in items && forall k | k in items :: k <= n
  {
    var keys := KeysOf(items);
    var sorted := Heaps.Sort(keys, Itself);
    assert forall k :: k in sorted <==> k in multiset(sorted);
    assert forall k :: k in items <==> k in multiset(items.Keys);
    var some :| some in items;
    assert some in sorted;
    n := sorted[|sorted| - 1];
    forall k | k in items
      ensures k <= n
    {
      assert k in sorted;
      var j :| 0 <= j < |sorted| && sorted[j] == k;
      assert j < |sorted| - 1 ==> Itself(sorted[j]) <= Itself(sorted[|sorted| - 1]);
    }
  }

  /** The highest pending nonce of an account may go. */
  lemma CutKeeps(pending: Lists, queue: Lists, all: set<Tx>, a: Addr, n: nat, tx: Tx, kept: Items)
    requires PoolOk(pending, queue, all) && n in At(pending, a) && forall k | k in At(pending, a) :: k <= n
    requires tx == At(pending, a)[n] && kept == TxList.Upto(At(pending, a), n)
    ensures PoolOk(Put(pending, a, kept), queue, all - {tx}) && OnlyAt(pending, Put(pending, a, kept), a)
    ensures |At(Put(pending, a, kept), a)| == |At(pending, a)| - 1 && Total(Put(pending, a, kept)) == Total(pending) - 1
    ensures LowAt(pending, Put(pending, a, kept), a)
  {
    UptoHighest(At(pending, a), n);
    TotalPut(pending, a, kept);
    PutAt(pending, a, kept);
    assert AddrIn(pending, queue, all, a);
    RemoveKeeps(pending, queue, all, tx);
  }

  lemma UptoHighest(p: Items, n: nat)
    requires n in p && forall k | k in p :: k <= n
    ensures |TxList.Upto(p, n)| == |p| - 1
  {
    assert p - {n} == TxList.Upto(p, n);
    Smaller(p, n);
  }

  // ---------- Equalising ----------

  function Len(lists: Lists, a: Addr): nat {
    |At(lists, a)|
  }

  ghost predicate NoTwice(order: seq<Addr>) {
    forall i, j | 0 <= i < j < |order| :: order[i] != order[j]
  }

  /** A list has lost some of its highest nonces and nothing else. */
  ghost predicate LowPart(q: Items, q': Items) {
    && (forall n | n in q' :: n in q && q'[n] == q[n])
    && (forall n, g | n in q' && g in q && g !in q' :: n < g)
  }

  /** A list that has lost nothing is the same. */
  lemma LowSame(q: Items, q': Items)
    requires LowPart(q, q') && |q'| >= |q|
    ensures q' == q
  {
    assert q'.Keys <= q.Keys;
    assert q.Keys == q'.Keys + (q.Keys - q'.Keys);
    assert |q'.Keys| == |q'| && |q.Keys| == |q|;
    assert q.Keys - q'.Keys == {};
  }

  ghost predicate LowAt(orig: Lists, lists: Lists, a: Addr) {
    LowPart(At(orig, a), At(lists, a))
  }

  ghost predicate AllLow(orig: Lists, lists: Lists) {
    forall a: Addr {:trigger LowAt(orig, lists, a)} :: LowAt(orig, lists, a)
  }

  /** When a pending list loses its highest nonces, the pending nonce goes down to the lowest of these. */
  ghost predicate NonceCut(p: Items, n: nat, p': Items, n': nat) {
    && n' <= n && (p' == p ==> n' == n) && (n' == n || (n' in p && n' !in p'))
    && (forall g | g in p && g !in p' :: n' <= g) && LowPart(p, p')
  }

  ghost predicate NonceCutAt(pending: Lists, nonces: Nonces, pending': Lists, nonces': Nonces, stateNonce: Addr -> nat,
                             a: Addr) {
    NonceCut(At(pending, a), NonceFor(nonces, stateNonce, a), At(pending', a), NonceFor(nonces', stateNonce, a))
  }

  ghost predicate AllCut(pending: Lists, nonces: Nonces, pending': Lists, nonces': Nonces, stateNonce: Addr -> nat) {
    forall a: Addr {:trigger NonceCutAt(pending, nonces, pending', nonces', stateNonce, a)} ::
      NonceCutAt(pending, nonces, pending', nonces', stateNonce, a)
  }

  lemma CutTwice(p: Items, n: nat, p': Items, n': nat, p'': Items, n'': nat)
    requires NonceCut(p, n, p', n') && NonceCut(p', n', p'', n'')
    ensures NonceCut(p, n, p'', n'')
  {
    if p'' == p {
      assert p' == p;
    }
  }

  lemma NoneCut(pending: Lists, nonces: Nonces, stateNonce: Addr -> nat)
    ensures AllCut(pending, nonces, pending, nonces, stateNonce)
  {
  }

  lemma AllCutTwice(pending: Lists, nonces: Nonces, pending': Lists, nonces': Nonces, pending'': Lists,
                    nonces'': Nonces,
                    stateNonce: Addr -> nat)
    requires AllCut(pending, nonces, pending', nonces', stateNonce)
    requires AllCut(pending', nonces', pending'', nonces'', stateNonce)
    ensures AllCut(pending, nonces, pending'', nonces'', stateNonce)
  {
    forall a: Addr
      ensures NonceCutAt(pending, nonces, pending'', nonces'', stateNonce, a)
    {
      assert NonceCutAt(pending, nonces, pending', nonces', stateNonce, a);
      assert NonceCutAt(pending', nonces', pending'', nonces'', stateNonce, a);
      CutTwice(At(pending, a), NonceFor(nonces, stateNonce, a), At(pending', a), NonceFor(nonces', stateNonce, a),
               At(pending'', a), NonceFor(nonces'', stateNonce, a));
    }
  }

  /** The highest nonce of one account goes. */
  lemma CutIsCut(pending: Lists, nonces: Nonces, stateNonce: Addr -> nat, a: Addr, n: nat)
    requires n in At(pending, a) && forall k | k in At(pending, a) :: k <= n
    ensures AllCut(pending, nonces, Put(pending, a, TxList.Upto(At(pending, a), n)), Lowered(nonces, stateNonce, a, n),
                   stateNonce)
  {
    var p := At(pending, a);
    PutAt(pending, a, TxList.Upto(p, n));
    assert TxList.Upto(p, n) != p;
    forall b: Addr
      ensures NonceCutAt(pending, nonces, Put(pending, a, TxList.Upto(p, n)), Lowered(nonces, stateNonce, a, n),
                         stateNonce, b)
    {
    }
  }

  /** One list has lost some of its highest nonces. */
  lemma LowOneMore(orig: Lists, lists: Lists, lists': Lists, a: Addr)
    requires AllLow(orig, lists) && OnlyAt(lists, lists', a) && LowAt(lists, lists', a)
    ensures AllLow(orig, lists')
  {
    forall b: Addr
      ensures LowAt(orig, lists', b)
    {
      assert LowAt(orig, lists, b);
      if b == a {
        LowPartTwice(At(orig, a), At(lists, a), At(lists', a));
      } else {
        assert At(lists', b) == At(lists, b);
      }
    }
  }

  lemma LowPartTwice(q: Items, q': Items, q'': Items)
    requires LowPart(q, q') && LowPart(q', q'')
    ensures LowPart(q, q'')
  {
  }

  /** The first m accounts have been cut down to one level, and no other has been cut. */
  ghost predicate Leveled(orig: Lists, lists: Lists, order: seq<Addr>, m: nat, level: nat) {
    MidRound(orig, lists, order, m, level, 0)
  }

  /** The first i of m accounts are one below the level. */
  ghost predicate MidRound(orig: Lists, lists: Lists, order: seq<Addr>, m: nat, level: nat, i: nat) {
    && i <= m <= |order| && (i > 0 ==> level > 0)
    && (forall j {:trigger order[j]} | 0 <= j < m ::
        Len(lists, order[j]) == (if j < i then level - 1 else level) && Len(orig, order[j]) >= level)
    && AllLow(orig, lists)
    && (forall a: Addr {:trigger At(lists, a)} | a !in order[..m] :: At(lists, a) == At(orig, a))
  }

  lemma RoundStep(orig: Lists, lists: Lists, lists': Lists, order: seq<Addr>, m: nat, level: nat, i: nat)
    requires MidRound(orig, lists, order, m, level, i) && i < m && NoTwice(order) && level > 0
    requires OnlyAt(lists, lists', order[i]) && Len(lists', order[i]) == level - 1 && LowAt(lists, lists', order[i])
    ensures MidRound(orig, lists', order, m, level, i + 1)
  {
    LowOneMore(orig, lists, lists', order[i]);
  }

  /** The remote accounts with more than their slots, each once, the largest first. */
  ghost predicate Spammers(lists: Lists, locals: set<Addr>, slots: nat, order: seq<Addr>) {
    && NoTwice(order)
    && (forall i {:trigger order[i]} | 0 <= i < |order| :: order[i] !in locals && Len(lists, order[i]) > slots)
    && (forall i, j {:trigger order[i], order[j]} | 0 <= i < j < |order| ::
        Len(lists, order[i]) >= Len(lists, order[j]))
    && (forall a: Addr {:trigger a in order} | a !in locals && Len(lists, a) > slots :: a in order)
  }

  ghost function SpamOrders(lists: Lists, locals: set<Addr>, slots: nat): iset<seq<Addr>> {
    iset order: seq<Addr> | Spammers(lists, locals, slots, order)
  }

  /** With k offenders, all but the latest are at one level, which is not below the latest. */
  ghost predicate Offending(orig: Lists, lists: Lists, order: seq<Addr>, k: nat, level: nat) {
    && k <= |order|
    && Leveled(orig, lists, order, if k == 0 then 0 else k - 1, level)
    && (k > 0 ==> level >= Len(orig, order[k - 1]) && At(lists, order[k - 1]) == At(orig, order[k - 1]))
  }

  /**
    As long as there are too many transactions, all offenders are at the level of the latest; never more than one round
    too many.
   */
  ghost predicate Gathered(orig: Lists, lists: Lists, order: seq<Addr>, k: nat, level: nat, count: nat, slots: nat) {
    && count == Total(lists) && Offending(orig, lists, order, k, level)
    && (count > slots && k > 0 ==> level == Len(orig, order[k - 1]))
    && count + (if k == 0 then 0 else k - 1) > slots
  }

  /** The offenders before the latest are not yet below its size. */
  ghost predicate CatchingUp(orig: Lists, lists: Lists, order: seq<Addr>, k: nat, level: nat, count: nat, slots: nat) {
    && count == Total(lists) && 1 < k <= |order| && Offending(orig, lists, order, k, level)
    && Len(lists, order[k - 2]) == level && count + k - 1 > slots
  }

  lemma CaughtUp(orig: Lists, lists: Lists, order: seq<Addr>, k: nat, level: nat, count: nat, slots: nat)
    requires CatchingUp(orig, lists, order, k, level, count, slots)
    requires count <= slots || level <= Len(orig, order[k - 1])
    ensures Gathered(orig, lists, order, k, level, count, slots)
  {
  }

  lemma NoneGathered(orig: Lists, order: seq<Addr>, slots: nat)
    requires Total(orig) > slots
    ensures Gathered(orig, orig, order, 0, 0, Total(orig), slots)
  {
  }

  lemma NextOffender(orig: Lists, lists: Lists, locals: set<Addr>, slots: nat, order: seq<Addr>, k: nat, level: nat)
    requires Spammers(orig, locals, slots, order) && Offending(orig, lists, order, k, level) && k < |order|
    requires k > 0 ==> level == Len(orig, order[k - 1])
    ensures k > 0 ==> Offending(orig, lists, order, k + 1, level)
    ensures k == 0 ==> Offending(orig, lists, order, 1, Len(orig, order[0]))
  {
    if k > 0 {
      assert Len(orig, order[k - 1]) >= Len(orig, order[k]);
      assert order[k] !in order[..k];
      assert forall a | a !in order[..k] :: a !in order[..k - 1];
    } else {
      assert order[0] !in order[..0];
    }
  }

  lemma GatherNext(orig: Lists, lists: Lists, locals: set<Addr>, config: Config, order: seq<Addr>, k: nat, level: nat,
                   count: nat)
    requires Gathered(orig, lists, order, k, level, count, config.globalSlots) && count > config.globalSlots
    requires order in SpamOrders(orig, locals, config.accountSlots) && k < |order|
    ensures NoTwice(order) && count == Total(lists)
    ensures k == 0 ==> Gathered(orig, lists, order, 1, Len(orig, order[0]), count, config.globalSlots)
    ensures k > 0 ==> Offending(orig, lists, order, k + 1, level)
  {
    NextOffender(orig, lists, locals, config.accountSlots, order, k, level);
  }

  lemma LeveledAt(orig: Lists, lists: Lists, order: seq<Addr>, m: nat, level: nat, j: nat)
    requires Leveled(orig, lists, order, m, level) && j < m
    ensures Len(lists, order[j]) == level
  {
  }

  lemma OffendersLevel(orig: Lists, lists: Lists, order: seq<Addr>, k: nat, level: nat)
    requires Offending(orig, lists, order, k, level) && 1 < k
    ensures Len(lists, order[k - 2]) == level && Len(lists, order[k - 1]) == Len(orig, order[k - 1]) <= level
  {
  }

  lemma OffendersCut(orig: Lists, lists: Lists, order: seq<Addr>, k: nat, level: nat)
    requires NoTwice(order) && 1 < k <= |order| && Leveled(orig, lists, order, k - 1, level)
    requires level >= Len(orig, order[k - 1])
    ensures Offending(orig, lists, order, k, level)
  {
    assert order[k - 1] !in order[..k - 1];
  }

  lemma OffendingIsFair(orig: Lists, lists: Lists, locals: set<Addr>, slots: nat, order: seq<Addr>, k: nat, level: nat)
    requires Spammers(orig, locals, slots, order) && Offending(orig, lists, order, k, level)
    ensures IsFair(orig, lists, order, if k == 0 then 0 else k - 1, level, slots)
    ensures k > 0 ==> level >= slots
    ensures k > 0 && level == Len(orig, order[k - 1]) ==> Leveled(orig, lists, order, k, level)
  {
    if k > 0 {
      assert Len(orig, order[k - 1]) > slots;
      assert forall a | a !in order[..k] :: a !in order[..k - 1];
    }
  }

  /** The first m accounts are at one level, not below the slots nor below the next account. */
  ghost predicate IsFair(orig: Lists, lists: Lists, order: seq<Addr>, m: nat, level: nat, slots: nat) {
    && Leveled(orig, lists, order, m, level)
    && (m > 0 ==> level >= slots)
    && (0 < m < |order| ==> level >= Len(orig, order[m]))
  }

  /** The remote accounts with more than their slots. */
  ghost function Spamming(lists: Lists, locals: set<Addr>, slots: nat): set<Addr> {
    set a | a in lists && a !in locals && Len(lists, a) > slots
  }

  /**
    Fair: within the limit or no remote account above the slots; nobody is cut below the slots, nor below a remote
    account that is not cut; those who are cut lose their highest nonces. Nobody is cut if all is within the limit, and
    the limit is not missed by as many transactions as there are accounts to cut.
   */
  ghost predicate FairShare(orig: Lists, lists: Lists, locals: set<Addr>, config: Config) {
    && (Total(lists) <= config.globalSlots || forall a: Addr {:trigger Len(lists, a)} | a !in locals ::
        Len(lists, a) <= config.accountSlots)
    && (forall a: Addr {:trigger Len(lists, a)} ::
          Len(lists, a) == Len(orig, a) || (a !in locals && config.accountSlots <= Len(lists, a) < Len(orig, a)))
    && (forall c: Addr, u: Addr {:trigger Len(lists, c), Len(lists, u)} |
          Len(lists, c) < Len(orig, c) && u !in locals && Len(lists, u) == Len(orig, u) ::
            Len(lists, u) <= Len(lists, c))
    && AllLow(orig, lists)
    && (if Total(orig) <= config.globalSlots then lists == orig
        else Total(lists) + |Spamming(orig, locals, config.accountSlots)| > config.globalSlots)
  }

  /**
    An account was cut to the level, or it has not been cut; then, if remote, it is within the slots or after the
    others.
   */
  lemma WhoIsCut(orig: Lists, lists: Lists, locals: set<Addr>, slots: nat, order: seq<Addr>, m: nat, level: nat,
                 a: Addr)
    requires Spammers(orig, locals, slots, order) && IsFair(orig, lists, order, m, level, slots)
    ensures if a in order[..m] then a !in locals && Len(lists, a) == level <= Len(orig, a) && level >= slots
            else
              && Len(lists, a) == Len(orig, a)
              && (a !in locals && Len(orig, a) > slots ==> m < |order| && (m > 0 ==> Len(orig, a) <= level))
  {
    if a in order[..m] {
      var i :| 0 <= i < m && order[i] == a;
    } else if a in order {
      var i :| 0 <= i < |order| && order[i] == a;
      assert i >= m;
      assert i > m ==> Len(orig, order[m]) >= Len(orig, order[i]);
    }
  }

  lemma {:induction false} NoTwiceSize(order: seq<Addr>, s: set<Addr>)
    requires NoTwice(order) && forall a :: a in order <==> a in s
    ensures |order| == |s|
  {
    if order != [] {
      var last := |order| - 1;
      assert order == order[..last] + [order[last]];
      NoTwiceSize(order[..last], s - {order[last]});
    }
  }

  lemma SpammersSize(orig: Lists, locals: set<Addr>, slots: nat, order: seq<Addr>)
    requires Spammers(orig, locals, slots, order)
    ensures |order| == |Spamming(orig, locals, slots)|
  {
    var s := Spamming(orig, locals, slots);
    forall a: Addr
      ensures a in order <==> a in s
    {
      if a in order {
        var i :| 0 <= i < |order| && order[i] == a;
        assert Len(orig, order[i]) > slots;
      }
    }
    NoTwiceSize(order, s);
  }

  lemma FairIsFairShare(orig: Lists, lists: Lists, locals: set<Addr>, config: Config, order: seq<Addr>, m: nat,
                        level: nat)
    requires Spammers(orig, locals, config.accountSlots, order)
    requires IsFair(orig, lists, order, m, level, config.accountSlots)
    requires Total(lists) <= config.globalSlots || (m == |order| && (m > 0 ==> level <= config.accountSlots))
    requires Total(orig) > config.globalSlots && Total(lists) + m > config.globalSlots
    ensures FairShare(orig, lists, locals, config)
  {
    SpammersSize(orig, locals, config.accountSlots, order);
    forall a: Addr
      ensures Len(lists, a) == Len(orig, a) || (a !in locals && config.accountSlots <= Len(lists, a) < Len(orig, a))
      ensures m == |order| && (m > 0 ==> level <= config.accountSlots) && a !in locals ==>
                Len(lists, a) <= config.accountSlots
    {
      WhoIsCut(orig, lists, locals, config.accountSlots, order, m, level, a);
    }
    forall c: Addr, u: Addr | Len(lists, c) < Len(orig, c) && u !in locals && Len(lists, u) == Len(orig, u)
      ensures Len(lists, u) <= Len(lists, c)
    {
      WhoIsCut(orig, lists, locals, config.accountSlots, order, m, level, c);
      WhoIsCut(orig, lists, locals, config.accountSlots, order, m, level, u);
    }
  }

  function FallingSize(lists: Lists): Addr -> int {
    (a: Addr) => -|At(lists, a)|
  }

  lemma {:induction false} OnceEach(order: seq<Addr>, x: Addr)
    requires NoTwice(order)
    ensures multiset(order)[x] <= 1
  {
    if order != [] {
      var last := |order| - 1;
      assert order == order[..last] + [order[last]];
      OnceEach(order[..last], x);
      if order[last] == x {
        assert x !in order[..last];
      }
    }
  }

  lemma NoTwiceSame(order: seq<Addr>, sorted: seq<Addr>)
    requires NoTwice(order) && multiset(sorted) == multiset(order)
    ensures NoTwice(sorted)
  {
    forall i, j | 0 <= i < j < |sorted|
      ensures sorted[i] != sorted[j]
    {
      OnceEach(order, sorted[i]);
      assert sorted == sorted[..j] + sorted[j..];
      assert sorted[i] in sorted[..j] && sorted[j] in sorted[j..];
    }
  }

  /** The spam order: remote accounts with more than their slots, by falling size. */
  method SpamOrder(lists: Lists, locals: set<Addr>, slots: nat) returns (order: seq<Addr>)
    ensures Spammers(lists, locals, slots, order)
  {
    var todo := set a | a in lists && a !in locals && |lists[a]| > slots;
    ghost var all := todo;
    order := [];
    while todo != {}
      invariant NoTwice(order) && (forall a :: a in all <==> a in todo || a in order)
      invariant forall a | a in order :: a !in todo
      decreases |todo|
    {
      var a :| a in todo;
      order := order + [a];
      todo := todo - {a};
    }
    var sorted := Heaps.Sort(order, FallingSize(lists));
    SortedSpammers(lists, locals, slots, order, sorted);
    order := sorted;
  }

  lemma SortedSpammers(lists: Lists, locals: set<Addr>, slots: nat, order: seq<Addr>, sorted: seq<Addr>)
    requires NoTwice(order) && forall a :: a in order <==> a in lists && a !in locals && |lists[a]| > slots
    requires Heaps.Sorted(sorted, FallingSize(lists)) && multiset(sorted) == multiset(order)
    ensures Spammers(lists, locals, slots, sorted)
  {
    assert forall a :: a in sorted <==> a in multiset(sorted);
    assert forall a :: a in order <==> a in multiset(order);
    NoTwiceSame(order, sorted);
    forall i, j | 0 <= i < j < |sorted|
      ensures Len(lists, sorted[i]) >= Len(lists, sorted[j])
    {
      assert FallingSize(lists)(sorted[i]) <= FallingSize(lists)(sorted[j]);
    }
  }

  /** The transactions are all in the queue, with different nonces. */
  ghost predicate Queued(q: Items, txs: seq<Tx>) {
    && (forall k | 0 <= k < |txs| :: Has(q, txs[k]))
    && (forall j, k | 0 <= j < k < |txs| :: txs[j].nonce != txs[k].nonce)
  }

  ghost function NoncesOf(txs: seq<Tx>): set<nat> {
    set tx | tx in txs :: tx.nonce
  }

  /** The first i of some queued transactions have been removed. */
  ghost predicate Removing(queue: Lists, queue': Lists, a: Addr, txs: seq<Tx>, i: nat) {
    && i <= |txs| && OnlyAt(queue, queue', a) && At(queue', a) == At(queue, a) - NoncesOf(txs[..i])
    && Total(queue') == Total(queue) - i
  }

  lemma RemovingNone(queue: Lists, a: Addr, txs: seq<Tx>)
    ensures Removing(queue, queue, a, txs, 0)
  {
    assert NoncesOf(txs[..0]) == {};
    assert At(queue, a) - {} == At(queue, a);
  }

  lemma NoncesOneMore(txs: seq<Tx>, i: nat)
    requires i < |txs|
    ensures NoncesOf(txs[..i + 1]) == NoncesOf(txs[..i]) + {txs[i].nonce}
  {
    assert txs[..i + 1] == txs[..i] + [txs[i]];
  }

  lemma StillQueued(q: Items, txs: seq<Tx>, i: nat)
    requires Queued(q, txs) && i < |txs|
    ensures Has(q - NoncesOf(txs[..i]), txs[i])
  {
    assert Has(q, txs[i]);
  }

  lemma RemovingOneMore(queue: Lists, queue': Lists, a: Addr, txs: seq<Tx>, i: nat)
    requires Removing(queue, queue', a, txs, i) && i < |txs| && Queued(At(queue, a), txs)
    ensures Has(At(queue', a), txs[i])
    ensures Removing(queue, Put(queue', a, At(queue', a) - {txs[i].nonce}), a, txs, i + 1)
  {
    StillQueued(At(queue, a), txs, i);
    NoncesOneMore(txs, i);
    var rest: Items := At(queue', a) - {txs[i].nonce};
    Smaller(At(queue', a), txs[i].nonce);
    PutAt(queue', a, rest);
    TotalPut(queue', a, rest);
    assert rest == At(queue, a) - NoncesOf(txs[..i + 1]);
  }

  /** The addresses of a set in any order. */
  method AnyOrder(addrs: set<Addr>) returns (order: seq<Addr>)
    ensures forall a :: a in order <==> a in addrs
  {
    order := [];
    var todo := addrs;
    while todo != {}
      invariant forall a :: a in addrs <==> a in todo || a in order
      decreases |todo|
    {
      var a :| a in todo;
      order := order + [a];
      todo := todo - {a};
    }
  }

  /** list.Flatten. */
  method FlatOf(items: Items) returns (txs: seq<Tx>)
    requires ByNonce(items)
    ensures txs == Flat(items) && |txs| == |items| && Queued(items, txs)
  {
    var listed := Listed(items);
    txs := Heaps.Sort(listed, NonceOf);
    SortedIsFlat(txs, items);
    FlatIs(items);
  }

  /** The last transactions of a list, the last one first. */
  method LastOnes(txs: seq<Tx>, n: nat) returns (last: seq<Tx>)
    requires n <= |txs|
    ensures IsLast(txs, last) && |last| == n
  {
    last := [];
    while |last| < n
      invariant |last| <= n && IsLast(txs, last)
    {
      last := last + [txs[|txs| - 1 - |last|]];
    }
  }

  ghost predicate IsLast(txs: seq<Tx>, last: seq<Tx>) {
    |last| <= |txs| && forall i {:trigger last[i]} | 0 <= i < |last| :: last[i] == txs[|txs| - 1 - i]
  }

  /** Without its last transactions a list has lost its highest nonces. */
  lemma WithoutLast(q: Items, txs: seq<Tx>, last: seq<Tx>)
    requires ByNonce(q) && txs == Flat(q) && IsLast(txs, last)
    ensures LowPart(q, q - NoncesOf(last))
  {
    FlatIs(q);
    forall n, g | n in q && n !in NoncesOf(last) && g in NoncesOf(last)
      ensures n < g
    {
      LastIsAbove(txs, last, q[n], g);
    }
  }

  lemma LastIsQueued(q: Items, txs: seq<Tx>, last: seq<Tx>)
    requires Queued(q, txs) && IsLast(txs, last)
    ensures Queued(q, last)
  {
    forall k | 0 <= k < |last|
      ensures Has(q, last[k])
    {
      assert Has(q, txs[|txs| - 1 - k]);
    }
  }

  lemma LastCovers(txs: seq<Tx>, last: seq<Tx>)
    requires IsLast(txs, last)
    ensures forall j | |txs| - |last| <= j < |txs| :: txs[j] in last
  {
    forall j | |txs| - |last| <= j < |txs|
      ensures txs[j] in last
    {
      assert last[|txs| - 1 - j] == txs[j];
    }
  }

  lemma LastIsAbove(txs: seq<Tx>, last: seq<Tx>, tx: Tx, g: nat)
    requires IsLast(txs, last) && tx in txs && tx.nonce !in NoncesOf(last) && g in NoncesOf(last)
    requires forall a, b | 0 <= a < b < |txs| :: txs[a].nonce < txs[b].nonce
    ensures tx.nonce < g
  {
    LastCovers(txs, last);
    var high :| high in last && high.nonce == g;
    var i :| 0 <= i < |last| && last[i] == high;
    var j :| 0 <= j < |txs| && txs[j] == tx;
    assert txs[|txs| - 1 - i] == high;
  }

  lemma WithoutAll(q: Items, txs: seq<Tx>)
    requires ByNonce(q) && txs == Flat(q)
    ensures q - NoncesOf(txs) == map[]
  {
    FlatIs(q);
    forall n | n in q
      ensures n in NoncesOf(txs)
    {
      assert q[n] in txs;
    }
  }

  /**
    Queues are within the limit, or only of local accounts; no more is removed than needed, and nothing from local
    accounts.
   */
  ghost predicate QueuesCut(queue: Lists, queue': Lists, locals: set<Addr>, limit: nat) {
    && (Total(queue') <= limit || forall a | a in queue' :: a in locals)
    && (if Total(queue) <= limit then queue' == queue else Total(queue') >= limit)
    && AllLow(queue, queue') && SameFor(queue, queue', locals)
  }

  /**
    Queues of remote accounts are being shortened: the addresses are those still to do, and drop is what is too much.
   */
  ghost predicate Shrinking(queue: Lists, queue': Lists, locals: set<Addr>, addresses: seq<Addr>, limit: nat,
                            drop: int) {
    && drop >= 0 && Total(queue') == limit + drop && (drop > 0 ==> RemoteIn(queue', locals, addresses))
    && (forall a | a in addresses :: a !in locals) && AllLow(queue, queue') && SameFor(queue, queue', locals)
  }

  lemma ShrinkOneMore(queue: Lists, queue': Lists, queue'': Lists, locals: set<Addr>, addresses: seq<Addr>, limit: nat,
                      drop: nat, drop': nat, a: Addr)
    requires Shrinking(queue, queue', locals, addresses, limit, drop) && addresses != []
    requires a == addresses[|addresses| - 1] && drop > 0
    requires OnlyAt(queue', queue'', a) && LowAt(queue', queue'', a) && NoneEmpty(queue'')
    requires drop' <= drop && Total(queue'') + drop == Total(queue') + drop' && (drop' > 0 ==> Len(queue'', a) == 0)
    ensures Shrinking(queue, queue'', locals, addresses[..|addresses| - 1], limit, drop')
  {
    LowOneMore(queue, queue', queue'', a);
    if drop' > 0 {
      RemoteLeft(queue', queue'', locals, addresses, a);
    }
  }

  ghost predicate SameFor(lists: Lists, lists': Lists, accounts: set<Addr>) {
    forall a: Addr {:trigger At(lists', a)} | a in accounts :: At(lists', a) == At(lists, a)
  }

  /** All remote accounts with queued transactions are among the addresses. */
  ghost predicate RemoteIn(lists: Lists, locals: set<Addr>, addresses: seq<Addr>) {
    forall b | b in lists && b !in locals :: b in addresses
  }

  lemma RemoteLeft(lists: Lists, lists': Lists, locals: set<Addr>, addresses: seq<Addr>, a: Addr)
    requires RemoteIn(lists, locals, addresses)
    requires addresses != [] && a == addresses[|addresses| - 1] && NoneEmpty(lists') && OnlyAt(lists, lists', a)
    requires Len(lists', a) == 0
    ensures RemoteIn(lists', locals, addresses[..|addresses| - 1])
  {
    assert addresses == addresses[..|addresses| - 1] + [a];
    forall b | b in lists' && b !in locals
      ensures b in lists && b != a
    {
      assert At(lists', b) == lists'[b];
    }
  }

  // ---------- Demoting ----------

  lemma DropPendingKeeps(pending: Lists, queue: Lists, all: set<Tx>, a: Addr, kept: Items, gone: Items)
    requires PoolOk(pending, queue, all) && Splits(At(pending, a), kept, gone)
    ensures PoolOk(Put(pending, a, kept), queue, all - gone.Values) && ByNonce(gone)
  {
    var p, q := At(pending, a), At(queue, a);
    assert AddrIn(pending, queue, all, a);
    forall tx | tx in gone.Values
      ensures tx.sender == a && tx.nonce in gone
    {
      var n :| n in gone && gone[n] == tx;
      assert p[n] == tx;
    }
    StepKeepsPool(pending, queue, all, a, kept, q, all - gone.Values);
    PutSame(queue, a);
  }

  lemma DemoteKeeps(pending: Lists, queue: Lists, all: set<Tx>, a: Addr, kept: Items, moved: Items)
    requires PoolOk(pending, queue, all) && Splits(At(pending, a), kept, moved)
    ensures PoolOk(Put(pending, a, kept), queue, all)
    ensures ListOk(moved, a, all) && moved.Keys !! kept.Keys && moved.Keys !! At(queue, a).Keys
  {
    assert AddrIn(pending, queue, all, a);
    StepKeepsPool(pending, queue, all, a, kept, At(queue, a), all);
    PutSame(queue, a);
  }

  lemma ForwardSplits(p: Items, n: nat)
    ensures Splits(p, From(p, n), TxList.Upto(p, n))
  {
  }

  /** A strict filter takes out what is too dear, and then what is behind it. */
  lemma FilterSplits(p: Items, balance: nat, maxGas: nat)
    ensures var dear, left, behind :=
              TxList.Dear(p, balance, maxGas), TxList.Filtered(true, p, balance, maxGas),
                TxList.Behind(true, p, balance, maxGas);
            Splits(p, p - dear.Keys, dear) && Splits(p - dear.Keys, left, behind)
  {
  }

  /** What demoteUnexecutables leaves of a pending list. */
  ghost function Demoted(p: Items, nonce: nat, balance: nat, maxGas: nat): Items {
    var left := TxList.Filtered(true, From(p, nonce), balance, maxGas);
    if nonce in left then left else map[]
  }

  /**
    Transactions that can still be executed and paid for are pending or queued, and those queued before are so still.
   */
  ghost predicate NoneLost(p: Items, q: Items, p': Items, q': Items, nonce: nat, balance: nat, maxGas: nat) {
    && (forall n | n in p && n >= nonce && !TxList.TooDear(p[n], balance, maxGas) :: Found(p', q', n, p[n]))
    && (forall n | n in q :: Found(p', q', n, q[n]))
  }

  predicate Found(p: Items, q: Items, n: nat, tx: Tx) {
    (n in p && p[n] == tx) || (n in q && q[n] == tx)
  }

  /** What demoteUnexecutables moves from a pending list into the queue. */
  ghost function Moved(p: Items, nonce: nat, balance: nat, maxGas: nat): Items {
    var left, behind :=
          TxList.Filtered(true, From(p, nonce), balance, maxGas), TxList.Behind(true, From(p, nonce), balance, maxGas);
    if nonce in left then behind else behind + left
  }

  lemma UnionAssoc(a: Items, b: Items, c: Items)
    ensures (a + b) + c == a + (b + c)
  {
  }

  /** Demoting loses nothing that can still be executed and paid for. */
  lemma DemotingLosesNone(p: Items, q: Items, nonce: nat, balance: nat, maxGas: nat)
    requires p.Keys !! q.Keys
    ensures NoneLost(p, q, Demoted(p, nonce, balance, maxGas), q + Moved(p, nonce, balance, maxGas), nonce, balance,
                     maxGas)
  {
    var p', q' := Demoted(p, nonce, balance, maxGas), q + Moved(p, nonce, balance, maxGas);
    forall n | n in p && n >= nonce && !TxList.TooDear(p[n], balance, maxGas)
      ensures Found(p', q', n, p[n])
    {
      var dear := TxList.Dear(From(p, nonce), balance, maxGas);
      if !(forall g | g in dear :: n < g) {
        var g :| g in dear && n >= g;
        assert g != n;
      }
    }
  }

  ghost predicate DemotedAt(lists: Lists, queue: Lists, lists': Lists, queue': Lists, stateNonce: Addr -> nat,
                            balance: Addr -> nat, maxGas: nat, a: Addr) {
    && At(lists', a) == Demoted(At(lists, a), stateNonce(a), balance(a), maxGas)
    && At(queue', a) == At(queue, a) + Moved(At(lists, a), stateNonce(a), balance(a), maxGas)
  }

  /** All accounts but those still to do have been demoted; these are as before. */
  ghost predicate AllDemoted(lists: Lists, queue: Lists, lists': Lists, queue': Lists,
                             stateNonce: Addr -> nat, balance: Addr -> nat, maxGas: nat, todo: set<Addr>) {
    && (forall a: Addr {:trigger DemotedAt(lists, queue, lists', queue', stateNonce, balance, maxGas,
                                           a)} | a !in todo ::
          DemotedAt(lists, queue, lists', queue', stateNonce, balance, maxGas, a))
    && (forall a | a in todo :: At(lists', a) == At(lists, a) && At(queue', a) == At(queue, a))
  }

  lemma DemotedStart(lists: Lists, queue: Lists, stateNonce: Addr -> nat, balance: Addr -> nat, maxGas: nat)
    ensures AllDemoted(lists, queue, lists, queue, stateNonce, balance, maxGas, lists.Keys)
  {
    forall a: Addr | a !in lists.Keys
      ensures DemotedAt(lists, queue, lists, queue, stateNonce, balance, maxGas, a)
    {
      assert TxList.Filtered(true, From(map[], stateNonce(a)), balance(a), maxGas) == map[];
      assert At(queue, a) + Moved(map[], stateNonce(a), balance(a), maxGas) == At(queue, a);
    }
  }

  lemma DemotedStep(lists: Lists, queue: Lists, lists': Lists, queue': Lists, lists'': Lists, queue'': Lists,
                    stateNonce: Addr -> nat, balance: Addr -> nat, maxGas: nat, todo: set<Addr>, a: Addr)
    requires AllDemoted(lists, queue, lists', queue', stateNonce, balance, maxGas, todo) && a in todo
    requires OnlyAt(lists', lists'', a) && OnlyAt(queue', queue'', a)
    requires DemotedAt(lists', queue', lists'', queue'', stateNonce, balance, maxGas, a)
    ensures AllDemoted(lists, queue, lists'', queue'', stateNonce, balance, maxGas, todo - {a})
  {
    forall b: Addr | b !in todo - {a}
      ensures DemotedAt(lists, queue, lists'', queue'', stateNonce, balance, maxGas, b)
    {
      if b != a {
        assert DemotedAt(lists, queue, lists', queue', stateNonce, balance, maxGas, b);
        assert At(lists'', b) == At(lists', b) && At(queue'', b) == At(queue', b);
      }
    }
  }

  ghost predicate NonceSetAt(lists: Lists, nonces: Nonces, a: Addr) {
    a in nonces && nonces[a] > 0 && nonces[a] - 1 in At(lists, a) && forall n | n in At(lists, a) :: n < nonces[a]
  }

  /** Accounts with pending transactions have the nonce after the last of these; others what they had before. */
  ghost predicate NoncesSet(lists: Lists, nonces: Nonces, nonces': Nonces, todo: set<Addr>) {
    && (forall a: Addr {:trigger NonceSetAt(lists, nonces', a)} | a in lists && a !in todo ::
        NonceSetAt(lists, nonces', a))
    && (forall a: Addr {:trigger a in nonces'} | a !in lists ::
        (a in nonces' <==> a in nonces) && (a in nonces ==> nonces'[a] == nonces[a]))
  }

  lemma NonceStep(lists: Lists, nonces: Nonces, nonces': Nonces, todo: set<Addr>, a: Addr, last: nat)
    requires NoncesSet(lists, nonces, nonces', todo) && a in todo && a in lists
    requires last in lists[a] && forall n | n in lists[a] :: n <= last
    ensures NoncesSet(lists, nonces, nonces'[a := last + 1], todo - {a})
  {
    var next := nonces'[a := last + 1];
    forall b: Addr | b in lists && b !in todo - {a}
      ensures NonceSetAt(lists, next, b)
    {
      if b != a {
        assert NonceSetAt(lists, nonces', b);
      }
    }
  }

  /** What is left of a run after demoting is the run from the new nonce on. */
  lemma DemotedRun(p: Items, from: nat, to: nat, nonce: nat, balance: nat, maxGas: nat)
    requires IsRunOf(p, from, to)
    ensures var d := Demoted(p, nonce, balance, maxGas);
            TxList.Gapless(d) && (forall n | n in d :: n >= nonce) && (d != map[] ==> nonce in d)
  {
    TxList.FromIsGapless(p, nonce);
    TxList.StrictIsGapless(From(p, nonce), balance, maxGas);
  }

  lemma ResetRuns(lists: Lists, queue: Lists, lists': Lists, queue': Lists, nonces0: Nonces, stateNonce0: Addr -> nat,
                  nonces: Nonces, stateNonce: Addr -> nat, balance: Addr -> nat, maxGas: nat)
    requires Runs(lists, nonces0, stateNonce0)
    requires AllDemoted(lists, queue, lists', queue', stateNonce, balance, maxGas, {})
    requires NoncesSet(lists', map[], nonces, {}) && NoneEmpty(lists')
    ensures Runs(lists', nonces, stateNonce)
  {
    forall a: Addr
      ensures RunIn(lists', nonces, stateNonce, a)
    {
      assert RunIn(lists, nonces0, stateNonce0, a)
             && DemotedAt(lists, queue, lists', queue', stateNonce, balance, maxGas, a);
      DemotedRun(At(lists, a), stateNonce0(a), NonceFor(nonces0, stateNonce0, a), stateNonce(a), balance(a), maxGas);
      if a in lists' {
        assert NonceSetAt(lists', nonces, a);
      }
    }
  }
}
