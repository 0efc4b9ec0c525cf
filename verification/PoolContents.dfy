/**
  What exactly the steps of the transaction pool of core/tx_pool.go leave in its lists: which
  queued transactions are promoted, which are dropped, and which known transactions are in no
  list at all.
 */
module PoolContents {
  import opened TxSortedMap
  import opened PoolLists
  import TxList

  // ---------- Known transactions that are in no list ----------

  predicate Stray(pending: Lists, queue: Lists, all: set<Tx>, tx: Tx) {
    tx in all && !Has(At(pending, tx.sender), tx) && !Has(At(queue, tx.sender), tx)
  }

  /** No transaction has become stray that was not. */
  ghost predicate NoNewStray(pending: Lists, queue: Lists, all: set<Tx>, pending': Lists, queue': Lists,
                             all': set<Tx>) {
    forall tx {:trigger Stray(pending', queue', all', tx)} | Stray(pending', queue', all', tx) ::
      Stray(pending, queue, all, tx)
  }

  /** A step on the lists of one account, after which what was listed there is listed still, or not known any more. */
  lemma OneAccountStrays(pending: Lists, queue: Lists, all: set<Tx>, pending': Lists, queue': Lists, all': set<Tx>,
                         a: Addr)
    requires OnlyAt(pending, pending', a) && OnlyAt(queue, queue', a)
    requires forall tx | tx in all' && tx.sender == a
             && (tx in all ==> Has(At(pending, a), tx) || Has(At(queue, a), tx)) ::
               Has(At(pending', a), tx) || Has(At(queue', a), tx)
    requires forall tx | tx in all' && tx.sender != a :: tx in all
    ensures NoNewStray(pending, queue, all, pending', queue', all')
  {
    forall tx | Stray(pending', queue', all', tx)
      ensures Stray(pending, queue, all, tx)
    {
      if tx.sender != a {
        assert At(pending', tx.sender) == At(pending, tx.sender) && At(queue', tx.sender) == At(queue, tx.sender);
      }
    }
  }

  /** A part of a queue is forgotten. */
  lemma DropStrays(pending: Lists, queue: Lists, all: set<Tx>, queue': Lists, a: Addr, kept: Items, gone: Items)
    requires PoolOk(pending, queue, all) && Splits(At(queue, a), kept, gone) && OnlyAt(queue, queue', a)
    requires At(queue', a) == kept
    ensures NoNewStray(pending, queue, all, pending, queue', all - gone.Values)
  {
    OneAccountStrays(pending, queue, all, pending, queue', all - gone.Values, a);
  }

  /** A part of a pending list is forgotten. */
  lemma DropPendingStrays(pending: Lists, queue: Lists, all: set<Tx>, pending': Lists, a: Addr, kept: Items,
                          gone: Items)
    requires PoolOk(pending, queue, all) && Splits(At(pending, a), kept, gone) && OnlyAt(pending, pending', a)
    requires At(pending', a) == kept
    ensures NoNewStray(pending, queue, all, pending', queue, all - gone.Values)
  {
    OneAccountStrays(pending, queue, all, pending', queue, all - gone.Values, a);
  }

  /** The highest pending nonce of an account is forgotten. */
  lemma CutStrays(pending: Lists, queue: Lists, all: set<Tx>, a: Addr, n: nat)
    requires PoolOk(pending, queue, all) && n in At(pending, a) && forall k | k in At(pending, a) :: k <= n
    ensures NoNewStray(pending, queue, all, Put(pending, a, TxList.Upto(At(pending, a), n)), queue,
                       all - {At(pending, a)[n]})
  {
    var p := At(pending, a);
    var kept, gone := TxList.Upto(p, n), map[n := p[n]];
    PutAt(pending, a, kept);
    assert n in gone && gone.Values == {p[n]};
    DropPendingStrays(pending, queue, all, Put(pending, a, kept), a, kept, gone);
  }

  /** A part of a pending list is queued. */
  lemma DemoteStrays(pending: Lists, queue: Lists, all: set<Tx>, pending': Lists, queue': Lists, a: Addr, kept: Items,
                     moved: Items)
    requires PoolOk(pending, queue, all) && Splits(At(pending, a), kept, moved)
    requires OnlyAt(pending, pending', a) && At(pending', a) == kept && OnlyAt(queue, queue', a)
    requires At(queue', a) == At(queue, a) + moved
    ensures NoNewStray(pending, queue, all, pending', queue', all)
  {
    assert AddrIn(pending, queue, all, a);
    OneAccountStrays(pending, queue, all, pending', queue', all, a);
  }

  /** A part of a queue becomes pending. */
  lemma PromoteStrays(pending: Lists, queue: Lists, all: set<Tx>, pending': Lists, queue': Lists, a: Addr, r: Items)
    requires PoolOk(pending, queue, all) && (forall n | n in r :: n in At(queue, a) && r[n] == At(queue, a)[n])
    requires OnlyAt(pending, pending', a) && At(pending', a) == At(pending, a) + r && OnlyAt(queue, queue', a)
    requires At(queue', a) == At(queue, a) - r.Keys
    ensures NoNewStray(pending, queue, all, pending', queue', all)
  {
    assert AddrIn(pending, queue, all, a);
    OneAccountStrays(pending, queue, all, pending', queue', all, a);
  }

  /** A list takes a new transaction in place of the one with its nonce. */
  lemma TakeStrays(pending: Lists, queue: Lists, all: set<Tx>, tx: Tx)
    requires PoolOk(pending, queue, all)
    ensures var a := tx.sender;
            && NoNewStray(pending, queue, all, pending, Put(queue, a, At(queue, a)[tx.nonce := tx]),
                          AllAfter(all, At(queue, a), tx))
            && NoNewStray(pending, queue, all, Put(pending, a, At(pending, a)[tx.nonce := tx]), queue,
                          AllAfter(all, At(pending, a), tx))
  {
    var a := tx.sender;
    assert AddrIn(pending, queue, all, a);
    var p, q := At(pending, a)[tx.nonce := tx], At(queue, a)[tx.nonce := tx];
    PutAt(pending, a, p);
    PutAt(queue, a, q);
    OneAccountStrays(pending, queue, all, pending, Put(queue, a, q), AllAfter(all, At(queue, a), tx), a);
    OneAccountStrays(pending, queue, all, Put(pending, a, p), queue, AllAfter(all, At(pending, a), tx), a);
  }

  /** What removeTx leaves in no list: all above the lowest pending nonce, if this is the one that goes. */
  ghost predicate Strands(p: Items, tx: Tx) {
    IsLowest(p, tx.nonce) && exists n :: n in p && n > tx.nonce
  }

  lemma RemovalStrands(pending: Lists, queue: Lists, all: set<Tx>, pending': Lists, queue': Lists, tx: Tx)
    requires PoolOk(pending, queue, all) && tx in all && IsRemoval(pending, queue, pending', queue', tx)
    requires Strands(At(pending, tx.sender), tx)
    ensures exists t :: Stray(pending', queue', all - {tx}, t)
  {
    var a, n := tx.sender, tx.nonce;
    var p := At(pending, a);
    assert AddrIn(pending, queue, all, a);
    var k :| k in p && k > n;
    assert TxList.Upto(p, n) == map[];
    PutAt(pending, a, map[]);
    assert Stray(pending', queue', all - {tx}, p[k]);
  }

  lemma PendingRemovalKeepsListed(pending: Lists, queue: Lists, all: set<Tx>, pending': Lists, queue': Lists, tx: Tx)
    requires PoolOk(pending, queue, all) && IsRemoval(pending, queue, pending', queue', tx)
    requires Has(At(pending, tx.sender), tx) && !Strands(At(pending, tx.sender), tx)
    ensures NoNewStray(pending, queue, all, pending', queue', all - {tx})
  {
    var a, n := tx.sender, tx.nonce;
    var p, q := At(pending, a), At(queue, a);
    assert AddrIn(pending, queue, all, a);
    PutAt(pending, a, TxList.Upto(p, n));
    RequeuedAt(queue, a, p, n);
    OthersListed(p, q, n);
    OneAccountStrays(pending, queue, all, pending', queue', all - {tx}, a);
  }

  lemma RequeuedAt(queue: Lists, a: Addr, p: Items, n: nat)
    requires n in p && (IsLowest(p, n) ==> !exists k :: k in p && k > n)
    ensures At(Requeued(queue, a, p, n), a) == At(queue, a) + From(p, n + 1)
    ensures OnlyAt(queue, Requeued(queue, a, p, n), a)
  {
    PutAt(queue, a, At(queue, a) + From(p, n + 1));
    if TxList.Upto(p, n) == map[] {
      assert forall k | k in p :: k !in TxList.Upto(p, n);
      assert IsLowest(p, n);
    }
  }

  /** What was listed besides the transaction that goes is still listed when those above it have moved to the queue. */
  lemma OthersListed(p: Items, q: Items, n: nat)
    requires ByNonce(p) && ByNonce(q) && n in p && forall k | k in p :: k !in q
    ensures forall tx | tx != p[n] && (Has(p, tx) || Has(q, tx)) ::
              Has(TxList.Upto(p, n), tx) || Has(q + From(p, n + 1), tx)
  {
  }

  lemma QueuedRemovalKeepsListed(pending: Lists, queue: Lists, all: set<Tx>, pending': Lists, queue': Lists, tx: Tx)
    requires PoolOk(pending, queue, all) && IsRemoval(pending, queue, pending', queue', tx)
    requires Has(At(queue, tx.sender), tx)
    ensures NoNewStray(pending, queue, all, pending', queue', all - {tx})
  {
    var a, n := tx.sender, tx.nonce;
    var p, q := At(pending, a), At(queue, a);
    assert AddrIn(pending, queue, all, a);
    PutAt(queue, a, q - {n});
    OneAccountStrays(pending, queue, all, pending', queue', all - {tx}, a);
  }

  /**
    In a pool without strays, removing a transaction makes none if and only if it is not the first of several pending
    ones.
   */
  lemma RemovalStrandsIff(pending: Lists, queue: Lists, all: set<Tx>, pending': Lists, queue': Lists, tx: Tx)
    requires PoolOk(pending, queue, all) && tx in all && IsRemoval(pending, queue, pending', queue', tx)
    requires forall t :: !Stray(pending, queue, all, t)
    ensures (forall t :: !Stray(pending', queue', all - {tx}, t)) <==> !Strands(At(pending, tx.sender), tx)
  {
    assert !Stray(pending, queue, all, tx);
    if Strands(At(pending, tx.sender), tx) {
      RemovalStrands(pending, queue, all, pending', queue', tx);
    } else if Has(At(pending, tx.sender), tx) {
      PendingRemovalKeepsListed(pending, queue, all, pending', queue', tx);
    } else {
      QueuedRemovalKeepsListed(pending, queue, all, pending', queue', tx);
    }
  }

  // ---------- What is promoted ----------

  /** The first nonce from n on that is missing. */
  ghost function RunEnd(q: Items, n: nat): (end: nat)
    ensures n <= end && end !in q && forall k: nat | n <= k < end :: k in q
    decreases |q|
  {
    if n in q then
      Smaller(q, n);
      var end := RunEnd(q - {n}, n + 1);
      assert forall k: nat {:trigger k in q} | n <= k < end :: k == n || k in q - {n};
      end
    else n
  }

  /** The end of the first run of a list, if this run does not begin after start. */
  ghost function ReadyEnd(q: Items, start: nat): nat {
    if q != map[] && Lowest(q) <= start then RunEnd(q, Lowest(q)) else 0
  }

  /** What list.Ready takes, and what it leaves. */
  ghost function ReadyItems(q: Items, start: nat): Items {
    TxList.Upto(q, ReadyEnd(q, start))
  }

  ghost function NotReady(q: Items, start: nat): Items {
    From(q, ReadyEnd(q, start))
  }

  /** A transaction is ready if and only if the list has one not after start and no gap before it. */
  lemma ReadyIff(q: Items, start: nat, n: nat)
    requires n in q
    ensures n in ReadyItems(q, start) <==>
              (exists i :: i in q && i <= start) && forall i, k: nat | i in q && i <= k <= n :: k in q
  {
    var lo := Lowest(q);
    var end := RunEnd(q, lo);
    if lo <= start {
      if n < end {
        forall i, k: nat | i in q && i <= k <= n
          ensures k in q
        {
          assert lo <= i;
        }
      }
    }
  }

  /** What an account can still send and pay for. */
  ghost function Payable(q: Items, nonce: nat, balance: nat, maxGas: nat): Items {
    Kept(From(q, nonce), TxList.DearerThan(balance, maxGas))
  }

  /** The nonces follow each other from lo on. */
  ghost predicate OneByOne(ready: seq<Tx>, q: Items, lo: nat) {
    forall k {:trigger ready[k]} | 0 <= k < |ready| :: ready[k].nonce == lo + k && lo + k in q && q[lo + k] == ready[k]
  }

  /** ready lists the transactions of r, by nonces that follow each other from lo on. */
  ghost predicate InOrder(ready: seq<Tx>, r: Items, lo: nat) {
    && OneByOne(ready, r, lo)
    && (forall n {:trigger n in r} | n in r :: lo <= n < lo + |ready|)
  }

  lemma RunInOrder(ready: seq<Tx>, q: Items, lo: nat)
    requires forall k {:trigger ready[k]} | 0 <= k < |ready| :: Has(q, ready[k]) && ready[k].nonce == lo + k
    ensures OneByOne(ready, q, lo)
  {
  }

  lemma RunFacts(ready: seq<Tx>, q: Items, rest: Items, lo: nat)
    requires ByNonce(q) && IsRun(ready, q, rest) && ready != [] && lo == ready[0].nonce
    ensures OneByOne(ready, q, lo)
    ensures IsLowest(q, lo) && lo + |ready| !in q && rest == From(q, lo + |ready|)
  {
    RunMembers(ready, q, rest);
    assert Has(q, ready[0]);
    RunInOrder(ready, q, lo);
  }

  lemma RunKeys(ready: seq<Tx>, q: Items, lo: nat)
    requires OneByOne(ready, q, lo)
    ensures forall n: nat | lo <= n < lo + |ready| :: n in q
  {
    forall n: nat | lo <= n < lo + |ready|
      ensures n in q
    {
      assert ready[n - lo].nonce == n;
    }
  }

  lemma RunIsReady(ready: seq<Tx>, q: Items, rest: Items, start: nat)
    requires ByNonce(q) && IsRun(ready, q, rest) && (ready == [] <==> forall n | n in q :: n > start)
    ensures InOrder(ready, ReadyItems(q, start), First(ready)) && rest == NotReady(q, start)
  {
    if ready != [] {
      var lo := ready[0].nonce;
      RunFacts(ready, q, rest, lo);
      RunKeys(ready, q, lo);
      assert Lowest(q) == lo;
      assert RunEnd(q, lo) == lo + |ready|;
    }
  }

  function First(ready: seq<Tx>): nat {
    if ready == [] then 0 else ready[0].nonce
  }

  /** The transactions of r, in order, are of the account and known, and their nonces are neither pending nor queued. */
  ghost predicate Await(p: Items, rest: Items, a: Addr, ready: seq<Tx>, r: Items, lo: nat, all: set<Tx>) {
    && InOrder(ready, r, lo) && (forall n | n in r :: r[n] in all)
    && (forall k {:trigger ready[k]} | 0 <= k < |ready| ::
        ready[k].sender == a && ready[k].nonce !in rest && ready[k].nonce !in p)
  }

  lemma TakenAwaits(p: Items, q: Items, rest: Items, a: Addr, ready: seq<Tx>, nonce: nat, all: set<Tx>)
    requires AddrOk(p, q, a, all) && Waiting(p, rest, a, ready, 0)
    requires IsRun(ready, q, rest) && (ready == [] <==> forall n | n in q :: n > nonce)
    ensures rest == NotReady(q, nonce) && Await(p, rest, a, ready, ReadyItems(q, nonce), First(ready), all)
    ensures forall n | n in rest :: n > if ready == [] then nonce else First(ready) + |ready|
  {
    RunIsReady(ready, q, rest, nonce);
  }

  /** The first i of them have become pending. */
  ghost predicate Promoting(pending: Lists, nonces: Nonces, pending': Lists, nonces': Nonces, stateNonce: Addr -> nat,
                            a: Addr, r: Items, lo: nat, i: nat) {
    && OnlyAt(pending, pending', a) && OnlyNonce(nonces, nonces', stateNonce, a)
    && At(pending', a) == At(pending, a) + TxList.Upto(r, lo + i)
    && NonceFor(nonces', stateNonce, a) == (if i == 0 then NonceFor(nonces, stateNonce, a) else lo + i)
  }

  lemma PromotingNone(pending: Lists, nonces: Nonces, stateNonce: Addr -> nat, a: Addr, ready: seq<Tx>, r: Items,
                      lo: nat)
    requires InOrder(ready, r, lo)
    ensures Promoting(pending, nonces, pending, nonces, stateNonce, a, r, lo, 0)
  {
    assert TxList.Upto(r, lo) == map[];
    assert At(pending, a) + map[] == At(pending, a);
  }

  lemma NextToPromote(p: Items, p': Items, rest: Items, a: Addr, ready: seq<Tx>, r: Items, lo: nat, all: set<Tx>,
                      i: nat, priceBump: nat)
    requires Await(p, rest, a, ready, r, lo, all) && i < |ready| && p' == p + TxList.Upto(r, lo + i)
    ensures var tx := ready[i];
            && tx.sender == a && tx.nonce == lo + i && tx.nonce !in rest && tx.nonce !in p'
            && Takes(p', tx, priceBump) && AllAfter(all, p', tx) == all
  {
    assert ready[i].nonce == lo + i;
    AllAfterKnown(all, p', ready[i]);
  }

  lemma PromotingOneMore(pending: Lists, nonces: Nonces, pending': Lists, nonces': Nonces, stateNonce: Addr -> nat,
                         a: Addr,
                         ready: seq<Tx>, r: Items, lo: nat, i: nat, tx: Tx)
    requires Promoting(pending, nonces, pending', nonces', stateNonce, a, r, lo, i) && i < |ready|
    requires InOrder(ready, r, lo) && tx == ready[i]
    ensures Promoting(pending, nonces, Put(pending', a, At(pending', a)[tx.nonce := tx]), nonces'[a := tx.nonce + 1],
                      stateNonce, a, r, lo, i + 1)
  {
    assert tx.nonce == lo + i;
    var p := At(pending', a)[lo + i := tx];
    PutAt(pending', a, p);
    UptoOneMore(At(pending, a), r, ready, lo, i);
    assert OnlyNonce(nonces', nonces'[a := lo + i + 1], stateNonce, a);
    OnlyNonceTwice(nonces, nonces', nonces'[a := lo + i + 1], stateNonce, a);
  }

  lemma OnlyNonceTwice(nonces: Nonces, nonces': Nonces, nonces'': Nonces, stateNonce: Addr -> nat, a: Addr)
    requires OnlyNonce(nonces, nonces', stateNonce, a) && OnlyNonce(nonces', nonces'', stateNonce, a)
    ensures OnlyNonce(nonces, nonces'', stateNonce, a)
  {
  }

  lemma UptoOneMore(p: Items, r: Items, ready: seq<Tx>, lo: nat, i: nat)
    requires InOrder(ready, r, lo) && i < |ready|
    ensures (p + TxList.Upto(r, lo + i))[lo + i := ready[i]] == p + TxList.Upto(r, lo + i + 1)
  {
    assert ready[i].nonce == lo + i;
  }

  /** All that was ready is pending, and nothing has become stray. */
  lemma PromotingAll(pending: Lists, queue: Lists, all: set<Tx>, nonces: Nonces, pending': Lists, queue': Lists,
                     nonces': Nonces,
                     stateNonce: Addr -> nat, a: Addr, start: nat, ready: seq<Tx>, lo: nat)
    requires PoolOk(pending, queue, all) && InOrder(ready, ReadyItems(At(queue, a), start), lo)
    requires Promoting(pending, nonces, pending', nonces', stateNonce, a, ReadyItems(At(queue, a), start), lo, |ready|)
    requires OnlyAt(queue, queue', a) && At(queue', a) == NotReady(At(queue, a), start)
    ensures At(pending', a) == At(pending, a) + ReadyItems(At(queue, a), start)
    ensures NoNewStray(pending, queue, all, pending', queue', all)
  {
    var r := ReadyItems(At(queue, a), start);
    assert TxList.Upto(r, lo + |ready|) == r;
    assert At(queue', a) == At(queue, a) - r.Keys;
    PromoteStrays(pending, queue, all, pending', queue', a, r);
  }

  /** A queue of a remote account keeps the lowest nonces, up to the limit. */
  ghost predicate IsCapped(q: Items, q': Items, limit: nat, local: bool) {
    if local || |q| <= limit then q' == q
    else |q'| == limit && LowPart(q, q')
  }

  /** What is ready has become pending, and the rest of the queue is capped. */
  ghost predicate IsReadied(p: Items, q: Items, p': Items, q': Items, nonce: nat, limit: nat, local: bool) {
    p' == p + ReadyItems(q, nonce) && IsCapped(NotReady(q, nonce), q', limit, local)
  }

  /** The lists of an account before and after promotion. */
  ghost predicate IsPromoted(p: Items, q: Items, p': Items, q': Items, stateNonce: nat, nonce: nat, balance: nat,
                             maxGas: nat, limit: nat, local: bool) {
    IsReadied(p, Payable(q, stateNonce, balance, maxGas), p', q', nonce, limit, local)
  }

  lemma ReadiedIsPromoted(p: Items, q: Items, payable: Items, p': Items, q': Items, stateNonce: nat, nonce: nat,
                          balance: nat, maxGas: nat,
                          limit: nat, local: bool)
    requires payable == Payable(q, stateNonce, balance, maxGas) && IsReadied(p, payable, p', q', nonce, limit, local)
    ensures IsPromoted(p, q, p', q', stateNonce, nonce, balance, maxGas, limit, local)
    ensures forall n | n in payable :: n >= stateNonce
  {
  }

  // ---------- Promotion of several accounts ----------

  ghost predicate PromotedAt(pending: Lists, queue: Lists, nonces: Nonces, pending': Lists, queue': Lists,
                             stateNonce: Addr -> nat, balance: Addr -> nat, maxGas: nat, limit: nat, locals: set<Addr>,
                             a: Addr) {
    IsPromoted(At(pending, a), At(queue, a), At(pending', a), At(queue', a),
               stateNonce(a), NonceFor(nonces, stateNonce, a), balance(a), maxGas, limit, a in locals)
  }

  ghost predicate SameAt(pending: Lists, queue: Lists, pending': Lists, queue': Lists, a: Addr) {
    At(pending', a) == At(pending, a) && At(queue', a) == At(queue, a)
  }

  /** The accounts have been promoted, others are as before. */
  ghost predicate ArePromoted(pending: Lists, queue: Lists, nonces: Nonces, pending': Lists, queue': Lists,
                              stateNonce: Addr -> nat, balance: Addr -> nat, maxGas: nat, limit: nat, locals: set<Addr>,
                              accounts: seq<Addr>) {
    && (forall a: Addr {:trigger PromotedAt(pending, queue, nonces, pending', queue', stateNonce, balance, maxGas,
                                            limit, locals, a)} | a in accounts ::
          PromotedAt(pending, queue, nonces, pending', queue', stateNonce, balance, maxGas, limit, locals, a))
    && (forall a: Addr {:trigger SameAt(pending, queue, pending', queue', a)} | a !in accounts ::
        SameAt(pending, queue, pending', queue', a))
  }

  /** All queued nonces are above the pending nonce. */
  ghost predicate Beyond(queue: Lists, nonces: Nonces, stateNonce: Addr -> nat, a: Addr) {
    forall n | n in At(queue, a) :: n > NonceFor(nonces, stateNonce, a)
  }

  ghost predicate AllBeyond(queue: Lists, nonces: Nonces, queue': Lists, nonces': Nonces, stateNonce: Addr -> nat,
                            accounts: seq<Addr>) {
    && (forall a: Addr {:trigger Beyond(queue', nonces', stateNonce, a)} | a in accounts ::
        Beyond(queue', nonces', stateNonce, a))
    && (forall a: Addr {:trigger NonceFor(nonces', stateNonce, a)} | a !in accounts ::
        NonceFor(nonces', stateNonce, a) == NonceFor(nonces, stateNonce, a))
  }

  lemma PayableAgain(q: Items, q': Items, stateNonce: nat, balance: nat, maxGas: nat)
    requires forall n | n in q' ::
               n in Payable(q, stateNonce, balance, maxGas) && q'[n] == Payable(q, stateNonce, balance, maxGas)[n]
    ensures Payable(q', stateNonce, balance, maxGas) == q'
  {
  }

  lemma NoneReadyBeyond(q: Items, nonce: nat)
    requires forall n | n in q :: n > nonce
    ensures ReadyItems(q, nonce) == map[] && NotReady(q, nonce) == q
  {
  }

  lemma CappedFits(q: Items, q': Items, limit: nat, local: bool)
    requires IsCapped(q, q', limit, local)
    ensures local || |q'| <= limit
    ensures forall n | n in q' :: n in q && q'[n] == q[n]
  {
  }

  lemma NothingToPromote(p: Items, q: Items, p': Items, q': Items, stateNonce: nat, nonce: nat, balance: nat,
                         maxGas: nat, limit: nat, local: bool)
    requires Payable(q, stateNonce, balance, maxGas) == q && ReadyItems(q, nonce) == map[] && NotReady(q, nonce) == q
    requires local || |q| <= limit
    ensures IsPromoted(p, q, p', q', stateNonce, nonce, balance, maxGas, limit, local) <==> p' == p && q' == q
  {
    assert p + map[] == p;
  }

  /** Promoting an account once more changes nothing. */
  lemma PromotedTwice(p: Items, q: Items, p': Items, q': Items, p'': Items, q'': Items,
                      stateNonce: nat, nonce: nat, nonce': nat, balance: nat, maxGas: nat, limit: nat, local: bool)
    requires IsPromoted(p, q, p', q', stateNonce, nonce, balance, maxGas, limit, local)
    requires forall n | n in q' :: n > nonce'
    requires IsPromoted(p', q', p'', q'', stateNonce, nonce', balance, maxGas, limit, local)
    ensures p'' == p' && q'' == q'
  {
    var payable := Payable(q, stateNonce, balance, maxGas);
    CappedFits(NotReady(payable, nonce), q', limit, local);
    PayableAgain(q, q', stateNonce, balance, maxGas);
    NoneReadyBeyond(q', nonce');
    NothingToPromote(p', q', p'', q'', stateNonce, nonce', balance, maxGas, limit, local);
  }

  lemma PromotedOneMore(pending: Lists, queue: Lists, nonces: Nonces, pending': Lists, queue': Lists, nonces': Nonces,
                        pending'': Lists, queue'': Lists,
                        stateNonce: Addr -> nat, balance: Addr -> nat, maxGas: nat, limit: nat, locals: set<Addr>,
                        accounts: seq<Addr>, x: Addr)
    requires ArePromoted(pending, queue, nonces, pending', queue', stateNonce, balance, maxGas, limit, locals, accounts)
    requires AllBeyond(queue, nonces, queue', nonces', stateNonce, accounts)
    requires OnlyAt(pending', pending'', x) && OnlyAt(queue', queue'', x)
    requires PromotedAt(pending', queue', nonces', pending'', queue'', stateNonce, balance, maxGas, limit, locals, x)
    ensures ArePromoted(pending, queue, nonces, pending'', queue'', stateNonce, balance, maxGas, limit, locals,
                        accounts + [x])
  {
    forall a: Addr
      ensures a in accounts + [x] ==>
                PromotedAt(pending, queue, nonces, pending'', queue'', stateNonce, balance, maxGas, limit, locals, a)
      ensures a !in accounts + [x] ==> SameAt(pending, queue, pending'', queue'', a)
    {
      if a in accounts + [x] {
        PromotedOneAt(pending, queue, nonces, pending', queue', nonces', pending'', queue'', stateNonce, balance,
                      maxGas, limit, locals, accounts, x, a);
      } else {
        assert SameAt(pending, queue, pending', queue', a);
      }
    }
  }

  lemma PromotedOneAt(pending: Lists, queue: Lists, nonces: Nonces, pending': Lists, queue': Lists, nonces': Nonces,
                      pending'': Lists, queue'': Lists,
                      stateNonce: Addr -> nat, balance: Addr -> nat, maxGas: nat, limit: nat, locals: set<Addr>,
                      accounts: seq<Addr>, x: Addr, a: Addr)
    requires ArePromoted(pending, queue, nonces, pending', queue', stateNonce, balance, maxGas, limit, locals, accounts)
    requires AllBeyond(queue, nonces, queue', nonces', stateNonce, accounts)
    requires OnlyAt(pending', pending'', x) && OnlyAt(queue', queue'', x)
    requires PromotedAt(pending', queue', nonces', pending'', queue'', stateNonce, balance, maxGas, limit, locals, x)
    requires a in accounts || a == x
    ensures PromotedAt(pending, queue, nonces, pending'', queue'', stateNonce, balance, maxGas, limit, locals, a)
  {
    if a in accounts {
      assert PromotedAt(pending, queue, nonces, pending', queue', stateNonce, balance, maxGas, limit, locals, a)
             && Beyond(queue', nonces', stateNonce, a);
      if a == x {
        PromotedAgain(pending, queue, nonces, pending', queue', nonces', pending'', queue'', stateNonce, balance,
                      maxGas, limit, locals, a);
      }
      StillPromoted(pending, queue, nonces, pending', queue', pending'', queue'', stateNonce, balance, maxGas, limit,
                    locals, a);
    } else {
      assert SameAt(pending, queue, pending', queue', a);
      assert NonceFor(nonces', stateNonce, a) == NonceFor(nonces, stateNonce, a);
      StillToPromote(pending, queue, nonces, pending', queue', nonces', pending'', queue'', stateNonce, balance, maxGas,
                     limit, locals, a);
    }
  }

  lemma PromotedAgain(pending: Lists, queue: Lists, nonces: Nonces, pending': Lists, queue': Lists, nonces': Nonces,
                      pending'': Lists, queue'': Lists,
                      stateNonce: Addr -> nat, balance: Addr -> nat, maxGas: nat, limit: nat, locals: set<Addr>,
                      a: Addr)
    requires PromotedAt(pending, queue, nonces, pending', queue', stateNonce, balance, maxGas, limit, locals, a)
    requires Beyond(queue', nonces', stateNonce, a)
    requires PromotedAt(pending', queue', nonces', pending'', queue'', stateNonce, balance, maxGas, limit, locals, a)
    ensures SameAt(pending', queue', pending'', queue'', a)
  {
    PromotedTwice(At(pending, a), At(queue, a), At(pending', a), At(queue', a), At(pending'', a), At(queue'', a),
                  stateNonce(a), NonceFor(nonces, stateNonce, a), NonceFor(nonces', stateNonce, a), balance(a), maxGas,
                    limit, a in locals);
  }

  lemma StillPromoted(pending: Lists, queue: Lists, nonces: Nonces, pending': Lists, queue': Lists, pending'': Lists,
                      queue'': Lists,
                      stateNonce: Addr -> nat, balance: Addr -> nat, maxGas: nat, limit: nat, locals: set<Addr>,
                      a: Addr)
    requires PromotedAt(pending, queue, nonces, pending', queue', stateNonce, balance, maxGas, limit, locals, a)
    requires At(pending'', a) == At(pending', a) && At(queue'', a) == At(queue', a)
    ensures PromotedAt(pending, queue, nonces, pending'', queue'', stateNonce, balance, maxGas, limit, locals, a)
  {
  }

  lemma StillToPromote(pending: Lists, queue: Lists, nonces: Nonces, pending': Lists, queue': Lists, nonces': Nonces,
                       pending'': Lists, queue'': Lists,
                       stateNonce: Addr -> nat, balance: Addr -> nat, maxGas: nat, limit: nat, locals: set<Addr>,
                       a: Addr)
    requires SameAt(pending, queue, pending', queue', a)
    requires NonceFor(nonces', stateNonce, a) == NonceFor(nonces, stateNonce, a)
    requires PromotedAt(pending', queue', nonces', pending'', queue'', stateNonce, balance, maxGas, limit, locals, a)
    ensures PromotedAt(pending, queue, nonces, pending'', queue'', stateNonce, balance, maxGas, limit, locals, a)
  {
  }

  lemma BeyondOneMore(queue: Lists, nonces: Nonces, queue': Lists, nonces': Nonces, queue'': Lists, nonces'': Nonces,
                      stateNonce: Addr -> nat, accounts: seq<Addr>, x: Addr)
    requires AllBeyond(queue, nonces, queue', nonces', stateNonce, accounts)
    requires OnlyAt(queue', queue'', x) && OnlyNonce(nonces', nonces'', stateNonce, x)
    requires Beyond(queue'', nonces'', stateNonce, x)
    ensures AllBeyond(queue, nonces, queue'', nonces'', stateNonce, accounts + [x])
  {
    forall a: Addr | a != x
      ensures a in accounts ==> Beyond(queue'', nonces'', stateNonce, a)
      ensures NonceFor(nonces'', stateNonce, a) == NonceFor(nonces', stateNonce, a)
    {
      assert At(queue'', a) == At(queue', a);
      if a in accounts {
        assert Beyond(queue', nonces', stateNonce, a);
      }
    }
  }

  lemma BeyondNotReady(queue: Lists, nonces: Nonces, queue': Lists, nonces': Nonces, stateNonce: Addr -> nat,
                       accounts: seq<Addr>)
    requires AllBeyond(queue, nonces, queue', nonces', stateNonce, accounts)
    ensures forall a | a in accounts :: !ReadyAt(queue', nonces', stateNonce, a)
  {
    forall a | a in accounts
      ensures !ReadyAt(queue', nonces', stateNonce, a)
    {
      assert Beyond(queue', nonces', stateNonce, a);
    }
  }

  // ---------- Promotion of all accounts ----------

  datatype Snapshot = Snapshot(pending: Lists, queue: Lists, nonces: Nonces)

  datatype PoolState = PoolState(pending: Lists, queue: Lists, nonces: Nonces, all: set<Tx>)

  /**
    From s to t pending transactions stay the next ones to execute, no other becomes so, and none leaves the lists. Only
    highest nonces have gone from pending lists.
   */
  ghost predicate KeptAll(s: PoolState, t: PoolState, stateNonce: Addr -> nat) {
    && (Runs(s.pending, s.nonces, stateNonce) ==>
        Runs(t.pending, t.nonces, stateNonce) && NoNewReady(s.queue, s.nonces, t.queue, t.nonces, stateNonce, {}))
    && NoNewStray(s.pending, s.queue, s.all, t.pending, t.queue, t.all)
    && AllCut(s.pending, s.nonces, t.pending, t.nonces, stateNonce) && t.all <= s.all
  }

  ghost function KeptFrom(s: PoolState, stateNonce: Addr -> nat): iset<PoolState> {
    iset t: PoolState | KeptAll(s, t, stateNonce)
  }

  /** Cutting the highest nonce off a pending list. */
  lemma LastCut(s: PoolState, t: PoolState, stateNonce: Addr -> nat, a: Addr, n: nat)
    requires PoolOk(s.pending, s.queue, s.all)
    requires n in At(s.pending, a) && forall k | k in At(s.pending, a) :: k <= n
    requires t == PoolState(Put(s.pending, a, TxList.Upto(At(s.pending, a), n)), s.queue,
                            Lowered(s.nonces, stateNonce, a, n), s.all - {At(s.pending, a)[n]})
    ensures t in KeptFrom(s, stateNonce)
  {
    CutIsCut(s.pending, s.nonces, stateNonce, a, n);
    CutStrays(s.pending, s.queue, s.all, a, n);
    LowerKeepsRuns(s.pending, s.nonces, stateNonce, a, n);
    CutLeavesNoneReady(s.pending, s.queue, s.all, s.nonces, stateNonce, a, n);
    assert KeptAll(s, t, stateNonce);
  }

  /** What is kept by each step is kept by all together. */
  ghost predicate Closed(kept: iset<PoolState>, stateNonce: Addr -> nat) {
    forall s, t {:trigger t in KeptFrom(s, stateNonce)} | s in kept && t in KeptFrom(s, stateNonce) :: t in kept
  }

  ghost function ClosedSets(stateNonce: Addr -> nat): iset<iset<PoolState>> {
    iset kept: iset<PoolState> | Closed(kept, stateNonce)
  }

  lemma KeptOn(kept: iset<PoolState>, s: PoolState, t: PoolState, stateNonce: Addr -> nat)
    requires kept in ClosedSets(stateNonce) && s in kept && t in KeptFrom(s, stateNonce)
    ensures t in kept
  {
    assert Closed(kept, stateNonce);
  }

  lemma KeptIsClosed(s: PoolState, stateNonce: Addr -> nat)
    ensures s in KeptFrom(s, stateNonce) && KeptFrom(s, stateNonce) in ClosedSets(stateNonce)
  {
    NoneCut(s.pending, s.nonces, stateNonce);
    forall t, u | t in KeptFrom(s, stateNonce) && u in KeptFrom(t, stateNonce)
      ensures u in KeptFrom(s, stateNonce)
    {
      AllCutTwice(s.pending, s.nonces, t.pending, t.nonces, u.pending, u.nonces, stateNonce);
    }
  }

  ghost predicate AllPromoted(s: Snapshot, t: Snapshot, stateNonce: Addr -> nat, balance: Addr -> nat, maxGas: nat,
                              limit: nat, locals: set<Addr>) {
    forall a: Addr {:trigger PromotedAt(s.pending, s.queue, s.nonces, t.pending, t.queue, stateNonce, balance, maxGas,
                                        limit, locals, a)} ::
      PromotedAt(s.pending, s.queue, s.nonces, t.pending, t.queue, stateNonce, balance, maxGas, limit, locals, a)
  }

  lemma NothingQueued(p: Items, stateNonce: nat, nonce: nat, balance: nat, maxGas: nat, limit: nat, local: bool)
    ensures IsPromoted(p, map[], p, map[], stateNonce, nonce, balance, maxGas, limit, local)
  {
    NothingToPromote(p, map[], p, map[], stateNonce, nonce, balance, maxGas, limit, local);
  }

  /** It is enough to promote the accounts with queued transactions. */
  lemma AllArePromoted(s: Snapshot, t: Snapshot, stateNonce: Addr -> nat, balance: Addr -> nat, maxGas: nat, limit: nat,
                       locals: set<Addr>, accounts: seq<Addr>)
    requires ArePromoted(s.pending, s.queue, s.nonces, t.pending, t.queue, stateNonce, balance, maxGas, limit, locals,
                         accounts)
    requires forall a | a in s.queue :: a in accounts
    ensures AllPromoted(s, t, stateNonce, balance, maxGas, limit, locals)
  {
    forall a: Addr
      ensures PromotedAt(s.pending, s.queue, s.nonces, t.pending, t.queue, stateNonce, balance, maxGas, limit, locals,
                         a)
    {
      if a !in accounts {
        assert SameAt(s.pending, s.queue, t.pending, t.queue, a);
        NothingQueued(At(s.pending, a), stateNonce(a), NonceFor(s.nonces, stateNonce, a), balance(a), maxGas, limit,
                      a in locals);
      }
    }
  }
}
