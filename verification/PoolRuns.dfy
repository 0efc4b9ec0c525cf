/** Runs of the transaction pool that end in a gap between pending transactions, or with a transaction in no list. */
module PoolRuns {
  import opened TxSortedMap
  import opened PoolLists
  import opened PoolContents
  import opened PoolReset
  import opened TxPool
  import TxList

  const LIMITS: Config := Config(10, 16, 4096, 64, 1024)

  /** With room for two pending transactions, of which one account may have one. */
  const TIGHT: Config := Config(10, 1, 2, 64, 1024)

  /** A transaction of account 0. */
  function Sent(nonce: nat, price: nat): Tx {
    Tx(nonce, 0, nonce, price, 1, 1)
  }

  lemma SingleIsReady(n: nat, tx: Tx, stateNonce: nat, balance: nat, maxGas: nat)
    requires stateNonce <= n && !TxList.TooDear(tx, balance, maxGas)
    ensures Payable(map[n := tx], stateNonce, balance, maxGas) == map[n := tx]
    ensures ReadyItems(map[n := tx], n) == map[n := tx] && NotReady(map[n := tx], n) == map[]
  {
    var q: Items := map[n := tx];
    assert n in q && IsLowest(q, n) && Lowest(q) == n;
    assert RunEnd(q, n) == n + 1;
  }

  /** A queue that is ready as a whole becomes pending. */
  lemma PromotesWhole(p: Items, q: Items, p': Items, q': Items, stateNonce: nat, nonce: nat, balance: nat, maxGas: nat,
                      limit: nat, local: bool)
    requires Payable(q, stateNonce, balance, maxGas) == q && ReadyItems(q, nonce) == q && NotReady(q, nonce) == map[]
    requires IsPromoted(p, q, p', q', stateNonce, nonce, balance, maxGas, limit, local)
    ensures p' == p + q && q' == map[]
  {
    CappedFits(NotReady(Payable(q, stateNonce, balance, maxGas), nonce), q', limit, local);
  }

  /** A single queued transaction with the pending nonce becomes pending. */
  lemma PromotedSingle(p: Items, q: Items, p': Items, q': Items, stateNonce: nat, n: nat, tx: Tx, balance: nat,
                       maxGas: nat, limit: nat, local: bool)
    requires stateNonce <= n && !TxList.TooDear(tx, balance, maxGas) && q == map[n := tx]
    requires IsPromoted(p, q, p', q', stateNonce, n, balance, maxGas, limit, local)
    ensures p' == p + q && q' == map[]
  {
    SingleIsReady(n, tx, stateNonce, balance, maxGas);
    PromotesWhole(p, q, p', q', stateNonce, n, balance, maxGas, limit, local);
  }

  lemma UnionSingle(p: Items, n: nat, tx: Tx)
    ensures p + map[n := tx] == p[n := tx]
  {
  }

  /** The pool has just some pending transactions, all of account 0. */
  ghost predicate HasJust(pool: Pool, config: Config, p: Items)
    reads pool, pool.priced
  {
    && pool.Valid() && pool.doomed == {} && pool.Settled() && pool.locals == {} && pool.config == config
    && pool.Contents() == Pooled(if p == map[] then map[] else map[0 := p], map[], p.Values)
  }

  lemma NoneIsStray(s: Pooled, p: Items)
    requires s == Pooled(if p == map[] then map[] else map[0 := p], map[], p.Values) && PooledOk(s)
    ensures forall tx :: !Stray(s.pending, s.queue, s.all, tx)
  {
    assert AddrIn(s.pending, s.queue, s.all, 0);
    forall tx | tx in s.all
      ensures Has(At(s.pending, tx.sender), tx)
    {
      var n :| n in p && p[n] == tx;
      assert At(s.pending, 0) == p && p[n].sender == 0 && p[n].nonce == n;
    }
  }

  /** Only account 0 has lists. */
  lemma JustOne(pending: Lists, queue: Lists, all: set<Tx>, pending0: Lists, all0: set<Tx>, p: Items)
    requires PoolOk(pending, queue, all) && OnlyAt(pending0, pending, 0) && OnlyAt(map[], queue, 0)
    requires pending0.Keys <= {0}
    requires At(pending, 0) == p && At(queue, 0) == map[] && p != map[]
    requires forall tx :: !Stray(pending, queue, all, tx)
    ensures Pooled(pending, queue, all) == Pooled(map[0 := p], map[], p.Values)
  {
    assert AddrIn(pending, queue, all, 0);
    forall a | a in pending
      ensures a == 0
    {
      assert At(pending, a) == pending[a];
    }
    assert queue.Keys == set a | a in queue && At(queue, a) != map[];
    assert pending == map[0 := p];
    forall tx
      ensures tx in all <==> tx in p.Values
    {
      assert !Stray(pending, queue, all, tx);
    }
  }

  lemma QueuedAlone(s: Pooled, p: Items, tx: Tx, priceBump: nat)
    requires s == Pooled(if p == map[] then map[] else map[0 := p], map[], p.Values) && tx.sender == 0 && tx !in s.all
    requires tx.nonce !in p
    ensures var added := AddOne(s, tx, true, priceBump);
            added.pending == s.pending && added.queue == map[0 := map[tx.nonce := tx]]
  {
  }

  /** What account 0 has when its next transaction has been queued and promoted. */
  lemma NextIsPending(s: Pooled, p: Items, tx: Tx, nonces: Nonces, pending: Lists, queue: Lists,
                      stateNonce: Addr -> nat, balance: Addr -> nat, maxGas: nat, limit: nat, priceBump: nat)
    requires s == Pooled(if p == map[] then map[] else map[0 := p], map[], p.Values) && tx.sender == 0 && tx !in s.all
    requires tx.nonce !in p
    requires stateNonce(0) <= tx.nonce == NonceFor(nonces, stateNonce, 0) && !TxList.TooDear(tx, balance(0), maxGas)
    requires var added := AddOne(s, tx, true, priceBump);
             ArePromoted(added.pending, added.queue, nonces, pending, queue, stateNonce, balance, maxGas, limit, {},
                         [0])
    ensures OnlyAt(s.pending, pending, 0) && OnlyAt(map[], queue, 0)
    ensures At(pending, 0) == p[tx.nonce := tx] && At(queue, 0) == map[]
  {
    QueuedAlone(s, p, tx, priceBump);
    var queue0: Lists := map[0 := map[tx.nonce := tx]];
    OneIsPromoted(s.pending, queue0, nonces, pending, queue, stateNonce, balance, maxGas, limit);
    UnionSingle(p, tx.nonce, tx);
    PromotedSingle(p, map[tx.nonce := tx], At(pending, 0), At(queue, 0), stateNonce(0), tx.nonce, tx, balance(0),
                   maxGas, limit, false);
  }

  lemma OneIsPromoted(pending0: Lists, queue0: Lists, nonces: Nonces, pending: Lists, queue: Lists,
                      stateNonce: Addr -> nat, balance: Addr -> nat, maxGas: nat, limit: nat)
    requires ArePromoted(pending0, queue0, nonces, pending, queue, stateNonce, balance, maxGas, limit, {}, [0])
    requires queue0.Keys == {0}
    ensures IsPromoted(At(pending0, 0), At(queue0, 0), At(pending, 0), At(queue, 0), stateNonce(0),
                       NonceFor(nonces, stateNonce, 0), balance(0), maxGas,
                       limit, false)
    ensures OnlyAt(pending0, pending, 0) && OnlyAt(map[], queue, 0)
  {
    assert PromotedAt(pending0, queue0, nonces, pending, queue, stateNonce, balance, maxGas, limit, {}, 0);
    forall a: Addr | a != 0
      ensures At(pending, a) == At(pending0, a) && At(queue, a) == At(map[], a)
    {
      assert SameAt(pending0, queue0, pending, queue, a);
    }
  }

  /** With room for it, a new transaction is added and its account promoted. */
  method AddRoomy(pool: Pool, ghost s: Pooled, tx: Tx)
    requires pool.Valid() && pool.doomed == {} && pool.Settled() && pool.Contents() == s && tx !in s.all
    requires Fits(s.pending, s.queue, tx, pool.config.priceBump) && !HasNonce(s, tx)
    requires AllRoomy(pool.config, s.queue, s.all, 1)
    modifies pool, pool.priced
    ensures pool.Valid() && pool.doomed == {} && pool.Settled() && pool.locals == old(pool.locals)
    ensures pool.stateNonce == old(pool.stateNonce) && pool.balance == old(pool.balance)
    ensures pool.maxGas == old(pool.maxGas) && NoNewStray(s.pending, s.queue, s.all, pool.pending, pool.queue, pool.all)
    ensures var added := AddOne(s, tx, true, pool.config.priceBump);
            ArePromoted(added.pending, added.queue, old(pool.nonces), pool.pending, pool.queue, pool.stateNonce,
                        pool.balance, pool.maxGas, pool.config.accountQueue, pool.locals, [tx.sender])
  {
    ghost var v, promoted, added, note := pool.V(), pool.Lists(), pool.Stand(), Note([], true, false);
    var ok;
    ok, promoted, added, note := pool.AddTx(tx, false, true);
    RoomySubmission(pool.config, v, pool.Stand(), tx, promoted, added, note);
  }

  lemma RoomySubmission(config: Config, v: View, t: Standing, tx: Tx, promoted: Snapshot, added: Standing, note: Note)
    requires (t, promoted, added, note) in Submissions(config, v, tx, false, true)
    requires PooledOk(v.stand.pooled) && tx !in v.stand.pooled.all && !HasNonce(v.stand.pooled, tx)
    requires Fits(v.stand.pooled.pending, v.stand.pooled.queue, tx, config.priceBump)
    requires AllRoomy(config, v.stand.pooled.queue, v.stand.pooled.all, 1)
    ensures t.locals == v.stand.locals
    ensures var next := AddOne(v.stand.pooled, tx, true, config.priceBump);
            ArePromoted(next.pending, next.queue, v.stand.nonces, t.pooled.pending, t.pooled.queue, v.stateNonce,
                        v.balance, v.maxGas, config.accountQueue, t.locals, [tx.sender])
  {
    SubmissionHas(config, v, t, tx, promoted, added, note);
    AdditionWithRoom(v.stand, added, tx, false, true, note, config, v.stateNonce);
    AddOneKeeps(v.stand.pooled, tx, true, config.priceBump);
    OnlyPromoted(config, v, added, promoted, t.locals, [tx.sender]);
  }

  lemma SubmissionHas(config: Config, v: View, t: Standing, tx: Tx, promoted: Snapshot, added: Standing, note: Note)
    requires (t, promoted, added, note) in Submissions(config, v, tx, false, true)
    ensures (added, note) in Additions(v.stand, tx, false, true, config, v.stateNonce) && t.locals == added.locals
    ensures note.ok && !note.replaced ==>
              && promoted in Promotions(ListsOf(added), [tx.sender], v.stateNonce, v.balance, v.maxGas,
                                        config.accountQueue, t.locals)
              && (AllRoomy(config, added.pooled.queue, added.pooled.all, 0) ==> ListsOf(t) == promoted)
  {
    assert IsSubmission(config, v, t, tx, false, true, promoted, added, note);
  }

  lemma OnlyPromoted(config: Config, v: View, added: Standing, promoted: Snapshot, locals: set<Addr>,
                     accounts: seq<Addr>)
    requires promoted in Promotions(ListsOf(added), accounts, v.stateNonce, v.balance, v.maxGas, config.accountQueue,
                                    locals)
    ensures ArePromoted(added.pooled.pending, added.pooled.queue, added.nonces, promoted.pending, promoted.queue,
                        v.stateNonce, v.balance, v.maxGas, config.accountQueue, locals, accounts)
  {
  }

  /** The next transaction of account 0 is added, and pending at once. */
  method AddNext(pool: Pool, config: Config, p: Items, tx: Tx)
    requires HasJust(pool, config, p) && tx.sender == 0 && tx.nonce == pool.GetNonce(0) && ByNonce(p)
    requires tx.nonce !in p && |p| < config.globalSlots && config.globalQueue > 0
    requires !TxList.TooDear(tx, pool.balance(0), pool.maxGas)
    modifies pool, pool.priced
    ensures HasJust(pool, config, p[tx.nonce := tx])
    ensures pool.stateNonce == old(pool.stateNonce) && pool.balance == old(pool.balance)
    ensures pool.maxGas == old(pool.maxGas)
  {
    ghost var s := pool.Contents();
    AsManyValues(p);
    assert tx !in s.all;
    NoneIsStray(s, p);
    assert Sizes(s.queue) == map[];
    assert RunIn(pool.pending, pool.nonces, pool.stateNonce, 0);
    ghost var nonces := pool.nonces;
    AddRoomy(pool, s, tx);
    NextIsPending(s, p, tx, nonces, pool.pending, pool.queue, pool.stateNonce, pool.balance, pool.maxGas,
                  config.accountQueue, config.priceBump);
    JustOne(pool.pending, pool.queue, pool.all, s.pending, s.all, p[tx.nonce := tx]);
  }

  /** Account 0 has two pending transactions, with nonces 5 and 6. */
  method TwoPending(config: Config, low: nat, high: nat) returns (pool: Pool)
    requires config.globalSlots >= 2 && config.globalQueue > 0
    ensures fresh(pool) && fresh(pool.priced) && HasJust(pool, config, map[5 := Sent(5, low), 6 := Sent(6, high)])
    ensures pool.stateNonce(0) == 5
  {
    pool := new Pool(config, 1, (a: Addr) => 5, (a: Addr) => 100, 100);
    AddNext(pool, config, map[], Sent(5, low));
    ghost var p: Items := map[5 := Sent(5, low)];
    NonceOfOne(pool.pending, pool.nonces, pool.stateNonce, Sent(5, low));
    AddNext(pool, config, map[5 := Sent(5, low)], Sent(6, high));
    assert p[6 := Sent(6, high)] == map[5 := Sent(5, low), 6 := Sent(6, high)];
  }

  lemma NonceOfOne(pending: Lists, nonces: Nonces, stateNonce: Addr -> nat, tx: Tx)
    requires Runs(pending, nonces, stateNonce) && stateNonce(0) == 5 && pending == map[0 := map[][5 := tx]]
    ensures NonceFor(nonces, stateNonce, 0) == 6 && map[][5 := tx] == map[5 := tx]
  {
    assert RunIn(pending, nonces, stateNonce, 0);
    assert 5 in At(pending, 0) && 6 !in At(pending, 0);
  }

  /** After the first has been removed for its price, the second is known, and in no list. */
  method SecondIsStranded() returns (pool: Pool)
    ensures pool.Valid() && Stray(pool.pending, pool.queue, pool.all, Sent(6, 2))
  {
    pool := TwoPending(LIMITS, 1, 2);
    ghost var first, second := Sent(5, 1), Sent(6, 2);
    ghost var s, p: Items := pool.Contents(), map[5 := first, 6 := second];
    assert 5 in p && 6 in p && s.all == {first, second};
    ghost var drop := pool.SetGasPrice(2);
    assert first in drop;
    RemoveAgain(s, drop, first);
    assert TxList.Upto(p, 5) == map[];
  }

  method ResetRoomy(pool: Pool, ghost s: Pooled, stateNonce: Addr -> nat, balance: Addr -> nat, maxGas: nat,
                    reinject: seq<(Tx, bool)>)
    requires pool.Valid() && pool.doomed == {} && pool.Executable() && pool.Contents() == s && pool.config == LIMITS
    requires Roomy(LIMITS, s.all, |reinject|)
    modifies pool, pool.priced
    ensures pool.Valid() && pool.stateNonce == stateNonce && pool.balance == balance && pool.maxGas == maxGas
    ensures pool.Executable() <==>
              NoGaps(s, AddAll(s, reinject, LIMITS.priceBump), old(pool.stateNonce), stateNonce, balance, maxGas)
  {
    ghost var batch, added, demoted, renewed := pool.Reset(stateNonce, balance, maxGas, reinject);
  }

  /**
    A reorg takes the state back to nonce 3, and sets transactions 3 and 4 free, of which 4 is not valid any more: 3 is
    pending before 5 and 6, and the pool does not notice the gap.
   */
  method GapAfterReset() returns (pool: Pool)
    ensures pool.Valid() && pool.stateNonce(0) == 3 && !pool.Executable()
  {
    pool := TwoPending(LIMITS, 1, 1);
    ghost var s, p: Items := pool.Contents(), map[5 := Sent(5, 1), 6 := Sent(6, 1)];
    assert 5 in p && 6 in p && s.all == {Sent(5, 1), Sent(6, 1)};
    ghost var stateNonce0 := pool.stateNonce;
    var reinject := [(Sent(3, 1), true), (Sent(4, 1), false)];
    ResetRoomy(pool, s, (a: Addr) => 3, (a: Addr) => 100, 100, reinject);
    GapOfTwo(s, reinject);
    GapShows(s, AddAll(s, reinject, LIMITS.priceBump), stateNonce0, pool.stateNonce, pool.balance, pool.maxGas, 0);
  }

  lemma GapShows(s: Pooled, added: Pooled, stateNonce0: Addr -> nat, stateNonce: Addr -> nat, balance: Addr -> nat,
                 maxGas: nat, a: Addr)
    requires GapIn(s, added, stateNonce0, stateNonce, balance, maxGas, a)
    ensures !NoGaps(s, added, stateNonce0, stateNonce, balance, maxGas)
  {
  }

  lemma GapOfTwo(s: Pooled, reinject: seq<(Tx, bool)>)
    requires s == Pooled(map[0 := map[5 := Sent(5, 1), 6 := Sent(6, 1)]], map[], {Sent(5, 1), Sent(6, 1)})
    requires reinject == [(Sent(3, 1), true), (Sent(4, 1), false)]
    ensures var added := AddAll(s, reinject, LIMITS.priceBump);
            && added.pending == s.pending && added.queue == map[0 := map[3 := Sent(3, 1)]]
            && Gapped(At(added.pending, 0), At(added.queue, 0), Dirty(s, added, 0), 5, 3, 100, 100)
  {
    var one := AddOne(s, Sent(3, 1), true, LIMITS.priceBump);
    assert reinject[..1] == [(Sent(3, 1), true)] && reinject[..1][..0] == [];
    assert AddAll(s, reinject[..1], LIMITS.priceBump) == one;
    assert AddAll(s, reinject, LIMITS.priceBump) == one;
    var q: Items := map[3 := Sent(3, 1)];
    assert 3 in q && one.queue == map[0 := q];
    assert 4 !in Payable(q, 3, 100, 100);
  }

  // ---------- A pending nonce below that of the state ----------

  /** A transaction of account 1, which has sent none yet. */
  const OTHER: Tx := Tx(100, 1, 5, 1, 1, 1)

  /** Its transaction is queued, and account 1 has something new. */
  lemma OtherIsQueued(s: Pooled)
    requires s == Pooled(map[0 := map[5 := Sent(5, 1), 6 := Sent(6, 1)]], map[], {Sent(5, 1), Sent(6, 1)})
    ensures var added := AddAll(s, [(OTHER, true)], TIGHT.priceBump);
            && added.pending == s.pending && added.queue == map[1 := map[5 := OTHER]]
            && forall a: Addr {:trigger Dirty(s, added, a)} :: Dirty(s, added, a) <==> a == 1
  {
    var added := AddOne(s, OTHER, true, TIGHT.priceBump);
    var txs := [(OTHER, true)];
    assert txs[..0] == [];
    assert AddAll(s, txs, TIGHT.priceBump) == added;
    assert added.queue == map[1 := map[5 := OTHER]];
    assert 5 in added.queue[1];
  }

  lemma PromotedFromNone(p': Items, q': Items, tx: Tx, balance: nat, maxGas: nat, limit: nat)
    requires !TxList.TooDear(tx, balance, maxGas)
    requires IsPromoted(map[], map[tx.nonce := tx], p', q', tx.nonce, tx.nonce, balance, maxGas, limit, false)
    ensures p' == map[tx.nonce := tx]
  {
    PromotedSingle(map[], map[tx.nonce := tx], p', q', tx.nonce, tx.nonce, tx, balance, maxGas, limit, false);
    assert map[] + map[tx.nonce := tx] == map[tx.nonce := tx];
  }

  /** When account 1 has been promoted, its transaction is pending, and other accounts have what they had. */
  lemma OtherIsPromoted(pending0: Lists, queue0: Lists, prom: Snapshot, stateNonce: Addr -> nat, balance: Addr -> nat,
                        maxGas: nat, limit: nat, accounts: seq<Addr>, tx: Tx)
    requires At(pending0, 1) == map[] && At(queue0, 1) == map[tx.nonce := tx]
    requires forall a: Addr :: a in accounts <==> a == 1
    requires stateNonce(1) == tx.nonce && !TxList.TooDear(tx, balance(1), maxGas)
    requires EachPromoted(Snapshot(pending0, queue0, map[]), prom, stateNonce, balance, maxGas, limit, {}, accounts)
    ensures At(prom.pending, 1) == map[tx.nonce := tx]
    ensures forall a: Addr {:trigger At(prom.pending, a)} | a != 1 ::
              At(prom.pending, a) == At(pending0, a) && At(prom.queue, a) == At(queue0, a)
    ensures forall a: Addr {:trigger NonceFor(prom.nonces, stateNonce, a)} | a != 1 ::
              NonceFor(prom.nonces, stateNonce, a) == stateNonce(a)
  {
    assert PromotedAt(pending0, queue0, map[], prom.pending, prom.queue, stateNonce, balance, maxGas, limit, {}, 1);
    PromotedFromNone(At(prom.pending, 1), At(prom.queue, 1), tx, balance(1), maxGas, limit);
    forall a: Addr | a != 1
      ensures At(prom.pending, a) == At(pending0, a) && At(prom.queue, a) == At(queue0, a)
      ensures NonceFor(prom.nonces, stateNonce, a) == stateNonce(a)
    {
      assert SameAt(pending0, queue0, prom.pending, prom.queue, a);
      assert NonceKept(queue0, map[], prom.nonces, stateNonce, balance, maxGas, a);
    }
  }

  /** One account with two transactions and one with one make three. */
  lemma ThreeInAll(lists: Lists)
    requires Len(lists, 0) == 2 && Len(lists, 1) == 1 && forall a: Addr :: a != 0 && a != 1 ==> Len(lists, a) == 0
    ensures Total(lists) == 3
  {
    TotalPut(lists, 0, map[]);
    TotalPut(lists - {0}, 1, map[]);
    var none: Lists := map[];
    forall a: Addr
      ensures |At(lists - {0} - {1}, a)| <= |At(none, a)|
    {
      assert a != 0 && a != 1 ==> Len(lists, a) == 0;
    }
    TotalLess(none, lists - {0} - {1});
    assert Sizes(none) == map[];
  }

  /** Account 0 is then cut, and its pending nonce goes down with that. */
  lemma FirstIsCut(prom: Snapshot, t: Snapshot, stateNonce: Addr -> nat)
    requires FairShare(prom.pending, t.pending, {}, TIGHT) && IsTrimmed(prom, t, {}, TIGHT, stateNonce)
    requires At(prom.pending, 0).Keys == {5, 6} && Len(prom.pending, 1) == 1
    requires forall a: Addr :: a != 0 && a != 1 ==> Len(prom.pending, a) == 0
    ensures NonceFor(t.nonces, stateNonce, 0) <= 6 && At(t.pending, 0).Keys <= {5, 6}
  {
    var p, p' := At(prom.pending, 0), At(t.pending, 0);
    assert |p| == |p.Keys| == 2;
    assert NonceCutAt(prom.pending, prom.nonces, t.pending, t.nonces, stateNonce, 0);
    if p'.Keys == p.Keys {
      assert Len(t.pending, 0) == 2;
      forall a: Addr
        ensures Len(t.pending, a) == Len(prom.pending, a)
      {
        assert || Len(t.pending, a) == Len(prom.pending, a)
               || TIGHT.accountSlots <= Len(t.pending, a) < Len(prom.pending, a);
      }
      ThreeInAll(t.pending);
      assert false;
    }
  }

  /** What the state has gone past is forgotten, and the pending nonce stays. */
  lemma NonceStaysLow(t: Snapshot, d: Snapshot, u: Snapshot, f: Snapshot, stateNonce: Addr -> nat, balance: Addr -> nat,
                      maxGas: nat, limit: nat, config: Config, a: Addr)
    requires (forall n | n in At(t.pending, a) :: n < stateNonce(a)) && At(t.queue, a) == map[]
    requires IsRevalidated(t, d, stateNonce, balance, maxGas)
    requires AllPromoted(d, u, stateNonce, balance, maxGas, limit, {})
    requires NoncesFollow(d, u, stateNonce, balance, maxGas) && IsTrimmed(u, f, {}, config, stateNonce)
    ensures At(f.pending, a) == map[] && At(f.queue, a) == map[]
    ensures NonceFor(f.nonces, stateNonce, a) == NonceFor(t.nonces, stateNonce, a)
  {
    assert DemotedAt(t.pending, t.queue, d.pending, d.queue, stateNonce, balance, maxGas, a);
    assert From(At(t.pending, a), stateNonce(a)) == map[];
    PassedIsForgotten(At(t.pending, a), stateNonce(a), balance(a), maxGas);
    assert At(d.pending, a) == map[] && At(d.queue, a) == map[];
    assert PromotedAt(d.pending, d.queue, d.nonces, u.pending, u.queue, stateNonce, balance, maxGas, limit, {}, a);
    NothingIsPromoted(At(u.pending, a), At(u.queue, a), stateNonce(a), NonceFor(d.nonces, stateNonce, a), balance(a),
                      maxGas, limit);
    assert NonceKept(d.queue, d.nonces, u.nonces, stateNonce, balance, maxGas, a);
    assert LowAt(u.queue, f.queue, a);
    assert NonceCutAt(u.pending, u.nonces, f.pending, f.nonces, stateNonce, a);
  }

  lemma PassedIsForgotten(p: Items, nonce: nat, balance: nat, maxGas: nat)
    requires From(p, nonce) == map[]
    ensures Demoted(p, nonce, balance, maxGas) == map[] && Moved(p, nonce, balance, maxGas) == map[]
  {
  }

  lemma NothingIsPromoted(p': Items, q': Items, stateNonce: nat, nonce: nat, balance: nat, maxGas: nat, limit: nat)
    requires IsPromoted(map[], map[], p', q', stateNonce, nonce, balance, maxGas, limit, false)
    ensures p' == map[] && q' == map[] && ReadyItems(Payable(map[], stateNonce, balance, maxGas), nonce) == map[]
  {
    assert Payable(map[], stateNonce, balance, maxGas) == map[];
  }

  /**
    Transactions 5 and 6 have been mined, and one of another account is reinjected: while this is added there are too
    many pending ones, and account 0 is cut. Its pending nonce is then below that of the state, and stays so.
   */
  method NonceBelowState() returns (pool: Pool)
    ensures fresh(pool) && fresh(pool.priced) && pool.Valid() && pool.doomed == {} && pool.stateNonce(0) == 7
    ensures !pool.Executable() && pool.GetNonce(0) <= 6 && pool.config == TIGHT && |pool.all| <= 3
    ensures At(pool.pending, 0) == map[] && At(pool.queue, 0) == map[]
    ensures forall tx :: !Stray(pool.pending, pool.queue, pool.all, tx)
  {
    pool := TwoPending(TIGHT, 1, 1);
    ghost var s, p: Items := pool.Contents(), map[5 := Sent(5, 1), 6 := Sent(6, 1)];
    assert 5 in p && 6 in p && s.all == {Sent(5, 1), Sent(6, 1)};
    NoneIsStray(s, p);
    OtherIsQueued(s);
    ResetTight(pool, s, AddAll(s, [(OTHER, true)], TIGHT.priceBump), p, (a: Addr) => if a == 0 then 7 else 5,
               (a: Addr) => 100);
    assert !RunIn(pool.pending, pool.nonces, pool.stateNonce, 0);
  }

  /** Only the transaction of account 1 is new, and account 0 has two pending ones. */
  ghost predicate IsTight(s: Pooled, added: Pooled, p: Items) {
    && s.pending == map[0 := p] && p.Keys == {5, 6} && s.queue == map[] && |s.all| == 2
    && (forall tx :: !Stray(s.pending, s.queue, s.all, tx))
    && added == AddAll(s, [(OTHER, true)], TIGHT.priceBump)
    && added.pending == s.pending && added.queue == map[1 := map[5 := OTHER]]
    && forall a: Addr {:trigger Dirty(s, added, a)} :: Dirty(s, added, a) <==> a == 1
  }

  lemma TightCut(s: Pooled, added: Pooled, p: Items, accounts: seq<Addr>, prom: Snapshot, t: Snapshot,
                 stateNonce: Addr -> nat, balance: Addr -> nat)
    requires IsTight(s, added, p) && stateNonce(1) == 5 && balance(1) == 100
    requires AreAdded(s, added, map[], prom, stateNonce, balance, 100, TIGHT.accountQueue, {}, accounts)
    requires IsTrimmed(prom, t, {}, TIGHT, stateNonce)
    requires accounts != [] ==> FairShare(prom.pending, t.pending, {}, TIGHT)
    ensures NonceFor(t.nonces, stateNonce, 0) <= 6 && At(t.pending, 0).Keys <= {5, 6} && At(t.queue, 0) == map[]
  {
    forall a: Addr
      ensures a in accounts <==> a == 1
    {
      assert Dirty(s, added, a) <==> a == 1;
    }
    assert 1 in accounts;
    OtherIsPromoted(added.pending, added.queue, prom, stateNonce, balance, 100, TIGHT.accountQueue, accounts, OTHER);
    assert LowAt(prom.queue, t.queue, 0);
    FirstIsCut(prom, t, stateNonce);
  }

  lemma TightReset(s: Pooled, added: Pooled, p: Items, accounts: seq<Addr>, prom: Snapshot, t: Snapshot, d: Snapshot,
                   u: Snapshot, f: Snapshot, stateNonce: Addr -> nat, balance: Addr -> nat)
    requires IsTight(s, added, p) && stateNonce(0) == 7 && stateNonce(1) == 5 && balance(1) == 100
    requires AreAdded(s, added, map[], prom, stateNonce, balance, 100, TIGHT.accountQueue, {}, accounts)
    requires IsTrimmed(prom, t, {}, TIGHT, stateNonce)
    requires accounts != [] ==> t in Cuttings(prom, {}, TIGHT, stateNonce)
    requires d in Revalidations(t, stateNonce, balance, 100)
    requires u in Renewings(d, stateNonce, balance, 100, TIGHT.accountQueue, {})
    requires f in Cuttings(u, {}, TIGHT, stateNonce)
    ensures At(f.pending, 0) == map[] && At(f.queue, 0) == map[] && NonceFor(f.nonces, stateNonce, 0) <= 6
  {
    TightCut(s, added, p, accounts, prom, t, stateNonce, balance);
    NonceStaysLow(t, d, u, f, stateNonce, balance, 100, TIGHT.accountQueue, TIGHT, 0);
  }

  lemma RenewedBy(v: View, w: View, reinject: seq<(Tx, bool)>, stateNonce: Addr -> nat, balance: Addr -> nat,
                  maxGas: nat, batch: Batch, t: Snapshot, d: Snapshot, u: Snapshot)
    requires (w, Renewed(batch, t, d, u)) in StepsFrom(TIGHT, v, Step.NewHead(stateNonce, balance, maxGas, reinject))
    ensures batch.accounts != [] ==> t in Cuttings(batch.promoted, w.stand.locals, TIGHT, stateNonce)
    ensures d in Revalidations(t, stateNonce, balance, maxGas)
    ensures u in Renewings(d, stateNonce, balance, maxGas, TIGHT.accountQueue, w.stand.locals)
    ensures ListsOf(w.stand) in Cuttings(u, w.stand.locals, TIGHT, stateNonce)
  {
    assert IsRenewal(TIGHT, v, w, reinject, batch, t, d, u);
  }

  method ResetTight(pool: Pool, ghost s: Pooled, ghost added: Pooled, ghost p: Items, stateNonce: Addr -> nat,
                    balance: Addr -> nat)
    requires pool.Valid() && pool.doomed == {} && pool.Contents() == s && pool.config == TIGHT && pool.locals == {}
    requires IsTight(s, added, p) && stateNonce(0) == 7 && stateNonce(1) == 5 && balance(1) == 100
    modifies pool, pool.priced
    ensures pool.Valid() && pool.doomed == {} && pool.stateNonce == stateNonce && |pool.all| <= 3
    ensures pool.GetNonce(0) <= 6 && At(pool.pending, 0) == map[] && At(pool.queue, 0) == map[]
    ensures forall tx :: !Stray(pool.pending, pool.queue, pool.all, tx)
  {
    ghost var v := pool.V();
    ghost var batch, t, d, u := pool.Reset(stateNonce, balance, 100, [(OTHER, true)]);
    RenewedBy(v, pool.V(), [(OTHER, true)], stateNonce, balance, 100, batch, t, d, u);
    TightReset(s, added, p, batch.accounts, batch.promoted, t, d, u, pool.Lists(), stateNonce, balance);
  }

  /** The transaction with the nonce of the state is then accepted, but does not become pending. */
  method NextIsStuck() returns (pool: Pool, ok: bool)
    ensures pool.Valid() && pool.stateNonce(0) == 7 && ok && 7 !in At(pool.pending, 0)
  {
    pool := NonceBelowState();
    ghost var s, nonces := pool.Contents(), pool.nonces;
    assert !Stray(s.pending, s.queue, s.all, Sent(7, 1));
    ghost var promoted, added, note, before := pool.Lists(), pool.Stand(), Note([], true, false), pool.Stand();
    ok, promoted, added, note := pool.AddTx(Sent(7, 1), false, true);
    AdditionWithRoom(before, added, Sent(7, 1), false, true, note, pool.config, pool.stateNonce);
    StuckAt(s, Sent(7, 1), nonces, promoted, pool.stateNonce, pool.balance, pool.maxGas, pool.config.accountQueue,
            pool.locals, pool.config.priceBump);
    assert NonceCutAt(promoted.pending, promoted.nonces, pool.pending, pool.nonces, pool.stateNonce, 0);
  }

  /** A transaction above the pending nonce is not promoted. */
  lemma StuckAt(s: Pooled, tx: Tx, nonces: Nonces, promoted: Snapshot, stateNonce: Addr -> nat, balance: Addr -> nat,
                maxGas: nat, limit: nat, locals: set<Addr>, priceBump: nat)
    requires At(s.pending, 0) == map[] && At(s.queue, 0) == map[] && tx.sender == 0 && tx !in s.all
    requires NonceFor(nonces, stateNonce, 0) < tx.nonce
    requires var added := AddOne(s, tx, true, priceBump);
             EachPromoted(Snapshot(added.pending, added.queue, nonces), promoted, stateNonce, balance, maxGas, limit,
                          locals, [0])
    ensures tx.nonce !in At(promoted.pending, 0)
  {
    var added := AddOne(s, tx, true, priceBump);
    PutAt(s.queue, 0, map[tx.nonce := tx]);
    assert PromotedAt(added.pending, added.queue, nonces, promoted.pending, promoted.queue, stateNonce, balance, maxGas,
                      limit, locals, 0);
    NoneReadyBeyond(Payable(At(added.queue, 0), stateNonce(0), balance(0), maxGas), NonceFor(nonces, stateNonce, 0));
  }
}
