/**
  What a reset of the transaction pool of core/tx_pool.go makes of the pending lists when a reorg has set
  transactions free: these are added first, and the nonce of an account may have gone back.
 */
module PoolReset {
  import opened TxSortedMap
  import opened PoolLists
  import opened PoolContents
  import TxList
  import PricedList

  // ---------- The lists of one account ----------

  /** What can be promoted when no nonce is below the start: the run from there on, if there is one. */
  lemma ReadyFrom(q: Items, lo: nat)
    requires forall n | n in q :: n >= lo
    ensures if lo in q then IsRunOf(ReadyItems(q, lo), lo, RunEnd(q, lo)) else ReadyItems(q, lo) == map[]
  {
    if lo in q {
      ReadyEndAt(q, lo);
      RunUpto(q, lo, RunEnd(q, lo));
    } else {
      NoneReadyBeyond(q, lo);
    }
  }

  lemma RunUpto(q: Items, lo: nat, end: nat)
    requires lo <= end && (forall n | n in q :: n >= lo) && forall k: nat | lo <= k < end :: k in q
    ensures IsRunOf(TxList.Upto(q, end), lo, end)
  {
  }

  lemma ReadyEndAt(q: Items, lo: nat)
    requires lo in q && forall n | n in q :: n >= lo
    ensures ReadyEnd(q, lo) == RunEnd(q, lo)
  {
    assert Lowest(q) == lo;
  }

  lemma DemotedSame(p: Items, p': Items, nonce: nat, balance: nat, maxGas: nat)
    requires From(p, nonce) == From(p', nonce)
    ensures Demoted(p, nonce, balance, maxGas) == Demoted(p', nonce, balance, maxGas)
  {
  }

  /** What demoting leaves is a run from the nonce on. */
  ghost predicate IsRunFrom(d: Items, nonce: nat) {
    TxList.Gapless(d) && (forall n | n in d :: n >= nonce) && (d != map[] ==> nonce in d)
  }

  /** A transaction in front that can be paid for stays, with all that follows it up to the first too dear one. */
  lemma FrontStays(p: Items, nonce: nat, balance: nat, maxGas: nat, n: nat)
    requires nonce in p && !TxList.TooDear(p[nonce], balance, maxGas) && n in p && n >= nonce
    requires forall g | g in p && nonce <= g <= n :: !TxList.TooDear(p[g], balance, maxGas)
    ensures n in Demoted(p, nonce, balance, maxGas) && nonce in Demoted(p, nonce, balance, maxGas)
  {
    var dear := TxList.Dear(From(p, nonce), balance, maxGas);
    assert forall g | g in dear :: n < g;
  }

  /** Promotion in front of a run: the whole is a run from the nonce on unless something is missing between. */
  lemma PromotedBefore(p: Items, s: nat, t: nat, r: Items, lo: nat, e: nat, balance: nat, maxGas: nat)
    requires IsRunOf(p, s, t) && IsRunOf(r, lo, e) && lo < e <= s < t
    requires (forall n | n in r :: !TxList.TooDear(r[n], balance, maxGas))
    requires e == s || TxList.TooDear(p[s], balance, maxGas)
    ensures IsRunFrom(Demoted(p + r, lo, balance, maxGas), lo) && Demoted(p + r, lo, balance, maxGas) != map[]
  {
    var p1 := p + r;
    assert lo in r && p1[lo] == r[lo];
    FrontStays(p1, lo, balance, maxGas, lo);
    if e == s {
      assert IsRunOf(p1, lo, t);
      DemotedRun(p1, lo, t, lo, balance, maxGas);
    } else {
      assert s in TxList.Dear(From(p1, lo), balance, maxGas);
    }
  }

  /** The pending list of an account before it is demoted: promoted, if something has been added for it. */
  ghost predicate Prepared(p: Items, q: Items, p1: Items, q1: Items, dirty: bool, nonce: nat, balance: nat, maxGas: nat,
                           limit: nat, local: bool) {
    if dirty then IsPromoted(p, q, p1, q1, nonce, nonce, balance, maxGas, limit, local) else p1 == p && q1 == q
  }

  /**
    Something has been added for the account, whose nonce has gone back from s: the transaction with this nonce can be
    sent now, one that should follow it is missing, and the first of the pending ones, after that, can be paid for.
   */
  ghost predicate Gapped(p: Items, q: Items, dirty: bool, s: nat, nonce: nat, balance: nat, maxGas: nat) {
    var payable := Payable(q, nonce, balance, maxGas);
    && dirty && nonce < s && s in p && !TxList.TooDear(p[s], balance, maxGas)
    && nonce in payable && exists n: nat :: nonce < n < s && n !in payable
  }

  /** What is promoted is a run from the nonce on, of transactions that can be paid for and were not pending. */
  ghost predicate IsFront(p: Items, r: Items, nonce: nat, e: nat, balance: nat, maxGas: nat) {
    IsRunOf(r, nonce, e) && nonce < e && forall n | n in r :: !TxList.TooDear(r[n], balance, maxGas) && n !in p
  }

  lemma ReadyIsFront(p: Items, q: Items, nonce: nat, balance: nat, maxGas: nat)
    requires p.Keys !! q.Keys && nonce in Payable(q, nonce, balance, maxGas)
    ensures var payable := Payable(q, nonce, balance, maxGas);
            IsFront(p, ReadyItems(payable, nonce), nonce, RunEnd(payable, nonce), balance, maxGas)
  {
    var payable := Payable(q, nonce, balance, maxGas);
    ReadyFrom(payable, nonce);
    forall n | n in ReadyItems(payable, nonce)
      ensures !TxList.TooDear(ReadyItems(payable, nonce)[n], balance, maxGas) && n !in p
    {
      assert n in payable && n in q;
    }
  }

  lemma ReadyIsNone(q: Items, nonce: nat, balance: nat, maxGas: nat)
    requires nonce !in Payable(q, nonce, balance, maxGas)
    ensures ReadyItems(Payable(q, nonce, balance, maxGas), nonce) == map[]
  {
    ReadyFrom(Payable(q, nonce, balance, maxGas), nonce);
  }

  /** What promotion leaves in the queue can be paid for. */
  lemma LeftIsPayable(p: Items, q: Items, p1: Items, q1: Items, nonce: nat, balance: nat, maxGas: nat, limit: nat,
                      local: bool, n: nat)
    requires IsPromoted(p, q, p1, q1, nonce, nonce, balance, maxGas, limit, local) && n in q1
    ensures n in Payable(q, nonce, balance, maxGas)
  {
    CappedFits(NotReady(Payable(q, nonce, balance, maxGas), nonce), q1, limit, local);
  }

  lemma FrontIsRun(p: Items, s: nat, t: nat, r: Items, nonce: nat, e: nat, balance: nat, maxGas: nat)
    requires IsRunOf(p, s, t) && IsFront(p, r, nonce, e, balance, maxGas)
    requires nonce < s < t && e < s ==> TxList.TooDear(p[s], balance, maxGas)
    ensures IsRunFrom(Demoted(p + r, nonce, balance, maxGas), nonce) && Demoted(p + r, nonce, balance, maxGas) != map[]
  {
    if s == t || nonce >= t {
      assert From(p + r, nonce) == From(r, nonce);
      DemotedSame(p + r, r, nonce, balance, maxGas);
      DemotedRun(r, nonce, e, nonce, balance, maxGas);
      FrontStays(r, nonce, balance, maxGas, nonce);
    } else {
      assert nonce in r && s !in r;
      PromotedBefore(p, s, t, r, nonce, e, balance, maxGas);
    }
  }

  /** Without a gap, what demoting leaves is a run from the nonce on; it is not empty if something was promoted. */
  lemma NoGapIsRun(p: Items, q: Items, p1: Items, q1: Items, dirty: bool, s: nat, t: nat,
                   nonce: nat, balance: nat, maxGas: nat, limit: nat, local: bool)
    requires IsRunOf(p, s, t) && p.Keys !! q.Keys && Prepared(p, q, p1, q1, dirty, nonce, balance, maxGas, limit, local)
    requires !Gapped(p, q, dirty, s, nonce, balance, maxGas)
    ensures IsRunFrom(Demoted(p1, nonce, balance, maxGas), nonce)
    ensures dirty && nonce in Payable(q, nonce, balance, maxGas) ==> Demoted(p1, nonce, balance, maxGas) != map[]
  {
    var payable := Payable(q, nonce, balance, maxGas);
    if dirty && nonce in payable {
      ReadyIsFront(p, q, nonce, balance, maxGas);
      FrontIsRun(p, s, t, ReadyItems(payable, nonce), nonce, RunEnd(payable, nonce), balance, maxGas);
    } else {
      if dirty {
        ReadyIsNone(q, nonce, balance, maxGas);
        assert p + map[] == p;
      }
      DemotedRun(p, s, t, nonce, balance, maxGas);
    }
  }

  lemma PromotedWithin(p: Items, q: Items, p': Items, q': Items, stateNonce: nat, nonce: nat, balance: nat, maxGas: nat,
                       limit: nat, local: bool, n: nat)
    requires IsPromoted(p, q, p', q', stateNonce, nonce, balance, maxGas, limit, local)
    ensures n in p' ==> n in p || n in q
    ensures n in p ==> n in p'
  {
  }

  /** A gap stays, whatever is left of the queue and promoted afterwards. */
  lemma GapStays(p: Items, q: Items, p1: Items, q1: Items, s: nat, t: nat, nonce: nat, balance: nat, maxGas: nat,
                 limit: nat, local: bool, left: Items, p2: Items, q2: Items, next: nat, to: nat)
    requires IsRunOf(p, s, t) && p.Keys !! q.Keys && Prepared(p, q, p1, q1, true, nonce, balance, maxGas, limit, local)
    requires Gapped(p, q, true, s, nonce, balance, maxGas) && LowPart(q1, left)
    requires IsPromoted(Demoted(p1, nonce, balance, maxGas), left + Moved(p1, nonce, balance, maxGas), p2, q2, nonce,
                        next, balance, maxGas, limit, local)
    ensures !IsRunOf(p2, nonce, to)
  {
    var payable := Payable(q, nonce, balance, maxGas);
    var e := RunEnd(payable, nonce);
    GapAt(p, q, s, t, nonce, balance, maxGas);
    var d, moved := Demoted(p1, nonce, balance, maxGas), Moved(p1, nonce, balance, maxGas);
    assert s in d && e !in d && e !in moved && nonce <= e < s;
    if e in left {
      LeftIsPayable(p, q, p1, q1, nonce, balance, maxGas, limit, local, e);
    }
    PromotedWithin(d, left + moved, p2, q2, nonce, next, balance, maxGas, limit, local, e);
    PromotedWithin(d, left + moved, p2, q2, nonce, next, balance, maxGas, limit, local, s);
    NotARun(p2, nonce, to, e, s);
  }

  lemma NotARun(p: Items, nonce: nat, to: nat, e: nat, s: nat)
    requires nonce <= e < s && e !in p && s in p
    ensures !IsRunOf(p, nonce, to)
  {
  }

  /** The nonce that is missing. */
  lemma GapAt(p: Items, q: Items, s: nat, t: nat, nonce: nat, balance: nat, maxGas: nat)
    requires IsRunOf(p, s, t) && p.Keys !! q.Keys && Gapped(p, q, true, s, nonce, balance, maxGas)
    ensures var payable := Payable(q, nonce, balance, maxGas);
            var e, p1 := RunEnd(payable, nonce), p + ReadyItems(payable, nonce);
            && nonce <= e < s && e !in payable && s in Demoted(p1, nonce, balance, maxGas)
            && e !in Demoted(p1, nonce, balance, maxGas) && e !in Moved(p1, nonce, balance, maxGas)
  {
    var payable := Payable(q, nonce, balance, maxGas);
    ReadyIsFront(p, q, nonce, balance, maxGas);
    var n: nat :| nonce < n < s && n !in payable;
    FrontHasGap(p, s, t, ReadyItems(payable, nonce), nonce, RunEnd(payable, nonce), balance, maxGas);
  }

  lemma FrontHasGap(p: Items, s: nat, t: nat, r: Items, nonce: nat, e: nat, balance: nat, maxGas: nat)
    requires IsRunOf(p, s, t) && IsFront(p, r, nonce, e, balance, maxGas) && e < s < t
    requires !TxList.TooDear(p[s], balance, maxGas)
    ensures s in Demoted(p + r, nonce, balance, maxGas)
    ensures e !in Demoted(p + r, nonce, balance, maxGas) && e !in Moved(p + r, nonce, balance, maxGas)
  {
    FrontStays(p + r, nonce, balance, maxGas, s);
    assert e !in p + r;
  }

  // ---------- Adding several transactions ----------

  datatype Pooled = Pooled(pending: Lists, queue: Lists, all: set<Tx>)

  /** A pool with room takes a valid transaction that is new and not too cheap for its nonce. */
  ghost function AddOne(s: Pooled, tx: Tx, valid: bool, priceBump: nat): Pooled {
    var p, q := At(s.pending, tx.sender), At(s.queue, tx.sender);
    if tx in s.all || !valid || !Fits(s.pending, s.queue, tx, priceBump) then s
    else if tx.nonce in p then Pooled(Put(s.pending, tx.sender, p[tx.nonce := tx]), s.queue, AllAfter(s.all, p, tx))
    else Pooled(s.pending, Put(s.queue, tx.sender, q[tx.nonce := tx]), AllAfter(s.all, q, tx))
  }

  ghost function AddAll(s: Pooled, txs: seq<(Tx, bool)>, priceBump: nat): Pooled {
    if txs == [] then s
    else AddOne(AddAll(s, txs[..|txs| - 1], priceBump), txs[|txs| - 1].0, txs[|txs| - 1].1, priceBump)
  }

  ghost predicate PooledOk(s: Pooled) {
    PoolOk(s.pending, s.queue, s.all)
  }

  lemma AddOneKeeps(s: Pooled, tx: Tx, valid: bool, priceBump: nat)
    requires PooledOk(s)
    ensures PooledOk(AddOne(s, tx, valid, priceBump))
    ensures |AddOne(s, tx, valid, priceBump).all| <= |s.all| + 1
    ensures Total(AddOne(s, tx, valid, priceBump).queue) <= Total(s.queue) + 1
  {
    TotalPut(s.queue, tx.sender, At(s.queue, tx.sender)[tx.nonce := tx]);
    assert AddrIn(s.pending, s.queue, s.all, tx.sender);
    if tx.nonce in At(s.pending, tx.sender) {
      PromoteKeeps(s.pending, s.queue, s.all, tx);
    } else {
      EnqueueKeeps(s.pending, s.queue, s.all, tx);
    }
  }

  lemma {:induction false} AddAllKeeps(s: Pooled, txs: seq<(Tx, bool)>, priceBump: nat)
    requires PooledOk(s)
    ensures PooledOk(AddAll(s, txs, priceBump)) && |AddAll(s, txs, priceBump).all| <= |s.all| + |txs|
  {
    if txs != [] {
      var most := txs[..|txs| - 1];
      AddAllKeeps(s, most, priceBump);
      AddOneKeeps(AddAll(s, most, priceBump), txs[|txs| - 1].0, txs[|txs| - 1].1, priceBump);
    }
  }

  /** Adding changes no pending nonces, and takes none from a queue. */
  ghost predicate KeysAt(s: Pooled, t: Pooled, a: Addr) {
    At(t.pending, a).Keys == At(s.pending, a).Keys && At(s.queue, a).Keys <= At(t.queue, a).Keys
  }

  lemma AddOneKeys(s: Pooled, tx: Tx, valid: bool, priceBump: nat, a: Addr)
    ensures KeysAt(s, AddOne(s, tx, valid, priceBump), a)
    ensures var t := AddOne(s, tx, valid, priceBump);
            At(t.queue, a).Keys
              == At(s.queue, a).Keys
                + (if t != s && tx.sender == a && tx.nonce !in At(s.pending, a) then {tx.nonce} else {})
  {
    var p, q := At(s.pending, tx.sender), At(s.queue, tx.sender);
    PutAt(s.pending, tx.sender, p[tx.nonce := tx]);
    PutAt(s.queue, tx.sender, q[tx.nonce := tx]);
    assert AllAfter(s.all, p, tx) != s.all || tx in s.all;
    assert AllAfter(s.all, q, tx) != s.all || tx in s.all;
  }

  lemma {:induction false} AddAllKeys(s: Pooled, txs: seq<(Tx, bool)>, priceBump: nat, a: Addr)
    ensures KeysAt(s, AddAll(s, txs, priceBump), a)
  {
    if txs != [] {
      var most := txs[..|txs| - 1];
      AddAllKeys(s, most, priceBump, a);
      AddOneKeys(AddAll(s, most, priceBump), txs[|txs| - 1].0, txs[|txs| - 1].1, priceBump, a);
    }
  }

  predicate HasNonce(s: Pooled, tx: Tx) {
    tx.nonce in At(s.pending, tx.sender) || tx.nonce in At(s.queue, tx.sender)
  }

  /** Where the pool knows other transactions than before, it has their nonces. */
  ghost predicate Exchanged(s: Pooled, t: Pooled) {
    forall tx {:trigger HasNonce(t, tx)} | (tx in s.all) != (tx in t.all) :: HasNonce(t, tx)
  }

  lemma ExchangedOne(s: Pooled, t: Pooled, tx: Tx, valid: bool, priceBump: nat)
    requires PooledOk(t) && Exchanged(s, t)
    ensures Exchanged(s, AddOne(t, tx, valid, priceBump))
  {
    var u := AddOne(t, tx, valid, priceBump);
    assert AddrIn(t.pending, t.queue, t.all, tx.sender);
    forall x: Tx | (x in s.all) != (x in u.all)
      ensures HasNonce(u, x)
    {
      AddOneKeys(t, tx, valid, priceBump, x.sender);
      if (x in s.all) != (x in t.all) {
        assert HasNonce(t, x);
      } else {
        PutAt(t.pending, tx.sender, At(t.pending, tx.sender)[tx.nonce := tx]);
        PutAt(t.queue, tx.sender, At(t.queue, tx.sender)[tx.nonce := tx]);
      }
    }
  }

  lemma {:induction false} ExchangedAll(s: Pooled, txs: seq<(Tx, bool)>, priceBump: nat)
    requires PooledOk(s)
    ensures Exchanged(s, AddAll(s, txs, priceBump))
  {
    if txs != [] {
      var most := txs[..|txs| - 1];
      ExchangedAll(s, most, priceBump);
      AddAllKeeps(s, most, priceBump);
      ExchangedOne(s, AddAll(s, most, priceBump), txs[|txs| - 1].0, txs[|txs| - 1].1, priceBump);
    }
  }

  /** A valid transaction with this sender and nonce that the pool does not know. */
  predicate Brings(s: Pooled, tx: (Tx, bool), a: Addr, n: nat) {
    tx.1 && tx.0.sender == a && tx.0.nonce == n && tx.0 !in s.all
  }

  lemma NonceAdded(s: Pooled, t: Pooled, tx: (Tx, bool), priceBump: nat, a: Addr, n: nat)
    requires PooledOk(t) && Exchanged(s, t) && KeysAt(s, t, a) && n !in At(s.pending, a)
    ensures n in At(AddOne(t, tx.0, tx.1, priceBump).queue, a) <==> n in At(t.queue, a) || Brings(s, tx, a, n)
  {
    AddOneKeys(t, tx.0, tx.1, priceBump, a);
    assert (tx.0 in s.all) != (tx.0 in t.all) ==> HasNonce(t, tx.0);
    PutAt(t.queue, tx.0.sender, At(t.queue, tx.0.sender)[tx.0.nonce := tx.0]);
  }

  /**
    The queue of an account has the nonces it had, and those that a new valid transaction brings and that are not
    pending.
   */
  lemma {:induction false} AddedNonces(s: Pooled, txs: seq<(Tx, bool)>, priceBump: nat, a: Addr, n: nat)
    requires PooledOk(s)
    ensures n in At(AddAll(s, txs, priceBump).queue, a) <==>
            n in At(s.queue, a) || (n !in At(s.pending, a) && exists i :: 0 <= i < |txs| && Brings(s, txs[i], a, n))
  {
    if txs != [] {
      var last := |txs| - 1;
      var most := txs[..last];
      AddedNonces(s, most, priceBump, a, n);
      AddAllKeeps(s, most, priceBump);
      AddAllKeys(s, most, priceBump, a);
      ExchangedAll(s, most, priceBump);
      var t := AddAll(s, most, priceBump);
      assert forall i | 0 <= i < last :: most[i] == txs[i];
      if n in At(s.pending, a) {
        assert AddrIn(t.pending, t.queue, t.all, a);
        AddOneKeys(t, txs[last].0, txs[last].1, priceBump, a);
      } else {
        NonceAdded(s, t, txs[last], priceBump, a, n);
      }
    }
  }

  // ---------- Removing several transactions ----------

  /**
    removeTx: a known transaction goes from the lists by its nonce; what was pending above it is queued if something is
    left.
   */
  function RemoveOne(s: Pooled, tx: Tx): Pooled {
    var a, n := tx.sender, tx.nonce;
    var p, q := At(s.pending, a), At(s.queue, a);
    if tx !in s.all then s
    else if n in p then Pooled(Put(s.pending, a, TxList.Upto(p, n)), Requeued(s.queue, a, p, n), s.all - {tx})
    else Pooled(s.pending, Put(s.queue, a, q - {n}), s.all - {tx})
  }

  function RemoveAll(s: Pooled, txs: seq<Tx>): Pooled {
    if txs == [] then s else RemoveOne(RemoveAll(s, txs[..|txs| - 1]), txs[|txs| - 1])
  }

  /**
    The pending nonces when a transaction has been removed: the one of its account goes down to it, if it was pending.
   */
  ghost function RemovalNonces(s: Pooled, nonces: Nonces, stateNonce: Addr -> nat, tx: Tx): Nonces {
    if tx in s.all && tx.nonce in At(s.pending, tx.sender) then Lowered(nonces, stateNonce, tx.sender, tx.nonce)
    else nonces
  }

  ghost function RemovedNonces(s: Pooled, nonces: Nonces, stateNonce: Addr -> nat, txs: seq<Tx>): Nonces {
    if txs == [] then nonces
    else
      var most := txs[..|txs| - 1];
      RemovalNonces(RemoveAll(s, most), RemovedNonces(s, nonces, stateNonce, most), stateNonce, txs[|txs| - 1])
  }

  // ---------- Adding to any pool ----------

  /** What adding a transaction may change. */
  datatype Standing = Standing(pooled: Pooled, nonces: Nonces, locals: set<Addr>)

  /** What adding one transaction came to: what was dropped for it, and whether it was taken, in place of another. */
  datatype Note = Note(drop: seq<Tx>, ok: bool, replaced: bool)

  ghost predicate IsFull(all: set<Tx>, config: Config) {
    |all| >= config.globalSlots + config.globalQueue
  }

  /** In a full pool a remote transaction has to be dearer than some other. */
  ghost predicate IsTooCheap(all: set<Tx>, tx: Tx, locals: set<Addr>, config: Config) {
    IsFull(all, config) && tx.sender !in locals && all != {} && forall other | other in all :: tx.price <= other.price
  }

  /**
    In a full pool remote transactions go, none dearer than a remote one that stays; one at least, unless all are local,
    and no more than make room for one. Else none goes.
   */
  ghost predicate MakesRoom(all: set<Tx>, drop: seq<Tx>, locals: set<Addr>, config: Config) {
    var left := all - set tx | tx in drop;
    && (!IsFull(all, config) ==> drop == [])
    && (forall tx | tx in drop :: tx in all && tx.sender !in locals)
    && (forall tx, kept | tx in drop && kept in left && kept.sender !in locals :: tx.price <= kept.price)
    && (IsFull(all, config) ==> |left| >= config.globalSlots + config.globalQueue - 1)
    && (IsFull(all, config) ==> drop != [] || forall tx | tx in all :: tx.sender in locals)
  }

  /** What the price list discards makes room. */
  lemma DiscardMakesRoom(all: set<Tx>, drop: seq<Tx>, locals: set<Addr>, config: Config)
    requires IsFull(all, config)
    requires forall tx | tx in drop :: tx in all && !PricedList.IsLocal(tx, locals)
    requires forall tx, other | tx in drop && other in all && !PricedList.IsLocal(other, locals) && other !in drop ::
               tx.price <= other.price
    requires var count := |all| - (config.globalSlots + config.globalQueue - 1);
             |drop| <= count
               && (|drop| == count || forall tx | tx in all && !PricedList.IsLocal(tx, locals) :: tx in drop)
    ensures MakesRoom(all, drop, locals, config)
  {
    PricedList.DropSize(all, drop);
  }

  /**
    Adding a transaction to any pool. It is refused if it is known, invalid or too cheap for a full pool. Else the pool
    makes room, and takes the transaction if it is not too cheap for its nonce in what is left. The sender of a local
    transaction is local from then on, unless the transaction replaces a pending one.
   */
  ghost predicate IsAddition(s: Standing, t: Standing, tx: Tx, local: bool, valid: bool, note: Note, config: Config,
                             stateNonce: Addr -> nat) {
    if tx in s.pooled.all || !valid || IsTooCheap(s.pooled.all, tx, s.locals, config) then
      t == s && note == Note([], false, false)
    else
      var left := RemoveAll(s.pooled, note.drop);
      && MakesRoom(s.pooled.all, note.drop, s.locals, config)
      && (note.ok <==> Fits(left.pending, left.queue, tx, config.priceBump))
      && (note.replaced <==> note.ok && HasNonce(left, tx))
      && t.pooled == AddOne(left, tx, true, config.priceBump)
      && t.nonces == RemovedNonces(s.pooled, s.nonces, stateNonce, note.drop)
      && t.locals == if note.ok && local && tx.nonce !in At(left.pending, tx.sender) then s.locals + {tx.sender}
                     else s.locals
  }

  /** What adding a transaction may come to. */
  ghost function Additions(s: Standing, tx: Tx, local: bool, valid: bool, config: Config, stateNonce: Addr -> nat)
      : iset<(Standing, Note)> {
    iset x: (Standing, Note) | IsAddition(s, x.0, tx, local, valid, x.1, config, stateNonce)
  }

  /** What promoting the accounts one after the other may come to. */
  ghost function Promotions(s: Snapshot, accounts: seq<Addr>, stateNonce: Addr -> nat, balance: Addr -> nat,
                            maxGas: nat, limit: nat, locals: set<Addr>): iset<Snapshot> {
    iset t: Snapshot | EachPromoted(s, t, stateNonce, balance, maxGas, limit, locals, accounts)
  }

  /** Pending lists are cut down to fair shares, and queues to the limit or to the local ones. */
  ghost predicate IsCutting(s: Snapshot, t: Snapshot, locals: set<Addr>, config: Config, stateNonce: Addr -> nat) {
    && FairShare(s.pending, t.pending, locals, config) && QueuesCut(s.queue, t.queue, locals, config.globalQueue)
    && IsTrimmed(s, t, locals, config, stateNonce)
  }

  /** What cutting the lists may come to. */
  ghost function Cuttings(s: Snapshot, locals: set<Addr>, config: Config, stateNonce: Addr -> nat): iset<Snapshot> {
    iset t: Snapshot | IsCutting(s, t, locals, config, stateNonce)
  }

  /** Some transactions have been added one after the other. */
  ghost predicate AreAdditions(stands: seq<Standing>, txs: seq<(Tx, bool)>, local: bool, notes: seq<Note>,
                               config: Config, stateNonce: Addr -> nat) {
    && |stands| == |txs| + 1 && |notes| == |txs|
    && forall i | 0 <= i < |txs| ::
         (stands[i + 1], notes[i]) in Additions(stands[i], txs[i].0, local, txs[i].1, config, stateNonce)
  }

  /** These accounts got a new nonce. */
  ghost predicate GotNew(dirty: set<Addr>, txs: seq<(Tx, bool)>, notes: seq<Note>) {
    |notes| == |txs|
      && forall a: Addr :: a in dirty <==> exists i | 0 <= i < |txs| ::
             txs[i].0.sender == a && notes[i].ok && !notes[i].replaced
  }

  /** In a pool that is not full nothing is dropped. */
  lemma AdditionWithRoom(s: Standing, t: Standing, tx: Tx, local: bool, valid: bool, note: Note, config: Config,
                         stateNonce: Addr -> nat)
    requires (t, note) in Additions(s, tx, local, valid, config, stateNonce) && !IsFull(s.pooled.all, config)
    ensures t.pooled == AddOne(s.pooled, tx, valid, config.priceBump) && t.nonces == s.nonces
    ensures !local ==> t.locals == s.locals
    ensures note.ok <==>
            tx !in s.pooled.all && valid && Fits(s.pooled.pending, s.pooled.queue, tx, config.priceBump)
    ensures note.replaced <==> note.ok && HasNonce(s.pooled, tx)
  {
  }

  lemma OneMoreAddition(stands: seq<Standing>, txs: seq<(Tx, bool)>, local: bool, notes: seq<Note>, config: Config,
                        stateNonce: Addr -> nat, i: nat, t: Standing, note: Note, dirty: set<Addr>)
    requires i < |txs| && AreAdditions(stands, txs[..i], local, notes, config, stateNonce)
    requires (t, note) in Additions(stands[i], txs[i].0, local, txs[i].1, config, stateNonce)
    requires GotNew(dirty, txs[..i], notes)
    ensures AreAdditions(stands + [t], txs[..i + 1], local, notes + [note], config, stateNonce)
    ensures GotNew(if note.ok && !note.replaced then dirty + {txs[i].0.sender} else dirty, txs[..i + 1], notes + [note])
  {
    var stands', notes', txs' := stands + [t], notes + [note], txs[..i + 1];
    forall k | 0 <= k < |txs'|
      ensures (stands'[k + 1], notes'[k]) in Additions(stands'[k], txs'[k].0, local, txs'[k].1, config, stateNonce)
    {
      if k < i {
        assert txs[..i][k] == txs'[k];
        assert (stands[k + 1], notes[k]) in Additions(stands[k], txs[..i][k].0, local, txs[..i][k].1, config,
                                                      stateNonce);
      }
    }
    GotOneMore(dirty, txs, i, notes, note);
  }

  lemma GotOneMore(dirty: set<Addr>, txs: seq<(Tx, bool)>, i: nat, notes: seq<Note>, note: Note)
    requires i < |txs| && GotNew(dirty, txs[..i], notes)
    ensures GotNew(if note.ok && !note.replaced then dirty + {txs[i].0.sender} else dirty, txs[..i + 1], notes + [note])
  {
    var more := if note.ok && !note.replaced then dirty + {txs[i].0.sender} else dirty;
    var txs', notes' := txs[..i + 1], notes + [note];
    forall a: Addr
      ensures a in more <==> exists k | 0 <= k < |txs'| ::
                txs'[k].0.sender == a && notes'[k].ok && !notes'[k].replaced
    {
      if a in dirty {
        var k :| 0 <= k < i && txs[..i][k].0.sender == a && notes[k].ok && !notes[k].replaced;
        assert txs'[k].0.sender == a && notes'[k] == notes[k];
      }
      if a in more && a !in dirty {
        assert txs'[i].0.sender == a && notes'[i] == note;
      }
      if k :| 0 <= k < |txs'| && txs'[k].0.sender == a && notes'[k].ok && !notes'[k].replaced {
        if k < i {
          assert txs[..i][k].0.sender == a && notes[k].ok && !notes[k].replaced;
        }
      }
    }
  }

  /** The stands and notes while some transactions are added, the accounts that got new nonces, and the lists then. */
  datatype Batch = Batch(stands: seq<Standing>, notes: seq<Note>, accounts: seq<Addr>, promoted: Snapshot)

  ghost function ListsOf(s: Standing): Snapshot {
    Snapshot(s.pooled.pending, s.pooled.queue, s.nonces)
  }

  /**
    Transactions have been added to any pool, and the accounts that got new nonces promoted; then the lists are cut.
   */
  ghost predicate IsBatch(s: Standing, txs: seq<(Tx, bool)>, local: bool, b: Batch, after: Snapshot, locals: set<Addr>,
                          config: Config, stateNonce: Addr -> nat, balance: Addr -> nat, maxGas: nat) {
    && AreAdditions(b.stands, txs, local, b.notes, config, stateNonce) && b.stands[0] == s
    && GotNew((set a | a in b.accounts), txs, b.notes) && locals == b.stands[|txs|].locals
    && b.promoted in Promotions(ListsOf(b.stands[|txs|]), b.accounts, stateNonce, balance, maxGas, config.accountQueue,
                                locals)
    && if b.accounts == [] then b.promoted == after == ListsOf(b.stands[|txs|])
       else after in Cuttings(b.promoted, locals, config, stateNonce)
  }

  /** What adding transactions may come to: how, the lists afterwards, and the local accounts. */
  ghost function Batches(s: Standing, txs: seq<(Tx, bool)>, local: bool, config: Config, stateNonce: Addr -> nat,
                         balance: Addr -> nat, maxGas: nat): iset<(Batch, Snapshot, set<Addr>)> {
    iset x: (Batch, Snapshot, set<Addr>)
      | IsBatch(s, txs, local, x.0, x.1, x.2, config, stateNonce, balance, maxGas)
  }

  /** To remove a transaction again changes nothing. */
  lemma {:induction false} RemoveAgain(s: Pooled, txs: seq<Tx>, tx: Tx)
    requires txs != [] && forall i | 0 <= i < |txs| :: txs[i] == tx
    ensures RemoveAll(s, txs) == RemoveOne(s, tx)
  {
    var most := txs[..|txs| - 1];
    if most != [] {
      RemoveAgain(s, most, tx);
    }
  }

  // ---------- The pool after a reset ----------

  /** So many more transactions do not make the pool discard others for their price. */
  predicate Fitting(config: Config, all: set<Tx>, more: nat) {
    |all| + more <= config.globalSlots + config.globalQueue
  }

  /** With so many more transactions there are not too many pending ones, whichever they are. */
  predicate Roomy(config: Config, all: set<Tx>, more: nat) {
    |all| + more <= config.globalSlots
  }

  /** Nor too many queued ones. */
  ghost predicate AllRoomy(config: Config, queue: Lists, all: set<Tx>, more: nat) {
    Roomy(config, all, more) && Total(queue) + more <= config.globalQueue
  }

  lemma Fewer(some: set<Tx>, all: set<Tx>)
    ensures some <= all ==> |some| <= |all|
  {
    if some <= all {
      assert all == some + (all - some);
    }
  }

  /** Something new has been queued for the account. */
  ghost predicate Dirty(s: Pooled, t: Pooled, a: Addr) {
    At(t.queue, a).Keys != At(s.queue, a).Keys
  }

  ghost predicate GapIn(s: Pooled, added: Pooled, stateNonce0: Addr -> nat, stateNonce: Addr -> nat,
                        balance: Addr -> nat, maxGas: nat, a: Addr) {
    Gapped(At(added.pending, a), At(added.queue, a), Dirty(s, added, a), stateNonce0(a), stateNonce(a), balance(a),
           maxGas)
  }

  ghost predicate AreDirty(s: Pooled, t: Pooled, dirty: set<Addr>) {
    forall a: Addr {:trigger Dirty(s, t, a)} :: (a in dirty <==> Dirty(s, t, a)) && KeysAt(s, t, a)
  }

  /** An account is dirty when a transaction with a new nonce has been queued. */
  lemma DirtyOneMore(s: Pooled, t: Pooled, dirty: set<Addr>, tx: Tx, valid: bool, priceBump: nat, added: bool)
    requires AreDirty(s, t, dirty)
    requires added <==> tx !in t.all && valid && Fits(t.pending, t.queue, tx, priceBump) && !HasNonce(t, tx)
    ensures AreDirty(s, AddOne(t, tx, valid, priceBump), if added then dirty + {tx.sender} else dirty)
  {
    var u := AddOne(t, tx, valid, priceBump);
    forall a: Addr
      ensures (a in (if added then dirty + {tx.sender} else dirty) <==> Dirty(s, u, a)) && KeysAt(s, u, a)
    {
      assert (a in dirty <==> Dirty(s, t, a)) && KeysAt(s, t, a);
      AddOneKeys(t, tx, valid, priceBump, a);
      if added && a == tx.sender {
        PutAt(t.queue, a, At(t.queue, a)[tx.nonce := tx]);
        assert tx.nonce in At(u.queue, a) && tx.nonce !in At(s.queue, a);
      }
    }
  }

  /** The transactions have been added, and dirty are the accounts that got new ones. */
  ghost predicate IsAdding(s: Pooled, t: Pooled, txs: seq<(Tx, bool)>, priceBump: nat, dirty: set<Addr>) {
    && t == AddAll(s, txs, priceBump) && AreDirty(s, t, dirty)
    && |t.all| <= |s.all| + |txs| && Total(t.queue) <= Total(s.queue) + |txs|
  }

  lemma NoneAdded(s: Pooled, priceBump: nat)
    ensures IsAdding(s, s, [], priceBump, {})
  {
    assert forall a: Addr :: !Dirty(s, s, a) && KeysAt(s, s, a);
  }

  lemma OneMoreAdded(s: Pooled, t: Pooled, txs: seq<(Tx, bool)>, i: nat, priceBump: nat, dirty: set<Addr>, added: bool)
    requires i < |txs| && IsAdding(s, t, txs[..i], priceBump, dirty) && PooledOk(t)
    requires var (tx, valid) := txs[i];
             added <==> tx !in t.all && valid && Fits(t.pending, t.queue, tx, priceBump) && !HasNonce(t, tx)
    ensures IsAdding(s, AddOne(t, txs[i].0, txs[i].1, priceBump), txs[..i + 1], priceBump, if added
                     then dirty + {txs[i].0.sender} else dirty)
  {
    assert txs[..i + 1][..i] == txs[..i];
    AddOneKeeps(t, txs[i].0, txs[i].1, priceBump);
    DirtyOneMore(s, t, dirty, txs[i].0, txs[i].1, priceBump, added);
  }

  /** The first i transactions have been added; with room for all, nothing else has changed. */
  ghost predicate AddedUpto(s: Standing, t: Standing, txs: seq<(Tx, bool)>, i: nat, local: bool, config: Config,
                            stateNonce: Addr -> nat, stands: seq<Standing>, notes: seq<Note>, dirty: set<Addr>) {
    && i <= |txs| && AreAdditions(stands, txs[..i], local, notes, config, stateNonce)
    && stands[0] == s && stands[i] == t && GotNew(dirty, txs[..i], notes)
    && (!local || i == 0 ==> t.locals == s.locals)
    && (Fitting(config, s.pooled.all, |txs|) || i == 0 ==>
        IsAdding(s.pooled, t.pooled, txs[..i], config.priceBump, dirty) && t.nonces == s.nonces)
  }

  lemma AddedNone(s: Standing, txs: seq<(Tx, bool)>, local: bool, config: Config, stateNonce: Addr -> nat)
    ensures AddedUpto(s, s, txs, 0, local, config, stateNonce, [s], [], {})
  {
    NoneAdded(s.pooled, config.priceBump);
  }

  lemma AddedNext(s: Standing, t: Standing, t': Standing, txs: seq<(Tx, bool)>, i: nat, local: bool, config: Config,
                  stateNonce: Addr -> nat, stands: seq<Standing>, notes: seq<Note>, dirty: set<Addr>, note: Note)
    requires AddedUpto(s, t, txs, i, local, config, stateNonce, stands, notes, dirty) && i < |txs| && PooledOk(t.pooled)
    requires (t', note) in Additions(t, txs[i].0, local, txs[i].1, config, stateNonce)
    ensures AddedUpto(s, t', txs, i + 1, local, config, stateNonce, stands + [t'], notes + [note],
                      if note.ok && !note.replaced then dirty + {txs[i].0.sender} else dirty)
    ensures Fitting(config, s.pooled.all, |txs|) ==> !IsFull(t.pooled.all, config)
  {
    OneMoreAddition(stands, txs, local, notes, config, stateNonce, i, t', note, dirty);
    if Fitting(config, s.pooled.all, |txs|) {
      AdditionWithRoom(t, t', txs[i].0, local, txs[i].1, note, config, stateNonce);
      OneMoreAdded(s.pooled, t.pooled, txs, i, config.priceBump, dirty, note.ok && !note.replaced);
    }
  }

  /** No account gets a gap in its pending list. */
  ghost predicate NoGaps(s: Pooled, added: Pooled, stateNonce0: Addr -> nat, stateNonce: Addr -> nat,
                         balance: Addr -> nat, maxGas: nat) {
    forall a: Addr {:trigger GapIn(s, added, stateNonce0, stateNonce, balance, maxGas, a)} ::
      !GapIn(s, added, stateNonce0, stateNonce, balance, maxGas, a)
  }

  /** Where nothing was ready, the pending nonce is as before; it does not go below that of the state. */
  ghost predicate NonceKept(queue: Lists, nonces: Nonces, nonces': Nonces, stateNonce: Addr -> nat,
                            balance: Addr -> nat, maxGas: nat, a: Addr) {
    && (var payable := Payable(At(queue, a), stateNonce(a), balance(a), maxGas);
        ReadyItems(payable, NonceFor(nonces, stateNonce, a)) == map[] ==>
          NonceFor(nonces', stateNonce, a) == NonceFor(nonces, stateNonce, a))
    && (NonceFor(nonces, stateNonce, a) >= stateNonce(a) ==> NonceFor(nonces', stateNonce, a) >= stateNonce(a))
  }

  /** The accounts with something new have been promoted. */
  ghost predicate AreAdded(s: Pooled, added: Pooled, nonces: Nonces, t: Snapshot, stateNonce: Addr -> nat,
                           balance: Addr -> nat, maxGas: nat, limit: nat, locals: set<Addr>, accounts: seq<Addr>) {
    && (forall a: Addr {:trigger Dirty(s, added, a)} :: a in accounts <==> Dirty(s, added, a))
    && EachPromoted(Snapshot(added.pending, added.queue, nonces), t, stateNonce, balance, maxGas, limit, locals,
                    accounts)
  }

  lemma AddedIsPromoted(s: Pooled, added: Pooled, txs: seq<(Tx, bool)>, priceBump: nat, dirty: set<Addr>,
                        nonces: Nonces,
                        t: Snapshot, stateNonce: Addr -> nat, balance: Addr -> nat, maxGas: nat, limit: nat,
                        locals: set<Addr>, accounts: seq<Addr>)
    requires IsAdding(s, added, txs, priceBump, dirty) && forall a :: a in accounts <==> a in dirty
    requires EachPromoted(Snapshot(added.pending, added.queue, nonces), t, stateNonce, balance, maxGas, limit, locals,
                          accounts)
    ensures AreAdded(s, AddAll(s, txs, priceBump), nonces, t, stateNonce, balance, maxGas, limit, locals, accounts)
  {
  }

  /**
    When pending lists have been cut to fair shares and queues to the limit: only highest nonces have gone, and pending
    ones only of remote accounts above their slots, if there were too many in all.
   */
  ghost predicate IsTrimmed(s: Snapshot, t: Snapshot, locals: set<Addr>, config: Config, stateNonce: Addr -> nat) {
    && AllLow(s.queue, t.queue) && AllCut(s.pending, s.nonces, t.pending, t.nonces, stateNonce)
    && forall a: Addr {:trigger At(t.pending, a)} ::
         || At(t.pending, a) == At(s.pending, a)
         || (a !in locals && Len(s.pending, a) > config.accountSlots && Total(s.pending) > config.globalSlots)
  }

  /** What demoting may come to. */
  ghost function Revalidations(s: Snapshot, stateNonce: Addr -> nat, balance: Addr -> nat, maxGas: nat)
      : iset<Snapshot> {
    iset t: Snapshot | IsRevalidated(s, t, stateNonce, balance, maxGas)
  }

  /** What promoting all accounts may come to. */
  ghost function Renewings(s: Snapshot, stateNonce: Addr -> nat, balance: Addr -> nat, maxGas: nat, limit: nat,
                           locals: set<Addr>): iset<Snapshot> {
    iset t: Snapshot
      | AllPromoted(s, t, stateNonce, balance, maxGas, limit, locals)
        && NoncesFollow(s, t, stateNonce, balance, maxGas)
  }

  lemma AddedIsBatch(s: Standing, t: Standing, txs: seq<(Tx, bool)>, local: bool, config: Config,
                     stateNonce: Addr -> nat, balance: Addr -> nat, maxGas: nat, b: Batch, dirty: set<Addr>,
                     after: Snapshot, all: set<Tx>)
    requires AddedUpto(s, t, txs, |txs|, local, config, stateNonce, b.stands, b.notes, dirty)
    requires (forall a :: a in b.accounts <==> a in dirty) && |all| <= |t.pooled.all|
    requires dirty == {} ==> after == ListsOf(t) && all == t.pooled.all
    requires b.accounts == [] ==> b.promoted == after
    requires b.promoted in Promotions(ListsOf(t), b.accounts, stateNonce, balance, maxGas, config.accountQueue,
                                      t.locals)
    requires Total(b.promoted.pending) <= |t.pooled.all|
    requires b.accounts != [] ==> after in Cuttings(b.promoted, t.locals, config, stateNonce)
    requires AllRoomy(config, t.pooled.queue, t.pooled.all, 0) ==> after == b.promoted
    ensures (b, after, t.locals) in Batches(s, txs, local, config, stateNonce, balance, maxGas)
    ensures Fitting(config, s.pooled.all, |txs|) ==>
              && |all| <= |s.pooled.all| + |txs|
              && AreAdded(s.pooled, AddAll(s.pooled, txs, config.priceBump), s.nonces, b.promoted, stateNonce, balance,
                          maxGas, config.accountQueue, t.locals, b.accounts)
              && IsTrimmed(b.promoted, after, t.locals, config, stateNonce)
    ensures Roomy(config, s.pooled.all, |txs|) ==> Total(b.promoted.pending) <= config.globalSlots
    ensures AllRoomy(config, s.pooled.queue, s.pooled.all, |txs|) ==> after == b.promoted
    ensures txs == [] ==> t == s && after == ListsOf(s) && all == s.pooled.all
  {
    assert txs[..|txs|] == txs;
    assert (set a | a in b.accounts) == dirty;
    assert IsBatch(s, txs, local, b, after, t.locals, config, stateNonce, balance, maxGas);
    if b.accounts == [] {
      NoneTrimmed(after, t.locals, config, stateNonce);
    }
    if Fitting(config, s.pooled.all, |txs|) {
      AddedIsPromoted(s.pooled, t.pooled, txs, config.priceBump, dirty, s.nonces, b.promoted, stateNonce, balance,
                      maxGas, config.accountQueue, t.locals, b.accounts);
    }
    assert txs == [] ==> dirty == {};
  }

  lemma NoneTrimmed(s: Snapshot, locals: set<Addr>, config: Config, stateNonce: Addr -> nat)
    ensures IsTrimmed(s, s, locals, config, stateNonce)
  {
    NoneCut(s.pending, s.nonces, stateNonce);
    assert forall a: Addr :: LowAt(s.queue, s.queue, a);
  }

  lemma FairIsTrimmed(s: Snapshot, t: Snapshot, locals: set<Addr>, config: Config, stateNonce: Addr -> nat)
    requires FairShare(s.pending, t.pending, locals, config) && AllLow(s.queue, t.queue)
    requires AllCut(s.pending, s.nonces, t.pending, t.nonces, stateNonce)
    ensures IsTrimmed(s, t, locals, config, stateNonce)
  {
    forall a: Addr | At(t.pending, a) != At(s.pending, a)
      ensures a !in locals && Len(s.pending, a) > config.accountSlots && Total(s.pending) > config.globalSlots
    {
      assert LowAt(s.pending, t.pending, a);
      if Len(t.pending, a) == Len(s.pending, a) {
        LowSame(At(s.pending, a), At(t.pending, a));
      }
    }
  }

  /** No account has more queued when accounts have been promoted. */
  lemma PromotedTotal(s: Snapshot, t: Snapshot, stateNonce: Addr -> nat, balance: Addr -> nat, maxGas: nat, limit: nat,
                      locals: set<Addr>, accounts: seq<Addr>)
    requires EachPromoted(s, t, stateNonce, balance, maxGas, limit, locals, accounts)
    ensures Total(t.queue) <= Total(s.queue)
  {
    forall a: Addr
      ensures |At(t.queue, a)| <= |At(s.queue, a)|
    {
      if a in accounts {
        assert PromotedAt(s.pending, s.queue, s.nonces, t.pending, t.queue, stateNonce, balance, maxGas, limit, locals,
                          a);
        PromotedShrinks(At(s.pending, a), At(s.queue, a), At(t.pending, a), At(t.queue, a), stateNonce(a),
                        NonceFor(s.nonces, stateNonce, a), balance(a), maxGas, limit, a in locals);
      } else {
        assert SameAt(s.pending, s.queue, t.pending, t.queue, a);
      }
    }
    TotalLess(s.queue, t.queue);
  }

  lemma PromotedShrinks(p: Items, q: Items, p': Items, q': Items, stateNonce: nat, nonce: nat, balance: nat,
                        maxGas: nat,
                        limit: nat, local: bool)
    requires IsPromoted(p, q, p', q', stateNonce, nonce, balance, maxGas, limit, local)
    ensures q'.Keys <= q.Keys && |q'| <= |q|
  {
    var left := NotReady(Payable(q, stateNonce, balance, maxGas), nonce);
    assert left.Keys <= q.Keys;
    assert q'.Keys <= left.Keys;
    NotLonger(q, q');
  }

  ghost predicate NoncesKept(queue: Lists, nonces: Nonces, nonces': Nonces, stateNonce: Addr -> nat,
                             balance: Addr -> nat, maxGas: nat, accounts: seq<Addr>) {
    forall a: Addr {:trigger NonceKept(queue, nonces, nonces', stateNonce, balance, maxGas, a)} ::
      && NonceKept(queue, nonces, nonces', stateNonce, balance, maxGas, a)
      && (a !in accounts ==> NonceFor(nonces', stateNonce, a) == NonceFor(nonces, stateNonce, a))
  }

  /** The same for all accounts. */
  ghost predicate NoncesFollow(s: Snapshot, t: Snapshot, stateNonce: Addr -> nat, balance: Addr -> nat, maxGas: nat) {
    forall a: Addr {:trigger NonceKept(s.queue, s.nonces, t.nonces, stateNonce, balance, maxGas, a)} ::
      NonceKept(s.queue, s.nonces, t.nonces, stateNonce, balance, maxGas, a)
  }

  lemma NonceStaysOne(queue: Lists, nonces: Nonces, pending: Lists, pending': Lists, queue': Lists, nonces': Nonces,
                      nonces'': Nonces,
                      stateNonce: Addr -> nat, balance: Addr -> nat, maxGas: nat, accounts: seq<Addr>, x: Addr)
    requires NoncesKept(queue, nonces, nonces', stateNonce, balance, maxGas, accounts)
    requires x in accounts ==> Beyond(queue', nonces', stateNonce, x)
    requires x !in accounts ==> SameAt(pending, queue, pending', queue', x)
    requires NonceKept(queue', nonces', nonces'', stateNonce, balance, maxGas, x)
    ensures NonceKept(queue, nonces, nonces'', stateNonce, balance, maxGas, x)
  {
    assert NonceKept(queue, nonces, nonces', stateNonce, balance, maxGas, x);
    if x in accounts {
      NoneReadyBeyond(Payable(At(queue', x), stateNonce(x), balance(x), maxGas), NonceFor(nonces', stateNonce, x));
    }
  }

  /** One more account has been promoted. */
  lemma NoncesStay(queue: Lists, nonces: Nonces, pending: Lists, pending': Lists, queue': Lists, nonces': Nonces,
                   nonces'': Nonces,
                   stateNonce: Addr -> nat, balance: Addr -> nat, maxGas: nat, limit: nat, locals: set<Addr>,
                   accounts: seq<Addr>, x: Addr)
    requires NoncesKept(queue, nonces, nonces', stateNonce, balance, maxGas, accounts)
    requires ArePromoted(pending, queue, nonces, pending', queue', stateNonce, balance, maxGas, limit, locals, accounts)
    requires AllBeyond(queue, nonces, queue', nonces', stateNonce, accounts)
    requires OnlyNonce(nonces', nonces'', stateNonce, x)
    requires NonceKept(queue', nonces', nonces'', stateNonce, balance, maxGas, x)
    ensures NoncesKept(queue, nonces, nonces'', stateNonce, balance, maxGas, accounts + [x])
  {
    assert x in accounts ==> Beyond(queue', nonces', stateNonce, x);
    assert x !in accounts ==> SameAt(pending, queue, pending', queue', x);
    NonceStaysOne(queue, nonces, pending, pending', queue', nonces', nonces'', stateNonce, balance, maxGas, accounts,
                  x);
    forall a: Addr | a != x
      ensures NonceKept(queue, nonces, nonces'', stateNonce, balance, maxGas, a)
      ensures a !in accounts ==> NonceFor(nonces'', stateNonce, a) == NonceFor(nonces, stateNonce, a)
    {
      assert NonceKept(queue, nonces, nonces', stateNonce, balance, maxGas, a);
      assert NonceFor(nonces'', stateNonce, a) == NonceFor(nonces', stateNonce, a);
    }
  }

  /** The accounts have been promoted, and their pending nonces follow. */
  ghost predicate EachPromoted(s: Snapshot, t: Snapshot, stateNonce: Addr -> nat, balance: Addr -> nat, maxGas: nat,
                               limit: nat, locals: set<Addr>,
                               accounts: seq<Addr>) {
    && ArePromoted(s.pending, s.queue, s.nonces, t.pending, t.queue, stateNonce, balance, maxGas, limit, locals,
                   accounts)
    && AllBeyond(s.queue, s.nonces, t.queue, t.nonces, stateNonce, accounts)
    && NoncesKept(s.queue, s.nonces, t.nonces, stateNonce, balance, maxGas, accounts)
  }

  lemma NonePromoted(s: Snapshot, stateNonce: Addr -> nat, balance: Addr -> nat, maxGas: nat, limit: nat,
                     locals: set<Addr>)
    ensures EachPromoted(s, s, stateNonce, balance, maxGas, limit, locals, [])
  {
  }

  lemma OneMorePromoted(s: Snapshot, t: Snapshot, u: Snapshot, stateNonce: Addr -> nat, balance: Addr -> nat,
                        maxGas: nat, limit: nat, locals: set<Addr>,
                        accounts: seq<Addr>, x: Addr)
    requires EachPromoted(s, t, stateNonce, balance, maxGas, limit, locals, accounts)
    requires OnlyAt(t.pending, u.pending, x) && OnlyAt(t.queue, u.queue, x)
    requires OnlyNonce(t.nonces, u.nonces, stateNonce, x)
    requires PromotedAt(t.pending, t.queue, t.nonces, u.pending, u.queue, stateNonce, balance, maxGas, limit, locals, x)
    requires Beyond(u.queue, u.nonces, stateNonce, x)
    requires NonceKept(t.queue, t.nonces, u.nonces, stateNonce, balance, maxGas, x)
    ensures EachPromoted(s, u, stateNonce, balance, maxGas, limit, locals, accounts + [x])
  {
    PromotedOneMore(s.pending, s.queue, s.nonces, t.pending, t.queue, t.nonces, u.pending, u.queue, stateNonce, balance,
                    maxGas, limit, locals, accounts, x);
    BeyondOneMore(s.queue, s.nonces, t.queue, t.nonces, u.queue, u.nonces, stateNonce, accounts, x);
    NoncesStay(s.queue, s.nonces, s.pending, t.pending, t.queue, t.nonces, u.nonces, stateNonce, balance, maxGas, limit,
               locals, accounts, x);
  }

  lemma EachNotReady(s: Snapshot, t: Snapshot, stateNonce: Addr -> nat, balance: Addr -> nat, maxGas: nat, limit: nat,
                     locals: set<Addr>, accounts: seq<Addr>)
    requires EachPromoted(s, t, stateNonce, balance, maxGas, limit, locals, accounts)
    ensures forall a | a in accounts :: !ReadyAt(t.queue, t.nonces, stateNonce, a)
  {
    BeyondNotReady(s.queue, s.nonces, t.queue, t.nonces, stateNonce, accounts);
  }

  /** The account when it has been promoted. */
  lemma PreparedAt(s: Pooled, added: Pooled, prom: Snapshot, nonces0: Nonces, stateNonce0: Addr -> nat,
                   stateNonce: Addr -> nat, balance: Addr -> nat, maxGas: nat, limit: nat, locals: set<Addr>,
                   accounts: seq<Addr>, a: Addr)
    requires PooledOk(added) && KeysAt(s, added, a) && RunIn(s.pending, nonces0, stateNonce0, a)
    requires AreAdded(s, added, map[], prom, stateNonce, balance, maxGas, limit, locals, accounts)
    ensures IsRunOf(At(added.pending, a), stateNonce0(a), NonceFor(nonces0, stateNonce0, a))
    ensures At(added.pending, a).Keys !! At(added.queue, a).Keys
    ensures Prepared(At(added.pending, a), At(added.queue, a), At(prom.pending, a), At(prom.queue, a),
                     Dirty(s, added, a), stateNonce(a), balance(a), maxGas, limit, a in locals)
    ensures NonceFor(prom.nonces, stateNonce, a) >= stateNonce(a)
    ensures !(Dirty(s, added, a) && stateNonce(a) in Payable(At(added.queue, a), stateNonce(a), balance(a), maxGas)) ==>
              NonceFor(prom.nonces, stateNonce, a) == stateNonce(a)
  {
    assert AddrIn(added.pending, added.queue, added.all, a);
    assert a in accounts <==> Dirty(s, added, a);
    assert NonceKept(added.queue, map[], prom.nonces, stateNonce, balance, maxGas, a);
    if a in accounts {
      assert PromotedAt(added.pending, added.queue, map[], prom.pending, prom.queue, stateNonce, balance, maxGas, limit,
                        locals, a);
      if stateNonce(a) !in Payable(At(added.queue, a), stateNonce(a), balance(a), maxGas) {
        ReadyIsNone(At(added.queue, a), stateNonce(a), balance(a), maxGas);
      }
    } else {
      assert SameAt(added.pending, added.queue, prom.pending, prom.queue, a);
    }
  }

  /** The account is not cut, or has no pending transaction that the new state has passed. */
  ghost predicate Spared(s: Pooled, added: Pooled, locals: set<Addr>, config: Config, stateNonce: Addr -> nat,
                         a: Addr) {
    || (forall n | n in At(s.pending, a) :: n >= stateNonce(a))
    || a in locals || |At(added.pending, a)| + |At(added.queue, a)| <= config.accountSlots
  }

  ghost predicate AllSpared(s: Pooled, added: Pooled, locals: set<Addr>, config: Config, stateNonce: Addr -> nat) {
    forall a: Addr {:trigger Spared(s, added, locals, config, stateNonce, a)} ::
      Spared(s, added, locals, config, stateNonce, a)
  }

  /** A list that is a run in front stays so when it loses its highest nonces. */
  lemma StaysRunLow(p: Items, p': Items, nonce: nat, balance: nat, maxGas: nat)
    requires StaysRun(p, nonce, balance, maxGas) && LowPart(p, p')
    ensures StaysRun(p', nonce, balance, maxGas)
  {
    forall n, k: nat | n in p' && nonce <= k <= n
      && (forall g | g in p' && nonce <= g <= n :: !TxList.TooDear(p'[g], balance, maxGas))
      ensures k in p'
    {
      forall g | g in p && nonce <= g <= n
        ensures !TxList.TooDear(p[g], balance, maxGas)
      {
        assert g in p';
      }
    }
  }

  /** What is promoted without a gap is a run in front, or the pending nonce is that of the state. */
  lemma PreparedStays(p: Items, q: Items, p1: Items, q1: Items, dirty: bool, s: nat, t: nat, nonce: nat, balance: nat,
                      maxGas: nat, limit: nat, local: bool, n1: nat)
    requires IsRunOf(p, s, t) && p.Keys !! q.Keys && Prepared(p, q, p1, q1, dirty, nonce, balance, maxGas, limit, local)
    requires !Gapped(p, q, dirty, s, nonce, balance, maxGas)
    requires !(dirty && nonce in Payable(q, nonce, balance, maxGas)) ==> n1 == nonce
    ensures if nonce in p1 && !TxList.TooDear(p1[nonce], balance, maxGas) then StaysRun(p1, nonce, balance, maxGas)
            else n1 == nonce
  {
    NoGapIsRun(p, q, p1, q1, dirty, s, t, nonce, balance, maxGas, limit, local);
    DemotedRunIff(p1, nonce, balance, maxGas);
  }

  /** This is still so when it has been cut, unless the cut goes below the nonce of the state. */
  lemma TrimmedStays(p1: Items, n1: nat, p2: Items, n2: nat, nonce: nat, balance: nat, maxGas: nat)
    requires n1 >= nonce && NonceCut(p1, n1, p2, n2) && (p2 == p1 || forall n | n in p1 :: n >= nonce)
    requires if nonce in p1 && !TxList.TooDear(p1[nonce], balance, maxGas) then StaysRun(p1, nonce, balance, maxGas)
             else n1 == nonce
    ensures if nonce in p2 && !TxList.TooDear(p2[nonce], balance, maxGas) then StaysRun(p2, nonce, balance, maxGas)
            else n2 == nonce
  {
    if nonce in p2 && !TxList.TooDear(p2[nonce], balance, maxGas) {
      StaysRunLow(p1, p2, nonce, balance, maxGas);
    }
  }

  /** A spared account is cut only where the new state has passed nothing. */
  lemma SparedIsCut(s: Pooled, added: Pooled, prom: Snapshot, t: Snapshot, stateNonce: Addr -> nat,
                    balance: Addr -> nat,
                    maxGas: nat, config: Config, locals: set<Addr>, dirty: bool, a: Addr)
    requires KeysAt(s, added, a) && IsTrimmed(prom, t, locals, config, stateNonce)
    requires Prepared(At(added.pending, a), At(added.queue, a), At(prom.pending, a), At(prom.queue, a), dirty,
                      stateNonce(a), balance(a), maxGas, config.accountQueue, a in locals)
    requires Spared(s, added, locals, config, stateNonce, a) || Total(prom.pending) <= config.globalSlots
    ensures At(t.pending, a) == At(prom.pending, a) || forall n | n in At(prom.pending, a) :: n >= stateNonce(a)
  {
    var p, q, p1 := At(added.pending, a), At(added.queue, a), At(prom.pending, a);
    if At(t.pending, a) != p1 {
      assert |p1| > config.accountSlots;
      if |p| + |q| <= config.accountSlots {
        assert p1.Keys <= p.Keys + q.Keys;
        UnionSize(p, q, p1);
      }
    }
  }

  lemma UnionSize(p: Items, q: Items, p1: Items)
    requires p1.Keys <= p.Keys + q.Keys
    ensures |p1| <= |p| + |q|
  {
    assert p1.Keys == (p1.Keys * p.Keys) + (p1.Keys - p.Keys);
    SubsetSize(p1.Keys * p.Keys, p.Keys);
    SubsetSize(p1.Keys - p.Keys, q.Keys);
    assert |p1.Keys| == |p1| && |p.Keys| == |p| && |q.Keys| == |q|;
  }

  lemma SubsetSize(some: set<nat>, all: set<nat>)
    requires some <= all
    ensures |some| <= |all|
  {
    assert all == some + (all - some);
  }

  lemma NoGapAt(s: Pooled, added: Pooled, prom: Snapshot, t: Snapshot, nonces0: Nonces, stateNonce0: Addr -> nat,
                d: Snapshot, stateNonce: Addr -> nat, balance: Addr -> nat, maxGas: nat, config: Config,
                locals: set<Addr>, accounts: seq<Addr>, a: Addr)
    requires PooledOk(added) && KeysAt(s, added, a) && RunIn(s.pending, nonces0, stateNonce0, a)
    requires AreAdded(s, added, map[], prom, stateNonce, balance, maxGas, config.accountQueue, locals, accounts)
    requires IsTrimmed(prom, t, locals, config, stateNonce) && IsRevalidated(t, d, stateNonce, balance, maxGas)
    requires !GapIn(s, added, stateNonce0, stateNonce, balance, maxGas, a)
    requires Spared(s, added, locals, config, stateNonce, a) || Total(prom.pending) <= config.globalSlots
    ensures RunIn(d.pending, d.nonces, stateNonce, a)
  {
    var dirty, nonce := Dirty(s, added, a), stateNonce(a);
    PreparedAt(s, added, prom, nonces0, stateNonce0, stateNonce, balance, maxGas, config.accountQueue, locals, accounts,
               a);
    PreparedStays(At(added.pending, a), At(added.queue, a), At(prom.pending, a), At(prom.queue, a), dirty,
                  stateNonce0(a), NonceFor(nonces0, stateNonce0, a), nonce, balance(a), maxGas, config.accountQueue,
                  a in locals, NonceFor(prom.nonces, stateNonce, a));
    SparedIsCut(s, added, prom, t, stateNonce, balance, maxGas, config, locals, dirty, a);
    assert NonceCutAt(prom.pending, prom.nonces, t.pending, t.nonces, stateNonce, a);
    TrimmedStays(At(prom.pending, a), NonceFor(prom.nonces, stateNonce, a), At(t.pending, a),
                 NonceFor(t.nonces, stateNonce, a), nonce, balance(a), maxGas);
    RevalidatedRunIff(t, d, stateNonce, balance, maxGas, a);
  }

  /** Without gaps, the pending lists are runs when they have been demoted, if no cut has gone too deep. */
  lemma NoGapsRun(s: Pooled, added: Pooled, prom: Snapshot, t: Snapshot, nonces0: Nonces, stateNonce0: Addr -> nat,
                  d: Snapshot, stateNonce: Addr -> nat, balance: Addr -> nat, maxGas: nat, config: Config,
                  locals: set<Addr>, accounts: seq<Addr>)
    requires PooledOk(added) && (forall a: Addr {:trigger KeysAt(s, added, a)} :: KeysAt(s, added, a))
    requires Runs(s.pending, nonces0, stateNonce0)
    requires AreAdded(s, added, map[], prom, stateNonce, balance, maxGas, config.accountQueue, locals, accounts)
    requires IsTrimmed(prom, t, locals, config, stateNonce) && IsRevalidated(t, d, stateNonce, balance, maxGas)
    requires NoGaps(s, added, stateNonce0, stateNonce, balance, maxGas)
    requires AllSpared(s, added, locals, config, stateNonce) || Total(prom.pending) <= config.globalSlots
    ensures Runs(d.pending, d.nonces, stateNonce)
  {
    forall a: Addr
      ensures RunIn(d.pending, d.nonces, stateNonce, a)
    {
      assert KeysAt(s, added, a) && RunIn(s.pending, nonces0, stateNonce0, a)
             && !GapIn(s, added, stateNonce0, stateNonce, balance, maxGas, a);
      assert AllSpared(s, added, locals, config, stateNonce) ==> Spared(s, added, locals, config, stateNonce, a);
      NoGapAt(s, added, prom, t, nonces0, stateNonce0, d, stateNonce, balance, maxGas, config, locals, accounts, a);
    }
  }

  /** With a gap, they are not, and stay so when more is promoted. */
  lemma GapBreaks(s: Pooled, added: Pooled, prom: Snapshot, t: Snapshot, nonces0: Nonces, stateNonce0: Addr -> nat,
                  d: Snapshot, u: Snapshot, nonces: Nonces,
                  stateNonce: Addr -> nat, balance: Addr -> nat, maxGas: nat, limit: nat, locals: set<Addr>,
                  accounts: seq<Addr>, a: Addr)
    requires PooledOk(added) && KeysAt(s, added, a) && RunIn(s.pending, nonces0, stateNonce0, a)
    requires AreAdded(s, added, map[], prom, stateNonce, balance, maxGas, limit, locals, accounts)
    requires At(t.pending, a) == At(prom.pending, a) && LowAt(prom.queue, t.queue, a)
    requires DemotedAt(t.pending, t.queue, d.pending, d.queue, stateNonce, balance, maxGas, a)
    requires PromotedAt(d.pending, d.queue, d.nonces, u.pending, u.queue, stateNonce, balance, maxGas, limit, locals, a)
    requires GapIn(s, added, stateNonce0, stateNonce, balance, maxGas, a)
    ensures !RunIn(u.pending, nonces, stateNonce, a)
  {
    PreparedAt(s, added, prom, nonces0, stateNonce0, stateNonce, balance, maxGas, limit, locals, accounts, a);
    GapStays(At(added.pending, a), At(added.queue, a), At(prom.pending, a), At(prom.queue, a), stateNonce0(a),
             NonceFor(nonces0, stateNonce0, a), stateNonce(a), balance(a), maxGas, limit, a in locals, At(t.queue, a),
             At(u.pending, a), At(u.queue, a), NonceFor(d.nonces, stateNonce, a), NonceFor(nonces, stateNonce, a));
  }

  /** What cannot be executed has been demoted, and the pending nonces follow the pending lists. */
  ghost predicate IsRevalidated(t: Snapshot, d: Snapshot, stateNonce: Addr -> nat, balance: Addr -> nat, maxGas: nat) {
    && AllDemoted(t.pending, t.queue, d.pending, d.queue, stateNonce, balance, maxGas, {})
    && NoncesSet(d.pending, t.nonces, d.nonces, {}) && NoneEmpty(d.pending)
  }

  /** What is pending in front can be executed, and nothing is missing before the first transaction that is too dear. */
  ghost predicate StaysRun(p: Items, nonce: nat, balance: nat, maxGas: nat) {
    forall n, k: nat | n in p && nonce <= k <= n
      && (forall g | g in p && nonce <= g <= n :: !TxList.TooDear(p[g], balance, maxGas)) :: k in p
  }

  /** Whatever the lists are before they are demoted: when they are runs after it. */
  lemma RevalidatedRunIff(t: Snapshot, d: Snapshot, stateNonce: Addr -> nat, balance: Addr -> nat, maxGas: nat, a: Addr)
    requires IsRevalidated(t, d, stateNonce, balance, maxGas)
    ensures var p, nonce := At(t.pending, a), stateNonce(a);
            RunIn(d.pending, d.nonces, stateNonce, a) <==>
            if nonce in p && !TxList.TooDear(p[nonce], balance(a), maxGas) then StaysRun(p, nonce, balance(a), maxGas)
            else NonceFor(t.nonces, stateNonce, a) == nonce
  {
    assert DemotedAt(t.pending, t.queue, d.pending, d.queue, stateNonce, balance, maxGas, a);
    DemotedRunIff(At(t.pending, a), stateNonce(a), balance(a), maxGas);
    if a in d.pending {
      assert NonceSetAt(d.pending, d.nonces, a);
    }
  }

  lemma DemotedRunIff(p: Items, nonce: nat, balance: nat, maxGas: nat)
    ensures var d := Demoted(p, nonce, balance, maxGas);
            if nonce in p && !TxList.TooDear(p[nonce], balance, maxGas)
            then nonce in d && (forall n | n in d :: n >= nonce)
              && (StaysRun(p, nonce, balance, maxGas) <==> forall n, k: nat | n in d && nonce <= k <= n :: k in d)
            else d == map[]
  {
    var d := Demoted(p, nonce, balance, maxGas);
    if nonce in p && !TxList.TooDear(p[nonce], balance, maxGas) {
      FrontStays(p, nonce, balance, maxGas, nonce);
      forall n: nat
        ensures n in d <==>
                  n in p && n >= nonce && forall g | g in p && nonce <= g <= n :: !TxList.TooDear(p[g], balance, maxGas)
      {
        InDemoted(p, nonce, balance, maxGas, n);
      }
    }
  }

  lemma InDemoted(p: Items, nonce: nat, balance: nat, maxGas: nat, n: nat)
    requires nonce in p && !TxList.TooDear(p[nonce], balance, maxGas)
    ensures n in Demoted(p, nonce, balance, maxGas) <==>
            n in p && n >= nonce && forall g | g in p && nonce <= g <= n :: !TxList.TooDear(p[g], balance, maxGas)
  {
    var dear := TxList.Dear(From(p, nonce), balance, maxGas);
    FrontStays(p, nonce, balance, maxGas, nonce);
    if n in Demoted(p, nonce, balance, maxGas) {
      forall g | g in p && nonce <= g <= n
        ensures !TxList.TooDear(p[g], balance, maxGas)
      {
        assert g in dear <==> TxList.TooDear(p[g], balance, maxGas);
      }
    } else if n in p && n >= nonce && forall g | g in p && nonce <= g <= n :: !TxList.TooDear(p[g], balance, maxGas) {
      FrontStays(p, nonce, balance, maxGas, n);
    }
  }

  /**
    When pending transactions are again the next ones to execute. With room for the transactions set free among the
    pending ones: if and only if no account gets a gap. With too many: if no account gets a gap and none is cut that the
    new state has gone past.
   */
  ghost predicate SettlesIff(s: Pooled, txs: seq<(Tx, bool)>, stateNonce0: Addr -> nat, config: Config,
                             locals: set<Addr>, stateNonce: Addr -> nat, balance: Addr -> nat, maxGas: nat,
                             settled: bool, executable: bool) {
    var added := AddAll(s, txs, config.priceBump);
    var noGaps := NoGaps(s, added, stateNonce0, stateNonce, balance, maxGas);
    && (txs == [] ==> settled)
    && (Roomy(config, s.all, |txs|) ==> (settled <==> noGaps) && (executable <==> noGaps))
    && (Fitting(config, s.all, |txs|) && AllSpared(s, added, locals, config, stateNonce) && noGaps ==> settled)
  }

  /** Both cases of a reset: nothing is added, or nothing is discarded for it. */
  lemma ResetRunsIff(s: Pooled, nonces0: Nonces, stateNonce0: Addr -> nat, txs: seq<(Tx, bool)>, config: Config,
                     prom: Snapshot, t: Snapshot, d: Snapshot, u: Snapshot, nonces: Nonces,
                     stateNonce: Addr -> nat, balance: Addr -> nat, maxGas: nat, locals: set<Addr>, accounts: seq<Addr>)
    requires PooledOk(s) && Runs(s.pending, nonces0, stateNonce0)
    requires txs == [] ==> t == Snapshot(s.pending, s.queue, map[])
    requires Fitting(config, s.all, |txs|) ==>
               && AreAdded(s, AddAll(s, txs, config.priceBump), map[], prom, stateNonce, balance, maxGas,
                           config.accountQueue, locals, accounts)
               && IsTrimmed(prom, t, locals, config, stateNonce)
    requires Roomy(config, s.all, |txs|) ==> Total(prom.pending) <= config.globalSlots
    requires d in Revalidations(t, stateNonce, balance, maxGas)
    requires u in Renewings(d, stateNonce, balance, maxGas, config.accountQueue, locals)
    ensures txs == [] ==> Runs(d.pending, d.nonces, stateNonce)
    ensures var added := AddAll(s, txs, config.priceBump);
            && (Fitting(config, s.all, |txs|) && AllSpared(s, added, locals, config, stateNonce) ==>
                  NoGaps(s, added, stateNonce0, stateNonce, balance, maxGas) ==> Runs(d.pending, d.nonces, stateNonce))
            && (Roomy(config, s.all, |txs|) ==>
                  if NoGaps(s, added, stateNonce0, stateNonce, balance, maxGas)
                    then Runs(d.pending, d.nonces, stateNonce)
                  else !Runs(u.pending, nonces, stateNonce))
  {
    if txs == [] {
      ResetRuns(s.pending, s.queue, d.pending, d.queue, nonces0, stateNonce0, d.nonces, stateNonce, balance, maxGas);
    }
    if Fitting(config, s.all, |txs|) {
      ResetIff(s, txs, config, prom, t, nonces0, stateNonce0, d, u, nonces, stateNonce, balance, maxGas, locals,
               accounts);
    }
  }

  /**
    If nothing is discarded, the pending lists are runs after the reset if there is no gap and no account is cut below
    the nonce of its state. If there are not too many pending transactions, they are if and only if there is no gap.
   */
  lemma ResetIff(s: Pooled, txs: seq<(Tx, bool)>, config: Config, prom: Snapshot, t: Snapshot, nonces0: Nonces,
                 stateNonce0: Addr -> nat, d: Snapshot, u: Snapshot, nonces: Nonces, stateNonce: Addr -> nat,
                 balance: Addr -> nat, maxGas: nat, locals: set<Addr>, accounts: seq<Addr>)
    requires PooledOk(s) && Runs(s.pending, nonces0, stateNonce0)
    requires AreAdded(s, AddAll(s, txs, config.priceBump), map[], prom, stateNonce, balance, maxGas,
                      config.accountQueue, locals, accounts)
    requires IsTrimmed(prom, t, locals, config, stateNonce) && IsRevalidated(t, d, stateNonce, balance, maxGas)
    requires AllPromoted(d, u, stateNonce, balance, maxGas, config.accountQueue, locals)
    ensures var added := AddAll(s, txs, config.priceBump);
            && (AllSpared(s, added, locals, config, stateNonce) ==>
                  NoGaps(s, added, stateNonce0, stateNonce, balance, maxGas) ==> Runs(d.pending, d.nonces, stateNonce))
            && (Total(prom.pending) <= config.globalSlots ==>
                  if NoGaps(s, added, stateNonce0, stateNonce, balance, maxGas)
                    then Runs(d.pending, d.nonces, stateNonce)
                  else !Runs(u.pending, nonces, stateNonce))
  {
    var added := AddAll(s, txs, config.priceBump);
    AddAllKeeps(s, txs, config.priceBump);
    forall a: Addr
      ensures KeysAt(s, added, a)
    {
      AddAllKeys(s, txs, config.priceBump, a);
    }
    if NoGaps(s, added, stateNonce0, stateNonce, balance, maxGas) {
      if AllSpared(s, added, locals, config, stateNonce) || Total(prom.pending) <= config.globalSlots {
        NoGapsRun(s, added, prom, t, nonces0, stateNonce0, d, stateNonce, balance, maxGas, config, locals, accounts);
      }
    } else if Total(prom.pending) <= config.globalSlots {
      var a: Addr :| GapIn(s, added, stateNonce0, stateNonce, balance, maxGas, a);
      assert KeysAt(s, added, a) && RunIn(s.pending, nonces0, stateNonce0, a);
      assert At(t.pending, a) == At(prom.pending, a) && LowAt(prom.queue, t.queue, a);
      assert DemotedAt(t.pending, t.queue, d.pending, d.queue, stateNonce, balance, maxGas, a);
      assert PromotedAt(d.pending, d.queue, d.nonces, u.pending, u.queue, stateNonce, balance, maxGas,
                        config.accountQueue, locals, a);
      GapBreaks(s, added, prom, t, nonces0, stateNonce0, d, u, nonces, stateNonce, balance, maxGas,
                config.accountQueue, locals, accounts, a);
      assert !RunIn(u.pending, nonces, stateNonce, a);
    }
  }
}
