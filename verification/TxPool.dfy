/**
  TxPool of core/tx_pool.go: transactions of every account are pending, if they can be executed
  one after the other from the account's nonce on, or queued. The lists of an account are values
  here.
 */
module TxPool {
  import opened TxSortedMap
  import opened PoolLists
  import opened PoolContents
  import opened PoolReset
  import TxList
  import PricedList

  datatype Step =
    | Submit(tx: Tx, local: bool, valid: bool)
    | SubmitAll(txs: seq<(Tx, bool)>, local: bool)
    | Remove(tx: Tx)
    | Reprice(price: nat)
    | NewHead(stateNonce: Addr -> nat, balance: Addr -> nat, maxGas: nat, reinject: seq<(Tx, bool)>)

  /** A new head whose reorg gives transactions back to the pool. */
  predicate Reinjects(step: Step) {
    step.NewHead? && |step.reinject| > 0
  }

  /** The pool as a value, with the state of the chain's head. */
  datatype View =
    View(stand: Standing, stateNonce: Addr -> nat, balance: Addr -> nat, maxGas: nat, gasPrice: nat)

  /** How a step came about. */
  datatype Trace =
    | Submitted(promoted: Snapshot, added: Standing, note: Note)
    | Batched(batch: Batch)
    | Removed
    | Repriced(drop: seq<Tx>)
    | Renewed(batch: Batch, lists: Snapshot, demoted: Snapshot, renewed: Snapshot)

  /** A transaction is added, and its sender promoted if it has a new nonce; then the lists are cut. */
  ghost predicate IsSubmission(config: Config, v: View, t: Standing, tx: Tx, local: bool, valid: bool,
                               promoted: Snapshot, added: Standing, note: Note) {
    && (added, note) in Additions(v.stand, tx, local, valid, config, v.stateNonce) && t.locals == added.locals
    && if note.ok && !note.replaced then
         && promoted in Promotions(ListsOf(added), [tx.sender], v.stateNonce, v.balance, v.maxGas, config.accountQueue,
                                   t.locals)
         && ListsOf(t) in Cuttings(promoted, t.locals, config, v.stateNonce)
         && (AllRoomy(config, added.pooled.queue, added.pooled.all, 0) ==> ListsOf(t) == promoted)
       else t == added
  }

  /** Exactly the remote transactions below the price go. */
  ghost predicate IsRepricing(v: View, w: View, price: nat, drop: seq<Tx>) {
    && (forall tx :: tx in drop <==> tx in v.stand.pooled.all && tx.sender !in v.stand.locals && tx.price < price)
    && w == v.(gasPrice := price,
               stand := Standing(RemoveAll(v.stand.pooled, drop),
                                 RemovedNonces(v.stand.pooled, v.stand.nonces, v.stateNonce, drop), v.stand.locals))
  }

  /** The transactions set free are added, what cannot be executed is demoted, and what follows is promoted. */
  ghost predicate IsRenewal(config: Config, v: View, w: View, reinject: seq<(Tx, bool)>, batch: Batch, added: Snapshot,
                            demoted: Snapshot, renewed: Snapshot) {
    && (batch, added, w.stand.locals)
         in Batches(Standing(v.stand.pooled, map[], v.stand.locals), reinject, false, config, w.stateNonce, w.balance,
                    w.maxGas)
    && demoted in Revalidations(added, w.stateNonce, w.balance, w.maxGas)
    && renewed in Renewings(demoted, w.stateNonce, w.balance, w.maxGas, config.accountQueue, w.stand.locals)
    && ListsOf(w.stand) in Cuttings(renewed, w.stand.locals, config, w.stateNonce)
  }

  /** What a step does. */
  ghost predicate IsStep(config: Config, v: View, w: View, step: Step, trace: Trace) {
    match step
    case Submit(tx, local, valid) =>
      && trace.Submitted? && w == v.(stand := w.stand)
      && IsSubmission(config, v, w.stand, tx, local, valid, trace.promoted, trace.added, trace.note)
    case SubmitAll(txs, local) =>
      && trace.Batched? && w == v.(stand := w.stand)
      && (trace.batch, ListsOf(w.stand), w.stand.locals)
           in Batches(v.stand, txs, local, config, v.stateNonce, v.balance, v.maxGas)
    case Remove(tx) =>
      && trace.Removed? && w == v.(stand := w.stand)
      && w.stand == Standing(RemoveOne(v.stand.pooled, tx),
                             RemovalNonces(v.stand.pooled, v.stand.nonces, v.stateNonce, tx), v.stand.locals)
    case Reprice(price) => trace.Repriced? && IsRepricing(v, w, price, trace.drop)
    case NewHead(stateNonce, balance, maxGas, reinject) =>
      && trace.Renewed? && w == View(w.stand, stateNonce, balance, maxGas, v.gasPrice)
      && IsRenewal(config, v, w, reinject, trace.batch, trace.lists, trace.demoted, trace.renewed)
  }

  /** The views that a step may lead to, and how. */
  ghost function StepsFrom(config: Config, v: View, step: Step): iset<(View, Trace)> {
    iset x: (View, Trace) | IsStep(config, v, x.0, step, x.1)
  }

  ghost function Submissions(config: Config, v: View, tx: Tx, local: bool, valid: bool)
      : iset<(Standing, Snapshot, Standing, Note)> {
    iset x: (Standing, Snapshot, Standing, Note) | IsSubmission(config, v, x.0, tx, local, valid, x.1, x.2, x.3)
  }

  lemma SubmissionIs(config: Config, v: View, w: View, tx: Tx, local: bool, valid: bool, promoted: Snapshot,
                     added: Standing, note: Note, before: Snapshot, after: Snapshot, locals: set<Addr>,
                     stateNonce: Addr -> nat, balance: Addr -> nat, maxGas: nat)
    requires v == View(v.stand, stateNonce, balance, maxGas, v.gasPrice) && note.ok && !note.replaced
    requires before == ListsOf(added) && after == ListsOf(w.stand) && locals == added.locals == w.stand.locals
    requires (added, note) in Additions(v.stand, tx, local, valid, config, stateNonce)
    requires promoted in Promotions(before, [tx.sender], stateNonce, balance, maxGas, config.accountQueue, locals)
    requires after in Cuttings(promoted, locals, config, stateNonce)
    requires AllRoomy(config, added.pooled.queue, added.pooled.all, 0) ==> after == promoted
    ensures (w.stand, promoted, added, note) in Submissions(config, v, tx, local, valid)
  {
    assert IsSubmission(config, v, w.stand, tx, local, valid, promoted, added, note);
  }

  lemma NotPromoted(config: Config, v: View, tx: Tx, local: bool, valid: bool, promoted: Snapshot, added: Standing,
                    note: Note, stateNonce: Addr -> nat)
    requires v.stateNonce == stateNonce && (!note.ok || note.replaced)
    requires (added, note) in Additions(v.stand, tx, local, valid, config, stateNonce)
    ensures (added, promoted, added, note) in Submissions(config, v, tx, local, valid)
  {
    assert IsSubmission(config, v, added, tx, local, valid, promoted, added, note);
  }

  lemma SubmitIsStep(config: Config, v: View, w: View, step: Step, trace: Trace)
    requires step.Submit? && trace.Submitted? && w == v.(stand := w.stand)
    requires (w.stand, trace.promoted, trace.added, trace.note)
               in Submissions(config, v, step.tx, step.local, step.valid)
    ensures (w, trace) in StepsFrom(config, v, step)
  {
    assert IsStep(config, v, w, step, trace);
  }

  lemma BatchIsStep(config: Config, v: View, w: View, step: Step, trace: Trace)
    requires step.SubmitAll? && trace.Batched? && w == v.(stand := w.stand)
    requires (trace.batch, ListsOf(w.stand), w.stand.locals)
               in Batches(v.stand, step.txs, step.local, config, v.stateNonce, v.balance, v.maxGas)
    ensures (w, trace) in StepsFrom(config, v, step)
  {
    assert IsStep(config, v, w, step, trace);
  }

  lemma RemovalIsStep(config: Config, v: View, w: View, step: Step)
    requires step.Remove?
    requires w == v.(stand := Standing(RemoveOne(v.stand.pooled, step.tx),
                                       RemovalNonces(v.stand.pooled, v.stand.nonces, v.stateNonce, step.tx),
                                       v.stand.locals))
    ensures (w, Removed) in StepsFrom(config, v, step)
  {
    assert IsStep(config, v, w, step, Removed);
  }

  lemma RepricingIsStep(config: Config, v: View, w: View, step: Step, drop: seq<Tx>)
    requires step.Reprice? && IsRepricing(v, w, step.price, drop)
    ensures (w, Repriced(drop)) in StepsFrom(config, v, step)
  {
    assert IsStep(config, v, w, step, Repriced(drop));
  }

  lemma RenewalIsStep(config: Config, v: View, w: View, step: Step, trace: Trace, after: Snapshot, locals: set<Addr>)
    requires step.NewHead? && trace.Renewed? && after == ListsOf(w.stand) && locals == w.stand.locals
    requires w == View(w.stand, step.stateNonce, step.balance, step.maxGas, v.gasPrice)
    requires (trace.batch, trace.lists, locals)
               in Batches(Standing(v.stand.pooled, map[], v.stand.locals), step.reinject, false, config,
                          step.stateNonce, step.balance, step.maxGas)
    requires trace.demoted in Revalidations(trace.lists, step.stateNonce, step.balance, step.maxGas)
    requires trace.renewed in Renewings(trace.demoted, step.stateNonce, step.balance, step.maxGas, config.accountQueue,
                                        locals)
    requires after in Cuttings(trace.renewed, locals, config, step.stateNonce)
    ensures (w, trace) in StepsFrom(config, v, step)
  {
    assert IsStep(config, v, w, step, trace);
  }

  /** Pending transactions are the next ones to execute, and no other is. */
  ghost predicate IsSettled(v: View) {
    && Runs(v.stand.pooled.pending, v.stand.nonces, v.stateNonce)
    && NoneReady(v.stand.pooled.queue, v.stand.nonces, v.stateNonce)
  }

  /**
    A new head leaves no gap: it reinjects nothing, or no account gets a gap and none is cut that the new state has
    gone past.
   */
  ghost predicate IsSafe(config: Config, v: View, step: Step) {
    Reinjects(step) ==>
      var s := v.stand.pooled;
      var added := AddAll(s, step.reinject, config.priceBump);
      && NoGaps(s, added, v.stateNonce, step.stateNonce, step.balance, step.maxGas)
      && Fitting(config, s.all, |step.reinject|)
      && (Roomy(config, s.all, |step.reinject|) || AllSpared(s, added, v.stand.locals, config, step.stateNonce))
  }

  /** The views during a run, step by step. */
  ghost predicate AreSteps(config: Config, steps: seq<Step>, views: seq<View>, traces: seq<Trace>, n: nat) {
    && |views| == n + 1 && |traces| == n <= |steps|
    && (forall i | 0 <= i < n :: (views[i + 1], traces[i]) in StepsFrom(config, views[i], steps[i]))
    && (forall i | 0 <= i < n :: StaysSettled(config, views[i], steps[i], views[i + 1]))
  }

  ghost predicate StaysSettled(config: Config, v: View, step: Step, w: View) {
    IsSettled(v) && IsSafe(config, v, step) ==> IsSettled(w)
  }

  lemma OneStepMore(config: Config, steps: seq<Step>, views: seq<View>, traces: seq<Trace>, i: nat, w: View,
                    trace: Trace)
    requires i < |steps| && AreSteps(config, steps, views, traces, i)
    requires (w, trace) in StepsFrom(config, views[i], steps[i]) && StaysSettled(config, views[i], steps[i], w)
    ensures AreSteps(config, steps, views + [w], traces + [trace], i + 1)
  {
    var more, longer := views + [w], traces + [trace];
    forall k | 0 <= k < i + 1
      ensures (more[k + 1], longer[k]) in StepsFrom(config, more[k], steps[k])
    {
      if k < i {
        assert more[k] == views[k] && more[k + 1] == views[k + 1] && longer[k] == traces[k];
      }
    }
  }

  class Pool {
    const config: Config
    const priced: PricedList.Priced
    // the state of the chain's head
    var stateNonce: Addr -> nat
    var balance: Addr -> nat
    var maxGas: nat

    var gasPrice: nat
    var locals: set<Addr>
    var pending: Lists
    var queue: Lists
    var all: set<Tx>
    var nonces: Nonces
    // transactions that are about to be removed and have lost their price entries already
    ghost var doomed: set<Tx>

    /** Every transaction of the pool that is not about to be removed has a price entry. */
    ghost predicate Valid()
      reads this, priced
    {
      PoolOk(pending, queue, all) && priced.Valid(all - doomed)
    }

    ghost predicate Executable()
      reads this
    {
      Runs(pending, nonces, stateNonce)
    }

    /** Besides, the next transaction of an account is not left in its queue. */
    ghost predicate Settled()
      reads this
    {
      Executable() && NoneReady(queue, nonces, stateNonce)
    }

    /** Pending transactions stay the next ones to execute, and no other becomes so, but for some accounts. */
    twostate predicate KeepsRuns(but: set<Addr>)
      reads this
    {
      old(Executable()) ==> Executable() && NoNewReady(old(queue), old(nonces), queue, nonces, stateNonce, but)
    }

    /** No transaction that is known has left the lists. */
    twostate predicate StrandsNone()
      reads this
    {
      NoNewStray(old(pending), old(queue), old(all), pending, queue, all)
    }

    twostate predicate Keeps(but: set<Addr>)
      reads this
    {
      KeepsRuns(but) && StrandsNone()
    }

    ghost function Stand(): Standing
      reads this
    {
      Standing(Contents(), nonces, locals)
    }

    ghost function V(): View
      reads this
    {
      View(Stand(), stateNonce, balance, maxGas, gasPrice)
    }

    ghost function State(): PoolState
      reads this
    {
      PoolState(pending, queue, nonces, all)
    }

    constructor (config: Config, priceLimit: nat, stateNonce: Addr -> nat, balance: Addr -> nat, maxGas: nat)
      ensures Valid() && Settled() && fresh(priced) && this.config == config && doomed == {}
      ensures pending == queue == map[] && all == {} && locals == {} && nonces == map[]
      ensures this.stateNonce == stateNonce && this.balance == balance && this.maxGas == maxGas
    {
      this.config, gasPrice, this.stateNonce, this.balance, this.maxGas :=
        config, priceLimit, stateNonce, balance, maxGas;
      locals, pending, queue, all, nonces, doomed := {}, map[], map[], {}, map[], {};
      priced := new PricedList.Priced();
    }

    function GetNonce(a: Addr): nat
      reads this`nonces, this`stateNonce
    {
      NonceFor(nonces, stateNonce, a)
    }

    /** Deletes transactions from all, with a note to the price list for each. */
    method Forget(txs: seq<Tx>)
      requires priced.Valid(all - doomed)
      modifies this`all, priced
      ensures priced.Valid(all - doomed) && all == old(all) - set tx | tx in txs
    {
      for i := 0 to |txs|
        invariant priced.Valid(all - doomed) && all == old(all) - set tx | tx in txs[..i]
      {
        assert txs[..i + 1] == txs[..i] + [txs[i]];
        ForgetOne(txs[i]);
      }
      assert txs[..|txs|] == txs;
    }

    method ForgetOne(tx: Tx)
      requires priced.Valid(all - doomed)
      modifies this`all, priced
      ensures priced.Valid(all - doomed) && all == old(all) - {tx}
      ensures PricedList.IsNoted(old(priced.stales), old(priced.Entries()), priced.stales, priced.Entries(), |all|)
    {
      all := all - {tx};
      priced.Removed(all, all - doomed);
    }

    method Know(tx: Tx)
      requires priced.Valid(all - doomed)
      modifies this`all, priced
      ensures priced.Valid(all - doomed) && all == old(all) + {tx}
    {
      priced.Put(tx, all - doomed);
      all := all + {tx};
    }

    method KnowAgain(tx: Tx)
      requires priced.Valid(all - doomed)
      modifies this`all, priced
      ensures priced.Valid(all - doomed) && all == old(all) + {tx}
      ensures tx in old(all) ==> priced.items == old(priced.items) && priced.stales == old(priced.stales)
    {
      if tx !in all {
        Know(tx);
      }
    }

    /** The pool knows the transaction in place of the one with its nonce. */
    method Exchange(items: Items, tx: Tx)
      requires priced.Valid(all - doomed)
      modifies this`all, priced
      ensures priced.Valid(all - doomed) && all == AllAfter(old(all), items, tx)
    {
      if tx.nonce in items {
        ForgetOne(items[tx.nonce]);
      }
      Know(tx);
    }

    /** The same, for a transaction that may be known already. */
    method ExchangeAgain(items: Items, tx: Tx)
      requires priced.Valid(all - doomed)
      modifies this`all, priced
      ensures priced.Valid(all - doomed) && all == AllAfter(old(all), items, tx)
    {
      if tx.nonce in items {
        ForgetOne(items[tx.nonce]);
      }
      KnowAgain(tx);
    }

    /** enqueueTx: the queue takes the transaction, or refuses it for one with the same nonce. */
    method EnqueueTx(tx: Tx) returns (inserted: bool, replaced: bool)
      requires Valid() && tx.nonce !in At(pending, tx.sender)
      modifies this`queue, this`all, priced
      ensures Valid()
      ensures inserted <==> Takes(old(At(queue, tx.sender)), tx, config.priceBump)
      ensures replaced <==> inserted && tx.nonce in old(At(queue, tx.sender))
      ensures !inserted ==> queue == old(queue) && all == old(all)
      ensures inserted ==> queue == Put(old(queue), tx.sender, old(At(queue, tx.sender))[tx.nonce := tx])
      ensures inserted ==> all == AllAfter(old(all), old(At(queue, tx.sender)), tx)
    {
      var items := At(queue, tx.sender);
      replaced := tx.nonce in items;
      if IsRefused(items, tx, config.priceBump) {
        return false, false;
      }
      EnqueueKeeps(pending, queue, all, tx);
      Exchange(items, tx);
      queue := Put(queue, tx.sender, items[tx.nonce := tx]);
      inserted := true;
    }

    /** promoteTx: the pending list takes the transaction, or the pool forgets it for one with the same nonce. */
    method PromoteTx(a: Addr, tx: Tx) returns (ghost inserted: bool)
      requires Valid() && tx.sender == a && tx.nonce !in At(queue, a) && !Has(At(pending, a), tx)
      modifies this`pending, this`nonces, this`all, priced
      ensures Valid()
      ensures inserted <==> Takes(old(At(pending, a)), tx, config.priceBump)
      ensures !inserted ==> pending == old(pending) && nonces == old(nonces) && all == old(all) - {tx}
      ensures inserted ==>
                && pending == Put(old(pending), a, old(At(pending, a))[tx.nonce := tx])
                && nonces == old(nonces)[a := tx.nonce + 1]
                && all == AllAfter(old(all), old(At(pending, a)), tx)
      ensures old(Executable()) && tx.nonce == old(GetNonce(a)) ==> inserted && Executable()
    {
      var items := At(pending, a);
      PromoteKeepsRuns(pending, nonces, stateNonce, a, tx);
      if IsRefused(items, tx, config.priceBump) {
        UnlistedGoes(pending, queue, all, tx);
        ForgetOne(tx);
        return false;
      }
      PromoteKeeps(pending, queue, all, tx);
      ExchangeAgain(items, tx);
      pending := Put(pending, a, items[tx.nonce := tx]);
      nonces := nonces[a := tx.nonce + 1];
      inserted := true;
    }

    /** Transactions that have left the pending list of an account go into its queue. */
    method Requeue(a: Addr, items: Items)
      requires Valid() && ListOk(items, a, all) && items.Keys !! At(pending, a).Keys && items.Keys !! At(queue, a).Keys
      modifies this`queue, this`all, priced
      ensures Valid() && all == old(all) && queue == Put(old(queue), a, old(At(queue, a)) + items)
    {
      var rest := items;
      ghost var queue0, all0, done: Items := queue, all, map[];
      RequeueStart(queue, a, items, all, At(pending, a));
      while rest != map[]
        invariant Valid() && all == all0 && Requeuing(queue0, a, queue, items, done, rest, all0, At(pending, a))
        decreases |rest|
      {
        var n :| n in rest;
        RequeueStep(queue0, a, queue, items, done, rest, all0, At(pending, a), n);
        var inserted, replaced := EnqueueTx(rest[n]);
        done, rest := done[n := rest[n]], rest - {n};
      }
      assert done == items;
    }

    /**
      removeTx: the nonce goes from the pending list, with all above it, or else from the queue. What was above
      it is queued again, but only if something is left in the pending list.
     */
    method RemoveTx(tx: Tx)
      requires Valid()
      modifies this`all, this`pending, this`queue, this`nonces, priced
      ensures Valid() && all == old(all) - {tx}
      ensures KeepsRuns({})
      ensures if tx in old(all) then IsRemoval(old(pending), old(queue), pending, queue, tx)
                else pending == old(pending) && queue == old(queue)
      ensures Contents() == RemoveOne(old(Contents()), tx)
      ensures nonces == RemovalNonces(old(Contents()), old(nonces), stateNonce, tx)
    {
      if tx !in all {
        return;
      }
      var a, n := tx.sender, tx.nonce;
      RemoveKeeps(pending, queue, all, tx);
      ForgetOne(tx);
      if n in At(pending, a) {
        CutLeavesNoneReady(pending, queue, old(all), nonces, stateNonce, a, n);
        CutPending(a, n);
      } else {
        PutAt(queue, a, At(queue, a) - {n});
        queue := Put(queue, a, At(queue, a) - {n});
        OthersNotReady(old(queue), nonces, queue, nonces, stateNonce, a);
      }
    }

    /** The nonce goes from the pending list with all above it; this is queued again if something is left. */
    method CutPending(a: Addr, n: nat)
      requires n in At(pending, a) && priced.Valid(all - doomed)
      requires var p := At(pending, a);
               && PoolOk(Put(pending, a, TxList.Upto(p, n)), queue, all)
               && ListOk(From(p, n + 1), a, all) && From(p, n + 1).Keys !! At(queue, a).Keys
               && From(p, n + 1).Keys !! TxList.Upto(p, n).Keys
      modifies this`all, this`pending, this`queue, this`nonces, priced
      ensures Valid() && all == old(all) && pending == Put(old(pending), a, TxList.Upto(old(At(pending, a)), n))
      ensures queue == Requeued(old(queue), a, old(At(pending, a)), n)
      ensures nonces == Lowered(old(nonces), stateNonce, a, n)
      ensures old(Executable()) ==> Executable()
    {
      var p := At(pending, a);
      LowerKeepsRuns(pending, nonces, stateNonce, a, n);
      nonces := Lowered(nonces, stateNonce, a, n);
      PutAt(pending, a, TxList.Upto(p, n));
      pending := Put(pending, a, TxList.Upto(p, n));
      if TxList.Upto(p, n) != map[] {
        Requeue(a, From(p, n + 1));
      }
    }

    /** Removes transactions whose price entries are gone already. */
    method RemoveDoomed(drop: seq<Tx>)
      requires PoolOk(pending, queue, all) && doomed == {} && priced.Valid(all - set tx | tx in drop)
      modifies this`all, this`pending, this`queue, this`nonces, this`doomed, priced
      ensures Valid() && doomed == {} && all == old(all) - set tx | tx in drop
      ensures KeepsRuns({}) && Contents() == RemoveAll(old(Contents()), drop)
      ensures nonces == RemovedNonces(old(Contents()), old(nonces), stateNonce, drop)
    {
      doomed := set tx | tx in drop;
      for i := 0 to |drop|
        invariant Valid() && doomed == (set tx | tx in drop) && all == old(all) - set tx | tx in drop[..i]
        invariant KeepsRuns({}) && Contents() == RemoveAll(old(Contents()), drop[..i])
        invariant nonces == RemovedNonces(old(Contents()), old(nonces), stateNonce, drop[..i])
      {
        assert drop[..i + 1] == drop[..i] + [drop[i]];
        RemoveTx(drop[i]);
      }
      assert drop[..|drop|] == drop;
      assert all - doomed == all - {};
      doomed := {};
    }

    /** SetGasPrice: every remaining transaction is local or has at least this price. */
    method SetGasPrice(price: nat) returns (ghost drop: seq<Tx>)
      requires Valid() && doomed == {}
      modifies this`gasPrice, this`all, this`pending, this`queue, this`nonces, this`doomed, priced
      ensures Valid() && doomed == {} && gasPrice == price
      ensures forall tx :: tx in all <==> tx in old(all) && (PricedList.IsLocal(tx, locals) || tx.price >= price)
      ensures KeepsRuns({}) && Contents() == RemoveAll(old(Contents()), drop)
      ensures nonces == RemovedNonces(old(Contents()), old(nonces), stateNonce, drop)
      ensures forall tx :: tx in drop <==> tx in old(all) && !PricedList.IsLocal(tx, locals) && tx.price < price
    {
      gasPrice := price;
      assert all - doomed == all;
      var cheap := priced.Cap(price, locals, all);
      RemoveDoomed(cheap);
      drop := cheap;
    }

    /** The part of add that makes room in a full pool; false if the transaction is too cheap for that. */
    method MakeRoom(tx: Tx) returns (ok: bool, ghost drop: seq<Tx>)
      requires Valid() && doomed == {}
      modifies this`all, this`pending, this`queue, this`nonces, this`doomed, priced
      ensures Valid() && doomed == {} && KeepsRuns({})
      ensures (ok <==> !IsTooCheap(old(all), tx, locals, config)) && all <= old(all)
      ensures ok ==> MakesRoom(old(all), drop, locals, config)
      ensures !ok ==> drop == []
      ensures Contents() == RemoveAll(old(Contents()), drop)
      ensures nonces == RemovedNonces(old(Contents()), old(nonces), stateNonce, drop)
    {
      ok, drop := true, [];
      if |all| >= config.globalSlots + config.globalQueue {
        assert all - doomed == all;
        var underpriced := priced.Underpriced(tx, locals, all);
        if underpriced {
          return false, [];
        }
        drop := DropCheapest();
      }
    }

    method DropCheapest() returns (ghost drop: seq<Tx>)
      requires Valid() && doomed == {} && IsFull(all, config)
      modifies this`all, this`pending, this`queue, this`nonces, this`doomed, priced
      ensures Valid() && doomed == {} && KeepsRuns({}) && all <= old(all)
      ensures MakesRoom(old(all), drop, locals, config) && Contents() == RemoveAll(old(Contents()), drop)
      ensures nonces == RemovedNonces(old(Contents()), old(nonces), stateNonce, drop)
    {
      assert all - doomed == all;
      var cheap := priced.Discard(|all| - (config.globalSlots + config.globalQueue - 1), locals, all);
      DiscardMakesRoom(all, cheap, locals, config);
      drop := cheap;
      RemoveDoomed(cheap);
    }

    /** The part of add that replaces a pending transaction for a price above the threshold. */
    method ReplacePending(tx: Tx) returns (ok: bool)
      requires Valid() && tx.nonce in At(pending, tx.sender)
      modifies this`all, this`pending, priced
      ensures Valid() && (ok <==> Takes(old(At(pending, tx.sender)), tx, config.priceBump))
      ensures !ok ==> all == old(all) && pending == old(pending)
      ensures ok ==>
                && pending == Put(old(pending), tx.sender, old(At(pending, tx.sender))[tx.nonce := tx])
                && all == AllAfter(old(all), old(At(pending, tx.sender)), tx)
      ensures Keeps({})
    {
      var items := At(pending, tx.sender);
      if IsRefused(items, tx, config.priceBump) {
        return false;
      }
      assert AddrIn(pending, queue, all, tx.sender);
      PromoteKeeps(pending, queue, all, tx);
      PromoteKeepsRuns(pending, nonces, stateNonce, tx.sender, tx);
      TakeStrays(pending, queue, all, tx);
      Exchange(items, tx);
      pending := Put(pending, tx.sender, items[tx.nonce := tx]);
      ok := true;
    }

    /** add: a known or invalid transaction is refused, and one that is too cheap for a full pool or for its nonce. */
    method Add(tx: Tx, local: bool, valid: bool) returns (ok: bool, replaced: bool, ghost drop: seq<Tx>)
      requires Valid() && doomed == {}
      modifies this`all, this`pending, this`queue, this`nonces, this`locals, this`doomed, priced
      ensures Valid() && doomed == {}
      ensures (Stand(), Note(drop, ok, replaced)) in Additions(old(Stand()), tx, local, valid, config, stateNonce)
      ensures ok ==> tx in all && (Has(At(pending, tx.sender), tx) || Has(At(queue, tx.sender), tx))
      ensures !IsFull(old(all), config) ==> StrandsNone()
      ensures KeepsRuns(if ok && !replaced then {tx.sender} else {})
    {
      drop := [];
      if tx in all || !valid {
        return false, false, [];
      }
      ok, drop := MakeRoom(tx);
      if !ok {
        return false, false, [];
      }
      ok, replaced := Place(tx, local);
      assert IsAddition(old(Stand()), Stand(), tx, local, valid, Note(drop, ok, replaced), config, stateNonce);
    }

    /** The part of add that follows when there is room. */
    method Place(tx: Tx, local: bool) returns (ok: bool, replaced: bool)
      requires Valid() && tx !in all
      modifies this`all, this`pending, this`queue, this`locals, priced
      ensures Valid() && (ok <==> old(Fits(pending, queue, tx, config.priceBump)))
      ensures Contents() == AddOne(old(Contents()), tx, true, config.priceBump)
      ensures replaced <==> ok && HasNonce(old(Contents()), tx)
      ensures locals == if ok && local && tx.nonce !in old(At(pending, tx.sender)) then old(locals) + {tx.sender}
                        else old(locals)
      ensures ok ==> tx in all && (Has(At(pending, tx.sender), tx) || Has(At(queue, tx.sender), tx))
      ensures Keeps(if ok && !replaced then {tx.sender} else {})
    {
      if tx.nonce in At(pending, tx.sender) {
        ghost var lists := pending;
        ok := ReplacePending(tx);
        replaced := ok;
        if ok {
          PutAt(lists, tx.sender, At(lists, tx.sender)[tx.nonce := tx]);
        }
      } else {
        ok, replaced := QueueNew(tx);
        if ok && local {
          locals := locals + {tx.sender};
        }
      }
    }

    /** The part of add that puts a transaction into the queue. */
    method QueueNew(tx: Tx) returns (ok: bool, replaced: bool)
      requires Valid() && tx.nonce !in At(pending, tx.sender)
      modifies this`queue, this`all, priced
      ensures Valid() && (ok <==> Takes(old(At(queue, tx.sender)), tx, config.priceBump))
      ensures ok ==> tx in all && Has(At(queue, tx.sender), tx)
      ensures replaced <==> ok && tx.nonce in old(At(queue, tx.sender))
      ensures tx !in old(all) ==> Contents() == AddOne(old(Contents()), tx, true, config.priceBump)
      ensures Keeps(if ok && !replaced then {tx.sender} else {})
    {
      TakeStrays(pending, queue, all, tx);
      ok, replaced := EnqueueTx(tx);
      if ok {
        PutAt(old(queue), tx.sender, At(old(queue), tx.sender)[tx.nonce := tx]);
        OthersNotReady(old(queue), nonces, queue, nonces, stateNonce, tx.sender);
      }
    }

    /** A part of the queue of an account goes. */
    method DropQueued(a: Addr, kept: Items, gone: Items)
      requires Valid() && Splits(At(queue, a), kept, gone)
      modifies this`queue, this`all, priced
      ensures Valid() && queue == Put(old(queue), a, kept) && all == old(all) - gone.Values && StrandsNone()
    {
      DropKeeps(pending, queue, all, a, kept, gone);
      PutAt(queue, a, kept);
      DropStrays(pending, queue, all, Put(queue, a, kept), a, kept, gone);
      var txs := Listed(gone);
      assert (set tx | tx in txs) == gone.Values by { ListedIs(gone, txs); }
      Forget(txs);
      queue := Put(queue, a, kept);
    }

    /** A queue loses what the state's nonce has passed, and what the account cannot pay for. */
    method DropUnpayable(a: Addr)
      requires Valid()
      modifies this`queue, this`all, priced
      ensures Valid() && OnlyAt(old(queue), queue, a) && StrandsNone() && all <= old(all)
      ensures At(queue, a) == Payable(old(At(queue, a)), stateNonce(a), balance(a), maxGas)
    {
      var q0 := At(queue, a);
      var q1 := From(q0, stateNonce(a));
      PutAt(queue, a, q1);
      DropQueued(a, q1, TxList.Upto(q0, stateNonce(a)));
      var dear := TxList.DearerThan(balance(a), maxGas);
      PutAt(queue, a, Kept(q1, dear));
      DropQueued(a, Kept(q1, dear), Dropped(q1, dear));
    }

    /** The queue of a remote account is capped. */
    method CapQueue(a: Addr)
      requires Valid()
      modifies this`queue, this`all, priced
      ensures Valid() && OnlyAt(old(queue), queue, a) && StrandsNone() && all <= old(all)
      ensures IsCapped(old(At(queue, a)), At(queue, a), config.accountQueue, a in locals)
    {
      var q := At(queue, a);
      if a !in locals && |q| > config.accountQueue {
        assert AddrIn(pending, queue, all, a);
        var kept := CapList(q, config.accountQueue);
        PutAt(queue, a, kept);
        DropQueued(a, kept, Gone(q, kept));
      }
    }

    /**
      promoteExecutables for one account: drops old and dear transactions, promotes all that is executable then, and
      caps the rest.
     */
    method PromoteAccount(a: Addr)
      requires Valid()
      modifies this`pending, this`queue, this`all, this`nonces, priced
      ensures Valid() && OnlyAt(old(queue), queue, a) && OnlyAt(old(pending), pending, a)
      ensures OnlyNonce(old(nonces), nonces, stateNonce, a)
      ensures IsPromoted(old(At(pending, a)), old(At(queue, a)), At(pending, a), At(queue, a), stateNonce(a),
                         old(GetNonce(a)), balance(a), maxGas,
                         config.accountQueue, a in locals)
      ensures NonceKept(old(queue), old(nonces), nonces, stateNonce, balance, maxGas, a)
      ensures forall n | n in At(queue, a) :: n > GetNonce(a)
      ensures Keeps({}) && all <= old(all)
    {
      ghost var p, q, nonce := At(pending, a), At(queue, a), GetNonce(a);
      DropUnpayable(a);
      ghost var payable := At(queue, a);
      PromotePayable(a);
      ReadiedIsPromoted(p, q, payable, At(pending, a), At(queue, a), stateNonce(a), nonce, balance(a), maxGas,
                        config.accountQueue, a in locals);
      OthersNotReady(old(queue), old(nonces), queue, nonces, stateNonce, a);
    }

    method PromotePayable(a: Addr)
      requires Valid()
      modifies this`pending, this`queue, this`all, this`nonces, priced
      ensures Valid() && OnlyAt(old(queue), queue, a) && OnlyAt(old(pending), pending, a)
      ensures OnlyNonce(old(nonces), nonces, stateNonce, a)
      ensures IsReadied(old(At(pending, a)), old(At(queue, a)), At(pending, a), At(queue, a), old(GetNonce(a)),
                        config.accountQueue, a in locals)
      ensures StrandsNone() && all <= old(all) && forall n | n in At(queue, a) :: n > GetNonce(a)
      ensures ReadyItems(old(At(queue, a)), old(GetNonce(a))) == map[] ==> GetNonce(a) == old(GetNonce(a))
      ensures (forall n | n in old(At(queue, a)) :: n >= stateNonce(a)) && old(GetNonce(a)) >= stateNonce(a) ==>
                GetNonce(a) >= stateNonce(a)
      ensures old(Executable()) && (forall n | n in old(At(queue, a)) :: n >= stateNonce(a)) ==> Executable()
    {
      PromoteReady(a);
      CapQueue(a);
    }

    /** list.Ready with promoteTx for each of its transactions. */
    method PromoteReady(a: Addr)
      requires Valid()
      modifies this`pending, this`queue, this`all, this`nonces, priced
      ensures Valid() && OnlyAt(old(queue), queue, a) && OnlyAt(old(pending), pending, a)
      ensures OnlyNonce(old(nonces), nonces, stateNonce, a)
      ensures At(pending, a) == old(At(pending, a)) + ReadyItems(old(At(queue, a)), old(GetNonce(a)))
      ensures At(queue, a) == NotReady(old(At(queue, a)), old(GetNonce(a)))
      ensures StrandsNone() && all == old(all) && forall n | n in At(queue, a) :: n > GetNonce(a)
      ensures ReadyItems(old(At(queue, a)), old(GetNonce(a))) == map[] ==> GetNonce(a) == old(GetNonce(a))
      ensures (forall n | n in old(At(queue, a)) :: n >= stateNonce(a)) && old(GetNonce(a)) >= stateNonce(a) ==>
                GetNonce(a) >= stateNonce(a)
      ensures old(Executable()) && (forall n | n in old(At(queue, a)) :: n >= stateNonce(a)) ==> Executable()
    {
      ghost var r := ReadyItems(At(queue, a), GetNonce(a));
      var ready := TakeReady(a);
      PromoteAll(a, ready, At(queue, a), r, First(ready));
      PromotingAll(old(pending), old(queue), all, old(nonces), pending, queue, nonces, stateNonce, a, old(GetNonce(a)),
                   ready, First(ready));
    }

    /** list.Ready: what can be executed now leaves the queue. */
    method TakeReady(a: Addr) returns (ready: seq<Tx>)
      requires Valid()
      modifies this`queue
      ensures Valid() && OnlyAt(old(queue), queue, a) && At(queue, a) == NotReady(old(At(queue, a)), GetNonce(a))
      ensures Await(At(pending, a), At(queue, a), a, ready, ReadyItems(old(At(queue, a)), GetNonce(a)), First(ready),
                    all)
      ensures forall n | n in At(queue, a) :: n > if ready == [] then GetNonce(a) else First(ready) + |ready|
      ensures Executable() && (forall n | n in old(At(queue, a)) :: n >= stateNonce(a)) && ready != [] ==>
                First(ready) == GetNonce(a)
    {
      assert AddrIn(pending, queue, all, a);
      var items, rest := At(queue, a), map[];
      ready, rest := Ready(items, GetNonce(a));
      TakeFromQueue(pending, queue, all, a, ready, rest);
      TakenAwaits(At(pending, a), items, rest, a, ready, GetNonce(a), all);
      PutAt(queue, a, rest);
      queue := Put(queue, a, rest);
      if Executable() && forall n | n in items :: n >= stateNonce(a) {
        assert RunIn(pending, nonces, stateNonce, a);
        ReadyIsNext(At(pending, a), items, ready, rest, stateNonce(a), GetNonce(a));
      }
    }

    /** promoteTx for the transactions of a run. */
    method PromoteAll(a: Addr, ready: seq<Tx>, ghost rest: Items, ghost r: Items, ghost lo: nat)
      requires Valid() && At(queue, a) == rest && Await(At(pending, a), rest, a, ready, r, lo, all)
      modifies this`pending, this`all, this`nonces, priced
      ensures Valid() && all == old(all)
      ensures Promoting(old(pending), old(nonces), pending, nonces, stateNonce, a, r, lo, |ready|)
      ensures old(Executable()) && (ready == [] || lo == old(GetNonce(a))) ==> Executable()
    {
      PromotingNone(pending, nonces, stateNonce, a, ready, r, lo);
      for i := 0 to |ready|
        invariant Valid() && all == old(all)
        invariant Promoting(old(pending), old(nonces), pending, nonces, stateNonce, a, r, lo, i)
        invariant old(Executable()) && (ready == [] || lo == old(GetNonce(a))) ==> Executable()
      {
        PromoteNext(a, ready, i, old(pending), old(nonces), rest, r, lo);
      }
    }

    method PromoteNext(a: Addr, ready: seq<Tx>, i: nat, ghost pending0: Lists, ghost nonces0: Nonces, ghost rest: Items,
                       ghost r: Items, ghost lo: nat)
      requires Valid() && At(queue, a) == rest && i < |ready| && Await(At(pending0, a), rest, a, ready, r, lo, all)
      requires Promoting(pending0, nonces0, pending, nonces, stateNonce, a, r, lo, i)
      modifies this`pending, this`all, this`nonces, priced
      ensures Valid() && all == old(all) && Promoting(pending0, nonces0, pending, nonces, stateNonce, a, r, lo, i + 1)
      ensures old(Executable()) && lo + i == old(GetNonce(a)) ==> Executable()
    {
      NextToPromote(At(pending0, a), At(pending, a), rest, a, ready, r, lo, all, i, config.priceBump);
      PromotingOneMore(pending0, nonces0, pending, nonces, stateNonce, a, ready, r, lo, i, ready[i]);
      var inserted := PromoteTx(a, ready[i]);
    }

    /** list.Cap to one less: the highest pending nonce of an account goes, and the pending nonce follows. */
    method CutLast(a: Addr)
      requires Valid() && At(pending, a) != map[]
      modifies this`pending, this`all, this`nonces, priced
      ensures Valid() && OnlyAt(old(pending), pending, a)
      ensures |At(pending, a)| == |old(At(pending, a))| - 1 && Total(pending) == Total(old(pending)) - 1
      ensures LowAt(old(pending), pending, a) && State() in KeptFrom(old(State()), stateNonce)
    {
      var p := At(pending, a);
      var n := HighestNonce(p);
      var tx, kept := p[n], TxList.Upto(p, n);
      CutKeeps(pending, queue, all, a, n, tx, kept);
      LastCut(State(), PoolState(Put(pending, a, kept), queue, Lowered(nonces, stateNonce, a, n), all - {tx}),
              stateNonce, a, n);
      ForgetPending(tx, Put(pending, a, kept), Lowered(nonces, stateNonce, a, n));
    }

    /** A pending transaction is forgotten, and lists and nonces are set. */
    method ForgetPending(tx: Tx, lists: Lists, nonces': Nonces)
      requires Valid() && PoolOk(lists, queue, all - {tx})
      modifies this`pending, this`all, this`nonces, priced
      ensures Valid() && State() == PoolState(lists, queue, nonces', old(all) - {tx})
    {
      ForgetOne(tx);
      pending, nonces := lists, nonces';
    }

    /** One round: each of the first m offenders loses a transaction. */
    method Round(order: seq<Addr>, m: nat, count: nat, ghost orig: Lists, ghost level: nat) returns (count': nat)
      requires Valid() && NoTwice(order) && m <= |order| && level > 0 && Leveled(orig, pending, order, m, level)
      requires count == Total(pending)
      modifies this`pending, this`all, this`nonces, priced
      ensures Valid() && Leveled(orig, pending, order, m, level - 1) && count' == Total(pending) == count - m
      ensures State() in KeptFrom(old(State()), stateNonce)
    {
      count' := count;
      ghost var kept := KeptFrom(State(), stateNonce);
      KeptIsClosed(State(), stateNonce);
      for i := 0 to m
        invariant Valid() && MidRound(orig, pending, order, m, level, i) && count' == Total(pending)
        invariant count' == count - i && State() in kept
      {
        CutNext(order, m, i, orig, level, kept);
        count' := count' - 1;
      }
    }

    method CutNext(order: seq<Addr>, m: nat, i: nat, ghost orig: Lists, ghost level: nat, ghost kept: iset<PoolState>)
      requires Valid() && MidRound(orig, pending, order, m, level, i) && i < m && NoTwice(order) && level > 0
      requires kept in ClosedSets(stateNonce) && State() in kept
      modifies this`pending, this`all, this`nonces, priced
      ensures Valid() && MidRound(orig, pending, order, m, level, i + 1) && Total(pending) == Total(old(pending)) - 1
      ensures State() in kept
    {
      ghost var lists := pending;
      CutLast(order[i]);
      RoundStep(orig, lists, pending, order, m, level, i);
      KeptOn(kept, old(State()), State(), stateNonce);
    }

    /** The offenders before the latest are cut down to its size, as long as there are too many transactions. */
    method CatchUp(order: seq<Addr>, k: nat, count: nat, ghost orig: Lists, ghost level: nat,
                   ghost kept: iset<PoolState>)
        returns (count': nat, ghost level': nat)
      requires Valid() && NoTwice(order) && count == Total(pending) && 1 < k <= |order|
      requires Offending(orig, pending, order, k, level)
      requires count > config.globalSlots && kept in ClosedSets(stateNonce) && State() in kept
      modifies this`pending, this`all, this`nonces, priced
      ensures Valid() && Gathered(orig, pending, order, k, level', count', config.globalSlots)
      ensures State() in kept
    {
      count', level' := count, level;
      var threshold := |At(pending, order[k - 1])|;
      OffendersLevel(orig, pending, order, k, level);
      while count' > config.globalSlots && |At(pending, order[k - 2])| > threshold
        invariant Valid() && CatchingUp(orig, pending, order, k, level', count', config.globalSlots) && State() in kept
        decreases count'
      {
        count' := RoundOfOffenders(order, k, count', orig, level', kept);
        level' := level' - 1;
      }
      CaughtUp(orig, pending, order, k, level', count', config.globalSlots);
    }

    method RoundOfOffenders(order: seq<Addr>, k: nat, count: nat, ghost orig: Lists, ghost level: nat,
                            ghost kept: iset<PoolState>)
        returns (count': nat)
      requires Valid() && NoTwice(order) && CatchingUp(orig, pending, order, k, level, count, config.globalSlots)
      requires count > config.globalSlots && level > Len(orig, order[k - 1]) && kept in ClosedSets(stateNonce)
      requires State() in kept
      modifies this`pending, this`all, this`nonces, priced
      ensures Valid() && count' < count && CatchingUp(orig, pending, order, k, level - 1, count', config.globalSlots)
      ensures State() in kept
    {
      count' := Round(order, k - 1, count, orig, level);
      KeptOn(kept, old(State()), State(), stateNonce);
      OffendersCut(orig, pending, order, k, level - 1);
      OffendersLevel(orig, pending, order, k, level - 1);
    }

    /** All offenders are cut together, down to the limit or to their guaranteed slots. */
    method CutAll(order: seq<Addr>, count: nat, ghost orig: Lists, ghost level: nat, ghost kept: iset<PoolState>)
        returns (count': nat, ghost level': nat)
      requires Valid() && NoTwice(order) && count == Total(pending) && order != []
      requires kept in ClosedSets(stateNonce) && State() in kept
      requires Leveled(orig, pending, order, |order|, level)
      requires level >= config.accountSlots && count > config.globalSlots
      modifies this`pending, this`all, this`nonces, priced
      ensures Valid() && count' == Total(pending) && Leveled(orig, pending, order, |order|, level')
      ensures level' >= config.accountSlots
      ensures count' + |order| > config.globalSlots && (count' <= config.globalSlots || level' == config.accountSlots)
      ensures State() in kept
    {
      count', level' := count, level;
      while count' > config.globalSlots && |At(pending, order[|order| - 1])| > config.accountSlots
        invariant Valid() && count' == Total(pending) && Leveled(orig, pending, order, |order|, level')
        invariant level' >= config.accountSlots
        invariant State() in kept && count' + |order| > config.globalSlots
        decreases count'
      {
        count', level' := CutOnce(order, count', orig, level', kept);
      }
      LeveledAt(orig, pending, order, |order|, level', |order| - 1);
    }

    method CutOnce(order: seq<Addr>, count: nat, ghost orig: Lists, ghost level: nat, ghost kept: iset<PoolState>)
        returns (count': nat, ghost level': nat)
      requires Valid() && NoTwice(order) && count == Total(pending) && order != []
      requires kept in ClosedSets(stateNonce) && State() in kept
      requires Leveled(orig, pending, order, |order|, level)
      requires Len(pending, order[|order| - 1]) > config.accountSlots
      modifies this`pending, this`all, this`nonces, priced
      ensures Valid() && count' == Total(pending) == count - |order| && Leveled(orig, pending, order, |order|, level')
      ensures State() in kept
      ensures level' >= config.accountSlots
    {
      LeveledAt(orig, pending, order, |order|, level, |order| - 1);
      count' := Round(order, |order|, count, orig, level);
      KeptOn(kept, old(State()), State(), stateNonce);
      level' := level - 1;
    }

    /** The first equalising loop: offenders are added one by one, and cut down together to the size of the latest. */
    method Gather(order: seq<Addr>, count: nat, ghost orig: Lists, ghost kept: iset<PoolState>)
        returns (count': nat, k: nat, ghost level: nat)
      requires Valid() && count == Total(pending) > config.globalSlots && orig == pending
      requires order in SpamOrders(orig, locals, config.accountSlots)
      requires kept in ClosedSets(stateNonce) && State() in kept
      modifies this`pending, this`all, this`nonces, priced
      ensures Valid() && Gathered(orig, pending, order, k, level, count', config.globalSlots) && State() in kept
      ensures count' <= config.globalSlots || k == |order|
    {
      count', k, level := count, 0, 0;
      NoneGathered(orig, order, config.globalSlots);
      while count' > config.globalSlots && k < |order|
        invariant k <= |order| && State() in kept
        invariant Valid() && Gathered(orig, pending, order, k, level, count', config.globalSlots)
        decreases |order| - k
      {
        count', level := GatherOne(order, k, count', orig, level, kept);
        k := k + 1;
      }
    }

    /** One more offender: those before it are cut down to its size. */
    method GatherOne(order: seq<Addr>, k: nat, count: nat, ghost orig: Lists, ghost level: nat,
                     ghost kept: iset<PoolState>)
        returns (count': nat, ghost level': nat)
      requires Valid() && count > config.globalSlots && order in SpamOrders(orig, locals, config.accountSlots)
      requires k < |order|
      requires Gathered(orig, pending, order, k, level, count, config.globalSlots)
      requires kept in ClosedSets(stateNonce) && State() in kept
      modifies this`pending, this`all, this`nonces, priced
      ensures Valid() && Gathered(orig, pending, order, k + 1, level', count', config.globalSlots) && State() in kept
    {
      GatherNext(orig, pending, locals, config, order, k, level, count);
      if k == 0 {
        count', level' := count, Len(orig, order[0]);
      } else {
        count', level' := CatchUp(order, k + 1, count, orig, level, kept);
      }
    }

    /** Both equalising loops. */
    method Equalise(order: seq<Addr>, count: nat) returns (count': nat, ghost m: nat, ghost level: nat)
      requires Valid() && count == Total(pending) > config.globalSlots
      requires Spammers(pending, locals, config.accountSlots, order)
      modifies this`pending, this`all, this`nonces, priced
      ensures Valid() && count' == Total(pending) && count' + m > config.globalSlots
      ensures State() in KeptFrom(old(State()), stateNonce)
      ensures IsFair(old(pending), pending, order, m, level, config.accountSlots)
      ensures count' <= config.globalSlots || (m == |order| && (m > 0 ==> level <= config.accountSlots))
    {
      ghost var orig := pending;
      ghost var kept := KeptFrom(State(), stateNonce);
      var k;
      KeptIsClosed(State(), stateNonce);
      count', k, level := Gather(order, count, orig, kept);
      OffendingIsFair(orig, pending, locals, config.accountSlots, order, k, level);
      m := if k == 0 then 0 else k - 1;
      if count' > config.globalSlots && k > 0 {
        m := k;
        count', level := CutAll(order, count', orig, level, kept);
      }
    }

    /** promoteExecutables, second part: too many pending transactions are cut back, the largest accounts first. */
    method CapPending()
      requires Valid()
      modifies this`pending, this`all, this`nonces, priced
      ensures Valid() && FairShare(old(pending), pending, locals, config)
      ensures Keeps({}) && (Total(old(pending)) <= config.globalSlots ==> nonces == old(nonces) && all == old(all))
      ensures AllCut(old(pending), old(nonces), pending, nonces, stateNonce) && all <= old(all)
    {
      var count := CountAll(pending);
      NoneCut(pending, nonces, stateNonce);
      if count > config.globalSlots {
        var order := SpamOrder(pending, locals, config.accountSlots);
        ghost var m, level;
        count, m, level := Equalise(order, count);
        FairIsFairShare(old(pending), pending, locals, config, order, m, level);
      }
    }

    /** removeTx for queued transactions of one account really takes each of them from its queue. */
    method RemoveEach(a: Addr, txs: seq<Tx>)
      requires Valid() && Queued(At(queue, a), txs)
      modifies this`all, this`pending, this`queue, this`nonces, priced
      ensures Valid() && pending == old(pending) && nonces == old(nonces) && all <= old(all)
      ensures Removing(old(queue), queue, a, txs, |txs|) && Keeps({})
    {
      RemovingNone(queue, a, txs);
      for i := 0 to |txs|
        invariant Valid() && pending == old(pending) && nonces == old(nonces) && all <= old(all)
        invariant Removing(old(queue), queue, a, txs, i) && Keeps({})
      {
        RemovingOneMore(old(queue), queue, a, txs, i);
        RemoveQueued(a, txs[i]);
      }
    }

    method RemoveQueued(a: Addr, tx: Tx)
      requires Valid() && Has(At(queue, a), tx)
      modifies this`all, this`pending, this`queue, this`nonces, priced
      ensures Valid() && pending == old(pending) && nonces == old(nonces)
      ensures queue == Put(old(queue), a, old(At(queue, a)) - {tx.nonce}) && Keeps({}) && all <= old(all)
    {
      assert AddrIn(pending, queue, all, a);
      RemoveTx(tx);
      QueuedRemovalKeepsListed(old(pending), old(queue), old(all), pending, queue, tx);
    }

    /** Removes queued transactions of an account: all, or as many of the last ones as are too many. */
    method ShrinkQueue(a: Addr, drop: nat) returns (drop': nat)
      requires Valid()
      modifies this`all, this`pending, this`queue, this`nonces, priced
      ensures Valid() && pending == old(pending) && nonces == old(nonces)
      ensures OnlyAt(old(queue), queue, a) && LowAt(old(queue), queue, a) && Keeps({}) && all <= old(all)
      ensures drop' <= drop && Total(queue) + drop == Total(old(queue)) + drop' && (drop' > 0 ==> Len(queue, a) == 0)
    {
      assert AddrIn(pending, queue, all, a);
      var txs := FlatOf(At(queue, a));
      assert txs[..|txs|] == txs;
      var size := |At(queue, a)|;
      if size <= drop {
        WithoutAll(At(queue, a), txs);
        RemoveEach(a, txs);
        drop' := drop - size;
      } else {
        var last := LastOnes(txs, drop);
        assert last[..|last|] == last;
        WithoutLast(At(queue, a), txs, last);
        LastIsQueued(At(queue, a), txs, last);
        RemoveEach(a, last);
        drop' := 0;
      }
    }

    /**
      promoteExecutables, third part: too many queued transactions are removed, account by account, remote ones only.
     */
    method CapQueues()
      requires Valid()
      modifies this`all, this`pending, this`queue, this`nonces, priced
      ensures Valid() && pending == old(pending) && nonces == old(nonces)
      ensures QueuesCut(old(queue), queue, locals, config.globalQueue) && Keeps({}) && all <= old(all)
    {
      var queued := CountAll(queue);
      if queued <= config.globalQueue {
        return;
      }
      var addresses := AnyOrder(queue.Keys - locals);
      var drop := queued - config.globalQueue;
      while drop > 0 && |addresses| > 0
        invariant Valid() && pending == old(pending) && nonces == old(nonces) && Keeps({}) && all <= old(all)
        invariant Shrinking(old(queue), queue, locals, addresses, config.globalQueue, drop)
        decreases |addresses|
      {
        ghost var lists, before := queue, drop;
        var a := addresses[|addresses| - 1];
        drop := ShrinkQueue(a, drop);
        ShrinkOneMore(old(queue), lists, queue, locals, addresses, config.globalQueue, before, drop, a);
        addresses := addresses[..|addresses| - 1];
      }
    }

    ghost function Contents(): Pooled
      reads this
    {
      Pooled(pending, queue, all)
    }

    ghost function Lists(): Snapshot
      reads this
    {
      Snapshot(pending, queue, nonces)
    }

    /** promoteExecutables, first part. */
    method PromoteEach(accounts: seq<Addr>)
      requires Valid()
      modifies this`all, this`pending, this`queue, this`nonces, priced
      ensures Valid() && Keeps({}) && all <= old(all)
      ensures EachPromoted(old(Lists()), Lists(), stateNonce, balance, maxGas, config.accountQueue, locals, accounts)
    {
      NonePromoted(Lists(), stateNonce, balance, maxGas, config.accountQueue, locals);
      for i := 0 to |accounts|
        invariant Valid() && Keeps({}) && all <= old(all)
        invariant EachPromoted(old(Lists()), Lists(), stateNonce, balance, maxGas, config.accountQueue, locals,
                               accounts[..i])
      {
        PromoteOneMore(accounts[i], old(Lists()), accounts[..i]);
        assert accounts[..i + 1] == accounts[..i] + [accounts[i]];
      }
      assert accounts[..|accounts|] == accounts;
    }

    method PromoteOneMore(a: Addr, ghost first: Snapshot, ghost accounts: seq<Addr>)
      requires Valid()
      requires EachPromoted(first, Lists(), stateNonce, balance, maxGas, config.accountQueue, locals, accounts)
      modifies this`all, this`pending, this`queue, this`nonces, priced
      ensures Valid() && Keeps({}) && all <= old(all)
      ensures EachPromoted(first, Lists(), stateNonce, balance, maxGas, config.accountQueue, locals, accounts + [a])
    {
      ghost var before := Lists();
      PromoteAccount(a);
      ghost var after := Lists();
      assert PromotedAt(before.pending, before.queue, before.nonces, after.pending, after.queue, stateNonce, balance,
                        maxGas, config.accountQueue, locals, a);
      assert Beyond(after.queue, after.nonces, stateNonce, a);
      OneMorePromoted(first, before, after, stateNonce, balance, maxGas, config.accountQueue, locals, accounts, a);
    }

    /**
      promoteExecutables. For the accounts given, what is executable is promoted, which gives the lists `promoted`. From
      these, pending transactions are cut down to fair shares, and queued ones to the limit or to the local ones.
     */
    method PromoteExecutables(accounts: seq<Addr>) returns (ghost promoted: Snapshot)
      requires Valid()
      modifies this`all, this`pending, this`queue, this`nonces, priced
      ensures Valid() && all <= old(all)
      ensures EachPromoted(old(Lists()), promoted, stateNonce, balance, maxGas, config.accountQueue, locals, accounts)
      ensures FairShare(promoted.pending, pending, locals, config)
      ensures QueuesCut(promoted.queue, queue, locals, config.globalQueue)
      ensures IsTrimmed(promoted, Lists(), locals, config, stateNonce)
      ensures Keeps({}) && (old(Executable()) ==> forall a | a in accounts :: !ReadyAt(queue, nonces, stateNonce, a))
      ensures Total(promoted.pending) <= |old(all)|
      ensures AllRoomy(config, old(queue), old(all), 0) ==> Lists() == promoted
    {
      PromoteEach(accounts);
      promoted := Lists();
      EachNotReady(old(Lists()), promoted, stateNonce, balance, maxGas, config.accountQueue, locals, accounts);
      PromotedTotal(old(Lists()), promoted, stateNonce, balance, maxGas, config.accountQueue, locals, accounts);
      PoolWithin(pending, queue, all);
      Fewer(all, old(all));
      CapPending();
      CapQueues();
      FairIsTrimmed(promoted, Lists(), locals, config, stateNonce);
    }

    /**
      addTx: adds one transaction, and promotes what has become executable, which gives the lists `promoted`; these are
      cut if there are too many.
     */
    method AddTx(tx: Tx, local: bool, valid: bool)
        returns (ok: bool, ghost promoted: Snapshot, ghost added: Standing, ghost note: Note)
      requires Valid() && doomed == {}
      modifies this`all, this`pending, this`queue, this`nonces, this`locals, this`doomed, priced
      ensures Valid() && doomed == {} && KeepsRuns({})
      ensures ok == note.ok
      ensures (Stand(), promoted, added, note) in Submissions(config, old(V()), tx, local, valid)
      ensures !IsFull(old(all), config) ==> StrandsNone()
    {
      var replaced;
      ok, replaced, note := AddNoted(tx, local, valid);
      added := Stand();
      promoted := PromoteNew(tx, local, valid, ok && !replaced, old(V()), note);
    }

    method AddNoted(tx: Tx, local: bool, valid: bool) returns (ok: bool, replaced: bool, ghost note: Note)
      requires Valid() && doomed == {}
      modifies this`all, this`pending, this`queue, this`nonces, this`locals, this`doomed, priced
      ensures Valid() && doomed == {} && ok == note.ok && replaced == note.replaced
      ensures (Stand(), note) in Additions(old(Stand()), tx, local, valid, config, stateNonce)
      ensures RunsSince(old(V()), if ok && !replaced then {tx.sender} else {})
      ensures !IsFull(old(all), config) ==> StrandsNoneSince(old(V()))
    {
      ghost var drop;
      ok, replaced, drop := Add(tx, local, valid);
      note := Note(drop, ok, replaced);
    }

    /** KeepsRuns, from an earlier view. */
    ghost predicate RunsSince(v: View, but: set<Addr>)
      reads this
    {
      Runs(v.stand.pooled.pending, v.stand.nonces, stateNonce) ==>
        Executable() && NoNewReady(v.stand.pooled.queue, v.stand.nonces, queue, nonces, stateNonce, but)
    }

    /** StrandsNone, from an earlier view. */
    ghost predicate StrandsNoneSince(v: View)
      reads this
    {
      NoNewStray(v.stand.pooled.pending, v.stand.pooled.queue, v.stand.pooled.all, pending, queue, all)
    }

    method PromoteNew(tx: Tx, ghost local: bool, ghost valid: bool, isNew: bool, ghost v: View, ghost note: Note)
        returns (ghost promoted: Snapshot)
      requires Valid() && v == View(v.stand, stateNonce, balance, maxGas, gasPrice)
      requires isNew <==> note.ok && !note.replaced
      requires (Stand(), note) in Additions(v.stand, tx, local, valid, config, stateNonce)
      requires RunsSince(v, if isNew then {tx.sender} else {})
      modifies this`all, this`pending, this`queue, this`nonces, priced
      ensures Valid() && RunsSince(v, {}) && (old(StrandsNoneSince(v)) ==> StrandsNoneSince(v))
      ensures (Stand(), promoted, old(Stand()), note) in Submissions(config, v, tx, local, valid)
    {
      promoted := Lists();
      if isNew {
        promoted := PromoteSender(tx, local, valid, v, note);
      } else {
        NotPromoted(config, v, tx, local, valid, promoted, Stand(), note, stateNonce);
      }
    }

    /** The part of addTx that follows when there is a new nonce. */
    method PromoteSender(tx: Tx, ghost local: bool, ghost valid: bool, ghost v: View, ghost note: Note)
        returns (ghost promoted: Snapshot)
      requires Valid() && v == View(v.stand, stateNonce, balance, maxGas, gasPrice) && note.ok && !note.replaced
      requires (Stand(), note) in Additions(v.stand, tx, local, valid, config, stateNonce)
      requires RunsSince(v, {tx.sender})
      modifies this`all, this`pending, this`queue, this`nonces, priced
      ensures Valid() && RunsSince(v, {}) && (old(StrandsNoneSince(v)) ==> StrandsNoneSince(v))
      ensures (Stand(), promoted, old(Stand()), note) in Submissions(config, v, tx, local, valid)
    {
      ghost var before, added := Lists(), Stand();
      promoted := PromoteOf(tx.sender);
      SubmissionIs(config, v, V(), tx, local, valid, promoted, added, note, before, Lists(), locals, stateNonce,
                   balance, maxGas);
    }

    method PromoteOf(a: Addr) returns (ghost promoted: Snapshot)
      requires Valid()
      modifies this`all, this`pending, this`queue, this`nonces, priced
      ensures Valid() && Keeps({}) && (old(Executable()) ==> !ReadyAt(queue, nonces, stateNonce, a))
      ensures promoted in Promotions(old(Lists()), [a], stateNonce, balance, maxGas, config.accountQueue, locals)
      ensures Lists() in Cuttings(promoted, locals, config, stateNonce)
      ensures AllRoomy(config, old(queue), old(all), 0) ==> Lists() == promoted
    {
      promoted := PromoteExecutables([a]);
    }

    /** The loop of addTxsLocked: adds some transactions, and notes the accounts that got new ones. */
    method AddEach(txs: seq<(Tx, bool)>, local: bool)
        returns (dirty: set<Addr>, ghost stands: seq<Standing>, ghost notes: seq<Note>)
      requires Valid() && doomed == {}
      modifies this`all, this`pending, this`queue, this`nonces, this`locals, this`doomed, priced
      ensures Valid() && doomed == {} && KeepsRuns(dirty)
      ensures AddedUpto(old(Stand()), Stand(), txs, |txs|, local, config, stateNonce, stands, notes, dirty)
      ensures Fitting(config, old(all), |txs|) || txs == [] ==> StrandsNone()
    {
      dirty, stands, notes := {}, [Stand()], [];
      AddedNone(Stand(), txs, local, config, stateNonce);
      for i := 0 to |txs|
        invariant Valid() && doomed == {} && KeepsRuns(dirty)
        invariant AddedUpto(old(Stand()), Stand(), txs, i, local, config, stateNonce, stands, notes, dirty)
        invariant Fitting(config, old(all), |txs|) || i == 0 ==> StrandsNone()
      {
        ghost var before, drop := Stand(), [];
        var ok, replaced;
        ok, replaced, drop := Add(txs[i].0, local, txs[i].1);
        ghost var note := Note(drop, ok, replaced);
        AddedNext(old(Stand()), before, Stand(), txs, i, local, config, stateNonce, stands, notes, dirty, note);
        stands, notes := stands + [Stand()], notes + [note];
        if ok && !replaced {
          dirty := dirty + {txs[i].0.sender};
        }
      }
    }

    /**
      addTxsLocked: adds some transactions, and promotes for the accounts that got new ones; then the lists are cut if
      there are too many.
     */
    method AddTxs(txs: seq<(Tx, bool)>, local: bool) returns (ghost batch: Batch)
      requires Valid() && doomed == {}
      modifies this`all, this`pending, this`queue, this`nonces, this`locals, this`doomed, priced
      ensures Valid() && doomed == {} && KeepsRuns({}) && (!local ==> locals == old(locals))
      ensures (batch, Lists(), locals) in Batches(old(Stand()), txs, local, config, stateNonce, balance, maxGas)
      ensures Fitting(config, old(all), |txs|) ==>
                && StrandsNone() && |all| <= |old(all)| + |txs|
                && IsTrimmed(batch.promoted, Lists(), locals, config, stateNonce)
                && AreAdded(old(Contents()), AddAll(old(Contents()), txs, config.priceBump), old(nonces),
                            batch.promoted, stateNonce, balance, maxGas, config.accountQueue, locals, batch.accounts)
      ensures Roomy(config, old(all), |txs|) ==> Total(batch.promoted.pending) <= config.globalSlots
      ensures AllRoomy(config, old(queue), old(all), |txs|) ==> Lists() == batch.promoted
      ensures txs == [] ==> Stand() == old(Stand())
    {
      ghost var stands, notes;
      var dirty;
      dirty, stands, notes := AddEach(txs, local);
      ghost var added := Stand();
      ghost var accounts, promoted := PromoteDirty(dirty);
      batch := Batch(stands, notes, accounts, promoted);
      Fewer(all, added.pooled.all);
      AddedIsBatch(old(Stand()), added, txs, local, config, stateNonce, balance, maxGas, batch, dirty, Lists(), all);
    }

    /** promoteExecutables for the accounts that got new transactions, if there are any. */
    method PromoteDirty(dirty: set<Addr>) returns (ghost accounts: seq<Addr>, ghost promoted: Snapshot)
      requires Valid()
      modifies this`all, this`pending, this`queue, this`nonces, priced
      ensures Valid() && Keeps({}) && all <= old(all)
      ensures old(Executable()) ==> forall a | a in dirty :: !ReadyAt(queue, nonces, stateNonce, a)
      ensures (forall a :: a in accounts <==> a in dirty)
      ensures dirty == {} ==> Lists() == old(Lists()) && all == old(all)
      ensures promoted in Promotions(old(Lists()), accounts, stateNonce, balance, maxGas, config.accountQueue, locals)
      ensures Total(promoted.pending) <= |old(all)| && (accounts == [] ==> promoted == Lists())
      ensures accounts != [] ==> Lists() in Cuttings(promoted, locals, config, stateNonce)
      ensures AllRoomy(config, old(queue), old(all), 0) ==> Lists() == promoted
    {
      accounts, promoted := [], Lists();
      if dirty != {} {
        var order := AnyOrder(dirty);
        accounts := order;
        promoted := PromoteExecutables(order);
      } else {
        PoolWithin(pending, queue, all);
        NonePromoted(Lists(), stateNonce, balance, maxGas, config.accountQueue, locals);
      }
    }

    /** A part of the pending list of an account is forgotten. */
    method DropPending(a: Addr, kept: Items, gone: Items)
      requires Valid() && Splits(At(pending, a), kept, gone)
      modifies this`pending, this`all, priced
      ensures Valid() && At(pending, a) == kept && OnlyAt(old(pending), pending, a) && all == old(all) - gone.Values
      ensures StrandsNone()
    {
      DropPendingKeeps(pending, queue, all, a, kept, gone);
      var txs := Listed(gone);
      assert (set tx | tx in txs) == gone.Values by { ListedIs(gone, txs); }
      Forget(txs);
      PutAt(pending, a, kept);
      DropPendingStrays(pending, queue, old(all), Put(pending, a, kept), a, kept, gone);
      pending := Put(pending, a, kept);
    }

    /** A part of the pending list of an account is queued again. */
    method Demote(a: Addr, kept: Items, moved: Items)
      requires Valid() && Splits(At(pending, a), kept, moved)
      modifies this`pending, this`queue, this`all, priced
      ensures Valid() && At(pending, a) == kept && OnlyAt(old(pending), pending, a) && all == old(all)
      ensures At(queue, a) == old(At(queue, a)) + moved && OnlyAt(old(queue), queue, a) && StrandsNone()
    {
      DemoteKeeps(pending, queue, all, a, kept, moved);
      PutAt(pending, a, kept);
      pending := Put(pending, a, kept);
      PutAt(queue, a, At(queue, a) + moved);
      Requeue(a, moved);
      DemoteStrays(old(pending), old(queue), all, pending, queue, a, kept, moved);
    }

    /** A pending list loses what is too dear; what was behind it is queued again. */
    method FilterPending(a: Addr)
      requires Valid()
      modifies this`pending, this`queue, this`all, priced
      ensures Valid() && OnlyAt(old(pending), pending, a) && StrandsNone() && all <= old(all)
      ensures At(pending, a) == TxList.Filtered(true, old(At(pending, a)), balance(a), maxGas)
      ensures At(queue, a) == old(At(queue, a)) + TxList.Behind(true, old(At(pending, a)), balance(a), maxGas)
      ensures OnlyAt(old(queue), queue, a)
    {
      var p := At(pending, a);
      FilterSplits(p, balance(a), maxGas);
      DropPending(a, p - TxList.Dear(p, balance(a), maxGas).Keys, TxList.Dear(p, balance(a), maxGas));
      Demote(a, TxList.Filtered(true, p, balance(a), maxGas), TxList.Behind(true, p, balance(a), maxGas));
    }

    /** demoteUnexecutables for one account. */
    method DemoteAccount(a: Addr)
      requires Valid()
      modifies this`pending, this`queue, this`all, priced
      ensures Valid() && OnlyAt(old(pending), pending, a) && StrandsNone() && all <= old(all)
      ensures At(pending, a) == Demoted(old(At(pending, a)), stateNonce(a), balance(a), maxGas)
      ensures At(queue, a) == old(At(queue, a)) + Moved(old(At(pending, a)), stateNonce(a), balance(a), maxGas)
      ensures OnlyAt(old(queue), queue, a)
    {
      var nonce, p := stateNonce(a), At(pending, a);
      ForwardSplits(p, nonce);
      DropPending(a, From(p, nonce), TxList.Upto(p, nonce));
      FilterPending(a);
      CloseGap(a, nonce);
      UnionAssoc(old(At(queue, a)), TxList.Behind(true, From(p, nonce), balance(a), maxGas),
                 TxList.Filtered(true, From(p, nonce), balance(a), maxGas));
    }

    /** A pending list with a gap in front is queued again as a whole. */
    method CloseGap(a: Addr, nonce: nat)
      requires Valid()
      modifies this`pending, this`queue, this`all, priced
      ensures Valid() && OnlyAt(old(pending), pending, a) && StrandsNone() && all <= old(all)
      ensures At(pending, a) == if nonce in old(At(pending, a)) then old(At(pending, a)) else map[]
      ensures At(queue, a)
                == (if nonce in old(At(pending, a)) then old(At(queue, a)) else old(At(queue, a)) + old(At(pending, a)))
      ensures OnlyAt(old(queue), queue, a)
    {
      var left := At(pending, a);
      assert left == map[] ==> At(queue, a) + left == At(queue, a);
      if left != map[] && nonce !in left {
        Demote(a, map[], left);
      }
    }

    /** demoteUnexecutables. */
    method DemoteUnexecutables()
      requires Valid()
      modifies this`pending, this`queue, this`all, priced
      ensures Valid() && AllDemoted(old(pending), old(queue), pending, queue, stateNonce, balance, maxGas, {})
      ensures StrandsNone() && all <= old(all)
    {
      var todo := pending.Keys;
      DemotedStart(pending, queue, stateNonce, balance, maxGas);
      while todo != {}
        invariant Valid() && AllDemoted(old(pending), old(queue), pending, queue, stateNonce, balance, maxGas, todo)
        invariant StrandsNone() && all <= old(all)
        decreases |todo|
      {
        var a :| a in todo;
        ghost var p, q := pending, queue;
        DemoteAccount(a);
        DemotedStep(old(pending), old(queue), p, q, pending, queue, stateNonce, balance, maxGas, todo, a);
        todo := todo - {a};
      }
    }

    /** The pending nonces follow the pending lists. */
    method SetNonces()
      requires Valid()
      modifies this`nonces
      ensures NoncesSet(pending, old(nonces), nonces, {})
    {
      var todo := pending.Keys;
      while todo != {}
        invariant todo <= pending.Keys && NoncesSet(pending, old(nonces), nonces, todo)
        decreases |todo|
      {
        var a :| a in todo;
        assert NoneEmpty(pending);
        var last := HighestNonce(pending[a]);
        NonceStep(pending, old(nonces), nonces, todo, a, last);
        nonces := nonces[a := last + 1];
        todo := todo - {a};
      }
    }

    /** Brings the pending lists and nonces in line with the state. */
    method Revalidate()
      requires Valid()
      modifies this`pending, this`queue, this`all, this`nonces, priced
      ensures Valid() && StrandsNone() && all <= old(all)
      ensures IsRevalidated(old(Lists()), Lists(), stateNonce, balance, maxGas)
    {
      DemoteUnexecutables();
      SetNonces();
    }

    /**
      reset to the state of a new head, with the transactions that a reorg has set free. These are added, and promoted
      for the accounts that got new ones, which gives the lists `batch.promoted`, and `added` when these have been cut
      to the limits. What cannot be executed is demoted, which gives `demoted`, and what follows in the queues is
      promoted, which gives `renewed`. From these, the lists are cut to the limits. If pending transactions are runs in
      `demoted`, they stay so. With room for the transactions set free among the pending ones, these are again the next
      ones to execute, whatever the new state is, if and only if no account gets a gap. With too many, they are if no
      account gets a gap and none is cut that the new state has gone past.
     */
    method Reset(stateNonce': Addr -> nat, balance': Addr -> nat, maxGas': nat, reinject: seq<(Tx, bool)>)
        returns (ghost batch: Batch, ghost added: Snapshot, ghost demoted: Snapshot, ghost renewed: Snapshot)
      requires Valid() && doomed == {}
      modifies this, priced
      ensures Valid() && doomed == {}
      ensures (V(), Renewed(batch, added, demoted, renewed))
                in StepsFrom(config, old(V()), Step.NewHead(stateNonce', balance', maxGas', reinject))
      ensures locals == old(locals) && stateNonce == stateNonce' && balance == balance' && maxGas == maxGas'
      ensures Fitting(config, old(all), |reinject|) || reinject == [] ==> StrandsNone()
      ensures Fitting(config, old(all), |reinject|) ==>
                && |all| <= |old(all)| + |reinject| && IsTrimmed(batch.promoted, added, locals, config, stateNonce')
                && AreAdded(old(Contents()), AddAll(old(Contents()), reinject, config.priceBump), map[], batch.promoted,
                            stateNonce', balance', maxGas', config.accountQueue, locals, batch.accounts)
      ensures old(Executable()) ==>
                SettlesIff(old(Contents()), reinject, old(stateNonce), config, locals, stateNonce', balance', maxGas',
                           Settled(), Executable())
    {
      stateNonce, balance, maxGas, nonces := stateNonce', balance', maxGas', map[];
      assert Contents() == old(Contents());
      batch, added, demoted, renewed := RenewFrom(reinject, old(V()));
    }

    /** reset, when the state has changed. */
    method RenewFrom(reinject: seq<(Tx, bool)>, ghost v: View)
        returns (ghost batch: Batch, ghost t: Snapshot, ghost demoted: Snapshot, ghost renewed: Snapshot)
      requires Valid() && doomed == {} && nonces == map[]
      requires v.stand.pooled == Contents() && v.stand.locals == locals && v.gasPrice == gasPrice
      modifies this`all, this`pending, this`queue, this`nonces, this`locals, this`doomed, priced
      ensures Valid() && doomed == {} && locals == old(locals)
      ensures stateNonce == old(stateNonce) && balance == old(balance) && maxGas == old(maxGas)
      ensures (V(), Renewed(batch, t, demoted, renewed))
                in StepsFrom(config, v, Step.NewHead(stateNonce, balance, maxGas, reinject))
      ensures Fitting(config, old(all), |reinject|) || reinject == [] ==> StrandsNone()
      ensures Fitting(config, old(all), |reinject|) ==>
                && |all| <= |old(all)| + |reinject| && IsTrimmed(batch.promoted, t, locals, config, stateNonce)
                && AreAdded(v.stand.pooled, AddAll(v.stand.pooled, reinject, config.priceBump), map[], batch.promoted,
                            stateNonce, balance, maxGas, config.accountQueue, locals, batch.accounts)
      ensures Runs(v.stand.pooled.pending, v.stand.nonces, v.stateNonce) ==>
                SettlesIff(v.stand.pooled, reinject, v.stateNonce, config, locals, stateNonce, balance, maxGas,
                           Settled(), Executable())
    {
      batch, t, demoted, renewed := Renew(reinject);
      RenewalIsStep(config, v, V(), Step.NewHead(stateNonce, balance, maxGas, reinject),
                    Renewed(batch, t, demoted, renewed), Lists(), locals);
      if Runs(v.stand.pooled.pending, v.stand.nonces, v.stateNonce) {
        ResetRunsIff(v.stand.pooled, v.stand.nonces, v.stateNonce, reinject, config, batch.promoted, t, demoted,
                     renewed, nonces, stateNonce, balance, maxGas, locals, batch.accounts);
      }
    }

    /**
      The part of reset that follows the change of the state; t are the lists when the transactions have been added.
     */
    method Renew(reinject: seq<(Tx, bool)>)
        returns (ghost batch: Batch, ghost t: Snapshot, ghost demoted: Snapshot, ghost renewed: Snapshot)
      requires Valid() && doomed == {} && nonces == map[]
      modifies this`all, this`pending, this`queue, this`nonces, this`locals, this`doomed, priced
      ensures Valid() && doomed == {} && locals == old(locals)
      ensures demoted in Revalidations(t, stateNonce, balance, maxGas)
      ensures renewed in Renewings(demoted, stateNonce, balance, maxGas, config.accountQueue, locals)
      ensures Lists() in Cuttings(renewed, locals, config, stateNonce)
      ensures Runs(demoted.pending, demoted.nonces, stateNonce) ==> Settled()
      ensures Fitting(config, old(all), |reinject|) || reinject == [] ==> StrandsNone()
      ensures reinject == [] ==> t == old(Lists())
      ensures Fitting(config, old(all), |reinject|) ==>
                && AreAdded(old(Contents()), AddAll(old(Contents()), reinject, config.priceBump), map[], batch.promoted,
                            stateNonce, balance, maxGas, config.accountQueue, locals, batch.accounts)
                && |all| <= |old(all)| + |reinject| && IsTrimmed(batch.promoted, t, locals, config, stateNonce)
      ensures (batch, t, locals) in Batches(old(Stand()), reinject, false, config, stateNonce, balance, maxGas)
      ensures Roomy(config, old(all), |reinject|) ==>
                Total(batch.promoted.pending) <= config.globalSlots && pending == renewed.pending
    {
      batch, t := Readd(reinject);
      demoted := Lists();
      renewed := PromoteQueues();
    }

    method Readd(reinject: seq<(Tx, bool)>)
        returns (ghost batch: Batch, ghost t: Snapshot)
      requires Valid() && doomed == {} && nonces == map[]
      modifies this`all, this`pending, this`queue, this`nonces, this`locals, this`doomed, priced
      ensures Valid() && doomed == {} && locals == old(locals)
      ensures Lists() in Revalidations(t, stateNonce, balance, maxGas)
      ensures Fitting(config, old(all), |reinject|) || reinject == [] ==> StrandsNone()
      ensures reinject == [] ==> t == old(Lists())
      ensures Fitting(config, old(all), |reinject|) ==>
                && AreAdded(old(Contents()), AddAll(old(Contents()), reinject, config.priceBump), map[], batch.promoted,
                            stateNonce, balance, maxGas, config.accountQueue, locals, batch.accounts)
                && |all| <= |old(all)| + |reinject| && IsTrimmed(batch.promoted, t, locals, config, stateNonce)
      ensures (batch, t, locals) in Batches(old(Stand()), reinject, false, config, stateNonce, balance, maxGas)
      ensures Roomy(config, old(all), |reinject|) ==> Total(batch.promoted.pending) <= config.globalSlots
    {
      batch := AddTxs(reinject, false);
      t := Lists();
      ghost var known := all;
      Revalidate();
      Fewer(all, known);
    }

    /** promoteExecutables for all accounts with queued transactions. */
    method PromoteQueues() returns (ghost renewed: Snapshot)
      requires Valid()
      modifies this`all, this`pending, this`queue, this`nonces, priced
      ensures Valid() && StrandsNone()
      ensures renewed in Renewings(old(Lists()), stateNonce, balance, maxGas, config.accountQueue, locals)
      ensures Lists() in Cuttings(renewed, locals, config, stateNonce)
      ensures old(Executable()) ==> Settled()
      ensures |old(all)| <= config.globalSlots ==> pending == renewed.pending
      ensures |all| <= |old(all)|
    {
      var order := AnyOrder(queue.Keys);
      renewed := PromoteExecutables(order);
      AllArePromoted(old(Lists()), renewed, stateNonce, balance, maxGas, config.accountQueue, locals, order);
      Fewer(all, old(all));
    }

    method Submit(step: Step) returns (ghost trace: Trace)
      requires step.Submit? && Valid() && doomed == {}
      modifies this`all, this`pending, this`queue, this`nonces, this`locals, this`doomed, priced
      ensures Valid() && doomed == {} && (V(), trace) in StepsFrom(config, old(V()), step)
      ensures old(Settled()) ==> Settled()
    {
      ghost var promoted, added, note;
      var ok;
      ok, promoted, added, note := AddTx(step.tx, step.local, step.valid);
      trace := Submitted(promoted, added, note);
      SubmitIsStep(config, old(V()), V(), step, trace);
    }

    method SubmitAll(step: Step) returns (ghost trace: Trace)
      requires step.SubmitAll? && Valid() && doomed == {}
      modifies this`all, this`pending, this`queue, this`nonces, this`locals, this`doomed, priced
      ensures Valid() && doomed == {} && (V(), trace) in StepsFrom(config, old(V()), step)
      ensures old(Settled()) ==> Settled()
    {
      ghost var batch := AddTxs(step.txs, step.local);
      trace := Batched(batch);
      BatchIsStep(config, old(V()), V(), step, trace);
    }

    method NewHead(step: Step) returns (ghost trace: Trace)
      requires step.NewHead? && Valid() && doomed == {}
      modifies this, priced
      ensures Valid() && doomed == {} && (V(), trace) in StepsFrom(config, old(V()), step)
      ensures old(Settled()) && IsSafe(config, old(V()), step) ==> Settled()
      ensures old(Settled()) && Reinjects(step) && Roomy(config, old(all), |step.reinject|) ==>
                (Settled() <==> IsSafe(config, old(V()), step))
    {
      ghost var batch, added, demoted, renewed := Reset(step.stateNonce, step.balance, step.maxGas, step.reinject);
      trace := Renewed(batch, added, demoted, renewed);
    }

    /** Any step of the pool. */
    method Do(step: Step) returns (ghost trace: Trace)
      requires Valid() && doomed == {}
      modifies this, priced
      ensures Valid() && doomed == {} && (V(), trace) in StepsFrom(config, old(V()), step)
      ensures old(Settled()) && IsSafe(config, old(V()), step) ==> Settled()
      ensures old(Settled()) && Reinjects(step) && Roomy(config, old(all), |step.reinject|) ==>
                (Settled() <==> IsSafe(config, old(V()), step))
    {
      match step
      case Submit(_, _, _) =>
        trace := Submit(step);
      case SubmitAll(_, _) =>
        trace := SubmitAll(step);
      case Remove(tx) =>
        RemoveTx(tx);
        trace := Removed;
        RemovalIsStep(config, old(V()), V(), step);
      case Reprice(price) =>
        ghost var drop := SetGasPrice(price);
        trace := Repriced(drop);
        RepricingIsStep(config, old(V()), V(), step, drop);
      case NewHead(_, _, _, _) =>
        trace := NewHead(step);
    }

    /**
      After any run of steps, every listed transaction is in all and has a price entry, and no nonce is both pending and
      queued; and as long as no new head leaves a gap, the pending ones are just the next to execute.
     */
    method Run(steps: seq<Step>) returns (ghost views: seq<View>, ghost traces: seq<Trace>)
      requires Valid() && doomed == {}
      modifies this, priced
      ensures Valid() && doomed == {}
      ensures AreSteps(config, steps, views, traces, |steps|) && views[0] == old(V()) && views[|steps|] == V()
      ensures old(Settled()) && (forall i | 0 <= i < |steps| :: IsSafe(config, views[i], steps[i])) ==> Settled()
    {
      views, traces := [V()], [];
      for i := 0 to |steps|
        invariant Valid() && doomed == {}
        invariant AreSteps(config, steps, views, traces, i) && views[0] == old(V()) && views[i] == V()
        invariant old(Settled()) && (forall k | 0 <= k < i :: IsSafe(config, views[k], steps[k])) ==> Settled()
      {
        views, traces := Next(steps, i, views, traces);
      }
    }

    method Next(steps: seq<Step>, i: nat, ghost views: seq<View>, ghost traces: seq<Trace>)
        returns (ghost more: seq<View>, ghost longer: seq<Trace>)
      requires Valid() && doomed == {} && i < |steps| && AreSteps(config, steps, views, traces, i) && views[i] == V()
      modifies this, priced
      ensures Valid() && doomed == {} && AreSteps(config, steps, more, longer, i + 1) && more == views + [V()]
      ensures IsSettled(views[i]) && IsSafe(config, views[i], steps[i]) ==> Settled()
    {
      ghost var trace := Do(steps[i]);
      more, longer := views + [V()], traces + [trace];
      OneStepMore(config, steps, views, traces, i, V(), trace);
    }
  }
}
