/**
  Buying, using and refunding gas, as core/state_transition.go, core/gaspool.go and
  core/state_processor.go do it around the execution of a message. The execution itself is a
  given function that moves balances about but neither makes nor destroys any, and returns no
  more gas than it was given.
 */
module StateTransition {
  import Sums

  type Addr = nat
  type Balances = map<Addr, int>

  const U64: nat := 0x1_0000_0000_0000_0000

  // ---------- Balances ----------

  function BalanceOf(b: Balances, a: Addr): int {
    Sums.Get(b, a)
  }

  /** AddBalance, and SubBalance with a negative amount. */
  function Added(b: Balances, a: Addr, amount: int): Balances {
    b[a := BalanceOf(b, a) + amount]
  }

  /** Only one balance is different. */
  ghost predicate SameBut(b: Balances, c: Balances, a: Addr) {
    forall other | other != a :: BalanceOf(c, other) == BalanceOf(b, other)
  }

  /** The sender has got something back, and the coinbase its pay; they may be the same. */
  ghost predicate Settled(b: Balances, c: Balances, from: Addr, back: int, coinbase: Addr, pay: int) {
    forall a ::
      BalanceOf(c, a) == BalanceOf(b, a) + (if a == from then back else 0) + (if a == coinbase then pay else 0)
  }

  /** All the money there is. */
  ghost function Total(b: Balances): int {
    Sums.Sum(b)
  }

  lemma TotalAdded(b: Balances, a: Addr, amount: int)
    ensures Total(Added(b, a, amount)) == Total(b) + amount
  {
    Sums.SumChange(b, a, BalanceOf(b, a) + amount);
  }

  // ---------- Messages and their execution ----------

  datatype World = World(balances: Balances, nonces: map<Addr, nat>)

  function NonceOf(w: World, a: Addr): nat {
    if a in w.nonces then w.nonces[a] else 0
  }

  datatype VmError = NoError | InsufficientBalance | OtherVmError

  /** What execution leaves: the world, the gas that is left, and the refund counter. */
  datatype Outcome = Outcome(world: World, gasLeft: nat, refund: nat, vmerr: VmError)

  type Evm = (World, nat) -> Outcome

  ghost predicate Honest(evm: Evm) {
    forall w: World, gas: nat :: Total(evm(w, gas).world.balances) == Total(w.balances) && evm(w, gas).gasLeft <= gas
  }

  /** The gas that the protocol charges for a message and its data. */
  datatype GasTable = GasTable(txGas: nat, txGasContractCreation: nat, txDataNonZeroGas: nat, txDataZeroGas: nat)

  datatype Message = Message(from: Addr, isCreation: bool, nonce: nat, checkNonce: bool, gasPrice: nat, gasLimit: nat,
                             data: seq<nat>, system: bool, run: Evm)

  datatype TxError =
    NonceTooHigh | NonceTooLow | OutOfGas | InsufficientBalanceForGas | GasLimitReached | InsufficientValue
  datatype Result<T> = Ok(value: T) | Err(error: TxError)

  /** Where the first n bytes are zero, or are not. */
  ghost function Places(data: seq<nat>, n: nat, zero: bool): set<nat>
    requires n <= |data|
  {
    set i | 0 <= i < n && (data[i] == 0 <==> zero)
  }

  lemma PlacesOneMore(data: seq<nat>, n: nat, zero: bool)
    requires n < |data|
    ensures |Places(data, n + 1, zero)| == |Places(data, n, zero)| + (if data[n] == 0 <==> zero then 1 else 0)
  {
    assert Places(data, n + 1, zero) == Places(data, n, zero) + if data[n] == 0 <==> zero then {n} else {};
  }

  /** Every byte is of one kind or of the other. */
  lemma {:induction false} PlacesOfBothKinds(data: seq<nat>, n: nat)
    requires n <= |data|
    ensures |Places(data, n, true)| + |Places(data, n, false)| == n
  {
    if n > 0 {
      PlacesOfBothKinds(data, n - 1);
      PlacesOneMore(data, n - 1, true);
      PlacesOneMore(data, n - 1, false);
    }
  }

  function Times(n: nat, m: nat): (product: int)
    ensures product >= 0
  {
    n * m
  }

  lemma TimesSplit(a: nat, b: nat, m: nat)
    ensures Times(a + b, m) == Times(a, m) + Times(b, m)
    ensures Times(0, m) == 0
  {
  }

  lemma TimesPositive(n: nat, m: nat)
    ensures Times(n, m) == 0 <==> n == 0 || m == 0
  {
  }

  lemma TimesOneMore(n: nat, m: nat)
    ensures Times(n + 1, m) == Times(n, m) + m
  {
  }

  /** IntrinsicGas: the base price, and a price for each byte. */
  method IntrinsicGas(table: GasTable, data: seq<nat>, isCreation: bool, pangu: bool) returns (igas: nat)
    ensures igas == (if isCreation && pangu then table.txGasContractCreation else table.txGas)
                    + Times(|set i | 0 <= i < |data| && data[i] != 0|, table.txDataNonZeroGas)
                    + Times(|set i | 0 <= i < |data| && data[i] == 0|, table.txDataZeroGas)
  {
    igas := if isCreation && pangu then table.txGasContractCreation else table.txGas;
    if |data| > 0 {
      var nz := 0;
      for i := 0 to |data|
        invariant nz == |Places(data, i, false)|
      {
        PlacesOneMore(data, i, false);
        if data[i] != 0 {
          nz := nz + 1;
        }
      }
      PlacesOfBothKinds(data, |data|);
      igas := igas + Times(nz, table.txDataNonZeroGas);
      igas := igas + Times(|data| - nz, table.txDataZeroGas);
    }
    assert (set i | 0 <= i < |data| && data[i] != 0) == Places(data, |data|, false);
    assert (set i | 0 <= i < |data| && data[i] == 0) == Places(data, |data|, true);
  }

  // ---------- The gas pool ----------

  class GasPool {
    var gas: nat

    constructor (gas: nat)
      ensures this.gas == gas
    {
      this.gas := gas;
    }

    method AddGas(amount: nat)
      modifies this
      ensures gas == old(gas) + amount
    {
      gas := gas + amount;
    }

    /** SubGas: refuses to go below zero. */
    method SubGas(amount: nat) returns (ok: bool)
      modifies this
      ensures ok <==> amount <= old(gas)
      ensures gas == if ok then old(gas) - amount else old(gas)
    {
      if gas < amount {
        return false;
      }
      gas := gas - amount;
      ok := true;
    }
  }

  // ---------- The transition ----------

  /** The gas limit fits a word, and both the sender and the pool can afford it. */
  predicate CanBuy(msg: Message, w: World, poolGas: nat) {
    msg.gasLimit < U64 && BalanceOf(w.balances, msg.from) >= Times(msg.gasLimit, msg.gasPrice)
      && msg.gasLimit <= poolGas
  }

  /** The world after the gas has been bought. */
  function Bought(msg: Message, w: World): World {
    w.(balances := Added(w.balances, msg.from, -Times(msg.gasLimit, msg.gasPrice)))
  }

  ghost function IntrinsicGasOf(table: GasTable, msg: Message, pangu: bool): nat {
    (if msg.isCreation && pangu then table.txGasContractCreation else table.txGas)
    + Times(|set i | 0 <= i < |msg.data| && msg.data[i] != 0|, table.txDataNonZeroGas)
    + Times(|set i | 0 <= i < |msg.data| && msg.data[i] == 0|, table.txDataZeroGas)
  }

  /** The gas that execution is given: system messages do not pay for their data. */
  ghost function Given(table: GasTable, msg: Message, pangu: bool): nat {
    if msg.system then msg.gasLimit
    else if IntrinsicGasOf(table, msg, pangu) <= msg.gasLimit then msg.gasLimit - IntrinsicGasOf(table, msg, pangu)
    else 0
  }

  /** Execution: a call counts the sender's nonce up, and a system contract is created without gas. */
  function Executed(msg: Message, w: World, gas: nat): Outcome {
    if msg.isCreation then
      var o := msg.run(w, gas);
      if msg.system then o.(gasLeft := gas) else o
    else msg.run(w.(nonces := w.nonces[msg.from := NonceOf(w, msg.from) + 1]), gas)
  }

  /** The nonce is right, if it is to be checked, and sender and pool can afford the gas. */
  predicate Buys(msg: Message, w: World, poolGas: nat) {
    && (msg.checkNonce ==> msg.nonce == if msg.from in w.nonces then w.nonces[msg.from] else 0)
    && CanBuy(msg, w, poolGas)
  }

  /** There is gas enough to begin with. */
  ghost predicate HasGas(table: GasTable, msg: Message, pangu: bool) {
    IntrinsicGasOf(table, msg, pangu) < U64 && (msg.system || IntrinsicGasOf(table, msg, pangu) <= msg.gasLimit)
  }

  /** The message is executed, and not refused. */
  ghost predicate Accepted(table: GasTable, msg: Message, pangu: bool, w: World, poolGas: nat) {
    && Buys(msg, w, poolGas) && HasGas(table, msg, pangu)
    && Executed(msg, Bought(msg, w), Given(table, msg, pangu)).vmerr != InsufficientBalance
  }

  /** Why gas cannot be bought: the first of these that holds. */
  ghost function NoPurchase(msg: Message, w: World): TxError {
    if msg.gasLimit >= U64 then OutOfGas
    else if BalanceOf(w.balances, msg.from) < Times(msg.gasLimit, msg.gasPrice) then InsufficientBalanceForGas
    else GasLimitReached
  }

  /** Why a message is refused before it is executed. */
  ghost function NoBeginning(msg: Message, w: World, poolGas: nat): TxError {
    if msg.checkNonce && NonceOf(w, msg.from) < msg.nonce then NonceTooHigh
    else if msg.checkNonce && NonceOf(w, msg.from) > msg.nonce then NonceTooLow
    else if !CanBuy(msg, w, poolGas) then NoPurchase(msg, w)
    else OutOfGas
  }

  /** Why a message is refused. */
  ghost function Refusal(table: GasTable, msg: Message, pangu: bool, w: World, poolGas: nat): TxError {
    if Buys(msg, w, poolGas) && HasGas(table, msg, pangu) then InsufficientValue else NoBeginning(msg, w, poolGas)
  }

  /** What a message loses that has used no gas. */
  function Lost(gasLimit: nat, gasLeft: nat): nat {
    if gasLeft == gasLimit then gasLimit else 0
  }

  /** The world in which a call is executed: the gas has been bought, and the sender's nonce counted up. */
  function CallWorld(msg: Message, w: World): World {
    var b := Bought(msg, w);
    b.(nonces := b.nonces[msg.from := NonceOf(b, msg.from) + 1])
  }

  /**
    A system message that buys gas and cannot use it, or does not: a system contract is created without gas, and a
    call may leave all that it was given.
   */
  predicate Forfeits(msg: Message, w: World) {
    msg.system && msg.gasLimit > 0
      && (msg.isCreation || msg.run(CallWorld(msg, w), msg.gasLimit).gasLeft == msg.gasLimit)
  }

  /** Messages have a price, whatever their data. */
  predicate Charges(table: GasTable) {
    table.txGas > 0 && table.txGasContractCreation > 0
  }

  /** Of the messages that are executed, just these lose what they have bought. */
  lemma LostIffForfeits(table: GasTable, msg: Message, pangu: bool, w: World)
    requires Charges(table) && Honest(msg.run) && HasGas(table, msg, pangu)
    ensures var lost := Lost(msg.gasLimit, Executed(msg, Bought(msg, w), Given(table, msg, pangu)).gasLeft);
            && (lost == 0 <==> !Forfeits(msg, w))
            && (Times(lost, msg.gasPrice) == 0 <==> !Forfeits(msg, w) || msg.gasPrice == 0)
  {
    var executed := Executed(msg, Bought(msg, w), Given(table, msg, pangu));
    assert executed.gasLeft <= Given(table, msg, pangu);
    assert !msg.system ==> Given(table, msg, pangu) < msg.gasLimit;
    assert !msg.isCreation ==> executed == msg.run(CallWorld(msg, w), Given(table, msg, pangu));
    TimesPositive(Lost(msg.gasLimit, executed.gasLeft), msg.gasPrice);
  }

  /** The gas used is what execution did not leave, less the refund, of at most half; it is paid to the coinbase. */
  ghost predicate IsSettlement(msg: Message, executed: Outcome, coinbase: Addr, gasUsed: nat, w: World) {
    && executed.gasLeft <= msg.gasLimit && w.nonces == executed.world.nonces
    && var used := msg.gasLimit - executed.gasLeft;
       && gasUsed == used - (if executed.refund < used / 2 then executed.refund else used / 2)
       && Settled(executed.world.balances, w.balances, msg.from,
                  if used > 0 then Times(msg.gasLimit - gasUsed, msg.gasPrice) else 0, coinbase,
                  Times(gasUsed, msg.gasPrice))
  }

  class Transition {
    const gp: GasPool
    const msg: Message
    var gasRemaining: nat
    var initialGas: nat
    var world: World

    constructor (msg: Message, gp: GasPool, world: World)
      ensures this.msg == msg && this.gp == gp && this.world == world && gasRemaining == 0 && initialGas == 0
    {
      this.msg, this.gp, this.world, gasRemaining, initialGas := msg, gp, world, 0, 0;
    }

    /** useGas. */
    method UseGas(amount: nat) returns (ok: bool)
      modifies this`gasRemaining
      ensures ok <==> amount <= old(gasRemaining)
      ensures gasRemaining == if ok then old(gasRemaining) - amount else old(gasRemaining)
    {
      if gasRemaining < amount {
        return false;
      }
      gasRemaining := gasRemaining - amount;
      ok := true;
    }

    /** buyGas: all of the gas limit is paid for in advance, from the sender and from the pool, or nothing is. */
    method BuyGas() returns (r: Result<()>)
      modifies this, gp
      ensures r.Err? ==>
                world == old(world) && gp.gas == old(gp.gas) && gasRemaining == old(gasRemaining)
                  && initialGas == old(initialGas)
      ensures r.Ok? <==> CanBuy(msg, old(world), old(gp.gas))
      ensures r.Err? ==> r.error == NoPurchase(msg, old(world))
      ensures r.Ok? ==>
                && gp.gas == old(gp.gas) - msg.gasLimit && gasRemaining == old(gasRemaining) + msg.gasLimit
                && initialGas == msg.gasLimit
                && world == Bought(msg, old(world))
    {
      if msg.gasLimit >= U64 {
        return Err(OutOfGas);
      }
      var mgval := Times(msg.gasLimit, msg.gasPrice);
      if BalanceOf(world.balances, msg.from) < mgval {
        return Err(InsufficientBalanceForGas);
      }
      var ok := gp.SubGas(msg.gasLimit);
      if !ok {
        return Err(GasLimitReached);
      }
      gasRemaining := gasRemaining + msg.gasLimit;
      initialGas := msg.gasLimit;
      world := world.(balances := Added(world.balances, msg.from, -mgval));
      r := Ok(());
    }

    /** preCheck. */
    method PreCheck() returns (r: Result<()>)
      modifies this, gp
      ensures r.Err? ==>
                world == old(world) && gp.gas == old(gp.gas) && gasRemaining == old(gasRemaining)
                  && initialGas == old(initialGas)
      ensures r.Ok? <==> Buys(msg, old(world), old(gp.gas))
      ensures r.Err? ==> r.error == NoBeginning(msg, old(world), old(gp.gas))
      ensures r.Ok? ==>
                && gp.gas == old(gp.gas) - msg.gasLimit && gasRemaining == old(gasRemaining) + msg.gasLimit
                && initialGas == msg.gasLimit < U64
                && world == Bought(msg, old(world))
    {
      if msg.checkNonce {
        var nonce := NonceOf(world, msg.from);
        if nonce < msg.nonce {
          return Err(NonceTooHigh);
        } else if nonce > msg.nonce {
          return Err(NonceTooLow);
        }
      }
      r := BuyGas();
    }

    /** gasUsed: never negative. */
    function GasUsed(): nat
      reads this`initialGas, this`gasRemaining
    {
      if initialGas > gasRemaining then initialGas - gasRemaining else 0
    }

    /**
      refundGas: unused gas is given back to the sender and to the pool, with up to half of the used gas on top.
      All of this happens only if some gas was used.
     */
    method RefundGas(counter: nat)
      requires gasRemaining <= initialGas
      modifies this`gasRemaining, this`world, gp
      ensures gasRemaining <= initialGas
      ensures old(gasRemaining) == initialGas ==> gasRemaining == initialGas && gp.gas == old(gp.gas)
      ensures old(gasRemaining) < initialGas ==> gasRemaining < initialGas && gp.gas == old(gp.gas) + gasRemaining
      ensures var refund := gasRemaining - old(gasRemaining);
              0 <= refund == (if counter < old(GasUsed()) / 2 then counter else old(GasUsed()) / 2)
      ensures Total(world.balances)
                == Total(old(world.balances))
                  + (if old(gasRemaining) < initialGas then Times(gasRemaining, msg.gasPrice) else 0)
      ensures SameBut(old(world.balances), world.balances, msg.from)
      ensures BalanceOf(world.balances, msg.from) == BalanceOf(old(world.balances), msg.from)
                                                     + (if old(gasRemaining) < initialGas
                                                        then Times(gasRemaining, msg.gasPrice) else 0)
      ensures world.nonces == old(world.nonces)
    {
      var remaining := Times(gasRemaining, msg.gasPrice);
      if initialGas > gasRemaining {
        TotalAdded(world.balances, msg.from, remaining);
        world := world.(balances := Added(world.balances, msg.from, remaining));
      }
      var uhalf := GasUsed() / 2;
      var refund := if counter < uhalf then counter else uhalf;
      gasRemaining := gasRemaining + refund;
      TotalAdded(world.balances, msg.from, Times(refund, msg.gasPrice));
      world := world.(balances := Added(world.balances, msg.from, Times(refund, msg.gasPrice)));
      TimesSplit(old(gasRemaining), refund, msg.gasPrice);
      if initialGas > gasRemaining {
        gp.AddGas(gasRemaining);
      }
    }

    /**
      TransitionDb. When the message is executed, the gas that left the pool is what was used, and all balances together
      are what they were, whoever the sender and the coinbase are. The exceptions are exactly the system messages that
      use none of the gas they buy: they lose what they have paid for.
     */
    method TransitionDb(table: GasTable, coinbase: Addr, pangu: bool)
        returns (r: Result<Receipt>, ghost executed: Outcome)
      requires Honest(msg.run) && gasRemaining == 0
      modifies this, gp
      ensures executed == Executed(msg, Bought(msg, old(world)), Given(table, msg, pangu))
      ensures r.Ok? <==> Accepted(table, msg, pangu, old(world), old(gp.gas))
      ensures r.Err? ==> r.error == Refusal(table, msg, pangu, old(world), old(gp.gas))
      ensures r.Err? && !Buys(msg, old(world), old(gp.gas)) ==> world == old(world) && gp.gas == old(gp.gas)
      ensures r.Err? && Buys(msg, old(world), old(gp.gas)) ==>
                gp.gas == old(gp.gas) - msg.gasLimit
                  && world == if HasGas(table, msg, pangu) then executed.world else Bought(msg, old(world))
      ensures r.Ok? ==>
                IsSettlement(msg, executed, coinbase, r.value.gasUsed, world)
                  && (r.value.failed <==> executed.vmerr != NoError)
      ensures r.Ok? ==> gp.gas + r.value.gasUsed + Lost(msg.gasLimit, executed.gasLeft) == old(gp.gas)
      ensures r.Ok? ==>
                Total(world.balances) + Times(Lost(msg.gasLimit, executed.gasLeft), msg.gasPrice)
                  == Total(old(world.balances))
      ensures r.Ok? && Charges(table) ==>
                && (gp.gas + r.value.gasUsed == old(gp.gas) <==> !Forfeits(msg, old(world)))
                && (Total(world.balances) == Total(old(world.balances)) <==>
                    !Forfeits(msg, old(world)) || msg.gasPrice == 0)
    {
      executed := Executed(msg, Bought(msg, world), Given(table, msg, pangu));
      ghost var w := world;
      var prepared := Prepare(table, pangu);
      if prepared.Err? {
        return Err(prepared.error), executed;
      }
      var refund, vmerr := Execute();
      if vmerr == InsufficientBalance {
        return Err(InsufficientValue), executed;
      }
      TotalAdded(w.balances, msg.from, -Times(msg.gasLimit, msg.gasPrice));
      if Charges(table) {
        LostIffForfeits(table, msg, pangu, w);
      }
      Settle(refund, coinbase);
      r := Ok(Receipt(vmerr != NoError, GasUsed()));
    }

    /** The beginning of TransitionDb: gas is bought, and some of it used for the message and its data. */
    method Prepare(table: GasTable, pangu: bool) returns (r: Result<()>)
      requires gasRemaining == 0
      modifies this, gp
      ensures r.Ok? <==>
                Buys(msg, old(world), old(gp.gas)) && HasGas(table, msg, pangu)
      ensures r.Err? ==> r.error == NoBeginning(msg, old(world), old(gp.gas))
      ensures !Buys(msg, old(world), old(gp.gas)) ==> world == old(world) && gp.gas == old(gp.gas)
      ensures r.Err? && Buys(msg, old(world), old(gp.gas)) ==>
                world == Bought(msg, old(world)) && gp.gas == old(gp.gas) - msg.gasLimit
      ensures r.Ok? ==>
                && world == Bought(msg, old(world)) && gp.gas == old(gp.gas) - msg.gasLimit
                && initialGas == msg.gasLimit && gasRemaining == Given(table, msg, pangu)
    {
      r := PreCheck();
      if r.Err? {
        return;
      }
      var intrinsicGas := IntrinsicGas(table, msg.data, msg.isCreation, pangu);
      if intrinsicGas >= U64 {
        return Err(OutOfGas);
      }
      if !msg.system {
        var ok := UseGas(intrinsicGas);
        if !ok {
          return Err(OutOfGas);
        }
      }
    }

    /** The end of TransitionDb: what was bought goes back to the sender or to the coinbase, if some gas was used. */
    method Settle(refund: nat, coinbase: Addr)
      requires gasRemaining <= initialGas == msg.gasLimit
      modifies this`gasRemaining, this`world, gp
      ensures gp.gas + GasUsed() + Lost(initialGas, old(gasRemaining)) == old(gp.gas) + initialGas
      ensures Total(world.balances) + Times(Lost(initialGas, old(gasRemaining)), msg.gasPrice)
                == Total(old(world.balances)) + Times(initialGas, msg.gasPrice)
      ensures forall vmerr ::
                IsSettlement(msg, Outcome(old(world), old(gasRemaining), refund, vmerr), coinbase, GasUsed(), world)
    {
      RefundGas(refund);
      TimesSplit(gasRemaining, GasUsed(), msg.gasPrice);
      PayCoinbase(coinbase);
    }

    /** The execution itself. */
    method Execute() returns (refund: nat, vmerr: VmError)
      requires Honest(msg.run)
      modifies this`world, this`gasRemaining
      ensures Outcome(world, gasRemaining, refund, vmerr) == Executed(msg, old(world), old(gasRemaining))
      ensures Total(world.balances) == Total(old(world.balances)) && gasRemaining <= old(gasRemaining)
    {
      if msg.isCreation {
        var outcome := msg.run(world, gasRemaining);
        refund, vmerr, world := outcome.refund, outcome.vmerr, outcome.world;
        if !msg.system {
          gasRemaining := outcome.gasLeft;
        }
      } else {
        world := world.(nonces := world.nonces[msg.from := NonceOf(world, msg.from) + 1]);
        var outcome := msg.run(world, gasRemaining);
        refund, vmerr, world, gasRemaining := outcome.refund, outcome.vmerr, outcome.world, outcome.gasLeft;
      }
    }

    method PayCoinbase(coinbase: Addr)
      modifies this`world
      ensures Total(world.balances) == Total(old(world.balances)) + Times(GasUsed(), msg.gasPrice)
      ensures world == old(world).(balances := Added(old(world.balances), coinbase, Times(GasUsed(), msg.gasPrice)))
    {
      TotalAdded(world.balances, coinbase, Times(GasUsed(), msg.gasPrice));
      world := world.(balances := Added(world.balances, coinbase, Times(GasUsed(), msg.gasPrice)));
    }
  }

  datatype Receipt = Receipt(failed: bool, gasUsed: nat)

  // ---------- A block ----------

  datatype BlockReceipt = BlockReceipt(failed: bool, cumulativeGasUsed: nat, gasUsed: nat)

  function GasBefore(receipts: seq<BlockReceipt>, j: nat): nat
    requires j <= |receipts|
  {
    if j == 0 then 0 else receipts[j - 1].cumulativeGasUsed
  }

  /** Each receipt counts the gas used up to it. */
  ghost predicate Summed(receipts: seq<BlockReceipt>) {
    forall j {:trigger SummedAt(receipts, j)} | 0 <= j < |receipts| :: SummedAt(receipts, j)
  }

  predicate SummedAt(receipts: seq<BlockReceipt>, j: nat)
    requires j < |receipts|
  {
    receipts[j].cumulativeGasUsed == GasBefore(receipts, j) + receipts[j].gasUsed
  }

  lemma SummedOneMore(receipts: seq<BlockReceipt>, r: BlockReceipt)
    requires Summed(receipts) && r.cumulativeGasUsed == GasBefore(receipts, |receipts|) + r.gasUsed
    ensures Summed(receipts + [r]) && GasBefore(receipts + [r], |receipts| + 1) == r.cumulativeGasUsed
  {
    var more := receipts + [r];
    forall j | 0 <= j < |more|
      ensures SummedAt(more, j)
    {
      if j < |receipts| {
        assert SummedAt(receipts, j);
      }
    }
  }

  /** These are the places of the ordinary messages, in order. */
  ghost predicate ArePlaces(msgs: seq<Message>, at: seq<nat>) {
    && (forall j, k | 0 <= j < k < |at| :: at[j] < at[k])
    && (forall k | 0 <= k < |at| :: at[k] < |msgs|)
    && (forall i | 0 <= i < |msgs| :: i in at <==> !msgs[i].system)
  }

  lemma OnePlaceMore(msgs: seq<Message>, i: nat, at: seq<nat>)
    requires i < |msgs| && ArePlaces(msgs[..i], at)
    ensures ArePlaces(msgs[..i + 1], if msgs[i].system then at else at + [i])
  {
    var more := if msgs[i].system then at else at + [i];
    forall k: nat | k <= i
      ensures k in more <==> !msgs[k].system
    {
      if k < i {
        assert msgs[..i][k] == msgs[k];
      }
    }
  }

  /** These are the messages at the places. */
  ghost predicate AreAt(txs: seq<Message>, msgs: seq<Message>, at: seq<nat>) {
    && |txs| == |at| && (forall k | 0 <= k < |at| :: at[k] < |msgs|)
    && forall k | 0 <= k < |at| :: txs[k] == msgs[at[k]]
  }

  lemma OneMessageMore(msgs: seq<Message>, i: nat, txs: seq<Message>, at: seq<nat>)
    requires i < |msgs| && ArePlaces(msgs[..i], at) && AreAt(txs, msgs, at)
    ensures if msgs[i].system then ArePlaces(msgs[..i + 1], at)
            else ArePlaces(msgs[..i + 1], at + [i]) && AreAt(txs + [msgs[i]], msgs, at + [i])
  {
    OnePlaceMore(msgs, i, at);
  }

  /** System messages of the block are left out, and the others keep their order. */
  method LeaveOutSystem(msgs: seq<Message>) returns (txs: seq<Message>, ghost at: seq<nat>)
    ensures ArePlaces(msgs, at) && AreAt(txs, msgs, at)
  {
    txs, at := [], [];
    for i := 0 to |msgs|
      invariant ArePlaces(msgs[..i], at) && AreAt(txs, msgs, at)
    {
      OneMessageMore(msgs, i, txs, at);
      if !msgs[i].system {
        txs, at := txs + [msgs[i]], at + [i];
      }
    }
    assert msgs[..|msgs|] == msgs;
  }

  /** How often a message is there. */
  ghost function Copies(msgs: seq<Message>, m: Message): nat {
    if msgs == [] then 0
    else Copies(msgs[..|msgs| - 1], m) + if msgs[|msgs| - 1] == m then 1 else 0
  }

  lemma {:induction false} CopiesCounted(msgs: seq<Message>, m: Message)
    ensures Copies(msgs, m) == multiset(msgs)[m]
  {
    if msgs != [] {
      var n := |msgs| - 1;
      CopiesCounted(msgs[..n], m);
      assert msgs == msgs[..n] + [msgs[n]];
    }
  }

  lemma {:induction false} CopiesKept(msgs: seq<Message>, txs: seq<Message>, at: seq<nat>, m: Message)
    requires ArePlaces(msgs, at) && AreAt(txs, msgs, at)
    ensures Copies(txs, m) == if m.system then 0 else Copies(msgs, m)
  {
    PlacesInside(msgs, at);
    if msgs != [] {
      var n := |msgs| - 1;
      BeforeTheLast(msgs, txs, at);
      if msgs[n].system {
        CopiesKept(msgs[..n], txs, at, m);
      } else {
        CopiesKept(msgs[..n], txs[..|at| - 1], at[..|at| - 1], m);
      }
    }
  }

  /** Each ordinary message is there as often as before. */
  lemma NoneIsLost(msgs: seq<Message>, txs: seq<Message>, at: seq<nat>, m: Message)
    requires ArePlaces(msgs, at) && AreAt(txs, msgs, at)
    ensures multiset(txs)[m] == if m.system then 0 else multiset(msgs)[m]
  {
    CopiesKept(msgs, txs, at, m);
    CopiesCounted(msgs, m);
    CopiesCounted(txs, m);
  }

  lemma PlacesInside(msgs: seq<Message>, at: seq<nat>)
    requires ArePlaces(msgs, at)
    ensures at != [] ==> msgs != []
  {
    if at != [] {
      assert at[0] < |msgs|;
    }
  }

  lemma LastPlace(msgs: seq<Message>, at: seq<nat>)
    requires msgs != [] && !msgs[|msgs| - 1].system && ArePlaces(msgs, at)
    ensures at != [] && at[|at| - 1] == |msgs| - 1
  {
    assert |msgs| - 1 in at;
  }

  lemma BeforeTheLast(msgs: seq<Message>, txs: seq<Message>, at: seq<nat>)
    requires msgs != [] && ArePlaces(msgs, at) && AreAt(txs, msgs, at)
    ensures var n := |msgs| - 1;
            if msgs[n].system then ArePlaces(msgs[..n], at) && AreAt(txs, msgs[..n], at)
            else
              && at != [] && txs[|at| - 1] == msgs[n]
              && ArePlaces(msgs[..n], at[..|at| - 1]) && AreAt(txs[..|at| - 1], msgs[..n], at[..|at| - 1])
  {
    var n := |msgs| - 1;
    if msgs[n].system {
      forall k | 0 <= k < |at|
        ensures at[k] < n
      {
        assert at[k] in at;
      }
    } else {
      LastPlace(msgs, at);
      var most := at[..|at| - 1];
      forall i | 0 <= i < n
        ensures i in most <==> !msgs[i].system
      {
        assert i in at <==> i in most;
      }
    }
  }

  /** What there is between two messages: the world, and the gas in the pool. */
  datatype Stage = Stage(world: World, gas: nat)

  /** The message is executed, and the receipt says so. */
  ghost predicate IsApplied(table: GasTable, coinbase: Addr, pangu: bool, msg: Message, s: Stage, t: Stage,
                            receipt: BlockReceipt) {
    && Accepted(table, msg, pangu, s.world, s.gas)
    && var executed := Executed(msg, Bought(msg, s.world), Given(table, msg, pangu));
       && IsSettlement(msg, executed, coinbase, receipt.gasUsed, t.world)
       && t.gas + receipt.gasUsed + Lost(msg.gasLimit, executed.gasLeft) == s.gas
       && (receipt.failed <==> executed.vmerr != NoError)
  }

  /** The system's call, and the ordinary messages. */
  ghost function TxAt(systx: Message, msgs: seq<Message>, at: seq<nat>, k: nat): Message
    requires ArePlaces(msgs, at) && k <= |at|
  {
    if k == 0 then systx else msgs[at[k - 1]]
  }

  class Block {
    const table: GasTable
    const coinbase: Addr
    const gasLimit: nat
    const pangu: bool
    var world: World
    var totalUsedGas: nat
    var receipts: seq<BlockReceipt>

    constructor (table: GasTable, coinbase: Addr, gasLimit: nat, pangu: bool, world: World)
      ensures this.table == table && this.coinbase == coinbase && this.gasLimit == gasLimit && this.world == world
      ensures totalUsedGas == 0 && receipts == []
    {
      this.table, this.coinbase, this.gasLimit, this.pangu, this.world := table, coinbase, gasLimit, pangu, world;
      totalUsedGas, receipts := 0, [];
    }

    /** What is left in the gas pool and what has been used make up the limit of the block; the receipts say how. */
    ghost predicate Valid(gp: GasPool)
      reads this, gp
    {
      && gp.gas + totalUsedGas == gasLimit
      && Summed(receipts) && totalUsedGas == GasBefore(receipts, |receipts|)
    }

    /** ApplyTransaction: the gas and receipt part. The gas of the block adds up unless the message forfeits some. */
    method ApplyTransaction(msg: Message, gp: GasPool) returns (ok: bool)
      requires Valid(gp) && Honest(msg.run) && Charges(table)
      modifies this, gp
      ensures ok <==> Accepted(table, msg, pangu, old(world), old(gp.gas))
      ensures ok ==> |receipts| == |old(receipts)| + 1 && receipts[..|old(receipts)|] == old(receipts)
      ensures ok ==> Summed(receipts) && totalUsedGas == GasBefore(receipts, |receipts|)
      ensures ok ==> (Valid(gp) <==> !Forfeits(msg, old(world)))
      ensures ok ==>
                (Total(world.balances) == Total(old(world.balances)) <==>
                 !Forfeits(msg, old(world)) || msg.gasPrice == 0)
      ensures ok ==>
                IsApplied(table, coinbase, pangu, msg, Stage(old(world), old(gp.gas)), Stage(world, gp.gas),
                          receipts[|old(receipts)|])
      ensures !ok ==> receipts == old(receipts) && totalUsedGas == old(totalUsedGas)
    {
      var st := new Transition(msg, gp, world);
      var r, executed := st.TransitionDb(table, coinbase, pangu);
      world := st.world;
      if r.Err? {
        return false;
      }
      totalUsedGas := totalUsedGas + r.value.gasUsed;
      SummedOneMore(receipts, BlockReceipt(r.value.failed, totalUsedGas, r.value.gasUsed));
      receipts := receipts + [BlockReceipt(r.value.failed, totalUsedGas, r.value.gasUsed)];
      ok := true;
    }

    /** The first n messages have been executed, each in the stage that the one before has left. */
    ghost predicate IsRun(txs: seq<Message>, stages: seq<Stage>, n: nat)
      reads this
    {
      && |receipts| == n <= |txs| && |stages| == n + 1
      && forall k | 0 <= k < n ::
           IsApplied(table, coinbase, pangu, txs[k], stages[k], stages[k + 1], receipts[k])
    }

    /** The next message of the block. */
    method ApplyNext(txs: seq<Message>, i: nat, gp: GasPool, ghost stages: seq<Stage>)
        returns (ok: bool, ghost more: seq<Stage>)
      requires i < |txs| && Valid(gp) && Charges(table) && Honest(txs[i].run)
      requires IsRun(txs, stages, i) && stages[i] == Stage(world, gp.gas)
      requires !txs[i].system || txs[i].gasLimit == 0
      modifies this, gp
      ensures ok <==> Accepted(table, txs[i], pangu, stages[i].world, stages[i].gas)
      ensures !ok ==> more == stages && receipts == old(receipts)
      ensures ok ==>
                && Valid(gp) && Total(world.balances) == Total(old(world.balances))
                && IsRun(txs, more, i + 1) && more == stages + [Stage(world, gp.gas)]
    {
      more := stages;
      ok := ApplyTransaction(txs[i], gp);
      if ok {
        more := stages + [Stage(world, gp.gas)];
      }
    }

    /**
      Process: the system's own call comes first, and any other system message of the block is left out. Each of the
      others, in order, is executed in the stage that the one before has left, and there is a receipt for each, unless
      one is not accepted there.
     */
    method Process(systx: Message, msgs: seq<Message>, gp: GasPool)
        returns (ok: bool, ghost at: seq<nat>, ghost stages: seq<Stage>)
      requires systx.system && systx.gasLimit == 0 && Honest(systx.run) && forall m | m in msgs :: Honest(m.run)
      requires Charges(table) && totalUsedGas == 0 && receipts == [] && gp.gas == gasLimit
      modifies this, gp
      ensures ArePlaces(msgs, at) && |receipts| + 1 == |stages| <= |at| + 2 && stages[0] == Stage(old(world), gasLimit)
      ensures forall k | 0 <= k < |receipts| ::
                IsApplied(table, coinbase, pangu, TxAt(systx, msgs, at, k), stages[k], stages[k + 1], receipts[k])
      ensures Summed(receipts)
      ensures ok <==> |receipts| == |at| + 1
      ensures ok ==> stages[|receipts|] == Stage(world, gp.gas)
      ensures !ok ==>
                var s := stages[|receipts|];
                !Accepted(table, TxAt(systx, msgs, at, |receipts|), pangu, s.world, s.gas)
      ensures ok ==> Valid(gp) && Total(world.balances) == Total(old(world.balances))
    {
      var txs;
      txs, at := LeaveOutSystem(msgs);
      stages := [Stage(world, gp.gas)];
      txs := [systx] + txs;
      for i := 0 to |txs|
        invariant Valid(gp) && Total(world.balances) == Total(old(world.balances))
        invariant IsRun(txs, stages, i) && stages[i] == Stage(world, gp.gas) && stages[0] == Stage(old(world), gasLimit)
      {
        assert i > 0 ==> txs[i] == msgs[at[i - 1]] && at[i - 1] in at;
        ok, stages := ApplyNext(txs, i, gp, stages);
        if !ok {
          return;
        }
      }
      ok := true;
    }
  }

  /** The receipts with the gas used worked out from what was used before each. */
  function Derived(receipts: seq<BlockReceipt>): seq<BlockReceipt>
    requires Rising(receipts)
  {
    seq(|receipts|, j requires 0 <= j < |receipts| =>
      assert RisingAt(receipts, j);
      receipts[j].(gasUsed := receipts[j].cumulativeGasUsed - GasBefore(receipts, j)))
  }

  predicate Rising(receipts: seq<BlockReceipt>) {
    forall j | 0 <= j < |receipts| :: RisingAt(receipts, j)
  }

  predicate RisingAt(receipts: seq<BlockReceipt>, j: nat)
    requires j < |receipts|
  {
    GasBefore(receipts, j) <= receipts[j].cumulativeGasUsed
  }

  /** SetReceiptsData: the gas part. */
  method SetReceiptsData(receipts: array<BlockReceipt>)
    requires Rising(receipts[..])
    modifies receipts
    ensures receipts[..] == Derived(old(receipts[..]))
  {
    ghost var given := receipts[..];
    for j := 0 to receipts.Length
      invariant receipts[..j] == Derived(given)[..j] && receipts[j..] == given[j..]
    {
      assert receipts[j] == given[j] && RisingAt(given, j);
      if j == 0 {
        receipts[j] := receipts[j].(gasUsed := receipts[j].cumulativeGasUsed);
      } else {
        assert receipts[j - 1] == Derived(given)[j - 1];
        receipts[j] := receipts[j].(gasUsed := receipts[j].cumulativeGasUsed - receipts[j - 1].cumulativeGasUsed);
      }
    }
  }

  /** From receipts that have lost their gas used, just this is recovered. */
  lemma GasUsedIsRecovered(receipts: seq<BlockReceipt>, stored: seq<BlockReceipt>)
    requires Summed(receipts) && |stored| == |receipts|
    requires forall j | 0 <= j < |stored| :: stored[j] == receipts[j].(gasUsed := stored[j].gasUsed)
    ensures Rising(stored) && Derived(stored) == receipts
  {
    forall j | 0 <= j < |stored|
      ensures RisingAt(stored, j) && GasBefore(stored, j) == GasBefore(receipts, j)
    {
      assert SummedAt(receipts, j);
      assert stored[j] == receipts[j].(gasUsed := stored[j].gasUsed);
    }
    forall j | 0 <= j < |stored|
      ensures Derived(stored)[j] == receipts[j]
    {
      assert SummedAt(receipts, j) && GasBefore(stored, j) == GasBefore(receipts, j);
    }
  }

  // ---------- Where money is lost ----------

  /**
    A system message with a gas limit of ten that uses none of it: ten are gone from the balances and from the pool.
   */
  method SystemMessageLoses() returns (before: World, after: World, gp: GasPool)
    ensures Total(after.balances) == Total(before.balances) - 10 && gp.gas == 90
  {
    before := World(map[1 := 10], map[]);
    gp := new GasPool(100);
    var msg := Message(1, true, 0, true, 1, 10, [], true, (w: World, gas: nat) => Outcome(w, gas, 0, NoError));
    var st := new Transition(msg, gp, before);
    var r, executed := st.TransitionDb(GasTable(21000, 53000, 68, 4), 2, true);
    after := st.world;
  }
}
