/**
 * Gas accounting of a message and of a block. The virtual machine is a parameter: a function from
 * the world and a call to a new world, the gas it left over, and whether the transfer failed.
 */
module Gas {
  import opened Wrappers
  import opened Sums

  newtype uint64 = x: int | 0 <= x < 0x1_0000_0000_0000_0000

  const TX_GAS: nat := 21000
  const TX_GAS_CREATION: nat := 53000
  const TX_DATA_ZERO_GAS: nat := 4
  const TX_DATA_NONZERO_GAS: nat := 68
  const TWO_64: nat := 0x1_0000_0000_0000_0000

  type Address = nat
  type Balances = map<Address, nat>

  /**
   * Accounts that do not exist have zero balance and nonce. `refund` is the state's refund counter,
   * and the accounts in `dead` are deleted after the message.
   */
  datatype World = World(balances: Balances, nonces: map<Address, nat>, refund: nat, dead: set<Address>)

  /** A message without recipient creates a contract. */
  datatype Msg = Msg(from: Address, to: Option<Address>, nonce: nat, checkNonce: bool,
                     gas: nat, gasPrice: nat, value: nat, data: seq<bv8>)

  datatype Call = Call(from: Address, to: Option<Address>, data: seq<bv8>, gas: uint64, value: nat)

  /** `insufficient` is the one error of the machine that invalidates the message. */
  datatype VmOutcome = VmOutcome(world: World, left: uint64, insufficient: bool)

  type Vm = (World, Call) -> VmOutcome

  /** The machine never returns more gas than it was given. */
  ghost predicate VmOk(vm: Vm) {
    forall w, c :: vm(w, c).left <= c.gas
  }

  datatype Error = BadNonce | OutOfGas | InsufficientForGas | GasLimitReached | InsufficientBalance

  // ----- balances

  function BalanceOf(b: Balances, a: Address): nat {
    if a in b then b[a] else 0
  }

  function Credit(b: Balances, a: Address, x: nat): Balances {
    b[a := BalanceOf(b, a) + x]
  }

  function Debit(b: Balances, a: Address, x: nat): Balances
    requires x <= BalanceOf(b, a)
  {
    b[a := BalanceOf(b, a) - x]
  }

  lemma CreditTotal(b: Balances, a: Address, x: nat)
    ensures Sum(Credit(b, a, x)) == Sum(b) + x
  {
    if a in b { SumUpdate(b, a, b[a] + x); } else { SumInsert(b, a, x); }
  }

  lemma DebitTotal(b: Balances, a: Address, x: nat)
    requires x <= BalanceOf(b, a)
    ensures Sum(Debit(b, a, x)) == Sum(b) - x
  {
    if a in b { SumUpdate(b, a, b[a] - x); } else { SumInsert(b, a, 0); }
  }

  lemma CreditTwice(b: Balances, a: Address, x: nat, y: nat)
    ensures Credit(Credit(b, a, x), a, y) == Credit(b, a, x + y)
  {
  }

  function Price(gas: nat, price: nat): nat {
    gas * price
  }

  // ----- intrinsic gas

  ghost function NonZero(data: seq<bv8>): nat {
    if data == [] then 0 else NonZero(data[..|data| - 1]) + if data[|data| - 1] != 0 then 1 else 0
  }

  ghost function Intrinsic(data: seq<bv8>, creation: bool): nat {
    (if creation then TX_GAS_CREATION else TX_GAS) + DataGas(data)
  }

  /** What the data of a message costs, byte by byte. */
  ghost function DataGas(data: seq<bv8>): nat {
    if data == [] then 0
    else DataGas(data[..|data| - 1]) + if data[|data| - 1] != 0 then TX_DATA_NONZERO_GAS else TX_DATA_ZERO_GAS
  }

  lemma {:induction false} DataGasCounts(data: seq<bv8>)
    ensures NonZero(data) <= |data|
    ensures DataGas(data) == NonZero(data) * TX_DATA_NONZERO_GAS + (|data| - NonZero(data)) * TX_DATA_ZERO_GAS
  {
    if data != [] { DataGasCounts(data[..|data| - 1]); }
  }

  /** Counts the bytes that are not zero. */
  method IntrinsicGas(data: seq<bv8>, creation: bool) returns (igas: nat)
    ensures igas == Intrinsic(data, creation)
  {
    igas := if creation then TX_GAS_CREATION else TX_GAS;
    if |data| > 0 {
      var nz := 0;
      for i := 0 to |data|
        invariant nz == NonZero(data[..i])
      {
        assert data[..i + 1][..i] == data[..i];
        if data[i] != 0 { nz := nz + 1; }
      }
      assert data[..|data|] == data;
      DataGasCounts(data);
      igas := igas + nz * TX_DATA_NONZERO_GAS;
      igas := igas + (|data| - nz) * TX_DATA_ZERO_GAS;
    }
  }

  // ----- one message

  datatype Outcome =
    | Done(world: World, pool: nat, required: nat, used: nat)
    | Failed(world: World, pool: nat, error: Error)

  function NonceOf(w: World, a: Address): nat {
    if a in w.nonces then w.nonces[a] else 0
  }

  /** Why a message cannot even be paid for, if so. */
  function Refused(w: World, pool: nat, msg: Msg): Option<Error> {
    if msg.checkNonce && NonceOf(w, msg.from) != msg.nonce then Some(BadNonce)
    else if msg.gas >= TWO_64 then Some(OutOfGas)
    else if BalanceOf(w.balances, msg.from) < Price(msg.gas, msg.gasPrice) then Some(InsufficientForGas)
    else if pool < msg.gas then Some(GasLimitReached)
    else None
  }

  /** The world after the sender has paid for all the gas of the message. */
  function Prepaid(w: World, msg: Msg): World
    requires Price(msg.gas, msg.gasPrice) <= BalanceOf(w.balances, msg.from)
  {
    w.(balances := Debit(w.balances, msg.from, Price(msg.gas, msg.gasPrice)))
  }

  /** A call moves the sender's nonce here; a creation leaves that to the machine. */
  function Entered(w: World, msg: Msg): World {
    if msg.to.None? then w else w.(nonces := w.nonces[msg.from := NonceOf(w, msg.from) + 1])
  }

  function Execution(vm: Vm, w: World, msg: Msg, intrinsic: nat): VmOutcome
    requires intrinsic <= msg.gas < TWO_64
  {
    vm(Entered(w, msg), Call(msg.from, msg.to, msg.data, (msg.gas - intrinsic) as uint64, msg.value))
  }

  /** Half of the gas needed, or what the refund counter says if that is less. */
  function Refund(required: nat, counter: nat): nat {
    if counter < required / 2 then counter else required / 2
  }

  /**
   * The refund counter after the refund has been priced. The price is multiplied into the counter
   * itself when the counter was what got refunded.
   */
  function CounterLeft(required: nat, counter: nat, price: nat): nat {
    if counter < required / 2 then Price(counter, price) else counter
  }

  /** The sender gets back what was not used, the miner what was. */
  function Settled(w: World, msg: Msg, coinbase: Address, required: nat, used: nat): World
    requires used <= msg.gas
  {
    var back := Credit(w.balances, msg.from, Price(msg.gas - used, msg.gasPrice));
    w.(balances := Credit(back, coinbase, Price(used, msg.gasPrice)),
       refund := CounterLeft(required, w.refund, msg.gasPrice))
  }

  /** What a message does to the world and the block's gas pool. */
  ghost function Transition(vm: Vm, w: World, pool: nat, msg: Msg, coinbase: Address): Outcome
    requires VmOk(vm)
  {
    var refused := Refused(w, pool, msg);
    var intrinsic := Intrinsic(msg.data, msg.to.None?);
    if refused.Some? then Failed(w, pool, refused.value)
    else if intrinsic > msg.gas then Failed(Prepaid(w, msg), pool - msg.gas, OutOfGas)
    else
      var r := Execution(vm, Prepaid(w, msg), msg, intrinsic);
      if r.insufficient then Failed(r.world, pool - msg.gas, InsufficientBalance)
      else
        var required := msg.gas - r.left as nat;
        var used := required - Refund(required, r.world.refund);
        Done(Settled(r.world, msg, coinbase, required, used), pool - used, required, used)
  }

  /** Gas price times gas is split between sender and miner without loss. */
  lemma SplitPrice(gas: nat, used: nat, price: nat)
    requires used <= gas
    ensures Price(gas - used, price) + Price(used, price) == Price(gas, price)
  {
  }

  /** A successful message creates and destroys no money beyond what the machine itself does. */
  lemma Conserved(vm: Vm, w: World, pool: nat, msg: Msg, coinbase: Address)
    requires VmOk(vm) && Transition(vm, w, pool, msg, coinbase).Done?
    ensures Intrinsic(msg.data, msg.to.None?) <= msg.gas < TWO_64
    ensures Price(msg.gas, msg.gasPrice) <= BalanceOf(w.balances, msg.from)
    ensures var before := Entered(Prepaid(w, msg), msg);
            var after := Execution(vm, Prepaid(w, msg), msg, Intrinsic(msg.data, msg.to.None?)).world;
            Sum(Transition(vm, w, pool, msg, coinbase).world.balances) - Sum(w.balances)
              == Sum(after.balances) - Sum(before.balances)
  {
    hide Price, Credit, Debit, Sum, Intrinsic;
    var price := msg.gasPrice;
    var r := Execution(vm, Prepaid(w, msg), msg, Intrinsic(msg.data, msg.to.None?));
    var used := Transition(vm, w, pool, msg, coinbase).used;
    var back := Price(msg.gas - used, price);
    DebitTotal(w.balances, msg.from, Price(msg.gas, price));
    CreditTotal(r.world.balances, msg.from, back);
    CreditTotal(Credit(r.world.balances, msg.from, back), coinbase, Price(used, price));
    SplitPrice(msg.gas, used, price);
  }

  /** The gas used is at least half of what was needed and never more than what was paid for. */
  lemma GasBounds(vm: Vm, w: World, pool: nat, msg: Msg, coinbase: Address)
    requires VmOk(vm) && Transition(vm, w, pool, msg, coinbase).Done?
    ensures var t := Transition(vm, w, pool, msg, coinbase);
            && (t.required + 1) / 2 <= t.used <= t.required <= msg.gas < TWO_64
            && Intrinsic(msg.data, msg.to.None?) <= t.required
            && t.pool == pool - t.used && msg.gas <= pool
  {
  }

  /** When a message succeeds. */
  lemma SucceedsWhen(vm: Vm, w: World, pool: nat, msg: Msg, coinbase: Address)
    requires VmOk(vm)
    ensures Transition(vm, w, pool, msg, coinbase).Done? <==>
              && (msg.checkNonce ==> NonceOf(w, msg.from) == msg.nonce)
              && Intrinsic(msg.data, msg.to.None?) <= msg.gas < TWO_64 && msg.gas <= pool
              && Price(msg.gas, msg.gasPrice) <= BalanceOf(w.balances, msg.from)
              && !Execution(vm, Prepaid(w, msg), msg, Intrinsic(msg.data, msg.to.None?)).insufficient
  {
  }

  class GasPool {
    var gas: nat

    constructor ()
      ensures gas == 0
    {
      gas := 0;
    }

    method AddGas(amount: nat)
      modifies this
      ensures gas == old(gas) + amount
    {
      gas := gas + amount;
    }

    method SubGas(amount: nat) returns (ok: bool)
      modifies this
      ensures ok == (amount <= old(gas)) && gas == if ok then old(gas) - amount else old(gas)
    {
      if gas < amount { return false; }
      gas := gas - amount;
      ok := true;
    }
  }

  class StateDB {
    var world: World

    constructor (w: World)
      ensures world == w
    {
      world := w;
    }

    method SubBalance(a: Address, x: nat)
      requires x <= BalanceOf(world.balances, a)
      modifies this
      ensures world == old(world).(balances := Debit(old(world).balances, a, x))
    {
      world := world.(balances := world.balances[a := BalanceOf(world.balances, a) - x]);
    }

    method AddBalance(a: Address, x: nat)
      modifies this
      ensures world == old(world).(balances := Credit(old(world).balances, a, x))
    {
      world := world.(balances := world.balances[a := BalanceOf(world.balances, a) + x]);
    }

    method SetNonce(a: Address, n: nat)
      modifies this
      ensures world == old(world).(nonces := old(world).nonces[a := n])
    {
      world := world.(nonces := world.nonces[a := n]);
    }

    /** Between transactions: dead accounts go and the refund counter starts anew. */
    method IntermediateRoot()
      modifies this
      ensures world == Cleared(old(world))
    {
      world := World(world.balances - world.dead, world.nonces - world.dead, 0, {});
    }
  }

  class StateTransition {
    const gp: GasPool
    const state: StateDB
    const msg: Msg
    const coinbase: Address
    var gas: uint64
    var initialGas: nat

    constructor (pool: GasPool, db: StateDB, m: Msg, miner: Address)
      ensures gp == pool && state == db && msg == m && coinbase == miner && gas == 0
    {
      gp, state, msg, coinbase, gas, initialGas := pool, db, m, miner, 0, 0;
    }

    method UseGas(amount: uint64) returns (ok: bool)
      modifies this
      ensures ok == (amount <= old(gas)) && gas == if ok then old(gas) - amount else old(gas)
      ensures initialGas == old(initialGas)
    {
      if gas < amount { return false; }
      gas := gas - amount;
      ok := true;
    }

    function GasUsed(): nat
      requires gas as nat <= initialGas
      reads this
    {
      initialGas - gas as nat
    }

    method BuyGas() returns (error: Option<Error>)
      requires gas == 0
      modifies this, gp, state
      ensures error == Refused(old(state.world), old(gp.gas), msg.(checkNonce := false))
      ensures error.Some? ==> state.world == old(state.world) && gp.gas == old(gp.gas)
      ensures error.None? ==>
                && gas as nat == msg.gas == initialGas && gp.gas == old(gp.gas) - msg.gas
                && state.world == Prepaid(old(state.world), msg)
    {
      var mgas := msg.gas;
      if mgas >= TWO_64 { return Some(OutOfGas); }
      var mgval := Price(mgas, msg.gasPrice);
      if BalanceOf(state.world.balances, msg.from) < mgval { return Some(InsufficientForGas); }
      var ok := gp.SubGas(mgas);
      if !ok { return Some(GasLimitReached); }
      gas := gas + mgas as uint64;
      initialGas := mgas;
      state.SubBalance(msg.from, mgval);
      error := None;
    }

    method PreCheck() returns (error: Option<Error>)
      requires gas == 0
      modifies this, gp, state
      ensures error == Refused(old(state.world), old(gp.gas), msg)
      ensures error.Some? ==> state.world == old(state.world) && gp.gas == old(gp.gas)
      ensures error.None? ==>
                && gas as nat == msg.gas == initialGas && gp.gas == old(gp.gas) - msg.gas
                && state.world == Prepaid(old(state.world), msg)
    {
      if msg.checkNonce && NonceOf(state.world, msg.from) != msg.nonce { return Some(BadNonce); }
      error := BuyGas();
    }

    /** Pays back what is left and the refund; the counter of gas left never wraps. */
    method RefundGas()
      requires gas as nat <= initialGas < TWO_64
      modifies this, gp, state
      ensures initialGas == old(initialGas) && gas as nat <= initialGas
      ensures var refund := Refund(old(GasUsed()), old(state.world).refund);
              && gas as nat == old(gas) as nat + refund && gp.gas == old(gp.gas) + gas as nat
              && state.world == old(state.world).(
                   balances := Credit(old(state.world).balances, msg.from, Price(gas as nat, msg.gasPrice)),
                   refund := CounterLeft(old(GasUsed()), old(state.world).refund, msg.gasPrice))
    {
      hide Price;
      ghost var b := state.world.balances;
      var remaining := Price(gas as nat, msg.gasPrice);
      state.AddBalance(msg.from, remaining);
      var uhalf := GasUsed() / 2;
      var counted := uhalf > state.world.refund;
      var refund := if counted then state.world.refund else uhalf;
      gas := gas + refund as uint64;
      if counted { state.world := state.world.(refund := Price(refund, msg.gasPrice)); }
      state.AddBalance(msg.from, Price(refund, msg.gasPrice));
      CreditTwice(b, msg.from, remaining, Price(refund, msg.gasPrice));
      SplitPrice(gas as nat, refund, msg.gasPrice);
      gp.AddGas(gas as nat);
    }

    /** Runs the message: check, buy gas, execute, refund, pay the miner. */
    method TransitionDb(vm: Vm) returns (t: Outcome)
      requires VmOk(vm) && gas == 0
      modifies this, gp, state
      ensures t == Transition(vm, old(state.world), old(gp.gas), msg, coinbase)
      ensures state.world == t.world && gp.gas == t.pool
      ensures t.Done? ==> gas as nat == msg.gas - t.used
    {
      hide Price, Credit, Debit, Intrinsic, Refund, Refused, CounterLeft;
      var error := PreCheck();
      if error.Some? { return Failed(state.world, gp.gas, error.value); }
      var creation := msg.to.None?;
      var intrinsic := IntrinsicGas(msg.data, creation);
      if intrinsic >= TWO_64 { return Failed(state.world, gp.gas, OutOfGas); }
      var ok := UseGas(intrinsic as uint64);
      if !ok { return Failed(state.world, gp.gas, OutOfGas); }
      if !creation {
        state.SetNonce(msg.from, NonceOf(state.world, msg.from) + 1);
      }
      var r := vm(state.world, Call(msg.from, msg.to, msg.data, gas, msg.value));
      state.world := r.world;
      gas := r.left;
      if r.insufficient { return Failed(state.world, gp.gas, InsufficientBalance); }
      var required := GasUsed();
      RefundGas();
      state.AddBalance(coinbase, Price(GasUsed(), msg.gasPrice));
      t := Done(state.world, gp.gas, required, GasUsed());
    }
  }

  // ----- a block

  datatype Receipt = Receipt(gasUsed: nat, cumulative: nat)

  /** The state between transactions. */
  function Cleared(w: World): World {
    World(w.balances - w.dead, w.nonces - w.dead, 0, {})
  }

  /** What dead accounts still hold. */
  ghost function Held(w: World): Balances {
    map a | a in w.balances && a in w.dead :: w.balances[a]
  }

  lemma ClearedTotal(w: World)
    ensures Sum(Cleared(w).balances) + Sum(Held(w)) == Sum(w.balances)
  {
    SumSplit(w.balances, w.dead);
  }

  /** Each receipt carries its own gas and the running total. */
  ghost predicate ReceiptsOk(receipts: seq<Receipt>, total: nat) {
    if receipts == [] then total == 0
    else
      var last := receipts[|receipts| - 1];
      last.cumulative == total && last.gasUsed <= total && ReceiptsOk(receipts[..|receipts| - 1], total - last.gasUsed)
  }

  /** The world and pool after the first messages of a block, if all of them succeed. */
  ghost function After(vm: Vm, w: World, pool: nat, msgs: seq<Msg>, coinbase: Address): Option<(World, nat)>
    requires VmOk(vm)
  {
    if msgs == [] then Some((w, pool))
    else
      var p := After(vm, w, pool, msgs[..|msgs| - 1], coinbase);
      if p.None? then None
      else
        var t := Transition(vm, p.value.0, p.value.1, msgs[|msgs| - 1], coinbase);
        if t.Done? then Some((Cleared(t.world), t.pool)) else None
  }

  /** The receipt of a message says what it took out of the pool, and what all up to it took out of the block's gas. */
  ghost predicate ReceiptOf(vm: Vm, w: World, pool: nat, msgs: seq<Msg>, coinbase: Address, i: nat, r: Receipt)
    requires VmOk(vm) && i < |msgs|
  {
    var p, q := After(vm, w, pool, msgs[..i], coinbase), After(vm, w, pool, msgs[..i + 1], coinbase);
    p.Some? && q.Some? && r.gasUsed == p.value.1 - q.value.1 && r.cumulative == pool - q.value.1
  }

  /** A machine that moves money but neither makes nor destroys it. */
  ghost predicate VmConserves(vm: Vm) {
    forall w, c :: Sum(vm(w, c).world.balances) == Sum(w.balances)
  }

  /** The refund counter of the state is spoiled exactly when it is refunded, is not zero and the price is not one. */
  lemma CounterSpoiled(required: nat, counter: nat, price: nat)
    ensures CounterLeft(required, counter, price) != counter <==> 0 < counter < required / 2 && price != 1
  {
    if counter < required / 2 {
      assert counter > 0 && price > 1 ==> counter * price > counter * 1;
      assert price == 0 ==> counter * price == 0;
    }
  }

  /** Whatever it was left at, the next message of the block starts with zero. */
  lemma CounterForgotten(vm: Vm, w: World, pool: nat, msgs: seq<Msg>, coinbase: Address)
    requires VmOk(vm) && msgs != [] && After(vm, w, pool, msgs, coinbase).Some?
    ensures After(vm, w, pool, msgs, coinbase).value.0.refund == 0
  {
    hide Transition;
  }

  /** The money that is deleted with dead accounts after each of the messages. */
  ghost function Burnt(vm: Vm, w: World, pool: nat, msgs: seq<Msg>, coinbase: Address): nat
    requires VmOk(vm) && After(vm, w, pool, msgs, coinbase).Some?
  {
    if msgs == [] then 0
    else
      var rest := msgs[..|msgs| - 1];
      var p := After(vm, w, pool, rest, coinbase).value;
      Burnt(vm, w, pool, rest, coinbase) + Sum(Held(Transition(vm, p.0, p.1, msgs[|msgs| - 1], coinbase).world))
  }

  /** The messages of a block lose exactly what is deleted with dead accounts. */
  lemma {:induction false} BlockConserved(vm: Vm, w: World, pool: nat, msgs: seq<Msg>, coinbase: Address)
    requires VmOk(vm) && VmConserves(vm) && After(vm, w, pool, msgs, coinbase).Some?
    ensures var end := After(vm, w, pool, msgs, coinbase).value;
            Sum(end.0.balances) + Burnt(vm, w, pool, msgs, coinbase) == Sum(w.balances) && end.1 <= pool
  {
    if msgs != [] {
      var rest, msg := msgs[..|msgs| - 1], msgs[|msgs| - 1];
      BlockConserved(vm, w, pool, rest, coinbase);
      var p := After(vm, w, pool, rest, coinbase).value;
      Conserved(vm, p.0, p.1, msg, coinbase);
      ClearedTotal(Transition(vm, p.0, p.1, msg, coinbase).world);
    }
  }

  // ----- what is lost with dead accounts

  lemma HeldCredit(w: World, a: Address, x: nat)
    ensures Sum(Held(w.(balances := Credit(w.balances, a, x)))) == Sum(Held(w)) + if a in w.dead then x else 0
  {
    var v := w.(balances := Credit(w.balances, a, x));
    if a in w.dead {
      assert Held(v) == Credit(Held(w), a, x);
      CreditTotal(Held(w), a, x);
    } else {
      assert Held(v) == Held(w);
    }
  }

  /** The world the machine leaves, before the message is settled. */
  ghost function Executed(vm: Vm, w: World, pool: nat, msg: Msg, coinbase: Address): World
    requires VmOk(vm) && Transition(vm, w, pool, msg, coinbase).Done?
  {
    Execution(vm, Prepaid(w, msg), msg, Intrinsic(msg.data, msg.to.None?)).world
  }

  /** Dead accounts end up with what the machine left them, the gas paid back to them and the fees paid to them. */
  lemma FeesHeld(vm: Vm, w: World, pool: nat, msg: Msg, coinbase: Address)
    requires VmOk(vm) && Transition(vm, w, pool, msg, coinbase).Done?
    ensures var t, r := Transition(vm, w, pool, msg, coinbase), Executed(vm, w, pool, msg, coinbase);
            && t.used <= msg.gas
            && Sum(Held(t.world)) == Sum(Held(r)) + (if msg.from in r.dead then Price(msg.gas - t.used, msg.gasPrice)
                                                     else 0)
                                     + (if coinbase in r.dead then Price(t.used, msg.gasPrice) else 0)
  {
    hide Price, Credit, Debit, Sum, Intrinsic;
    var t, r := Transition(vm, w, pool, msg, coinbase), Executed(vm, w, pool, msg, coinbase);
    var back, fee := Price(msg.gas - t.used, msg.gasPrice), Price(t.used, msg.gasPrice);
    HeldCredit(r, msg.from, back);
    var paid := r.(balances := Credit(r.balances, msg.from, back));
    HeldCredit(paid, coinbase, fee);
    assert Held(t.world) == Held(paid.(balances := t.world.balances));
  }

  /**
   * A message costs nobody anything beyond what the machine does: dead accounts are empty when it
   * stops, and none of them is paid a fee or gets gas back.
   */
  ghost predicate Spares(vm: Vm, w: World, pool: nat, msg: Msg, coinbase: Address)
    requires VmOk(vm) && Transition(vm, w, pool, msg, coinbase).Done?
  {
    var r := Executed(vm, w, pool, msg, coinbase);
    && (forall a :: a in r.dead && a in r.balances ==> r.balances[a] == 0)
    && (coinbase in r.dead ==> msg.gasPrice == 0)
    && (msg.from in r.dead ==> msg.gasPrice == 0 || Transition(vm, w, pool, msg, coinbase).used == msg.gas)
  }

  lemma NoPrice(gas: nat, price: nat)
    ensures Price(gas, price) == 0 <==> gas == 0 || price == 0
  {
  }

  lemma SparesHeld(vm: Vm, w: World, pool: nat, msg: Msg, coinbase: Address)
    requires VmOk(vm) && Transition(vm, w, pool, msg, coinbase).Done?
    ensures Sum(Held(Transition(vm, w, pool, msg, coinbase).world)) == 0 <==> Spares(vm, w, pool, msg, coinbase)
  {
    hide Price, Transition, Sum;
    var t, r := Transition(vm, w, pool, msg, coinbase), Executed(vm, w, pool, msg, coinbase);
    FeesHeld(vm, w, pool, msg, coinbase);
    GasBounds(vm, w, pool, msg, coinbase);
    NoPrice(msg.gas - t.used, msg.gasPrice);
    NoPrice(t.used, msg.gasPrice);
    SumZero(Held(r));
    assert forall a :: a in Held(r) <==> a in r.dead && a in r.balances;
  }

  /** With a machine that conserves money, a message conserves it exactly when it spares dead accounts. */
  lemma MessageConserves(vm: Vm, w: World, pool: nat, msg: Msg, coinbase: Address)
    requires VmOk(vm) && VmConserves(vm) && Transition(vm, w, pool, msg, coinbase).Done?
    ensures Sum(Cleared(Transition(vm, w, pool, msg, coinbase).world).balances) == Sum(w.balances) <==>
              Spares(vm, w, pool, msg, coinbase)
  {
    hide Transition, Sum, Spares;
    Conserved(vm, w, pool, msg, coinbase);
    ClearedTotal(Transition(vm, w, pool, msg, coinbase).world);
    SparesHeld(vm, w, pool, msg, coinbase);
  }

  /** The state each message of a block meets, when all of them succeed. */
  ghost predicate SparesAt(vm: Vm, w: World, pool: nat, msgs: seq<Msg>, coinbase: Address, i: nat)
    requires VmOk(vm) && i < |msgs|
  {
    && After(vm, w, pool, msgs[..i], coinbase).Some?
    && var p := After(vm, w, pool, msgs[..i], coinbase).value;
    && Transition(vm, p.0, p.1, msgs[i], coinbase).Done? && Spares(vm, p.0, p.1, msgs[i], coinbase)
  }

  /** The messages of a block conserve money exactly when each of them spares dead accounts. */
  lemma BlockSpares(vm: Vm, w: World, pool: nat, msgs: seq<Msg>, coinbase: Address)
    requires VmOk(vm) && VmConserves(vm) && After(vm, w, pool, msgs, coinbase).Some?
    ensures Sum(After(vm, w, pool, msgs, coinbase).value.0.balances) == Sum(w.balances) <==>
              forall i :: 0 <= i < |msgs| ==> SparesAt(vm, w, pool, msgs, coinbase, i)
  {
    BlockConserved(vm, w, pool, msgs, coinbase);
    BurntWhen(vm, w, pool, msgs, coinbase);
  }

  lemma {:induction false} BurntWhen(vm: Vm, w: World, pool: nat, msgs: seq<Msg>, coinbase: Address)
    requires VmOk(vm) && After(vm, w, pool, msgs, coinbase).Some?
    ensures Burnt(vm, w, pool, msgs, coinbase) == 0 <==>
              forall i :: 0 <= i < |msgs| ==> SparesAt(vm, w, pool, msgs, coinbase, i)
  {
    hide Transition, Sum, Spares;
    if msgs != [] {
      var n := |msgs| - 1;
      var rest := msgs[..n];
      BurntWhen(vm, w, pool, rest, coinbase);
      var p := After(vm, w, pool, rest, coinbase).value;
      SparesHeld(vm, p.0, p.1, msgs[n], coinbase);
      forall i | 0 <= i < n
        ensures SparesAt(vm, w, pool, rest, coinbase, i) <==> SparesAt(vm, w, pool, msgs, coinbase, i)
      {
        assert rest[..i] == msgs[..i];
      }
      assert SparesAt(vm, w, pool, msgs, coinbase, n) <==> Spares(vm, p.0, p.1, msgs[n], coinbase);
    }
  }

  /** A machine that only kills account 9. */
  function Killer(): Vm {
    (w: World, c: Call) => VmOutcome(w.(dead := {9}), 0, false)
  }

  lemma KillerFair()
    ensures VmOk(Killer()) && VmConserves(Killer())
  {
    hide Sum;
    assert forall w, c :: Killer()(w, c).world.balances == w.balances;
  }

  /** A message whose fee goes to the account it kills: 30000 gas at price 1, all of it lost. */
  lemma FeeLost() returns (w: World, msg: Msg)
    ensures VmOk(Killer()) && VmConserves(Killer())
    ensures Transition(Killer(), w, 30000, msg, 9).Done?
    ensures Sum(Cleared(Transition(Killer(), w, 30000, msg, 9).world).balances) + 30000 <= Sum(w.balances)
  {
    hide VmOk, VmConserves, Sum, Transition, Refused, Prepaid, Execution;
    KillerFair();
    w := World(map[1 := 30000], map[], 0, {});
    msg := Msg(1, Some(2), 0, true, 30000, 1, 0, []);
    assert Intrinsic([], false) == 21000;
    Payable(w, msg);
    KillerRuns(w, msg, 21000);
    SucceedsWhen(Killer(), w, 30000, msg, 9);
    UsedGas(Killer(), w, 30000, msg, 9);
    FeesHeld(Killer(), w, 30000, msg, 9);
    KillerConserves(w, msg);
    ClearedTotal(Transition(Killer(), w, 30000, msg, 9).world);
  }

  lemma Payable(w: World, msg: Msg)
    requires w == World(map[1 := 30000], map[], 0, {}) && msg == Msg(1, Some(2), 0, true, 30000, 1, 0, [])
    ensures NonceOf(w, msg.from) == 0 && Price(msg.gas, msg.gasPrice) == BalanceOf(w.balances, msg.from) == 30000
    ensures Prepaid(w, msg).refund == 0
  {
  }

  lemma KillerRuns(w: World, msg: Msg, intrinsic: nat)
    requires intrinsic <= msg.gas < TWO_64 && Price(msg.gas, msg.gasPrice) <= BalanceOf(w.balances, msg.from)
    ensures var r := Execution(Killer(), Prepaid(w, msg), msg, intrinsic);
            r.world.refund == w.refund && r.world.dead == {9} && r.left == 0 && !r.insufficient
  {
    hide Price;
  }

  lemma UsedGas(vm: Vm, w: World, pool: nat, msg: Msg, coinbase: Address)
    requires VmOk(vm) && Transition(vm, w, pool, msg, coinbase).Done?
    ensures Intrinsic(msg.data, msg.to.None?) <= msg.gas < TWO_64
    ensures Price(msg.gas, msg.gasPrice) <= BalanceOf(w.balances, msg.from)
    ensures var r := Execution(vm, Prepaid(w, msg), msg, Intrinsic(msg.data, msg.to.None?));
            var required := msg.gas - r.left as nat;
            Transition(vm, w, pool, msg, coinbase).used == required - Refund(required, r.world.refund)
  {
    hide Price, Intrinsic;
  }

  lemma KillerConserves(w: World, msg: Msg)
    requires VmOk(Killer()) && VmConserves(Killer()) && Transition(Killer(), w, 30000, msg, 9).Done?
    ensures Sum(Transition(Killer(), w, 30000, msg, 9).world.balances) == Sum(w.balances)
  {
    hide Transition, Sum;
    Conserved(Killer(), w, 30000, msg, 9);
  }

  // ----- rewards

  /** What miner and uncles of a block with the given number are paid. */
  const BLOCK_REWARD: nat := 1_000_000_000_000_000_000

  datatype Uncle = Uncle(number: nat, coinbase: Address)

  /** An uncle is at most eight blocks older; the checks on uncles allow six. */
  ghost predicate UnclesOk(number: nat, uncles: seq<Uncle>) {
    forall u :: u in uncles ==> number <= u.number + 8
  }

  function UncleReward(number: nat, u: Uncle): nat
    requires number <= u.number + 8
  {
    (u.number + 8 - number) * BLOCK_REWARD / 8
  }

  ghost function PaidUncles(b: Balances, number: nat, uncles: seq<Uncle>): Balances
    requires UnclesOk(number, uncles)
  {
    if uncles == [] then b
    else
      var rest, u := uncles[..|uncles| - 1], uncles[|uncles| - 1];
      Credit(PaidUncles(b, number, rest), u.coinbase, UncleReward(number, u))
  }

  /** All the money a block brings: its reward, a 32nd of it per uncle, and each uncle's reward. */
  ghost function Minted(number: nat, uncles: seq<Uncle>): nat
    requires UnclesOk(number, uncles)
  {
    if uncles == [] then BLOCK_REWARD
    else
      var u := uncles[|uncles| - 1];
      Minted(number, uncles[..|uncles| - 1]) + UncleReward(number, u) + BLOCK_REWARD / 32
  }

  /** The miner's share. */
  ghost function MinerReward(uncles: seq<Uncle>): nat {
    BLOCK_REWARD + |uncles| * (BLOCK_REWARD / 32)
  }

  ghost function Rewarded(b: Balances, number: nat, coinbase: Address, uncles: seq<Uncle>): Balances
    requires UnclesOk(number, uncles)
  {
    Credit(PaidUncles(b, number, uncles), coinbase, MinerReward(uncles))
  }

  lemma {:induction false} UnclesTotal(b: Balances, number: nat, uncles: seq<Uncle>)
    requires UnclesOk(number, uncles)
    ensures Sum(PaidUncles(b, number, uncles)) + MinerReward(uncles) == Sum(b) + Minted(number, uncles)
  {
    hide Credit, Sum;
    if uncles != [] {
      var rest, u := uncles[..|uncles| - 1], uncles[|uncles| - 1];
      UnclesTotal(b, number, rest);
      CreditTotal(PaidUncles(b, number, rest), u.coinbase, UncleReward(number, u));
    }
  }

  /** The rewards bring exactly the minted money. */
  lemma RewardsTotal(b: Balances, number: nat, coinbase: Address, uncles: seq<Uncle>)
    requires UnclesOk(number, uncles)
    ensures Sum(Rewarded(b, number, coinbase, uncles)) == Sum(b) + Minted(number, uncles)
  {
    UnclesTotal(b, number, uncles);
    CreditTotal(PaidUncles(b, number, uncles), coinbase, MinerReward(uncles));
  }

  /** Pays the uncles one after the other, then the miner. */
  method AccumulateRewards(state: StateDB, number: nat, coinbase: Address, uncles: seq<Uncle>)
    requires UnclesOk(number, uncles)
    modifies state
    ensures state.world == old(state.world).(balances := Rewarded(old(state.world).balances, number, coinbase, uncles))
  {
    hide Credit, UncleReward;
    var reward := BLOCK_REWARD;
    ghost var w := state.world;
    for i := 0 to |uncles|
      invariant UnclesOk(number, uncles[..i]) && reward == MinerReward(uncles[..i])
      invariant state.world == w.(balances := PaidUncles(w.balances, number, uncles[..i]))
    {
      assert uncles[..i + 1][..i] == uncles[..i];
      assert uncles[i] in uncles && uncles[i] in uncles[..i + 1];
      state.AddBalance(uncles[i].coinbase, UncleReward(number, uncles[i]));
      reward := reward + BLOCK_REWARD / 32;
    }
    assert uncles[..|uncles|] == uncles;
    state.AddBalance(coinbase, reward);
  }

  /** One transaction of a block: the running total grows by what its receipt says. */
  method ApplyTransaction(vm: Vm, gp: GasPool, state: StateDB, msg: Msg, coinbase: Address, usedGas: nat)
    returns (r: Option<Receipt>, total: nat, ghost t: Outcome)
    requires VmOk(vm)
    modifies gp, state
    ensures t == Transition(vm, old(state.world), old(gp.gas), msg, coinbase)
    ensures state.world == (if t.Done? then Cleared(t.world) else t.world) && gp.gas == t.pool
    ensures r.Some? <==> t.Done?
    ensures total == usedGas + (if t.Done? then t.used else 0)
    ensures r.Some? ==> r.value == Receipt(t.used, total)
  {
    var st := new StateTransition(gp, state, msg, coinbase);
    var out := st.TransitionDb(vm);
    t := out;
    if out.Failed? { return None, usedGas, t; }
    total := usedGas + out.used;
    state.IntermediateRoot();
    r := Some(Receipt(out.used, total));
  }

  /** Runs the messages of a block: they use at most its gas limit, and the pool ends with what is left of it. */
  method RunMessages(vm: Vm, state: StateDB, gasLimit: nat, msgs: seq<Msg>, coinbase: Address)
    returns (receipts: Option<seq<Receipt>>, total: nat, gp: GasPool)
    requires VmOk(vm)
    modifies state
    ensures receipts.Some? <==> After(vm, old(state.world), gasLimit, msgs, coinbase).Some?
    ensures receipts.Some? ==>
              && After(vm, old(state.world), gasLimit, msgs, coinbase) == Some((state.world, gp.gas))
              && total <= gasLimit && gp.gas == gasLimit - total
              && |receipts.value| == |msgs| && ReceiptsOk(receipts.value, total)
              && forall i :: 0 <= i < |msgs| ==>
                   ReceiptOf(vm, old(state.world), gasLimit, msgs, coinbase, i, receipts.value[i])
  {
    hide Transition, VmOk;
    gp := new GasPool();
    gp.AddGas(gasLimit);
    total := 0;
    var done: seq<Receipt> := [];
    ghost var w0 := state.world;
    for i := 0 to |msgs|
      invariant After(vm, w0, gasLimit, msgs[..i], coinbase) == Some((state.world, gp.gas)) && fresh(gp)
      invariant total <= gasLimit && gp.gas == gasLimit - total
      invariant |done| == i && ReceiptsOk(done, total)
      invariant forall j :: 0 <= j < i ==> ReceiptOf(vm, w0, gasLimit, msgs, coinbase, j, done[j])
    {
      ghost var w, pool := state.world, gp.gas;
      assert msgs[..i + 1][..i] == msgs[..i];
      var r, more;
      ghost var t;
      r, more, t := ApplyTransaction(vm, gp, state, msgs[i], coinbase, total);
      if r.None? {
        NoneAfter(vm, w0, gasLimit, msgs, coinbase, i + 1);
        return None, total, gp;
      }
      GasBounds(vm, w, pool, msgs[i], coinbase);
      assert (done + [r.value])[..i] == done;
      done, total := done + [r.value], more;
    }
    assert msgs[..|msgs|] == msgs;
    receipts := Some(done);
  }

  /** The world after a block: its messages, its rewards, and the last clearing. */
  ghost function Finalized(w: World, number: nat, coinbase: Address, uncles: seq<Uncle>): World
    requires UnclesOk(number, uncles)
  {
    Cleared(w.(balances := Rewarded(w.balances, number, coinbase, uncles)))
  }

  /**
   * Processes a block: its messages, then the rewards. Money comes in as rewards and goes with the
   * accounts that the messages killed, and in no other way.
   */
  method Process(vm: Vm, state: StateDB, gasLimit: nat, msgs: seq<Msg>, number: nat, coinbase: Address,
                 uncles: seq<Uncle>)
    returns (receipts: Option<seq<Receipt>>, total: nat, gp: GasPool)
    requires VmOk(vm) && UnclesOk(number, uncles)
    modifies state
    ensures receipts.Some? <==> After(vm, old(state.world), gasLimit, msgs, coinbase).Some?
    ensures receipts.Some? ==>
              var end := After(vm, old(state.world), gasLimit, msgs, coinbase).value;
              && state.world == Finalized(end.0, number, coinbase, uncles) && gp.gas == end.1
              && total <= gasLimit && gp.gas == gasLimit - total
              && |receipts.value| == |msgs| && ReceiptsOk(receipts.value, total)
              && forall i :: 0 <= i < |msgs| ==>
                   ReceiptOf(vm, old(state.world), gasLimit, msgs, coinbase, i, receipts.value[i])
    ensures receipts.Some? && VmConserves(vm) && old(state.world).dead == {} ==>
              Sum(state.world.balances) + Burnt(vm, old(state.world), gasLimit, msgs, coinbase)
                == Sum(old(state.world).balances) + Minted(number, uncles)
  {
    hide VmOk, VmConserves, Rewarded, Burnt, Sum, Minted, ReceiptOf;
    ghost var w := state.world;
    receipts, total, gp := RunMessages(vm, state, gasLimit, msgs, coinbase);
    if receipts.None? { return; }
    ghost var end := state.world;
    AccumulateRewards(state, number, coinbase, uncles);
    RewardsTotal(end.balances, number, coinbase, uncles);
    if w.dead == {} { DeadGone(vm, w, gasLimit, msgs, coinbase); }
    if VmConserves(vm) { BlockConserved(vm, w, gasLimit, msgs, coinbase); }
    assert state.world.dead == {} ==> state.world.balances - state.world.dead == state.world.balances;
    state.IntermediateRoot();
  }

  /** Between messages no account is dead. */
  lemma DeadGone(vm: Vm, w: World, pool: nat, msgs: seq<Msg>, coinbase: Address)
    requires VmOk(vm) && After(vm, w, pool, msgs, coinbase).Some? && w.dead == {}
    ensures After(vm, w, pool, msgs, coinbase).value.0.dead == {}
  {
    hide Transition;
  }

  lemma {:induction false} NoneAfter(vm: Vm, w: World, pool: nat, msgs: seq<Msg>, coinbase: Address, k: nat)
    requires VmOk(vm) && k <= |msgs| && After(vm, w, pool, msgs[..k], coinbase).None?
    ensures After(vm, w, pool, msgs, coinbase).None?
    decreases |msgs| - k
  {
    if k == |msgs| {
      assert msgs[..k] == msgs;
    } else {
      assert msgs[..k + 1][..k] == msgs[..k];
      NoneAfter(vm, w, pool, msgs, coinbase, k + 1);
    }
  }
}
