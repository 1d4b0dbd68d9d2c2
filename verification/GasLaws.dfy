/**
 * What a message and a block do, said account by account and number by number: the exact outcome of
 * every message, how nonces move, that no message can be applied twice, and who is paid what.
 */
module GasLaws {
  import opened Wrappers
  import opened Gas
  import Collections

  // ----- intrinsic gas

  ghost function NonZeroBytes(data: seq<bv8>): set<nat> {
    set i: nat | i < |data| && data[i] != 0
  }

  lemma {:induction false} NonZeroCounts(data: seq<bv8>)
    ensures NonZero(data) == |NonZeroBytes(data)|
  {
    if data == [] {
      assert NonZeroBytes(data) == {};
    } else {
      var n := |data| - 1;
      NonZeroCounts(data[..n]);
      assert NonZeroBytes(data) == NonZeroBytes(data[..n]) + if data[n] != 0 then {n} else {};
    }
  }

  /** 21000 for a call, 53000 for a creation, 68 for each byte of data that is not zero and 4 for each that is. */
  lemma IntrinsicMeans(data: seq<bv8>, creation: bool)
    ensures |NonZeroBytes(data)| <= |data|
    ensures Intrinsic(data, creation) ==
              (if creation then 53000 else 21000) + 68 * |NonZeroBytes(data)| + 4 * (|data| - |NonZeroBytes(data)|)
  {
    NonZeroCounts(data);
    DataGasCounts(data);
  }

  // ----- the outcome of a message

  /** What a map says about an account, zero if it does not know it. */
  ghost function At(m: map<Address, nat>, a: Address): nat {
    if a in m then m[a] else 0
  }

  ghost function Smaller(x: nat, y: nat): nat {
    if x <= y then x else y
  }

  /** The machine is run on this world: all gas is paid, and the nonce of a caller is one higher. */
  ghost function Start(w: World, msg: Msg): World
    requires msg.gas * msg.gasPrice <= At(w.balances, msg.from)
  {
    World(w.balances[msg.from := At(w.balances, msg.from) - msg.gas * msg.gasPrice],
          if msg.to.Some? then w.nonces[msg.from := At(w.nonces, msg.from) + 1] else w.nonces,
          w.refund, w.dead)
  }

  /** What the machine makes of a message that can be paid for. */
  ghost function Ran(vm: Vm, w: World, msg: Msg): VmOutcome
    requires msg.gas * msg.gasPrice <= At(w.balances, msg.from)
    requires Intrinsic(msg.data, msg.to.None?) <= msg.gas < 0x1_0000_0000_0000_0000
  {
    vm(Start(w, msg),
       Call(msg.from, msg.to, msg.data, (msg.gas - Intrinsic(msg.data, msg.to.None?)) as uint64, msg.value))
  }

  lemma RanIs(vm: Vm, w: World, msg: Msg)
    requires msg.gas * msg.gasPrice <= At(w.balances, msg.from)
    requires Intrinsic(msg.data, msg.to.None?) <= msg.gas < 0x1_0000_0000_0000_0000
    ensures Price(msg.gas, msg.gasPrice) <= BalanceOf(w.balances, msg.from)
    ensures Execution(vm, Prepaid(w, msg), msg, Intrinsic(msg.data, msg.to.None?)) == Ran(vm, w, msg)
  {
    hide Intrinsic;
    assert Entered(Prepaid(w, msg), msg) == Start(w, msg);
  }

  /** Every way a message can fail, with the exact condition and what is left behind. */
  lemma FailsWhen(vm: Vm, w: World, pool: nat, msg: Msg, coinbase: Address)
    requires VmOk(vm)
    ensures var t := Transition(vm, w, pool, msg, coinbase);
            var cost, have := msg.gas * msg.gasPrice, At(w.balances, msg.from);
            var needed := Intrinsic(msg.data, msg.to.None?);
            if msg.checkNonce && At(w.nonces, msg.from) != msg.nonce then t == Failed(w, pool, BadNonce)
            else if msg.gas >= 0x1_0000_0000_0000_0000 then t == Failed(w, pool, OutOfGas)
            else if have < cost then t == Failed(w, pool, InsufficientForGas)
            else if pool < msg.gas then t == Failed(w, pool, GasLimitReached)
            else if msg.gas < needed then
              t == Failed(w.(balances := w.balances[msg.from := have - cost]), pool - msg.gas, OutOfGas)
            else if Ran(vm, w, msg).insufficient then
              t == Failed(Ran(vm, w, msg).world, pool - msg.gas, InsufficientBalance)
            else t.Done?
  {
    hide Intrinsic;
    if msg.gas * msg.gasPrice <= At(w.balances, msg.from)
      && Intrinsic(msg.data, msg.to.None?) <= msg.gas < 0x1_0000_0000_0000_0000 {
      RanIs(vm, w, msg);
    }
  }

  /**
   * What a successful message leaves: the machine's world, except that the sender is paid back the
   * gas that was not used and the miner is paid for the gas that was. Half of the gas needed is
   * forgiven at most.
   */
  lemma SucceedsWith(vm: Vm, w: World, pool: nat, msg: Msg, coinbase: Address, a: Address)
    requires VmOk(vm) && Transition(vm, w, pool, msg, coinbase).Done?
    ensures msg.gas * msg.gasPrice <= At(w.balances, msg.from)
    ensures Intrinsic(msg.data, msg.to.None?) <= msg.gas < 0x1_0000_0000_0000_0000 && msg.gas <= pool
    ensures var t, r := Transition(vm, w, pool, msg, coinbase), Ran(vm, w, msg);
            && !r.insufficient
            && t.required == msg.gas - r.left as nat
            && t.used == t.required - Smaller(r.world.refund, t.required / 2)
            && t.pool == pool - t.used
            && t.world.nonces == r.world.nonces && t.world.dead == r.world.dead
            && At(t.world.balances, a) == At(r.world.balances, a)
                                          + (if a == msg.from then (msg.gas - t.used) * msg.gasPrice else 0)
                                          + (if a == coinbase then t.used * msg.gasPrice else 0)
  {
    hide Intrinsic;
    FailsWhen(vm, w, pool, msg, coinbase);
    RanIs(vm, w, msg);
  }

  // ----- nonces

  /**
   * A machine under which the nonce of an account moves only when it creates a contract itself, and
   * which never deletes the account.
   */
  ghost predicate Plain(vm: Vm, a: Address) {
    forall w, c :: !vm(w, c).insufficient ==>
      && At(vm(w, c).world.nonces, a) == At(w.nonces, a) + (if c.from == a && c.to.None? then 1 else 0)
      && (a in vm(w, c).world.dead ==> a in w.dead)
  }

  /** A machine that leaves nonces alone. */
  ghost predicate KeepsNonces(vm: Vm) {
    forall w, c, a :: At(vm(w, c).world.nonces, a) == At(w.nonces, a)
  }

  /** A machine that never lowers a nonce. */
  ghost predicate RaisesNonces(vm: Vm) {
    forall w, c, a :: At(vm(w, c).world.nonces, a) >= At(w.nonces, a)
  }

  /** A call moves the sender's nonce by one before the machine runs, a creation does not. */
  lemma NonceMoves(vm: Vm, w: World, pool: nat, msg: Msg, coinbase: Address, a: Address)
    requires VmOk(vm) && KeepsNonces(vm) && Transition(vm, w, pool, msg, coinbase).Done?
    ensures At(Transition(vm, w, pool, msg, coinbase).world.nonces, a) ==
              At(w.nonces, a) + if a == msg.from && msg.to.Some? then 1 else 0
  {
    hide Transition, Intrinsic;
    SucceedsWith(vm, w, pool, msg, coinbase, a);
  }

  lemma CallRaises(vm: Vm, w: World, pool: nat, msg: Msg, coinbase: Address)
    requires VmOk(vm) && RaisesNonces(vm) && Transition(vm, w, pool, msg, coinbase).Done? && msg.to.Some?
    ensures At(Transition(vm, w, pool, msg, coinbase).world.nonces, msg.from) > At(w.nonces, msg.from)
  {
    hide Transition, Intrinsic;
    SucceedsWith(vm, w, pool, msg, coinbase, msg.from);
  }

  /** What is left of an account between messages. */
  lemma ClearedAt(w: World, a: Address)
    ensures At(Cleared(w).nonces, a) == (if a in w.dead then 0 else At(w.nonces, a))
    ensures At(Cleared(w).balances, a) == (if a in w.dead then 0 else At(w.balances, a))
    ensures Cleared(w).refund == 0 && Cleared(w).dead == {}
  {
  }

  /**
   * A checked call that succeeded is refused when it comes again, in any pool and for any miner.
   * After the clearing it is refused unless the sender was deleted and starts at nonce zero again.
   */
  lemma NoReplay(vm: Vm, w: World, pool: nat, msg: Msg, coinbase: Address, pool2: nat, coinbase2: Address)
    requires VmOk(vm) && RaisesNonces(vm) && msg.checkNonce && msg.to.Some?
    requires Transition(vm, w, pool, msg, coinbase).Done?
    ensures var t := Transition(vm, w, pool, msg, coinbase);
            && Transition(vm, t.world, pool2, msg, coinbase2) == Failed(t.world, pool2, BadNonce)
            && (Transition(vm, Cleared(t.world), pool2, msg, coinbase2) == Failed(Cleared(t.world), pool2,
                                                                                  BadNonce) <==>
                !(msg.from in t.world.dead && msg.nonce == 0))
  {
    hide Transition, Intrinsic;
    var t := Transition(vm, w, pool, msg, coinbase);
    FailsWhen(vm, w, pool, msg, coinbase);
    CallRaises(vm, w, pool, msg, coinbase);
    FailsWhen(vm, t.world, pool2, msg, coinbase2);
    FailsWhen(vm, Cleared(t.world), pool2, msg, coinbase2);
    ClearedAt(t.world, msg.from);
  }

  /** How many of the messages an account sent. */
  ghost function Sent(msgs: seq<Msg>, a: Address): nat {
    |set i: nat | i < |msgs| && msgs[i].from == a|
  }

  lemma SentNone(msgs: seq<Msg>, a: Address)
    ensures msgs == [] ==> Sent(msgs, a) == 0
  {
    var s := set i: nat | i < |msgs| && msgs[i].from == a;
    assert msgs == [] ==> s == {};
  }

  lemma SentGrows(msgs: seq<Msg>, a: Address)
    requires msgs != []
    ensures Sent(msgs, a) == Sent(msgs[..|msgs| - 1], a) + if msgs[|msgs| - 1].from == a then 1 else 0
  {
    var n := |msgs| - 1;
    var s := set i: nat | i < |msgs| && msgs[i].from == a;
    var t := set i: nat | i < n && msgs[..n][i].from == a;
    assert s == t + if msgs[n].from == a then {n} else {};
  }

  lemma PlainMoves(vm: Vm, w: World, pool: nat, msg: Msg, coinbase: Address, a: Address)
    requires VmOk(vm) && Plain(vm, a) && Transition(vm, w, pool, msg, coinbase).Done? && a !in w.dead
    ensures var t := Transition(vm, w, pool, msg, coinbase);
            At(Cleared(t.world).nonces, a) == At(w.nonces, a) + if msg.from == a then 1 else 0
  {
    hide Transition, Intrinsic;
    SucceedsWith(vm, w, pool, msg, coinbase, a);
    ClearedAt(Transition(vm, w, pool, msg, coinbase).world, a);
  }

  /** In a block the nonce of a plain account goes up by one with each message it sends, and in no other way. */
  lemma {:induction false} BlockNonces(vm: Vm, w: World, pool: nat, msgs: seq<Msg>, coinbase: Address, a: Address)
    requires VmOk(vm) && Plain(vm, a) && w.dead == {} && After(vm, w, pool, msgs, coinbase).Some?
    ensures At(After(vm, w, pool, msgs, coinbase).value.0.nonces, a) == At(w.nonces, a) + Sent(msgs, a)
  {
    hide Transition, Plain, VmOk, Cleared;
    if msgs == [] {
      SentNone(msgs, a);
    } else {
      var n := |msgs| - 1;
      BlockNonces(vm, w, pool, msgs[..n], coinbase, a);
      var p := After(vm, w, pool, msgs[..n], coinbase).value;
      DeadGone(vm, w, pool, msgs[..n], coinbase);
      PlainMoves(vm, p.0, p.1, msgs[n], coinbase, a);
      SentGrows(msgs, a);
    }
  }

  lemma {:induction false} PrefixRuns(vm: Vm, w: World, pool: nat, msgs: seq<Msg>, coinbase: Address, k: nat)
    requires VmOk(vm) && k <= |msgs| && After(vm, w, pool, msgs, coinbase).Some?
    ensures After(vm, w, pool, msgs[..k], coinbase).Some?
  {
    if After(vm, w, pool, msgs[..k], coinbase).None? { NoneAfter(vm, w, pool, msgs, coinbase, k); }
  }

  /** Hence the checked messages of a plain account carry consecutive nonces, in order and none twice. */
  lemma BlockInOrder(vm: Vm, w: World, pool: nat, msgs: seq<Msg>, coinbase: Address, k: nat)
    requires VmOk(vm) && k < |msgs| && Plain(vm, msgs[k].from) && w.dead == {} && msgs[k].checkNonce
    requires After(vm, w, pool, msgs, coinbase).Some?
    ensures msgs[k].nonce == At(w.nonces, msgs[k].from) + Sent(msgs[..k], msgs[k].from)
  {
    hide Transition, Plain, VmOk, Sent;
    PrefixRuns(vm, w, pool, msgs, coinbase, k);
    PrefixRuns(vm, w, pool, msgs, coinbase, k + 1);
    assert msgs[..k + 1][..k] == msgs[..k];
    BlockNonces(vm, w, pool, msgs[..k], coinbase, msgs[k].from);
    var p := After(vm, w, pool, msgs[..k], coinbase).value;
    FailsWhen(vm, p.0, p.1, msgs[k], coinbase);
  }

  /** No block applies the same checked message of a plain account twice. */
  lemma NoneTwice(vm: Vm, w: World, pool: nat, msgs: seq<Msg>, coinbase: Address, i: nat, j: nat)
    requires VmOk(vm) && i < j < |msgs| && Plain(vm, msgs[i].from) && w.dead == {} && msgs[i].checkNonce
    requires After(vm, w, pool, msgs, coinbase).Some?
    ensures msgs[i] != msgs[j]
  {
    hide Plain, VmOk, After;
    if msgs[i] == msgs[j] {
      BlockInOrder(vm, w, pool, msgs, coinbase, i);
      BlockInOrder(vm, w, pool, msgs, coinbase, j);
      SentMore(msgs, i, j);
    }
  }

  lemma SentMore(msgs: seq<Msg>, i: nat, j: nat)
    requires i < j <= |msgs|
    ensures Sent(msgs[..i], msgs[i].from) < Sent(msgs[..j], msgs[i].from)
  {
    var a := msgs[i].from;
    var s := set k: nat | k < |msgs[..i]| && msgs[..i][k].from == a;
    var t := set k: nat | k < |msgs[..j]| && msgs[..j][k].from == a;
    assert i in t && i !in s && s <= t - {i};
    Collections.SubsetSize(s, t - {i});
  }

  // ----- rewards

  /** Of an uncle's reward each block between it and the block that includes it costs an eighth. */
  lemma UncleRewardMeans(number: nat, u: Uncle)
    requires number <= u.number + 8
    ensures UncleReward(number, u) == (u.number + 8 - number) * 125_000_000_000_000_000
  {
  }

  /** What the uncles of one account bring it. */
  ghost function UncleShare(number: nat, uncles: seq<Uncle>, a: Address): nat
    requires UnclesOk(number, uncles)
  {
    if uncles == [] then 0
    else
      var u := uncles[|uncles| - 1];
      UncleShare(number, uncles[..|uncles| - 1], a)
      + if u.coinbase == a then (u.number + 8 - number) * 125_000_000_000_000_000 else 0
  }

  lemma {:induction false} PaidUnclesAt(b: Balances, number: nat, uncles: seq<Uncle>, a: Address)
    requires UnclesOk(number, uncles)
    ensures At(PaidUncles(b, number, uncles), a) == At(b, a) + UncleShare(number, uncles, a)
  {
    hide UncleReward;
    if uncles != [] {
      PaidUnclesAt(b, number, uncles[..|uncles| - 1], a);
      UncleRewardMeans(number, uncles[|uncles| - 1]);
    }
  }

  /**
   * The rewards of a block: 10^18 and a 32nd of that per uncle to the miner, and to each account
   * its uncles' shares.
   */
  lemma RewardsAt(b: Balances, number: nat, coinbase: Address, uncles: seq<Uncle>, a: Address)
    requires UnclesOk(number, uncles)
    ensures At(Rewarded(b, number, coinbase, uncles), a) ==
              At(b, a) + UncleShare(number, uncles, a)
              + if a == coinbase then 1_000_000_000_000_000_000 + |uncles| * 31_250_000_000_000_000 else 0
  {
    PaidUnclesAt(b, number, uncles, a);
  }
}
