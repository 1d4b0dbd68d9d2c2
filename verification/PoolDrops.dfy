/**
 * What removing queued transactions does to an account. A nonce that is pending as well takes the
 * pending list down with it, and what was pending above comes back into the queue.
 */
module PoolDrops {
  import opened Collections
  import opened Wrappers
  import opened Nonces
  import opened TxLists
  import opened RateLimit
  import opened PoolIndex
  import opened PoolSteps
  import opened Sums

  // ----- one removal

  /** Removing a transaction leaves the pending lists alone exactly when its nonce is not pending. */
  lemma RemovalQuiet(p: PoolVal, q: PoolVal, tx: Tx)
    requires Removal(p, q, tx) && NoEmpty(p.pending)
    ensures q.pending == p.pending <==> tx.nonce !in Items(p.pending, tx.from)
    ensures q.pending == p.pending ==>
              Items(q.queue, tx.from) == Items(p.queue, tx.from) - {tx.nonce} && q.all == p.all - {tx.hash}
  {
    hide Merge, BeatenHashes;
    MergeNothing(Items(p.queue, tx.from));
    assert p.all - {} == p.all;
    if tx.nonce !in Items(p.pending, tx.from) {
      forall a ensures SameAt(q.pending, p.pending, a) {}
      forall a | a in q.pending.Keys + p.pending.Keys
        ensures a in q.pending && a in p.pending && q.pending[a] == p.pending[a]
      {
        assert SameAt(q.pending, p.pending, a);
      }
    } else {
      assert tx.nonce !in Below(Items(p.pending, tx.from), tx.nonce);
    }
  }

  /** Removing a queued transaction makes the queue one shorter exactly when all that comes back is queued already. */
  lemma RemovalShrinks(p: PoolVal, q: PoolVal, tx: Tx)
    requires Removal(p, q, tx) && tx.nonce in Items(p.queue, tx.from)
    ensures var back, queued := Returned(Items(p.pending, tx.from), tx.nonce), Items(p.queue, tx.from);
            && |Items(q.queue, tx.from)| >= |queued| - 1
            && (|Items(q.queue, tx.from)| == |queued| - 1 <==> back.Keys <= queued.Keys)
  {
    hide Merge, BeatenHashes, SameBut, Returned;
    var back, queued := Returned(Items(p.pending, tx.from), tx.nonce), Items(p.queue, tx.from);
    MergeKeys(queued, back);
    var both := queued.Keys + back.Keys;
    KeysWithout(Merge(queued, back), tx.nonce);
    SubsetSize(queued.Keys, both);
    if |both| == |queued.Keys| { SameSize(queued.Keys, both); }
    if back.Keys <= queued.Keys { assert both == queued.Keys; }
  }

  lemma MergeKeys(q: TxMap, m: TxMap)
    ensures Merge(q, m).Keys == q.Keys + m.Keys
  {
  }

  lemma KeysWithout(m: TxMap, n: nat)
    requires n in m
    ensures |m - {n}| == |m.Keys| - 1
  {
    assert (m - {n}).Keys == m.Keys - {n};
  }

  /**
   * A queue that does not get shorter: nonces 0, 1 and 2 are pending and 1 is queued as well.
   * Removing the queued transaction takes 1 and 2 off the pending list, and 2 comes back.
   */
  lemma RemovalRefills() returns (p: PoolVal, q: PoolVal, tx: Tx)
    ensures Sound(p) && NoEmpty(p.pending) && NoEmpty(p.queue) && In(p.queue, tx) && Removal(p, q, tx)
    ensures |Items(p.queue, tx.from)| == |Items(q.queue, tx.from)| == 1
    ensures tx == Refill(3) && In(p.pending, Refill(1))
  {
    hide Merge, BeatenHashes, Returned;
    tx := Refill(3);
    var low, high: TxMap := map[0 := Refill(0), 1 := Refill(1), 2 := Refill(2)], map[1 := tx];
    p := PoolVal(map[7 := ListVal(true, low, 1)], map[7 := ListVal(false, high, 1)],
                 map[0 := Refill(0), 1 := Refill(1), 2 := Refill(2), 3 := tx]);
    q := PoolVal(map[7 := ListVal(true, Below(low, 1), 1)], map[7 := ListVal(false, map[2 := Refill(2)], 1)],
                 p.all - {3});
    RefillMaps(low, high);
    assert p.all - {} - {3} == q.all;
    RefillSound(p, low, high);
  }

  /** Four transactions of one account: nonces 0, 1 and 2, and another one with nonce 1. */
  function Refill(i: nat): Tx {
    Tx(i, 7, if i == 3 then 1 else i, 1, 1)
  }

  lemma RefillSound(p: PoolVal, low: TxMap, high: TxMap)
    requires low == map[0 := Refill(0), 1 := Refill(1), 2 := Refill(2)] && high == map[1 := Refill(3)]
    requires p.pending == map[7 := ListVal(true, low, 1)] && p.queue == map[7 := ListVal(false, high, 1)]
    requires p.all == map[0 := Refill(0), 1 := Refill(1), 2 := Refill(2), 3 := Refill(3)]
    ensures Sound(p) && NoEmpty(p.pending) && NoEmpty(p.queue)
  {
    assert 0 in low && 1 in high;
    assert forall n :: n in low ==> low[n] == Refill(n);
    assert forall n :: n in high ==> high[n] == Refill(3);
  }

  lemma RefillMaps(low: TxMap, high: TxMap)
    requires low == map[0 := Refill(0), 1 := Refill(1), 2 := Refill(2)] && high == map[1 := Refill(3)]
    ensures Returned(low, 1) == map[2 := Refill(2)]
    ensures Merge(high, map[2 := Refill(2)]) - {1} == map[2 := Refill(2)]
    ensures BeatenHashes(high, map[2 := Refill(2)]) == {}
  {
    assert 0 in Below(low, 1) && Above(low, 1) == map[2 := Refill(2)];
    var both := Merge(high, map[2 := Refill(2)]);
    assert both.Keys == {1, 2} && both[2] == Refill(2);
  }

  // ----- several removals

  /** The pending list after the nonces in `gone` have been removed. */
  ghost function Kept(pending: TxMap, gone: set<nat>): TxMap {
    if pending.Keys * gone == {} then pending else Below(pending, MinOf(pending.Keys * gone))
  }

  /** What the removal of the lowest nonce that is pending too sends back to the queue. */
  ghost function Back(pending: TxMap, gone: set<nat>): TxMap {
    if pending.Keys * gone == {} then map[] else Returned(pending, MinOf(pending.Keys * gone))
  }

  ghost predicate Wins(queued: TxMap, back: TxMap, n: nat) {
    n in back && (n in queued ==> queued[n].gasPrice < back[n].gasPrice)
  }

  /** The queue when `back` has come into it and `gone` has been removed, but for what was replaced before. */
  ghost function Half(queued: TxMap, back: TxMap, gone: set<nat>): TxMap {
    map n | n in queued.Keys + back.Keys && (Wins(queued, back, n) || (n in queued && n !in gone)) ::
      if Wins(queued, back, n) then back[n] else queued[n]
  }

  ghost function HashesOut(queued: TxMap, back: TxMap, gone: set<nat>): set<TxId> {
    set n | n in queued && (n in gone || Wins(queued, back, n)) :: queued[n].hash
  }

  /** The lists of `a` when the nonces in `gone` have been removed from the queue, lowest first. */
  ghost predicate LowGone(was: PoolVal, p: PoolVal, a: Address, gone: set<nat>) {
    var pending, queued := Items(was.pending, a), Items(was.queue, a);
    && Items(p.pending, a) == Kept(pending, gone)
    && Items(p.queue, a) == Half(queued, Back(pending, gone), gone)
    && p.all == was.all - HashesOut(queued, Back(pending, gone), gone)
    && (pending.Keys !! gone ==> p.pending == was.pending)
  }

  /** The account's lists are sound, seen from the queued transactions. */
  ghost predicate QueueIndexed(p: PoolVal, a: Address) {
    var queued := Items(p.queue, a);
    forall n :: n in queued ==> queued[n].from == a && queued[n].nonce == n
                                && queued[n].hash in p.all && p.all[queued[n].hash] == queued[n]
  }

  /** `n` is the next queued nonce above `gone`. */
  ghost predicate NextUp(queued: TxMap, gone: set<nat>, n: nat) {
    && n in queued && gone <= queued.Keys
    && (forall m :: m in gone ==> m < n) && (forall m :: m in queued && m < n ==> m in gone)
  }

  lemma LowStart(p: PoolVal, a: Address)
    ensures LowGone(p, p, a, {})
  {
    assert Items(p.pending, a).Keys * {} == {};
    assert p.all - {} == p.all;
  }

  /** Once a nonce is pending too, the next ones are above all that is pending. */
  lemma NextAbove(pending: TxMap, queued: TxMap, gone: set<nat>, n: nat)
    requires NextUp(queued, gone, n)
    ensures pending.Keys * gone != {} ==>
              && n !in Kept(pending, gone) && Kept(pending, gone + {n}) == Kept(pending, gone)
              && Back(pending, gone + {n}) == Back(pending, gone)
    ensures pending.Keys * gone == {} && n !in pending ==> pending.Keys * (gone + {n}) == {}
    ensures pending.Keys * gone == {} && n in pending ==>
              && pending.Keys * (gone + {n}) == {n}
              && Kept(pending, gone + {n}) == Below(pending, n) && Back(pending, gone + {n}) == Returned(pending, n)
  {
    var now, next := pending.Keys * gone, pending.Keys * (gone + {n});
    if now != {} {
      assert MinOf(now) in next;
      assert MinOf(next) <= MinOf(now) < n;
      assert MinOf(next) in now;
      assert MinOf(now) == MinOf(next);
    } else if n in pending {
      assert next == {n};
    }
  }

  /** Coming back into what is left of the queue. */
  lemma HalfMerge(pending: TxMap, queued: TxMap, gone: set<nat>, n: nat)
    requires NextUp(queued, gone, n) && n in pending
    ensures var back := Returned(pending, n);
            && Half(queued, back, gone + {n}) == Merge(Half(queued, map[], gone), back) - {n}
            && HashesOut(queued, back, gone + {n})
               == HashesOut(queued, map[], gone) + BeatenHashes(Half(queued, map[], gone), back) + {queued[n].hash}
  {
    var back, left := Returned(pending, n), Half(queued, map[], gone);
    assert forall m :: m in back ==> m > n;
    assert forall m :: m in left <==> m in queued && m !in gone;
    var l, r := Half(queued, back, gone + {n}), Merge(left, back) - {n};
    forall m ensures m in l <==> m in r {}
    forall m | m in l ensures l[m] == r[m] {}
    var x := HashesOut(queued, back, gone + {n});
    var y := HashesOut(queued, map[], gone) + BeatenHashes(left, back) + {queued[n].hash};
    forall h ensures h in x <==> h in y {
      if h in x {
        var m :| m in queued && (m in gone + {n} || Wins(queued, back, m)) && h == queued[m].hash;
        assert m in gone || m == n || (m in left && left[m] == queued[m]);
      }
      if h in BeatenHashes(left, back) {
        var m :| m in back && m in left && left[m].gasPrice < back[m].gasPrice && h == left[m].hash;
        assert left[m] == queued[m] && Wins(queued, back, m);
      }
    }
  }

  /** A queued transaction that was not replaced goes alone. */
  lemma HalfDrop(queued: TxMap, back: TxMap, gone: set<nat>, n: nat)
    requires n in queued && n !in gone
    ensures if Wins(queued, back, n)
            then Half(queued, back, gone + {n}) == Half(queued, back, gone)
                 && HashesOut(queued, back, gone + {n}) == HashesOut(queued, back, gone)
            else Half(queued, back, gone + {n}) == Half(queued, back, gone) - {n}
                 && HashesOut(queued, back, gone + {n}) == HashesOut(queued, back, gone) + {queued[n].hash}
  {
    var x, y := HashesOut(queued, back, gone + {n}), HashesOut(queued, back, gone);
    forall h | h in x ensures h in y || h == queued[n].hash {
      var m :| m in queued && (m in gone + {n} || Wins(queued, back, m)) && h == queued[m].hash;
    }
    forall h | h in y ensures h in x {
      var m :| m in queued && (m in gone || Wins(queued, back, m)) && h == queued[m].hash;
    }
    assert queued[n].hash in x;
    assert Wins(queued, back, n) ==> queued[n].hash in y;
  }

  /** Of the queued transactions not removed yet, those that were replaced have left the index. */
  lemma HashStays(p: PoolVal, a: Address, back: TxMap, gone: set<nat>, n: nat)
    requires QueueIndexed(p, a) && n in Items(p.queue, a) && n !in gone
    ensures var queued := Items(p.queue, a);
            queued[n].hash in HashesOut(queued, back, gone) <==> Wins(queued, back, n)
  {
    var queued := Items(p.queue, a);
    if queued[n].hash in HashesOut(queued, back, gone) {
      var m :| m in queued && (m in gone || Wins(queued, back, m)) && queued[m].hash == queued[n].hash;
      assert queued[m].nonce == m && queued[n].nonce == n;
    }
  }

  /** One more removal from below. */
  lemma LowStep(was: PoolVal, p: PoolVal, q: PoolVal, a: Address, gone: set<nat>, n: nat)
    requires QueueIndexed(was, a) && NoEmpty(p.pending)
    requires LowGone(was, p, a, gone) && NextUp(Items(was.queue, a), gone, n)
    requires RemovalOf(Items(was.queue, a)[n].hash, p, q)
    ensures LowGone(was, q, a, gone + {n})
  {
    hide Half, HashesOut, Wins, Kept, Back, Merge, BeatenHashes, SameBut, Returned, NoEmpty;
    var pending, queued := Items(was.pending, a), Items(was.queue, a);
    var tx, back := queued[n], Back(pending, gone);
    assert tx.from == a && tx.nonce == n && was.all[tx.hash] == tx;
    HashStays(was, a, back, gone, n);
    HalfDrop(queued, back, gone, n);
    NextAbove(pending, queued, gone, n);
    NothingBack(pending, gone);
    NothingBack(pending, gone + {n});
    NoneWins(queued, n);
    MergeNothing(Items(p.queue, a));
    NotReturned(Items(p.pending, a), n);
    assert tx.hash in p.all ==> p.all[tx.hash] == tx;
    if tx.hash in p.all { RemovalQuiet(p, q, tx); }
    if n in pending && pending.Keys * gone == {} {
      HalfMerge(pending, queued, gone, n);
    }
  }

  lemma NothingBack(pending: TxMap, gone: set<nat>)
    ensures pending.Keys * gone == {} ==> Kept(pending, gone) == pending && Back(pending, gone) == map[]
  {
  }

  lemma NoneWins(queued: TxMap, n: nat)
    ensures !Wins(queued, map[], n)
  {
  }

  lemma NotReturned(pending: TxMap, n: nat)
    ensures n !in pending ==> Returned(pending, n) == map[]
  {
  }

  /** The pending nonces follow a removal from below. */
  lemma LowerUp(base: ChainState, ahead: map<Address, nat>, a: Address, pending: TxMap, queued: TxMap, gone: set<nat>,
                n: nat)
    requires NextUp(queued, gone, n)
    ensures var now := Lowered(base, ahead, a, pending, gone);
            Lowered(base, now, a, Kept(pending, gone), {n}) == Lowered(base, ahead, a, pending, gone + {n})
    ensures pending.Keys * gone != {} ==>
              Lowered(base, ahead, a, pending, gone + {n}) == Lowered(base, ahead, a, pending, gone)
  {
    NextAbove(pending, queued, gone, n);
    var now, next := pending.Keys * gone, pending.Keys * (gone + {n});
    if now != {} {
      assert Kept(pending, gone).Keys * {n} == {};
      assert MinOf(now) in next;
      assert MinOf(next) <= MinOf(now) < n;
      assert MinOf(next) in now;
    } else {
      assert Kept(pending, gone).Keys * {n} == next;
    }
  }

  lemma LowNonces(base: ChainState, ahead: map<Address, nat>, was: PoolVal, p: PoolVal, a: Address, gone: set<nat>,
                  n: nat)
    requires QueueIndexed(was, a) && LowGone(was, p, a, gone) && NextUp(Items(was.queue, a), gone, n)
    ensures var h, pending := Items(was.queue, a)[n].hash, Items(was.pending, a);
            NoncesAfter(base, Lowered(base, ahead, a, pending, gone), h, p)
              == Lowered(base, ahead, a, pending, gone + {n})
  {
    hide Lowered, Half, HashesOut, Wins, Kept, Back;
    var pending, queued := Items(was.pending, a), Items(was.queue, a);
    HashStays(was, a, Back(pending, gone), gone, n);
    NothingBack(pending, gone);
    NoneWins(queued, n);
    assert was.all[queued[n].hash] == queued[n];
    LowerUp(base, ahead, a, pending, queued, gone, n);
  }

  /** What stays queued when a whole queue is removed: what came back in the meantime and was not beaten. */
  ghost function Leftover(pending: TxMap, queued: TxMap): TxMap {
    var back := Back(pending, queued.Keys);
    map n | n in back && Wins(queued, back, n) :: back[n]
  }

  lemma HalfAll(pending: TxMap, queued: TxMap)
    ensures Half(queued, Back(pending, queued.Keys), queued.Keys) == Leftover(pending, queued)
    ensures HashesOut(queued, Back(pending, queued.Keys), queued.Keys) == HashesOut(queued, map[], queued.Keys)
  {
    hide Back;
  }

  // ----- removal from above

  /** What removing `gone` from the queue, highest first, brings back into it. */
  ghost function Gained(pending: TxMap, gone: set<nat>): TxMap {
    map n | n in pending && n !in gone && Topples(pending, gone, n) :: pending[n]
  }

  /** A removed nonce below `n` is pending, and not the lowest one. */
  ghost predicate Topples(pending: TxMap, gone: set<nat>, n: nat) {
    exists d :: d in gone && d in pending && d < n && Below(pending, d) != map[]
  }

  ghost predicate HighGone(was: PoolVal, p: PoolVal, a: Address, gone: set<nat>) {
    var pending, queued := Items(was.pending, a), Items(was.queue, a);
    && Items(p.pending, a) == Kept(pending, gone)
    && Items(p.queue, a) == (queued - gone) + Gained(pending, gone)
    && p.all == was.all - HashesOut(queued, map[], gone)
    && (pending.Keys !! gone ==> p.pending == was.pending)
  }

  /** `n` is the next queued nonce below `gone`. */
  ghost predicate NextDown(queued: TxMap, gone: set<nat>, n: nat) {
    && n in queued && gone <= queued.Keys
    && (forall m :: m in gone ==> m > n) && (forall m :: m in queued && m > n ==> m in gone)
  }

  /** All but the `i` lowest nonces. */
  ghost function Upper(queued: TxMap, i: nat): set<nat> {
    queued.Keys - Lowest(queued, i).Keys
  }

  lemma UpperNone(queued: TxMap)
    ensures Upper(queued, |queued|) == {}
  {
    LowestAll(queued);
  }

  /** Taking the queue in nonce order, from either end. */
  lemma InOrder(queued: TxMap, i: nat)
    requires WellNonced(queued) && i < |queued|
    ensures var n, low, lower := Sorted(queued)[i].nonce, Lowest(queued, i + 1).Keys, Lowest(queued, i).Keys;
            && n in queued && queued[n] == Sorted(queued)[i]
            && NextUp(queued, lower, n) && low == lower + {n}
            && NextDown(queued, Upper(queued, i + 1), n) && Upper(queued, i) == Upper(queued, i + 1) + {n}
  {
    hide Sorted, SortedKeys;
    SortedAt(queued, i);
    LowestStep(queued, i + 1);
    assert Lowest(queued, i) == Below(queued, SortedKeys(queued.Keys)[i]);
  }

  /** All but the `i` lowest nonces of the queue have been removed, highest first. */
  ghost predicate LowLeft(was: PoolVal, p: PoolVal, a: Address, i: nat) {
    HighGone(was, p, a, Upper(Items(was.queue, a), i))
  }

  lemma HighStart(p: PoolVal, a: Address)
    ensures LowLeft(p, p, a, |Items(p.queue, a)|)
  {
    hide HighGone, Upper;
    UpperNone(Items(p.queue, a));
    NoneGone(p, a);
  }

  lemma NoneGone(p: PoolVal, a: Address)
    ensures HighGone(p, p, a, {})
  {
    var pending, queued := Items(p.pending, a), Items(p.queue, a);
    assert pending.Keys * {} == {} && queued - {} == queued && Gained(pending, {}) == map[];
    assert HashesOut(queued, map[], {}) == {} && p.all - {} == p.all;
    assert queued + map[] == queued;
  }

  /** The next nonce from above, and what it takes off the pending list. */
  lemma NextBelow(pending: TxMap, queued: TxMap, gone: set<nat>, n: nat)
    requires NextDown(queued, gone, n)
    ensures n in Kept(pending, gone) <==> n in pending
    ensures n !in pending ==> pending.Keys * (gone + {n}) == pending.Keys * gone
    ensures n in pending ==> Kept(pending, gone + {n}) == Below(pending, n) == Below(Kept(pending, gone), n)
  {
    var now, next := pending.Keys * gone, pending.Keys * (gone + {n});
    if n in pending {
      assert n in next;
      assert MinOf(next) == n;
    } else {
      assert next == now;
    }
  }

  lemma BelowHas(m: TxMap, n: nat, d: nat)
    requires n in m && n < d
    ensures Below(m, d) != map[]
  {
    assert n in Below(m, d);
  }

  /** What the next removal from above sends back: the pending nonces between it and the last one. */
  lemma BackBelow(pending: TxMap, queued: TxMap, gone: set<nat>, n: nat, m: nat)
    requires NextDown(queued, gone, n)
    ensures m in Returned(Kept(pending, gone), n) <==>
              && n in pending && Below(pending, n) != map[] && m in pending && m > n
              && forall d :: d in gone && d in pending ==> m < d
    ensures m in Returned(Kept(pending, gone), n) ==> Returned(Kept(pending, gone), n)[m] == pending[m]
  {
    NextBelow(pending, queued, gone, n);
    var now := pending.Keys * gone;
    if now != {} {
      assert MinOf(now) in gone && MinOf(now) in pending;
      assert forall d :: d in gone && d in pending ==> d in now;
    }
  }

  lemma ToppleStep(pending: TxMap, queued: TxMap, gone: set<nat>, n: nat, m: nat)
    requires NextDown(queued, gone, n)
    ensures m in Gained(pending, gone + {n}) <==> m in Gained(pending, gone) || m in Returned(Kept(pending, gone), n)
    ensures !(m in Gained(pending, gone) && m in Returned(Kept(pending, gone), n))
  {
    hide Kept, Returned, Below;
    BackBelow(pending, queued, gone, n, m);
    if m in Gained(pending, gone + {n}) && m !in Gained(pending, gone) {
      var d :| d in gone + {n} && d in pending && d < m && Below(pending, d) != map[];
      forall e | e in gone && e in pending ensures m < e {
        BelowHas(pending, n, e);
      }
    }
    if m in Gained(pending, gone) {
      var d :| d in gone && d in pending && d < m && Below(pending, d) != map[];
      assert d in gone + {n};
      assert m != n;
    }
    if m in Returned(Kept(pending, gone), n) {
      assert n in gone + {n};
      assert m !in gone;
    }
  }

  lemma GainedStep(pending: TxMap, queued: TxMap, gone: set<nat>, n: nat)
    requires NextDown(queued, gone, n)
    ensures var back := Returned(Kept(pending, gone), n);
            && Gained(pending, gone + {n}) == Gained(pending, gone) + back
            && back.Keys !! queued.Keys && back.Keys !! Gained(pending, gone).Keys
            && Gained(pending, gone).Keys !! (queued - gone).Keys && n !in Gained(pending, gone)
  {
    hide Kept, Returned, Below, Topples;
    var back := Returned(Kept(pending, gone), n);
    forall m: nat
      ensures m in Gained(pending, gone + {n}) <==> m in Gained(pending, gone) || m in back
      ensures !(m in Gained(pending, gone) && m in back)
      ensures m in back ==> back[m] == pending[m] && m !in queued
      ensures m in Gained(pending, gone) ==> m > n && m !in queued - gone
    {
      ToppleStep(pending, queued, gone, n, m);
      BackBelow(pending, queued, gone, n, m);
      if Topples(pending, gone, m) { ToppledAbove(pending, queued, gone, n, m); }
    }
  }

  lemma ToppledAbove(pending: TxMap, queued: TxMap, gone: set<nat>, n: nat, m: nat)
    requires NextDown(queued, gone, n) && Topples(pending, gone, m)
    ensures m > n
  {
  }

  /** One more removal from above. */
  lemma HighStep(was: PoolVal, p: PoolVal, q: PoolVal, a: Address, gone: set<nat>, n: nat)
    requires QueueIndexed(was, a) && NoEmpty(p.pending)
    requires HighGone(was, p, a, gone) && NextDown(Items(was.queue, a), gone, n)
    requires RemovalOf(Items(was.queue, a)[n].hash, p, q)
    ensures HighGone(was, q, a, gone + {n})
  {
    hide HashesOut, Wins, Kept, Merge, BeatenHashes, SameBut, Returned, Gained, NoEmpty;
    var pending, queued := Items(was.pending, a), Items(was.queue, a);
    var tx := queued[n];
    assert tx.from == a && tx.nonce == n && was.all[tx.hash] == tx;
    HashStays(was, a, map[], gone, n);
    NoneWins(queued, n);
    assert tx.hash in p.all && p.all[tx.hash] == tx;
    RemovalQuiet(p, q, tx);
    HalfDrop(queued, map[], gone, n);
    NextBelow(pending, queued, gone, n);
    KeptSame(pending, gone, gone + {n});
    HighQueue(pending, queued, gone, n);
  }

  lemma HighQueue(pending: TxMap, queued: TxMap, gone: set<nat>, n: nat)
    requires NextDown(queued, gone, n)
    ensures var back, left := Returned(Kept(pending, gone), n), (queued - gone) + Gained(pending, gone);
            && Merge(left, back) - {n} == (queued - (gone + {n})) + Gained(pending, gone + {n})
            && BeatenHashes(left, back) == {}
  {
    hide Kept, Merge, BeatenHashes, Returned, Gained;
    var back, left := Returned(Kept(pending, gone), n), (queued - gone) + Gained(pending, gone);
    GainedStep(pending, queued, gone, n);
    assert back.Keys !! left.Keys;
    MergeApart(left, back);
  }

  /** The pending nonces follow a removal from above. */
  lemma LowerDown(base: ChainState, ahead: map<Address, nat>, a: Address, pending: TxMap, queued: TxMap, gone: set<nat>,
                  n: nat)
    requires NextDown(queued, gone, n)
    ensures var now := Lowered(base, ahead, a, pending, gone);
            Lowered(base, now, a, Kept(pending, gone), {n}) == Lowered(base, ahead, a, pending, gone + {n})
  {
    NextBelow(pending, queued, gone, n);
    var now, next := pending.Keys * gone, pending.Keys * (gone + {n});
    if n in pending {
      assert Kept(pending, gone).Keys * {n} == {n};
      assert n in next;
      assert MinOf(next) == n;
    } else {
      assert Kept(pending, gone).Keys * {n} == {};
      assert next == now;
    }
  }

  lemma HighNonces(base: ChainState, ahead: map<Address, nat>, was: PoolVal, p: PoolVal, a: Address, gone: set<nat>,
                   n: nat)
    requires QueueIndexed(was, a) && HighGone(was, p, a, gone) && NextDown(Items(was.queue, a), gone, n)
    ensures var h, pending := Items(was.queue, a)[n].hash, Items(was.pending, a);
            NoncesAfter(base, Lowered(base, ahead, a, pending, gone), h, p)
              == Lowered(base, ahead, a, pending, gone + {n})
  {
    hide Lowered, HashesOut, Wins, Kept, Gained;
    var pending, queued := Items(was.pending, a), Items(was.queue, a);
    HashStays(was, a, map[], gone, n);
    NoneWins(queued, n);
    assert was.all[queued[n].hash] == queued[n];
    LowerDown(base, ahead, a, pending, queued, gone, n);
  }

  /** The pending nonces when all but the `i` lowest nonces of the queue have been removed. */
  ghost function LoweredTo(base: ChainState, ahead: map<Address, nat>, p: PoolVal, a: Address, i: nat):
    map<Address, nat>
  {
    Lowered(base, ahead, a, Items(p.pending, a), Upper(Items(p.queue, a), i))
  }

  lemma HighestNonces(base: ChainState, ahead: map<Address, nat>, p: PoolVal, a: Address, k: nat)
    requires k <= |Items(p.queue, a)|
    ensures LoweredTo(base, ahead, p, a, |Items(p.queue, a)|) == ahead
    ensures LoweredTo(base, ahead, p, a, |Items(p.queue, a)| - k)
              == Lowered(base, ahead, a, Items(p.pending, a), Highest(Items(p.queue, a), k))
  {
    hide Lowered, Upper;
    UpperNone(Items(p.queue, a));
    NothingLowered(base, ahead, a, Items(p.pending, a));
  }

  lemma KeptSame(pending: TxMap, gone: set<nat>, more: set<nat>)
    ensures pending.Keys * gone == pending.Keys * more ==> Kept(pending, gone) == Kept(pending, more)
  {
  }

  lemma MergeApart(q: TxMap, m: TxMap)
    requires q.Keys !! m.Keys
    ensures Merge(q, m) == q + m && BeatenHashes(q, m) == {}
  {
  }

  lemma QueueSound(p: PoolVal, a: Address)
    requires Sound(p) && a in p.queue
    ensures QueueIndexed(p, a)
  {
    assert ListOk(p.queue[a], a, p.all);
    forall n | n in p.queue[a].items
      ensures p.queue[a].items[n].from == a && p.queue[a].items[n].nonce == n && p.queue[a].items[n].hash in p.all
              && p.all[p.queue[a].items[n].hash] == p.queue[a].items[n]
    {
      assert TxOk(p.queue[a].items[n], a, n, p.all);
    }
  }

  // ----- the overflow loop and the expiry loop

  /** No nonce of the account is both pending and queued. */
  ghost predicate ClashFree(p: PoolVal, a: Address) {
    Items(p.pending, a).Keys !! Items(p.queue, a).Keys
  }

  /** The whole queue of `a` has been removed. */
  ghost predicate Emptied(was: PoolVal, p: PoolVal, a: Address) {
    && EmptiedTo(Items(was.pending, a), Items(was.queue, a), Items(p.pending, a), Items(p.queue, a))
    && (ClashFree(was, a) ==> SameAt(p.pending, was.pending, a))
  }

  ghost predicate EmptiedTo(pending: TxMap, queued: TxMap, kept: TxMap, left: TxMap) {
    kept == Kept(pending, queued.Keys) && left == Leftover(pending, queued)
  }

  /** The `k` highest nonces of a queue. */
  ghost function Highest(queued: TxMap, k: nat): set<nat> {
    Upper(queued, if k <= |queued| then |queued| - k else 0)
  }

  /** The `k` highest nonces have been removed from the queue of `a`. */
  ghost predicate Shortened(was: PoolVal, p: PoolVal, a: Address, k: nat) {
    && ShortenedTo(Items(was.pending, a), Items(was.queue, a), k, Items(p.pending, a), Items(p.queue, a))
    && (ClashFree(was, a) ==> SameAt(p.pending, was.pending, a))
  }

  ghost predicate ShortenedTo(pending: TxMap, queued: TxMap, k: nat, kept: TxMap, left: TxMap) {
    && k <= |queued|
    && kept == Kept(pending, Highest(queued, k))
    && left == Lowest(queued, |queued| - k) + Gained(pending, Highest(queued, k))
  }

  lemma LowEnd(was: PoolVal, p: PoolVal, a: Address)
    requires LowGone(was, p, a, Items(was.queue, a).Keys)
    ensures Emptied(was, p, a) && p.all == was.all - QueueHashes(was, {a})
  {
    hide Half, HashesOut, Kept, Leftover;
    var pending, queued := Items(was.pending, a), Items(was.queue, a);
    HalfAll(pending, queued);
    AllHashes(was, a);
  }

  lemma AllHashes(p: PoolVal, a: Address)
    ensures HashesOut(Items(p.queue, a), map[], Items(p.queue, a).Keys) == QueueHashes(p, {a})
  {
  }

  lemma HighEnd(was: PoolVal, p: PoolVal, a: Address, k: nat)
    requires k <= |Items(was.queue, a)| && LowLeft(was, p, a, |Items(was.queue, a)| - k)
    ensures Shortened(was, p, a, k) && p.all == was.all - CutHashes(was, Some(a), k)
  {
    hide HashesOut, Kept, Gained, Lowest;
    var queued := Items(was.queue, a);
    LowestPart(queued, |queued| - k);
  }

  lemma LowestPart(queued: TxMap, k: nat)
    ensures queued - (queued.Keys - Lowest(queued, k).Keys) == Lowest(queued, k)
  {
  }

  /** What becomes of one account when the queues of `whole` are removed and `k` nonces of the queue of `part`. */
  ghost predicate Fate(was: PoolVal, p: PoolVal, whole: set<Address>, part: Option<Address>, k: nat, a: Address) {
    if a in whole then Emptied(was, p, a)
    else if part == Some(a) then Shortened(was, p, a, k)
    else SameAt(p.pending, was.pending, a) && SameAt(p.queue, was.queue, a)
  }

  /** The nonces of `a` that are removed from the queue. */
  ghost function CutOff(p: PoolVal, whole: set<Address>, part: Option<Address>, k: nat, a: Address): set<nat> {
    if a in whole then Items(p.queue, a).Keys
    else if part == Some(a) then Highest(Items(p.queue, a), k)
    else {}
  }

  /** The pending nonce of `a` after that. */
  ghost predicate NonceFate(base: ChainState, was: PoolVal, ahead: map<Address, nat>, after: map<Address, nat>,
                            whole: set<Address>, part: Option<Address>, k: nat, a: Address) {
    SameAt(after, Lowered(base, ahead, a, Items(was.pending, a), CutOff(was, whole, part, k, a)), a)
  }

  lemma NonceStart(base: ChainState, p: PoolVal, ahead: map<Address, nat>)
    ensures forall a :: NonceFate(base, p, ahead, ahead, {}, None, 0, a)
  {
    forall a ensures NonceFate(base, p, ahead, ahead, {}, None, 0, a) {
      assert Items(p.pending, a).Keys * {} == {};
    }
  }

  /** One more account is cut, in one of the two ways. */
  lemma NonceStep(base: ChainState, was: PoolVal, p: PoolVal, ahead: map<Address, nat>, between: map<Address, nat>,
                  after: map<Address, nat>, whole: set<Address>, more: set<Address>, part: Option<Address>, k: nat,
                    a: Address)
    requires forall b :: NonceFate(base, was, ahead, between, whole, None, 0, b)
    requires a !in whole && whole <= more <= whole + {a} && (part.Some? ==> part == Some(a))
    requires SameAt(p.pending, was.pending, a) && SameAt(p.queue, was.queue, a)
    requires after == Lowered(base, between, a, Items(p.pending, a), CutOff(p, more, part, k, a))
    ensures forall b :: NonceFate(base, was, ahead, after, more, part, k, b)
  {
    hide Highest;
    assert Items(p.pending, a) == Items(was.pending, a) && Items(p.queue, a) == Items(was.queue, a);
    var gone := CutOff(was, more, part, k, a);
    assert CutOff(p, more, part, k, a) == gone;
    assert NonceFate(base, was, ahead, between, whole, None, 0, a);
    NothingLowered(base, ahead, a, Items(was.pending, a));
    LowerAlone(base, ahead, between, a, Items(was.pending, a), gone);
    forall b ensures NonceFate(base, was, ahead, after, more, part, k, b) {
      if b != a {
        assert NonceFate(base, was, ahead, between, whole, None, 0, b);
        ButAt(after, between, a, b);
      }
    }
  }

  lemma NothingLowered(base: ChainState, ahead: map<Address, nat>, a: Address, pending: TxMap)
    ensures Lowered(base, ahead, a, pending, {}) == ahead
  {
    assert pending.Keys * {} == {};
  }

  /** Nothing comes back into any of the queues that are cut. */
  ghost predicate NothingComesBack(p: PoolVal, whole: set<Address>, part: Option<Address>, k: nat) {
    && (forall a :: a in whole ==> Leftover(Items(p.pending, a), Items(p.queue, a)) == map[])
    && (part.Some? ==> Gained(Items(p.pending, part.value), Highest(Items(p.queue, part.value), k)) == map[])
  }

  /** The hashes of what is removed. */
  ghost function QueueHashes(p: PoolVal, whole: set<Address>): set<TxId> {
    set a, n | a in whole && n in Items(p.queue, a) :: Items(p.queue, a)[n].hash
  }

  ghost function CutHashes(p: PoolVal, part: Option<Address>, k: nat): set<TxId> {
    if part.None? then {} else HashesOut(Items(p.queue, part.value), map[], Highest(Items(p.queue, part.value), k))
  }

  /**
   * What the overflow loop does: some accounts lose their whole queue and at most one a part of it,
   * together as many transactions as there were too many, and nothing else is touched. The limit is
   * then met exactly when nothing came back into these queues, and exceeded otherwise.
   */
  ghost predicate ShedBy(p: PoolVal, q: PoolVal, whole: set<Address>, part: Option<Address>, k: nat) {
    && whole <= p.queue.Keys
    && (part.Some? ==> part.value in p.queue && part.value !in whole && 0 < k < |Items(p.queue, part.value)|)
    && (part.None? ==> k == 0)
    && Total(Restrict(p.queue, whole)) + k == Total(p.queue) - MAX_QUEUED_IN_TOTAL
    && (forall a :: Fate(p, q, whole, part, k, a))
    && q.all == p.all - QueueHashes(p, whole) - CutHashes(p, part, k)
    && Total(q.queue) >= MAX_QUEUED_IN_TOTAL
    && (Total(q.queue) == MAX_QUEUED_IN_TOTAL <==> NothingComesBack(p, whole, part, k))
  }

  /** Of the accounts in `done` the idle ones have lost their queue; all others are as they were. */
  ghost predicate Expiry(was: PoolVal, p: PoolVal, idle: set<Address>, done: set<Address>, a: Address) {
    Fate(was, p, idle * done, None, 0, a)
  }

  /** The loop under way: `left` is untouched, and `drop` more transactions are to go. */
  ghost predicate Shedding(was: PoolVal, p: PoolVal, left: set<Address>, whole: set<Address>, part: Option<Address>,
                           k: nat, drop: nat) {
    && whole <= was.queue.Keys && left <= was.queue.Keys && whole !! left
    && (part.Some? ==> part.value in was.queue && part.value !in whole + left
                       && 0 < k < |Items(was.queue, part.value)| && drop == 0)
    && (part.None? ==> k == 0)
    && (forall a :: Fate(was, p, whole, part, k, a))
    && p.all == was.all - QueueHashes(was, whole) - CutHashes(was, part, k)
    && ShedCounts(was, p, left, whole, part, k, drop)
  }

  ghost predicate ShedCounts(was: PoolVal, p: PoolVal, left: set<Address>, whole: set<Address>, part: Option<Address>,
                             k: nat, drop: nat) {
    && Total(Restrict(was.queue, whole)) + k + drop == Total(was.queue) - MAX_QUEUED_IN_TOTAL
    && Total(Restrict(was.queue, left)) >= drop
    && Total(p.queue) >= MAX_QUEUED_IN_TOTAL + drop
    && (Total(p.queue) == MAX_QUEUED_IN_TOTAL + drop <==> NothingComesBack(was, whole, part, k))
  }

  lemma ShedStart(p: PoolVal, drop: nat)
    requires Total(p.queue) == MAX_QUEUED_IN_TOTAL + drop
    ensures Shedding(p, p, p.queue.Keys, {}, None, 0, drop)
  {
    hide Total;
    RestrictAll(p.queue);
    RestrictNone(p.queue);
    assert QueueHashes(p, {}) == {} && p.all - {} - {} == p.all;
  }

  lemma ShedEnd(was: PoolVal, p: PoolVal, left: set<Address>, whole: set<Address>, part: Option<Address>, k: nat)
    requires Shedding(was, p, left, whole, part, k, 0)
    ensures ShedBy(was, p, whole, part, k)
  {
    hide Total, Fate, NothingComesBack, QueueHashes, CutHashes, Restrict;
  }

  /** An account not reached yet is as it was, and still has what it had. */
  lemma StillThere(was: PoolVal, p: PoolVal, left: set<Address>, whole: set<Address>, part: Option<Address>, k: nat,
                   drop: nat, a: Address)
    requires Shedding(was, p, left, whole, part, k, drop) && a in left
    ensures a in p.queue && a !in whole && SameAt(p.pending, was.pending, a) && SameAt(p.queue, was.queue, a)
  {
    hide ShedCounts, QueueHashes, CutHashes, Emptied, Shortened;
    assert Fate(was, p, whole, part, k, a);
  }

  lemma SomeLeft(was: PoolVal, p: PoolVal, left: set<Address>, whole: set<Address>, part: Option<Address>, k: nat,
                 drop: nat)
    requires Shedding(was, p, left, whole, part, k, drop) && drop > 0
    ensures left != {}
  {
    hide Total, Fate, NothingComesBack, QueueHashes, CutHashes;
    RestrictNone(was.queue);
  }

  /** The lists of one account change, and everything that is said about the others stays. */
  lemma FateFrame(was: PoolVal, p: PoolVal, q: PoolVal, whole: set<Address>, more: set<Address>,
                  part: Option<Address>, k: nat, a: Address)
    requires Within(q, p, a) && (forall b :: Fate(was, p, whole, None, 0, b))
    requires whole <= more <= whole + {a} && (part.Some? ==> part == Some(a))
    requires Fate(was, q, more, part, k, a)
    ensures forall b :: Fate(was, q, more, part, k, b)
  {
    hide SameBut, Emptied, Shortened;
    forall b ensures Fate(was, q, more, part, k, b) {
      if b != a {
        assert Fate(was, p, whole, None, 0, b);
        ButAt(q.pending, p.pending, a, b);
        ButAt(q.queue, p.queue, a, b);
        EmptiedFrame(was, p, q, b);
      }
    }
  }

  lemma EmptiedFrame(was: PoolVal, p: PoolVal, q: PoolVal, b: Address)
    requires SameAt(q.pending, p.pending, b) && SameAt(q.queue, p.queue, b)
    ensures Emptied(was, p, b) ==> Emptied(was, q, b)
  {
    hide EmptiedTo;
    assert Items(q.pending, b) == Items(p.pending, b) && Items(q.queue, b) == Items(p.queue, b);
  }

  lemma EmptiedFrom(was: PoolVal, p: PoolVal, q: PoolVal, a: Address, k: nat)
    requires SameAt(p.pending, was.pending, a) && SameAt(p.queue, was.queue, a)
    ensures Emptied(p, q, a) ==> Emptied(was, q, a)
    ensures Shortened(p, q, a, k) ==> Shortened(was, q, a, k)
  {
    hide EmptiedTo, ShortenedTo;
    assert Items(p.pending, a) == Items(was.pending, a) && Items(p.queue, a) == Items(was.queue, a);
  }

  /** A whole queue goes. */
  lemma ShedWhole(was: PoolVal, p: PoolVal, q: PoolVal, left: set<Address>, whole: set<Address>, drop: nat, a: Address)
    requires Shedding(was, p, left, whole, None, 0, drop) && a in left
    requires |Items(was.queue, a)| <= drop && Within(q, p, a) && Emptied(p, q, a)
    requires q.all == p.all - QueueHashes(p, {a})
    ensures Shedding(was, q, left - {a}, whole + {a}, None, 0, drop - |Items(was.queue, a)|)
  {
    hide Emptied, SameBut, QueueHashes, CutHashes, Fate, ShedCounts;
    PartHashes(was, was, a, 0);
    StillThere(was, p, left, whole, None, 0, drop, a);
    EmptiedFrom(was, p, q, a, 0);
    FateWhole(was, q, whole + {a}, a);
    FateFrame(was, p, q, whole, whole + {a}, None, 0, a);
    WholeHashes(was, p, whole, a);
    IndexTwice(was.all, QueueHashes(was, whole), QueueHashes(p, {a}));
    WholeCounts(was, p, q, left, whole, drop, a);
  }

  lemma WholeCounts(was: PoolVal, p: PoolVal, q: PoolVal, left: set<Address>, whole: set<Address>, drop: nat,
                    a: Address)
    requires ShedCounts(was, p, left, whole, None, 0, drop) && a in left && a !in whole && a in was.queue
             && a in p.queue
    requires Items(p.queue, a) == Items(was.queue, a) && |Items(was.queue, a)| <= drop
    requires SameBut(q.queue, p.queue, a) && Emptied(was, q, a)
    ensures ShedCounts(was, q, left - {a}, whole + {a}, None, 0, drop - |Items(was.queue, a)|)
  {
    hide Total, Emptied, SameBut, Leftover, NothingComesBack, Restrict;
    NothingMore(was, whole, a);
    WholeTotals(was.queue, left, whole, a);
    TotalStep(p.queue, q.queue, a, left);
    EmptiedSize(was, q, a);
  }

  lemma WholeTotals(l: Accounts, left: set<Address>, whole: set<Address>, a: Address)
    requires a in left && a !in whole && a in l
    ensures Total(Restrict(l, left)) == Total(Restrict(l, left - {a})) + |Items(l, a)|
    ensures Total(Restrict(l, whole + {a})) == Total(Restrict(l, whole)) + |Items(l, a)|
  {
    hide Total, Restrict, SameBut;
    SameSelf(l, a);
    TotalStep(l, l, a, left);
    assert whole + {a} - {a} == whole;
    TotalStep(l, l, a, whole + {a});
  }

  lemma IndexTwice(all: map<TxId, Tx>, s: set<TxId>, t: set<TxId>)
    ensures all - s - {} - t == all - (s + t) - {}
  {
  }

  lemma NothingMore(p: PoolVal, whole: set<Address>, a: Address)
    ensures NothingComesBack(p, whole + {a}, None, 0) <==>
              NothingComesBack(p, whole, None, 0) && Leftover(Items(p.pending, a), Items(p.queue, a)) == map[]
  {
    hide Leftover;
  }

  lemma FateWhole(was: PoolVal, q: PoolVal, whole: set<Address>, a: Address)
    requires a in whole && Emptied(was, q, a)
    ensures Fate(was, q, whole, None, 0, a)
  {
  }

  lemma WholeHashes(was: PoolVal, p: PoolVal, whole: set<Address>, a: Address)
    requires SameAt(p.queue, was.queue, a)
    ensures QueueHashes(was, whole + {a}) == QueueHashes(was, whole) + QueueHashes(p, {a})
  {
    assert Items(p.queue, a) == Items(was.queue, a);
  }

  lemma EmptiedSize(was: PoolVal, q: PoolVal, a: Address)
    requires Emptied(was, q, a)
    ensures |Items(q.queue, a)| == 0 <==> Leftover(Items(was.pending, a), Items(was.queue, a)) == map[]
  {
    hide Kept, Leftover;
    var m := Items(q.queue, a);
    if |m| == 0 { assert m.Keys == {}; }
  }

  /** The last account loses a part of its queue. */
  lemma ShedPart(was: PoolVal, p: PoolVal, q: PoolVal, left: set<Address>, whole: set<Address>, drop: nat, a: Address)
    requires Shedding(was, p, left, whole, None, 0, drop) && a in left
    requires 0 < drop < |Items(was.queue, a)| && Within(q, p, a) && Shortened(p, q, a, drop)
    requires q.all == p.all - CutHashes(p, Some(a), drop)
    ensures Shedding(was, q, left - {a}, whole, Some(a), drop, 0)
  {
    hide Total, Shortened, SameBut, QueueHashes, CutHashes, Gained, Fate, Restrict, Highest;
    StillThere(was, p, left, whole, None, 0, drop, a);
    EmptiedFrom(was, p, q, a, drop);
    FatePart(was, q, whole, drop, a);
    FateFrame(was, p, q, whole, whole, Some(a), drop, a);
    PartHashes(was, p, a, drop);
    TotalStep(p.queue, q.queue, a, left);
    ShortenedHere(was, q, a, drop);
  }

  lemma FatePart(was: PoolVal, q: PoolVal, whole: set<Address>, k: nat, a: Address)
    requires a !in whole && Shortened(was, q, a, k)
    ensures Fate(was, q, whole, Some(a), k, a)
  {
  }

  lemma PartHashes(was: PoolVal, p: PoolVal, a: Address, k: nat)
    requires SameAt(p.queue, was.queue, a)
    ensures CutHashes(was, Some(a), k) == CutHashes(p, Some(a), k) && CutHashes(was, None, 0) == {}
  {
  }

  lemma ShortenedHere(was: PoolVal, q: PoolVal, a: Address, k: nat)
    requires Shortened(was, q, a, k)
    ensures var size, gained := |Items(was.queue, a)|, Gained(Items(was.pending, a), Highest(Items(was.queue, a), k));
            |Items(q.queue, a)| >= size - k && (|Items(q.queue, a)| == size - k <==> gained == map[])
  {
    hide ShortenedTo, Gained, Highest;
    ShortenedSize(Items(was.pending, a), Items(was.queue, a), k, Items(q.pending, a), Items(q.queue, a));
  }

  lemma ShortenedSize(pending: TxMap, queued: TxMap, k: nat, kept: TxMap, left: TxMap)
    requires ShortenedTo(pending, queued, k, kept, left)
    ensures k <= |queued| && |left| >= |queued| - k
    ensures |left| == |queued| - k <==> Gained(pending, Highest(queued, k)) == map[]
  {
    hide Kept, Gained, Lowest, Highest;
    ShortParts(pending, queued, k);
    JoinSize(Lowest(queued, |queued| - k), Gained(pending, Highest(queued, k)));
  }

  lemma ShortParts(pending: TxMap, queued: TxMap, k: nat)
    requires k <= |queued|
    ensures |Lowest(queued, |queued| - k)| == |queued| - k
    ensures Lowest(queued, |queued| - k).Keys !! Gained(pending, Highest(queued, k)).Keys
  {
    hide Gained, Lowest, Highest;
    LowestLen(queued, |queued| - k);
    GainedApart(pending, queued, k);
  }

  lemma JoinSize(low: TxMap, high: TxMap)
    requires low.Keys !! high.Keys
    ensures |low + high| == |low| + |high| && (|high| == 0 <==> high == map[])
  {
    assert (low + high).Keys == low.Keys + high.Keys;
    assert |low.Keys + high.Keys| == |low.Keys| + |high.Keys|;
    if |high| == 0 { assert high.Keys == {}; }
  }

  lemma GainedApart(pending: TxMap, queued: TxMap, k: nat)
    requires k <= |queued|
    ensures Gained(pending, Highest(queued, k)).Keys !! Lowest(queued, |queued| - k).Keys
  {
    SortedKeysMeans(queued.Keys);
  }

  lemma ExpiryStart(p: PoolVal, idle: set<Address>)
    ensures forall b :: Expiry(p, p, idle, AddressSet([]), b)
    ensures p.all == p.all - QueueHashes(p, idle * AddressSet([]))
  {
    hide Emptied;
    assert idle * AddressSet([]) == {};
    assert QueueHashes(p, {}) == {} && p.all - {} == p.all;
  }

  lemma Unexpired(was: PoolVal, p: PoolVal, idle: set<Address>, done: set<Address>, a: Address)
    requires Expiry(was, p, idle, done, a) && a !in done
    ensures SameAt(p.pending, was.pending, a) && SameAt(p.queue, was.queue, a)
  {
  }

  lemma ExpiryStep(was: PoolVal, p: PoolVal, q: PoolVal, idle: set<Address>, done: set<Address>, a: Address)
    requires (forall b :: Expiry(was, p, idle, done, b)) && Expiry(was, p, idle, done, a) && a !in done && a in idle
    requires Within(q, p, a) && Emptied(p, q, a)
    requires p.all == was.all - QueueHashes(was, idle * done) && q.all == p.all - QueueHashes(p, {a})
    ensures forall b :: Expiry(was, q, idle, done + {a}, b)
    ensures q.all == was.all - QueueHashes(was, idle * (done + {a}))
  {
    hide Fate, Emptied, QueueHashes, Within;
    Unexpired(was, p, idle, done, a);
    EmptiedFrom(was, p, q, a, 0);
    var before, after := idle * done, idle * (done + {a});
    assert after == before + {a};
    FateWhole(was, q, after, a);
    forall b ensures Fate(was, p, before, None, 0, b) {
      assert Expiry(was, p, idle, done, b);
    }
    FateFrame(was, p, q, before, after, None, 0, a);
    WholeHashes(was, p, before, a);
    LessTwice(was.all, QueueHashes(was, before), QueueHashes(p, {a}));
  }

  lemma LessTwice(all: map<TxId, Tx>, s: set<TxId>, t: set<TxId>)
    ensures all - s - t == all - (s + t)
  {
  }

  /** An idle account has no queue any more exactly when nothing came back into it. */
  lemma ExpiryExact(was: PoolVal, p: PoolVal, idle: set<Address>, done: set<Address>, a: Address)
    requires Expiry(was, p, idle, done, a) && a in idle && a in done && NoEmpty(p.queue)
    ensures a in p.queue <==> Leftover(Items(was.pending, a), Items(was.queue, a)) != map[]
    ensures ClashFree(was, a) ==> a !in p.queue && SameAt(p.pending, was.pending, a)
  {
    hide Leftover, Kept;
    if ClashFree(was, a) { QuietHere(was, a, 0); }
  }

  // ----- without clashes

  lemma NoClashNothing(pending: TxMap, queued: TxMap, gone: set<nat>)
    requires pending.Keys !! queued.Keys && gone <= queued.Keys
    ensures Leftover(pending, queued) == map[] && Gained(pending, gone) == map[]
    ensures Kept(pending, gone) == Kept(pending, queued.Keys) == pending
  {
    assert pending.Keys * queued.Keys == {} && pending.Keys * gone == {};
    forall n | n in pending ensures !Topples(pending, gone, n) {}
  }

  /** `q` is the low end of `m`. */
  ghost predicate Front(q: TxMap, m: TxMap) {
    exists k: nat :: q == Lowest(m, k)
  }

  /**
   * When no nonce is both pending and queued, exactly the allowed number stays queued, each list a
   * low end of what it was, and nothing pending changes.
   */
  lemma ShedQuiet(p: PoolVal, q: PoolVal, whole: set<Address>, part: Option<Address>, k: nat)
    requires ShedBy(p, q, whole, part, k) && forall a :: ClashFree(p, a)
    ensures q.pending == p.pending && Total(q.queue) == MAX_QUEUED_IN_TOTAL
    ensures forall a :: Front(Items(q.queue, a), Items(p.queue, a))
  {
    hide ClashFree, Fate, NothingComesBack, Front, Total, QueueHashes, CutHashes;
    forall a ensures SameAt(q.pending, p.pending, a) && Front(Items(q.queue, a), Items(p.queue, a)) {
      FateQuiet(p, q, whole, part, k, a);
    }
    forall a | a in q.pending.Keys + p.pending.Keys
      ensures a in q.pending && a in p.pending && q.pending[a] == p.pending[a]
    {
      assert SameAt(q.pending, p.pending, a);
    }
    NoneComesBack(p, whole, part, k);
  }

  lemma FateQuiet(p: PoolVal, q: PoolVal, whole: set<Address>, part: Option<Address>, k: nat, a: Address)
    requires Fate(p, q, whole, part, k, a) && ClashFree(p, a)
    ensures SameAt(q.pending, p.pending, a) && Front(Items(q.queue, a), Items(p.queue, a))
  {
    hide Leftover, Gained, Kept, Lowest;
    QuietHere(p, a, k);
  }

  lemma NoneComesBack(p: PoolVal, whole: set<Address>, part: Option<Address>, k: nat)
    requires forall a :: ClashFree(p, a)
    ensures NothingComesBack(p, whole, part, k)
  {
    hide Leftover, Gained, Kept, Highest;
    forall a ensures Leftover(Items(p.pending, a), Items(p.queue, a)) == map[]
             ensures Gained(Items(p.pending, a), Highest(Items(p.queue, a), k)) == map[]
    {
      assert ClashFree(p, a);
      QuietHere(p, a, k);
    }
  }

  lemma QuietHere(p: PoolVal, a: Address, k: nat)
    requires ClashFree(p, a)
    ensures var pending, queued := Items(p.pending, a), Items(p.queue, a);
            && Leftover(pending, queued) == map[] && Gained(pending, Highest(queued, k)) == map[]
            && Lowest(queued, 0) == map[] && Lowest(queued, |queued|) == queued
            && (k <= |queued| ==> Lowest(queued, |queued| - k) + map[] == Lowest(queued, |queued| - k))
  {
    hide Leftover, Gained, Kept, Lowest;
    var pending, queued := Items(p.pending, a), Items(p.queue, a);
    NoClashNothing(pending, queued, Highest(queued, k));
    LowestNone(queued);
    LowestAll(queued);
  }

  // ----- moving executables

  /**
   * The three passes of moving executables: the pool after promotion with the pending nonces then,
   * the pool after the limiter with the accounts and the level it cut to, and what the overflow loop
   * removed.
   */
  datatype Passes = Passes(promoted: PoolVal, nonces: map<Address, nat>,
                           limited: PoolVal, spam: set<Address>, level: nat,
                           whole: set<Address>, part: Option<Address>, k: nat)

  /**
   * What moving executables does: promotion by account, the limiter on what is pending then, and
   * the overflow loop if too much is queued.
   */
  ghost predicate Settles(st: ChainState, base: ChainState, local: set<TxId>, was: PoolVal, ahead: map<Address, nat>,
                          s: Passes, p: PoolVal, after: map<Address, nat>) {
    && Sound(s.promoted) && Sound(s.limited)
    && Tracked(was, s.promoted, {}) && (forall a :: Promotion(st, base, ahead, was, s.promoted, s.nonces, a))
    && Limited(s.promoted.pending, s.limited.pending, local, s.spam, s.level)
    && s.limited == s.promoted.(pending := s.limited.pending)
    && if Total(s.promoted.queue) <= MAX_QUEUED_IN_TOTAL
       then p == s.limited && after == s.nonces && s.whole == {} && s.part.None?
       else ShedBy(s.limited, p, s.whole, s.part, s.k)
            && forall a :: NonceFate(base, s.limited, s.nonces, after, s.whole, s.part, s.k, a)
  }
}
