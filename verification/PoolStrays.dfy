/**
 * Which transactions the pool's index keeps although no list has them any more, for every step the
 * pool takes.
 */
module PoolStrays {
  import opened Wrappers
  import opened Nonces
  import opened TxLists
  import opened RateLimit
  import opened PoolIndex
  import opened PoolSteps
  import opened PoolDrops

  /** Everything indexed is filed. */
  ghost predicate AllFiled(p: PoolVal) {
    forall h :: h in p.all ==> Filed(p, p.all[h])
  }

  lemma FiledOrNot(p: PoolVal)
    requires Consistent(p)
    ensures AllFiled(p) <==> forall t :: !InHand(p, t)
  {
    hide In;
    if !AllFiled(p) {
      var h :| h in p.all && !Filed(p, p.all[h]);
      assert InHand(p, p.all[h]);
    }
  }

  // ----- moving transactions around

  /** Steps that follow transactions leave behind exactly those still in hand. */
  lemma TrackedStrays(was: PoolVal, p: PoolVal, hand: set<Tx>, t: Tx)
    requires Tracked(was, p, hand)
    ensures InHand(p, t) <==> InHand(was, t) || t in hand
  {
    assert Held(p, hand, t) ==> Filed(was, t);
  }

  /** Promotion leaves nothing behind. */
  lemma PromotedFiled(was: PoolVal, p: PoolVal)
    requires Consistent(was) && Consistent(p) && Tracked(was, p, {})
    ensures AllFiled(p) <==> AllFiled(was)
  {
    hide Consistent, Tracked, AllFiled, InHand;
    FiledOrNot(was);
    FiledOrNot(p);
    forall t ensures InHand(p, t) <==> InHand(was, t) {
      TrackedStrays(was, p, {}, t);
    }
  }

  /** Demotion leaves behind exactly what the queue turns down. */
  lemma DemotedFiled(st: ChainState, p: PoolVal, q: PoolVal, strays: set<Tx>)
    requires Consistent(p) && Consistent(q) && Demotes(st, p, q, strays)
    ensures forall t :: InHand(q, t) <==> InHand(p, t) || SpurnedBy(st, p, t)
    ensures AllFiled(q) <==> AllFiled(p) && forall t :: !SpurnedBy(st, p, t)
  {
    hide Consistent, Tracked, AllFiled, InHand, SpurnedBy, Demotion;
    FiledOrNot(p);
    FiledOrNot(q);
    forall t ensures InHand(q, t) <==> InHand(p, t) || SpurnedBy(st, p, t) {
      TrackedStrays(p, q, strays, t);
    }
  }

  /** The limiter leaves behind exactly what it cuts. */
  lemma LimitedFiled(p: PoolVal, q: PoolVal, local: set<TxId>, spam: set<Address>, level: nat)
    requires Consistent(p) && Consistent(q)
    requires Limited(p.pending, q.pending, local, spam, level) && q == p.(pending := q.pending)
    ensures forall t :: InHand(q, t) <==> InHand(p, t) || (In(p.pending, t) && !In(q.pending, t))
    ensures AllFiled(q) <==> AllFiled(p) && forall t :: In(p.pending, t) ==> In(q.pending, t)
  {
    hide Consistent, AllFiled, AtLevel;
    FiledOrNot(p);
    FiledOrNot(q);
    forall t ensures InHand(q, t) <==> InHand(p, t) || (In(p.pending, t) && !In(q.pending, t)) {
      OnlyCut(p.pending, spam, level, t);
      CutStray(p, q, t);
    }
  }

  lemma OnlyCut(l: Accounts, spam: set<Address>, level: nat, t: Tx)
    ensures In(AtLevel(l, spam, level), t) ==> In(l, t)
  {
  }

  lemma CutStray(p: PoolVal, q: PoolVal, t: Tx)
    requires Consistent(p) && q == p.(pending := q.pending) && (In(q.pending, t) ==> In(p.pending, t))
    ensures InHand(q, t) <==> InHand(p, t) || (In(p.pending, t) && !In(q.pending, t))
  {
    if Filed(p, t) { FiledIndexed(p, t); }
  }

  /** Queueing a new transaction leaves nothing behind. */
  lemma EnqueuedFiled(p: PoolVal, tx: Tx)
    requires Consistent(p) && tx.hash !in p.all
    ensures AllFiled(Enqueue(p, tx)) <==> AllFiled(p)
  {
    hide Added, Accepts, Replaced, In, AllFiled;
    var q, v := Enqueue(p, tx), ListAt(p.queue, tx.from, false);
    if Filed(p, tx) { FiledIndexed(p, tx); }
    EnqueueKeeps(p, tx);
    EnqueueFiled(p, tx);
    FiledOrNot(p);
    FiledOrNot(q);
    forall t ensures InHand(q, t) <==> InHand(p, t) {
      if Replaced(v, tx).Some? { FiledIndexed(p, Replaced(v, tx).value); }
      if Filed(p, t) { FiledIndexed(p, t); }
    }
  }

  // ----- removal

  /**
   * What removing `tx` leaves behind: other transactions of its nonce, pending ones above it when
   * none is pending below, and pending ones that come back and are turned down by the queue.
   */
  ghost predicate LeftBehind(p: PoolVal, tx: Tx, t: Tx) {
    var pending, queued := Items(p.pending, tx.from), Items(p.queue, tx.from);
    && t != tx && t.from == tx.from
    && (|| (tx.nonce in pending && t == pending[tx.nonce])
        || (tx.nonce in queued && t == queued[tx.nonce])
        || (tx.nonce in pending && Below(pending, tx.nonce) == map[] && t in ValuesOf(Above(pending, tx.nonce)))
        || t in TurnedDown(queued, Returned(pending, tx.nonce)))
  }

  /** `t` is in the queue and gives way to a better paid one that comes back. */
  ghost predicate GivesWay(p: PoolVal, tx: Tx, t: Tx) {
    var back, queued := Returned(Items(p.pending, tx.from), tx.nonce), Items(p.queue, tx.from);
    t.nonce in back && t.nonce in queued && t == queued[t.nonce] && t.gasPrice < back[t.nonce].gasPrice
  }

  ghost predicate Indexed(p: PoolVal, t: Tx) {
    t.hash in p.all && p.all[t.hash] == t
  }

  lemma RemovalIndexed(p: PoolVal, q: PoolVal, tx: Tx, t: Tx)
    requires Sound(p) && Removal(p, q, tx) && Indexed(p, tx)
    ensures Indexed(q, t) <==> Indexed(p, t) && t != tx && !GivesWay(p, tx, t)
  {
    hide Merge, SameBut, Returned;
    var back, queued := Returned(Items(p.pending, tx.from), tx.nonce), Items(p.queue, tx.from);
    ListNonced(p.queue, p.all, tx.from, false);
    forall n | n in queued ensures queued[n].nonce == n && Indexed(p, queued[n]) {
      FiledIndexed(p, queued[n]);
    }
    if t.hash in BeatenHashes(queued, back) {
      var n :| n in back && n in queued && queued[n].gasPrice < back[n].gasPrice && t.hash == queued[n].hash;
    }
    if GivesWay(p, tx, t) {
      assert t.hash in BeatenHashes(queued, back);
    }
  }

  ghost predicate Has(m: TxMap, t: Tx) {
    t.nonce in m && m[t.nonce] == t
  }

  lemma InHas(l: Accounts, t: Tx)
    ensures In(l, t) <==> Has(Items(l, t.from), t)
  {
  }

  lemma RemovalFiled(p: PoolVal, q: PoolVal, tx: Tx, t: Tx)
    requires Removal(p, q, tx)
    ensures t.from != tx.from ==> (Filed(q, t) <==> Filed(p, t))
    ensures var pending, queued := Items(p.pending, tx.from), Items(p.queue, tx.from);
            t.from == tx.from ==>
              (Filed(q, t) <==>
                 || (t.nonce in pending && pending[t.nonce] == t && (tx.nonce in pending ==> t.nonce < tx.nonce))
                 || (t.nonce != tx.nonce && t.nonce in Merge(queued, Returned(pending, tx.nonce))
                     && Merge(queued, Returned(pending, tx.nonce))[t.nonce] == t))
  {
    hide Merge, BeatenHashes, Returned;
    if t.from != tx.from {
      assert SameAt(q.pending, p.pending, t.from) && SameAt(q.queue, p.queue, t.from);
    } else {
      InHas(q.pending, t);
      InHas(q.queue, t);
    }
  }

  /** What is in the queue after a removal came from one of the two lists. */
  lemma MergedFrom(pending: TxMap, queued: TxMap, n: nat, m: nat)
    ensures var back := Returned(pending, n);
            && (m in back <==> n in pending && Below(pending, n) != map[] && m in pending && m > n)
            && (m in back ==> back[m] == pending[m])
            && (m in Merge(queued, back) <==> m in queued || m in back)
            && (m in Merge(queued, back) ==>
                  Merge(queued, back)[m] == if m in queued && (m in back ==> queued[m].gasPrice >= back[m].gasPrice)
                                            then queued[m] else back[m])
  {
  }

  /** Exactly these transactions are indexed without being filed after a removal. */
  lemma RemovalStrays(p: PoolVal, q: PoolVal, tx: Tx, t: Tx)
    requires Sound(p) && Removal(p, q, tx) && Indexed(p, tx)
    ensures InHand(q, t) <==> (InHand(p, t) && t != tx) || LeftBehind(p, tx, t)
  {
    hide Merge, BeatenHashes, SameBut, Returned, Removal, TurnedDown, ValuesOf;
    RemovalIndexed(p, q, tx, t);
    RemovalFiled(p, q, tx, t);
    if t.from == tx.from {
      var pending, queued := Items(p.pending, tx.from), Items(p.queue, tx.from);
      MergedFrom(pending, queued, tx.nonce, t.nonce);
      ListNonced(p.pending, p.all, tx.from, true);
      ListNonced(p.queue, p.all, tx.from, false);
      InHas(p.pending, t);
      InHas(p.queue, t);
      if Filed(p, t) { FiledIndexed(p, t); }
      assert !(In(p.pending, t) && In(p.queue, t));
      InTurnedDown(queued, Returned(pending, tx.nonce), t);
      InAbove(pending, tx.nonce, t);
    } else if Filed(p, t) {
      FiledIndexed(p, t);
    }
  }

  lemma InTurnedDown(q: TxMap, m: TxMap, t: Tx)
    ensures WellNonced(m) ==>
              (t in TurnedDown(q, m) <==> Has(m, t) && t.nonce in q && q[t.nonce].gasPrice >= t.gasPrice)
  {
  }

  lemma InAbove(m: TxMap, n: nat, t: Tx)
    ensures WellNonced(m) ==> WellNonced(Above(m, n)) && WellNonced(Returned(m, n))
    ensures WellNonced(m) ==> (t in ValuesOf(Above(m, n)) <==> t.nonce in m && t.nonce > n && m[t.nonce] == t)
  {
    if WellNonced(m) && t.nonce in m && t.nonce > n && m[t.nonce] == t {
      assert t.nonce in Above(m, n);
    }
  }

  /** A removal leaves nothing behind exactly when no transaction is of those kinds. */
  lemma RemovedFiled(p: PoolVal, q: PoolVal, tx: Tx)
    requires Sound(p) && Sound(q) && Removal(p, q, tx) && Indexed(p, tx)
    ensures forall t :: InHand(q, t) <==> (InHand(p, t) && t != tx) || LeftBehind(p, tx, t)
    ensures AllFiled(p) ==> (AllFiled(q) <==> forall t :: !LeftBehind(p, tx, t))
  {
    hide Consistent, AllFiled, InHand, LeftBehind, Removal;
    FiledOrNot(p);
    FiledOrNot(q);
    forall t ensures InHand(q, t) <==> (InHand(p, t) && t != tx) || LeftBehind(p, tx, t) {
      RemovalStrays(p, q, tx, t);
    }
  }

  /** A pending transaction under the removed nonce stays in the index, with nothing else going on. */
  lemma RefillStrays() returns (p: PoolVal, q: PoolVal, tx: Tx, t: Tx)
    ensures Sound(p) && Removal(p, q, tx) && In(p.queue, tx) && In(p.pending, t) && InHand(q, t)
  {
    hide Removal, Consistent;
    p, q, tx := RemovalRefills();
    t := Refill(1);
    FiledIndexed(p, tx);
    assert LeftBehind(p, tx, t);
    RemovalStrays(p, q, tx, t);
  }

  // ----- cutting queues

  /** What the overflow loop and the expiry loop do to lists and index. */
  ghost predicate CutBy(p: PoolVal, q: PoolVal, whole: set<Address>, part: Option<Address>, k: nat) {
    && (part.Some? ==> part.value !in whole)
    && (forall a :: Fate(p, q, whole, part, k, a))
    && q.all == p.all - QueueHashes(p, whole) - CutHashes(p, part, k)
  }

  lemma CutIndexed(p: PoolVal, q: PoolVal, whole: set<Address>, part: Option<Address>, k: nat, t: Tx)
    requires Consistent(p) && CutBy(p, q, whole, part, k)
    ensures Indexed(q, t) <==> Indexed(p, t) && !(In(p.queue, t) && t.nonce in CutOff(p, whole, part, k, t.from))
  {
    hide Fate, Highest, ListsOk;
    forall a: Address, n: nat | n in Items(p.queue, a)
      ensures var u := Items(p.queue, a)[n]; u.nonce == n && u.from == a && In(p.queue, u) && Indexed(p, u)
    {
      ListNonced(p.queue, p.all, a, false);
      FiledIndexed(p, Items(p.queue, a)[n]);
    }
    if t.hash in QueueHashes(p, whole) {
      var a, n :| a in whole && n in Items(p.queue, a) && t.hash == Items(p.queue, a)[n].hash;
    }
    if t.hash in CutHashes(p, part, k) {
      var queued, gone := Items(p.queue, part.value), Highest(Items(p.queue, part.value), k);
      var n :| n in queued && (n in gone || Wins(queued, map[], n)) && t.hash == queued[n].hash;
    }
    if In(p.queue, t) && t.nonce in CutOff(p, whole, part, k, t.from) {
      assert t.nonce in Items(p.queue, t.from) && Items(p.queue, t.from)[t.nonce] == t;
      assert t.from in whole ==> t.hash in QueueHashes(p, whole);
      assert t.from !in whole ==> t.hash in CutHashes(p, part, k);
    }
  }

  /** A pending transaction that a cut takes off the pending list comes back into the queue. */
  ghost predicate ComesBack(p: PoolVal, whole: set<Address>, part: Option<Address>, k: nat, t: Tx) {
    var pending, queued := Items(p.pending, t.from), Items(p.queue, t.from);
    if t.from in whole then t.nonce in Leftover(pending, queued)
    else t.nonce in Gained(pending, CutOff(p, whole, part, k, t.from))
  }

  lemma KeptFrom(pending: TxMap, gone: set<nat>, n: nat)
    ensures n in Kept(pending, gone) ==> n in pending && Kept(pending, gone)[n] == pending[n]
    ensures n in Gained(pending, gone) ==> n in pending && Gained(pending, gone)[n] == pending[n]
  {
  }

  lemma LeftoverFrom(pending: TxMap, queued: TxMap, n: nat)
    ensures n in Leftover(pending, queued) ==> n in pending && Leftover(pending, queued)[n] == pending[n]
  {
  }

  lemma LowestFrom(queued: TxMap, k: nat, n: nat)
    requires k <= |queued|
    ensures n in Lowest(queued, |queued| - k) <==> n in queued && n !in Highest(queued, k)
    ensures n in Lowest(queued, |queued| - k) ==> Lowest(queued, |queued| - k)[n] == queued[n]
  {
  }

  lemma EmptiedFiled(pending: TxMap, queued: TxMap, kept: TxMap, left: TxMap, t: Tx)
    requires EmptiedTo(pending, queued, kept, left)
    ensures Has(kept, t) || Has(left, t) ==> Has(pending, t)
    ensures Has(pending, t) ==>
              (Has(kept, t) || Has(left, t) <==>
                 t.nonce in Kept(pending, queued.Keys) || t.nonce in Leftover(pending, queued))
  {
    hide Kept, Leftover, Gained;
    KeptFrom(pending, queued.Keys, t.nonce);
    LeftoverFrom(pending, queued, t.nonce);
  }

  lemma ShortenedFiled(pending: TxMap, queued: TxMap, k: nat, kept: TxMap, left: TxMap, t: Tx)
    requires ShortenedTo(pending, queued, k, kept, left) && !(Has(pending, t) && Has(queued, t))
    ensures Has(kept, t) || Has(left, t) ==> Has(pending, t) || Has(queued, t)
    ensures Has(queued, t) && t.nonce !in Highest(queued, k) ==> Has(left, t)
    ensures Has(pending, t) ==>
              (Has(kept, t) || Has(left, t) <==>
                 t.nonce in Kept(pending, Highest(queued, k)) || t.nonce in Gained(pending, Highest(queued, k)))
  {
    hide Kept, Gained, Lowest, Highest;
    KeptFrom(pending, Highest(queued, k), t.nonce);
    LowestFrom(queued, k, t.nonce);
    GainedApart(pending, queued, k);
  }

  lemma CutFiled(p: PoolVal, q: PoolVal, whole: set<Address>, part: Option<Address>, k: nat, t: Tx)
    requires Consistent(p) && Fate(p, q, whole, part, k, t.from)
    ensures var gone := CutOff(p, whole, part, k, t.from);
            && (Filed(q, t) ==> Filed(p, t))
            && (In(p.queue, t) && t.nonce !in gone ==> Filed(q, t))
            && (In(p.pending, t) ==>
                  (Filed(q, t) <==> t.nonce in Kept(Items(p.pending, t.from), gone) || ComesBack(p, whole, part, k, t)))
  {
    hide Kept, Leftover, Gained, Highest, ListsOk, ClashFree, EmptiedTo, ShortenedTo, In;
    var pending, queued := Items(p.pending, t.from), Items(p.queue, t.from);
    var kept, left := Items(q.pending, t.from), Items(q.queue, t.from);
    InHas(p.pending, t);
    InHas(p.queue, t);
    InHas(q.pending, t);
    InHas(q.queue, t);
    assert !(In(p.pending, t) && In(p.queue, t));
    if t.from in whole {
      EmptiedFiled(pending, queued, kept, left, t);
    } else if part == Some(t.from) {
      ShortenedFiled(pending, queued, k, kept, left, t);
    } else {
      UncutFiled(p, q, t);
      NothingGone(pending, t.nonce);
    }
  }

  lemma UncutFiled(p: PoolVal, q: PoolVal, t: Tx)
    requires SameAt(q.pending, p.pending, t.from) && SameAt(q.queue, p.queue, t.from)
    ensures Filed(q, t) <==> Filed(p, t)
  {
  }

  lemma NothingGone(pending: TxMap, n: nat)
    ensures Kept(pending, {}) == pending && n !in Gained(pending, {})
  {
    assert pending.Keys * {} == {};
  }

  /** A pending transaction that is taken off by a cut and does not come back. */
  ghost predicate Toppled(p: PoolVal, whole: set<Address>, part: Option<Address>, k: nat, t: Tx) {
    && In(p.pending, t)
    && t.nonce !in Kept(Items(p.pending, t.from), CutOff(p, whole, part, k, t.from))
    && !ComesBack(p, whole, part, k, t)
  }

  /** Exactly these transactions are indexed without being filed after a cut. */
  lemma CutStrays(p: PoolVal, q: PoolVal, whole: set<Address>, part: Option<Address>, k: nat, t: Tx)
    requires Consistent(p) && CutBy(p, q, whole, part, k)
    ensures InHand(q, t) <==> InHand(p, t) || Toppled(p, whole, part, k, t)
  {
    hide Fate, Kept, ComesBack, CutOff, ListsOk, QueueHashes, CutHashes;
    CutIndexed(p, q, whole, part, k, t);
    CutFiled(p, q, whole, part, k, t);
    if Filed(p, t) { FiledIndexed(p, t); }
    assert !(In(p.pending, t) && In(p.queue, t));
  }

  /** No nonce that is cut off is pending as well. */
  ghost predicate Untangled(p: PoolVal, whole: set<Address>, part: Option<Address>, k: nat) {
    forall a :: Items(p.pending, a).Keys * CutOff(p, whole, part, k, a) == {}
  }

  /** Where a nonce is cut off and pending, the lowest such pending transaction is toppled. */
  lemma TopplesOne(p: PoolVal, whole: set<Address>, part: Option<Address>, k: nat, a: Address)
    requires Consistent(p) && Items(p.pending, a).Keys * CutOff(p, whole, part, k, a) != {}
    ensures exists t :: Toppled(p, whole, part, k, t)
  {
    hide Highest, ListsOk, Topples;
    var pending, gone := Items(p.pending, a), CutOff(p, whole, part, k, a);
    var n := MinOf(pending.Keys * gone);
    ListNonced(p.pending, p.all, a, true);
    assert Toppled(p, whole, part, k, pending[n]);
  }

  lemma Untoppled(p: PoolVal, whole: set<Address>, part: Option<Address>, k: nat, t: Tx)
    requires Items(p.pending, t.from).Keys * CutOff(p, whole, part, k, t.from) == {}
    ensures !Toppled(p, whole, part, k, t)
  {
    hide CutOff, ComesBack;
  }

  /** Cutting queues leaves nothing behind exactly when no nonce that is cut off is pending as well. */
  lemma CutAllFiled(p: PoolVal, q: PoolVal, whole: set<Address>, part: Option<Address>, k: nat)
    requires Consistent(p) && Consistent(q) && CutBy(p, q, whole, part, k)
    ensures AllFiled(q) <==> AllFiled(p) && Untangled(p, whole, part, k)
  {
    hide Consistent, AllFiled, InHand, Toppled, CutOff, CutBy;
    FiledOrNot(p);
    FiledOrNot(q);
    forall t ensures InHand(q, t) <==> InHand(p, t) || Toppled(p, whole, part, k, t) {
      CutStrays(p, q, whole, part, k, t);
    }
    if a :| Items(p.pending, a).Keys * CutOff(p, whole, part, k, a) != {} {
      TopplesOne(p, whole, part, k, a);
    } else {
      forall t ensures !Toppled(p, whole, part, k, t) {
        Untoppled(p, whole, part, k, t);
      }
    }
  }

  /** The limiter cuts nothing and no cut is tangled. */
  ghost predicate Tidy(s: Passes) {
    && (forall t :: In(s.promoted.pending, t) ==> In(s.limited.pending, t))
    && Untangled(s.limited, s.whole, s.part, s.k)
  }

  /** Moving executables leaves nothing behind exactly when it is tidy. */
  lemma SettledFiled(st: ChainState, base: ChainState, local: set<TxId>, was: PoolVal, ahead: map<Address, nat>,
                     s: Passes, p: PoolVal, after: map<Address, nat>)
    requires Consistent(was) && Consistent(p) && Settles(st, base, local, was, ahead, s, p, after)
    ensures AllFiled(p) <==> AllFiled(was) && Tidy(s)
  {
    hide Consistent, AllFiled, Tracked, Promotion, Limited, Fate, NothingComesBack, QueueHashes, CutHashes, NonceFate,
      Total, Untangled;
    PromotedFiled(was, s.promoted);
    LimitedFiled(s.promoted, s.limited, local, s.spam, s.level);
    if Total(s.promoted.queue) > MAX_QUEUED_IN_TOTAL {
      CutAllFiled(s.limited, p, s.whole, s.part, s.k);
    } else {
      NothingTangled(s.limited, s.k);
    }
  }

  lemma NothingTangled(p: PoolVal, k: nat)
    ensures Untangled(p, {}, None, k)
  {
    forall a ensures Items(p.pending, a).Keys * CutOff(p, {}, None, k, a) == {} {}
  }

  // ----- the loops of the pool

  lemma NoStrays(p: PoolVal)
    requires Sound(p)
    ensures AllFiled(p) ==> forall t :: !InHand(p, t)
  {
    FiledOrNot(p);
  }

  lemma ShedFiled(p: PoolVal, q: PoolVal, whole: set<Address>, part: Option<Address>, k: nat)
    requires Sound(p) && Sound(q) && ShedBy(p, q, whole, part, k)
    ensures AllFiled(q) <==> AllFiled(p) && Untangled(p, whole, part, k)
  {
    hide Consistent, AllFiled, Fate, NothingComesBack, QueueHashes, CutHashes, Total, Restrict, Untangled;
    CutAllFiled(p, q, whole, part, k);
  }

  lemma DemoteFiled(st: ChainState, p: PoolVal, q: PoolVal, strays: set<Tx>)
    requires Sound(p) && Sound(q) && Demotes(st, p, q, strays)
    ensures AllFiled(q) <==> AllFiled(p) && forall t :: !SpurnedBy(st, p, t)
  {
    hide Consistent, AllFiled, Demotes, SpurnedBy;
    DemotedFiled(st, p, q, strays);
  }

  lemma ExpireFiled(p: PoolVal, q: PoolVal, idle: set<Address>)
    requires Sound(p) && Sound(q) && forall a :: Expiry(p, q, idle, p.queue.Keys, a)
    requires q.all == p.all - QueueHashes(p, idle * p.queue.Keys)
    ensures AllFiled(q) <==> AllFiled(p) && forall a :: a in idle && a in p.queue ==> ClashFree(p, a)
  {
    hide Consistent, AllFiled, Fate, QueueHashes;
    var whole := idle * p.queue.Keys;
    forall a ensures Fate(p, q, whole, None, 0, a) {
      assert Expiry(p, q, idle, p.queue.Keys, a);
    }
    assert p.all - QueueHashes(p, whole) - {} == p.all - QueueHashes(p, whole);
    CutAllFiled(p, q, whole, None, 0);
    forall a
      ensures (a in whole ==> ClashFree(p, a)) <==> Items(p.pending, a).Keys * CutOff(p, whole, None, 0, a) == {}
    {
      DisjointMeans(Items(p.pending, a).Keys, Items(p.queue, a).Keys);
    }
  }

  lemma DisjointMeans(a: set<nat>, b: set<nat>)
    ensures a !! b <==> a * b == {}
  {
    if a * b == {} {
      forall n | n in a ensures n !in b {
        assert n in b ==> n in a * b;
      }
    }
  }
}
