/** A run of the pool on which removing a queued transaction does not make the queue shorter. */
module PoolRuns {
  import opened Collections
  import opened Wrappers
  import opened Nonces
  import opened TxLists
  import opened RateLimit
  import opened PoolIndex
  import opened PoolSteps
  import opened PoolDrops
  import opened PoolStrays
  import opened TxPools
  import opened Sums

  /** Only `a` has transactions: these pending and these queued. */
  ghost predicate Alone(p: PoolVal, a: Address, pending: TxMap, queued: TxMap) {
    && Items(p.pending, a) == pending && Items(p.queue, a) == queued
    && p.pending.Keys <= {a} && p.queue.Keys <= {a}
  }

  lemma TotalAlone(l: Accounts, a: Address)
    requires l.Keys <= {a}
    ensures Total(l) == |Items(l, a)|
  {
    TotalWithout(l, a);
    assert Lens(l) - {a} == map[];
  }

  /** What becomes of a pool with one account when it is small enough for both limits. */
  lemma SettlesAlone(st: ChainState, base: ChainState, local: set<TxId>, was: PoolVal, ahead: map<Address, nat>,
                     s: Passes, p: PoolVal, after: map<Address, nat>, a: Address, pending: TxMap, queued: TxMap)
    requires Settles(st, base, local, was, ahead, s, p, after) && a in was.queue
    requires was.pending.Keys <= {a} && was.queue.Keys <= {a}
    requires AccountPromoted(st, a, NonceOf(base, ahead, a), Items(was.pending, a), Items(was.queue, a), pending,
                             queued)
    requires |pending| <= MAX_PENDING_TOTAL && |queued| <= MAX_QUEUED_IN_TOTAL
    ensures Alone(p, a, pending, queued) && SameAt(after, PromotedNonces(st, base, ahead, was, a), a)
    ensures Consistent(was) && AllFiled(was) ==> AllFiled(p)
  {
    hide Total, Tracked, ShedBy, PromotedNonces, Merge, Affordable, ReadyRest, Lowest, Filled, Locality, AllFiled,
      Consistent;
    forall b | b != a ensures b !in s.promoted.pending && b !in s.promoted.queue {
      assert Promotion(st, base, ahead, was, s.promoted, s.nonces, b);
    }
    assert Promotion(st, base, ahead, was, s.promoted, s.nonces, a);
    TotalAlone(s.promoted.pending, a);
    TotalAlone(s.promoted.queue, a);
    if Consistent(was) && AllFiled(was) {
      SettledFiled(st, base, local, was, ahead, s, p, after);
      NothingTangled(s.limited, s.k);
    }
  }

  lemma SingleRun(m: TxMap, tx: Tx, start: nat)
    requires m == map[tx.nonce := tx]
    ensures tx.nonce <= start ==> ReadyRun(m, start) == [tx] && ReadyRest(m, start) == map[]
    ensures tx.nonce > start ==> ReadyRun(m, start) == [] && ReadyRest(m, start) == m
    ensures Lowest(m, MAX_QUEUED_PER_ACCOUNT) == m && Lowest(map[], MAX_QUEUED_PER_ACCOUNT) == map[]
  {
    assert m.Keys == {tx.nonce} && MinOf(m.Keys) == tx.nonce;
    RunStep(m, tx.nonce);
    assert m - {tx.nonce} == map[];
  }

  /** A transaction that the account can pay for, added to a pool whose queue is empty. */
  ghost predicate Addable(st: ChainState, was: PoolVal, tx: Tx, pending: TxMap) {
    && Alone(was, tx.from, pending, map[]) && |pending| < MAX_PENDING_TOTAL
    && tx.nonce >= st.Nonce(tx.from) && tx.cost <= st.Balance(tx.from)
  }

  lemma QueuedAlone(st: ChainState, was: PoolVal, tx: Tx, pending: TxMap)
    requires Addable(st, was, tx, pending)
    ensures var p := Enqueue(was, tx);
            && tx.from in p.queue && p.pending == was.pending && p.queue.Keys <= {tx.from}
            && Items(p.queue, tx.from) == map[tx.nonce := tx]
            && Affordable(map[tx.nonce := tx], st, tx.from) == map[tx.nonce := tx]
  {
  }

  /** Up to the pending nonce it becomes pending, if it pays more than what it replaces. */
  lemma AddReady(st: ChainState, base: ChainState, local: set<TxId>, was: PoolVal, ahead: map<Address, nat>, tx: Tx,
                 s: Passes, p: PoolVal, after: map<Address, nat>, pending: TxMap)
    requires Addable(st, was, tx, pending) && tx.nonce <= NonceOf(base, ahead, tx.from) && Pays(pending, tx)
    requires Settles(st, base, local, Enqueue(was, tx), ahead, s, p, after)
    ensures Alone(p, tx.from, pending[tx.nonce := tx], map[]) && NonceOf(base, after, tx.from) == tx.nonce + 1
    ensures Consistent(Enqueue(was, tx)) && AllFiled(Enqueue(was, tx)) ==> AllFiled(p)
  {
    hide Settles, Enqueue, ReadyRun, ReadyRest, Lowest, Affordable, Alone, Consistent, AllFiled;
    var a, m, start := tx.from, map[tx.nonce := tx], NonceOf(base, ahead, tx.from);
    QueuedAlone(st, was, tx, pending);
    SingleRun(m, tx, start);
    MergeOne(pending, tx);
    AloneItems(was, a, pending);
    var none: TxMap := map[];
    assert m - none.Keys == m;
    SettlesAlone(st, base, local, Enqueue(was, tx), ahead, s, p, after, a, pending[tx.nonce := tx], map[]);
  }

  /** Above the pending nonce it stays queued. */
  lemma AddGap(st: ChainState, base: ChainState, local: set<TxId>, was: PoolVal, ahead: map<Address, nat>, tx: Tx,
               s: Passes, p: PoolVal, after: map<Address, nat>, pending: TxMap)
    requires Addable(st, was, tx, pending) && tx.nonce > NonceOf(base, ahead, tx.from)
    requires Settles(st, base, local, Enqueue(was, tx), ahead, s, p, after)
    ensures Alone(p, tx.from, pending, map[tx.nonce := tx])
    ensures Consistent(Enqueue(was, tx)) && AllFiled(Enqueue(was, tx)) ==> AllFiled(p)
  {
    hide Settles, Enqueue, ReadyRun, ReadyRest, Lowest, Affordable, Alone, Merge, Consistent, AllFiled;
    var a, m, start := tx.from, map[tx.nonce := tx], NonceOf(base, ahead, tx.from);
    QueuedAlone(st, was, tx, pending);
    SingleRun(m, tx, start);
    MergeNothing(pending);
    AloneItems(was, a, pending);
    assert m - m.Keys == map[];
    SettlesAlone(st, base, local, Enqueue(was, tx), ahead, s, p, after, a, pending, m);
  }

  lemma AloneItems(p: PoolVal, a: Address, pending: TxMap)
    requires Alone(p, a, pending, map[])
    ensures Items(p.pending, a) == pending && p.pending.Keys <= {a}
  {
  }

  lemma MergeOne(pending: TxMap, tx: Tx)
    requires Pays(pending, tx)
    ensures Merge(pending, map[tx.nonce := tx]) == pending[tx.nonce := tx]
    ensures |pending[tx.nonce := tx]| <= |pending| + 1
  {
    assert pending[tx.nonce := tx].Keys == pending.Keys + {tx.nonce};
  }

  // ----- the run

  /** A head at which the account 7 has no transactions yet and can pay for these. */
  const HEAD := ChainState(map[], map[7 := 10])

  /** Cheap transactions with nonces 0 to 3, and dearer ones. */
  function Cheap(n: nat): Tx { Tx(n, 7, n, 1, 1) }

  function Dear(n: nat): Tx { Tx(10 + n, 7, n, 2, 2) }

  ghost function FirstCheap(n: nat): TxMap {
    map i | 0 <= i < n :: Cheap(i)
  }

  /** Only these transactions are in the pool, all of them pending and nothing else indexed. */
  ghost predicate Calm(p: PoolVal, pending: TxMap) {
    Sound(p) && Alone(p, 7, pending, map[]) && AllFiled(p)
  }

  /** A hash that no pending transaction has is new. */
  lemma NewHash(p: PoolVal, pending: TxMap, h: TxId)
    requires Calm(p, pending) && h in p.all
    ensures exists n :: n in pending && pending[n].hash == h
  {
    var t := p.all[h];
    assert Filed(p, t);
    assert t.hash == h;
    assert t.nonce in pending;
  }

  lemma CalmFiled(p: PoolVal, tx: Tx)
    requires Sound(p) && AllFiled(p) && tx.hash !in p.all
    ensures Consistent(Enqueue(p, tx)) && AllFiled(Enqueue(p, tx))
  {
    hide AllFiled;
    if Filed(p, tx) { FiledIndexed(p, tx); }
    EnqueueKeeps(p, tx);
    EnqueuedFiled(p, tx);
  }

  /** Adds a transaction up to the pending nonce. */
  method AddOne(pool: TxPool, tx: Tx, ghost pending: TxMap)
    requires pool.Valid() && pool.base == HEAD && Calm(pool.View(), pending) && |pending| < MAX_PENDING_TOTAL
    requires tx.from == 7 && tx.cost <= 10 && tx.nonce <= pool.PendingNonce(7) && Pays(pending, tx)
    requires forall n :: n in pending ==> pending[n].hash != tx.hash
    modifies pool
    ensures pool.Valid() && pool.base == HEAD && Calm(pool.View(), pending[tx.nonce := tx])
    ensures pool.PendingNonce(7) == tx.nonce + 1
  {
    hide Settles, AllFiled, Alone, Sound, NoEmpty;
    var ok;
    ghost var was, ahead := pool.View(), pool.ahead;
    ghost var s;
    if tx.hash in pool.all { NewHash(was, pending, tx.hash); }
    CalmFiled(was, tx);
    ok, s := pool.Add(tx, true, Some(HEAD));
    AddReady(HEAD, HEAD, pool.local, was, ahead, tx, s, pool.View(), pool.ahead, pending);
  }

  /** Adds a transaction above the pending nonce. */
  method AddAbove(pool: TxPool, tx: Tx, ghost pending: TxMap)
    requires pool.Valid() && pool.base == HEAD && Calm(pool.View(), pending) && |pending| < MAX_PENDING_TOTAL
    requires tx.from == 7 && tx.cost <= 10 && tx.nonce > pool.PendingNonce(7)
    requires forall n :: n in pending ==> pending[n].hash != tx.hash
    modifies pool
    ensures pool.Valid() && AllFiled(pool.View()) && Alone(pool.View(), 7, pending, map[tx.nonce := tx])
  {
    hide Settles, AllFiled, Alone, Sound, NoEmpty;
    var ok;
    ghost var was, ahead := pool.View(), pool.ahead;
    ghost var s;
    if tx.hash in pool.all { NewHash(was, pending, tx.hash); }
    CalmFiled(was, tx);
    ok, s := pool.Add(tx, true, Some(HEAD));
    AddGap(HEAD, HEAD, pool.local, was, ahead, tx, s, pool.View(), pool.ahead, pending);
  }

  lemma EmptyCalm(p: PoolVal)
    requires p == PoolVal(map[], map[], map[])
    ensures Calm(p, FirstCheap(0))
  {
  }

  lemma CheapStep(n: nat)
    requires n <= 4
    ensures FirstCheap(n)[n := Cheap(n)] == FirstCheap(n + 1) && |FirstCheap(n)| <= 4
    ensures forall i :: i in FirstCheap(n) ==> i < n && FirstCheap(n)[i] == Cheap(i)
    ensures Pays(FirstCheap(n), Cheap(n)) && (n > 0 ==> Pays(FirstCheap(n), Dear(0)))
  {
    var four := FirstCheap(n).Keys + {0, 1, 2, 3};
    assert four == {0, 1, 2, 3};
    SubsetSize(FirstCheap(n).Keys, four);
  }

  lemma IndexedNow(p: PoolVal, tx: Tx)
    requires Sound(p) && Alone(p, tx.from, Items(p.pending, tx.from), map[tx.nonce := tx])
    ensures In(p.queue, tx) && Indexed(p, tx)
  {
    assert tx.nonce in Items(p.queue, tx.from);
    InHas(p.queue, tx);
    FiledIndexed(p, tx);
  }

  lemma RefillsNow(p: PoolVal, q: PoolVal, pending: TxMap)
    requires Sound(p) && Sound(q) && Removal(p, q, Dear(2)) && Indexed(p, Dear(2)) && AllFiled(p)
    requires Alone(p, 7, pending, map[2 := Dear(2)]) && pending == FirstCheap(4)[0 := Dear(0)]
    ensures |Items(p.queue, 7)| == 1 <= |Items(q.queue, 7)|
    ensures In(p.pending, Cheap(2)) && InHand(q, Cheap(2))
  {
    hide AllFiled, Removal, Consistent;
    var queued: TxMap := map[2 := Dear(2)];
    assert 0 in Below(pending, 2) && 3 in Above(pending, 2);
    assert 3 in Returned(pending, 2) && 3 !in queued;
    assert queued.Keys == {2};
    RemovalShrinks(p, q, Dear(2));
    RemovedFiled(p, q, Dear(2));
    assert LeftBehind(p, Dear(2), Cheap(2));
  }

  /**
   * Nonces 0 to 3 are added, then a dearer 0, which sets the pending nonce back to 1, then a dearer 2,
   * which stays queued beside the pending 2. Removing it takes the pending 2 and 3 down: 3 comes back
   * into the queue, which is no shorter, and the cheap 2 stays in the index without being filed.
   */
  method QueueRefills() returns (pool: TxPool, ghost before: PoolVal)
    ensures pool.Valid() && Removal(before, pool.View(), Dear(2)) && In(before.queue, Dear(2))
    ensures |Items(before.queue, 7)| == 1 <= |Items(pool.queue, 7)|
    ensures AllFiled(before) && In(before.pending, Cheap(2)) && InHand(pool.View(), Cheap(2))
  {
    hide AllFiled, Sound, NoEmpty, Removal;
    pool := new TxPool(HEAD);
    EmptyCalm(pool.View());
    for i := 0 to 4
      invariant fresh(pool) && pool.Valid() && pool.base == HEAD && Calm(pool.View(), FirstCheap(i))
      invariant pool.PendingNonce(7) == i
    {
      CheapStep(i);
      AddOne(pool, Cheap(i), FirstCheap(i));
    }
    CheapStep(4);
    AddOne(pool, Dear(0), FirstCheap(4));
    ghost var pending := FirstCheap(4)[0 := Dear(0)];
    AddAbove(pool, Dear(2), pending);
    before := pool.View();
    var tx := Dear(2);
    IndexedNow(before, tx);
    pool.RemoveTx(tx.hash);
    RefillsNow(before, pool.View(), pending);
  }
}
