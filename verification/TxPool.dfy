/**
 * The transaction pool. Every operation keeps the pool consistent: no transaction is filed twice,
 * each sits under its sender and nonce and is indexed, and no empty list stays behind.
 */
module TxPools {
  import opened Wrappers
  import opened Nonces
  import opened TxLists
  import opened RateLimit
  import opened PoolIndex
  import opened PoolSteps
  import opened PoolDrops
  import opened PoolStrays
  import opened PoolLaws

  class TxPool {
    var pending: Accounts
    var queue: Accounts
    var all: map<TxId, Tx>
    /** The head state the pending nonces are based on, and the nonces that run ahead of it. */
    var base: ChainState
    var ahead: map<Address, nat>
    var local: set<TxId>

    ghost function View(): PoolVal
      reads this
    {
      PoolVal(pending, queue, all)
    }

    ghost predicate Valid()
      reads this
    {
      Sound(View()) && NoEmpty(pending) && NoEmpty(queue)
    }

    function PendingNonce(a: Address): nat
      reads this
    {
      NonceOf(base, ahead, a)
    }

    /** Puts a transaction into the queue. */
    method EnqueueTx(tx: Tx)
      modifies this`queue, this`all
      ensures View() == Enqueue(old(View()), tx)
    {
      var v := ListAt(queue, tx.from, false);
      var inserted, was := Accepts(v, tx), Replaced(v, tx);
      queue := queue[tx.from := Added(v, tx)];
      if !inserted { return; }
      if was.Some? { all := all - {was.value.hash}; }
      all := all[tx.hash := tx];
    }

    /** Puts a transaction into the pending list of its account. */
    method PromoteTx(tx: Tx)
      modifies this`pending, this`all, this`ahead
      ensures View() == Promote(old(View()), tx)
      ensures ahead == if Accepts(ListAt(old(pending), tx.from, true), tx) then old(ahead)[tx.from := tx.nonce + 1]
                       else old(ahead)
    {
      var v := ListAt(pending, tx.from, true);
      var inserted, was := Accepts(v, tx), Replaced(v, tx);
      pending := pending[tx.from := Added(v, tx)];
      if !inserted {
        all := all - {tx.hash};
        return;
      }
      if was.Some? { all := all - {was.value.hash}; }
      all := all[tx.hash := tx];
      ahead := ahead[tx.from := tx.nonce + 1];
    }

    /** Drops transactions in hand from the index. */
    method Forget(txs: seq<Tx>, ghost was: PoolVal, ghost hand: set<Tx>)
      requires Consistent(View()) && Tracked(was, View(), hand)
      requires (forall i, j :: 0 <= i < j < |txs| ==> txs[i] != txs[j]) && forall tx :: tx in txs ==> tx in hand
      modifies this`all
      ensures Consistent(View()) && Tracked(was, View(), hand - ElemsOf(txs))
    {
      hide Consistent, Tracked;
      assert hand - ElemsOf(txs[..0]) == hand;
      for i := 0 to |txs|
        invariant Consistent(View()) && Tracked(was, View(), hand - ElemsOf(txs[..i]))
      {
        var tx := txs[i];
        assert tx !in txs[..i] && txs[..i + 1] == txs[..i] + [tx];
        ghost var done := ElemsOf(txs[..i]);
        assert ElemsOf(txs[..i + 1]) == done + {tx};
        assert hand - (done + {tx}) == (hand - done) - {tx};
        DropTracked(was, View(), hand - done, tx);
        all := all - {tx.hash};
      }
      assert txs[..|txs|] == txs;
    }

    /** Queues transactions in hand, in the order given. */
    method EnqueueAll(txs: seq<Tx>, ghost m: TxMap, ghost a: Address, ghost was: PoolVal, ghost hand: set<Tx>)
      requires Sound(View()) && NoEmpty(queue) && Tracked(was, View(), hand)
      requires Enumerates(txs, m) && WellNonced(m)
      requires forall n :: n in m ==> m[n].from == a && m[n] in hand
      modifies this`queue, this`all
      ensures Sound(View()) && NoEmpty(queue)
      ensures Items(queue, a) == Merge(Items(old(queue), a), m) && SameBut(queue, old(queue), a)
      ensures Tracked(was, View(), hand - Taken(Items(old(queue), a), m))
      ensures all == old(all) - BeatenHashes(Items(old(queue), a), m)
    {
      hide Consistent, Tracked, Merge, Taken, BeatenHashes, FirstOf, NoEmpty, AllStrict;
      ghost var q0 := Items(queue, a);
      FirstAll(txs, m);
      MergeNothing(q0);
      assert all - {} == all && hand - {} == hand;
      for i := 0 to |txs|
        invariant Sound(View()) && NoEmpty(queue)
        invariant Items(queue, a) == Merge(q0, FirstOf(txs, m, i)) && SameBut(queue, old(queue), a)
        invariant Tracked(was, View(), hand - Taken(q0, FirstOf(txs, m, i)))
        invariant all == old(all) - BeatenHashes(q0, FirstOf(txs, m, i))
      {
        var tx := txs[i];
        ghost var lost := EnqueueStep(View(), txs, m, i, a, was, hand, q0);
        SameButTwice(Enqueue(View(), tx).queue, queue, old(queue), a);
        EnqueueTx(tx);
      }
    }

    /** Promotes transactions in hand, in the order given. */
    method PromoteAll(txs: seq<Tx>, ghost m: TxMap, ghost a: Address, ghost was: PoolVal, ghost hand: set<Tx>)
      requires Sound(View()) && NoEmpty(pending) && Tracked(was, View(), hand)
      requires Enumerates(txs, m) && WellNonced(m)
      requires forall n :: n in m ==> m[n].from == a && m[n] in hand
      modifies this`pending, this`all, this`ahead
      ensures Sound(View()) && NoEmpty(pending)
      ensures Items(pending, a) == Merge(Items(old(pending), a), m) && SameBut(pending, old(pending), a)
      ensures Tracked(was, View(), hand - ElemsOf(txs))
      ensures ahead == Followed(old(ahead), a, Items(old(pending), a), txs)
    {
      hide Consistent, Tracked, Merge, Taken, BeatenHashes, FirstOf, NoEmpty, AllStrict, Followed, Pays;
      ghost var p0 := Items(pending, a);
      FirstAll(txs, m);
      MergeNothing(p0);
      NoneFollow(ahead, a, p0);
      assert hand - ElemsOf(txs[..0]) == hand;
      for i := 0 to |txs|
        invariant Sound(View()) && NoEmpty(pending)
        invariant Items(pending, a) == Merge(p0, FirstOf(txs, m, i)) && SameBut(pending, old(pending), a)
        invariant Tracked(was, View(), hand - ElemsOf(txs[..i]))
        invariant ahead == Followed(old(ahead), a, p0, txs[..i])
      {
        var tx := txs[i];
        PromoteStep(View(), txs, m, i, a, was, hand, p0);
        FollowStep(old(ahead), a, p0, txs[..i], tx);
        assert txs[..i + 1] == txs[..i] + [tx];
        SameButTwice(Promote(View(), tx).pending, pending, old(pending), a);
        PromoteTx(tx);
      }
      assert txs[..|txs|] == txs;
    }

    /** Cuts a queue list down to `kept` and drops the rest from the index. */
    method CutQueued(a: Address, kept: ListVal, ghost was: PoolVal)
      requires Sound(View()) && Tracked(was, View(), {})
      requires a in queue && PartOf(kept, queue[a]) && !kept.strict
      modifies this`queue, this`all
      ensures Sound(View()) && Tracked(was, View(), {})
      ensures queue == old(queue)[a := kept]
    {
      hide Tracked, Consistent;
      var gone := queue[a].items - kept.items.Keys;
      GoneCuts(View(), true, a, kept);
      var txs := InSomeOrder(gone);
      CutQueue(was, View(), {}, a, kept, ElemsOf(txs));
      queue := queue[a := kept];
      assert {} + ElemsOf(txs) == ElemsOf(txs) && ElemsOf(txs) - ElemsOf(txs) == {};
      Forget(txs, was, ElemsOf(txs));
    }

    /** Takes the executable run out of an account's queue and promotes it. */
    method PromoteReady(a: Address, ghost was: PoolVal)
      requires Sound(View()) && NoEmpty(pending) && Tracked(was, View(), {}) && a in queue
      modifies this`pending, this`queue, this`all, this`ahead
      ensures Sound(View()) && NoEmpty(pending) && Tracked(was, View(), {})
      ensures var m, start := old(queue)[a].items, old(PendingNonce(a));
              && queue == old(queue)[a := old(queue)[a].(items := ReadyRest(m, start))]
              && Items(pending, a) == Merge(Items(old(pending), a), m - ReadyRest(m, start).Keys)
              && ahead == Followed(old(ahead), a, Items(old(pending), a), ReadyRun(m, start))
      ensures SameBut(pending, old(pending), a)
    {
      hide Tracked, Consistent, Followed, Merge, ReadyRun, ReadyRest;
      var v, start := queue[a], PendingNonce(a);
      var ready := ReadyRun(v.items, start);
      var kept := v.(items := ReadyRest(v.items, start));
      ghost var m := v.items - kept.items.Keys;
      QueuedFacts(View(), a);
      ReadySubset(v.items, start);
      ReadyEnumerates(v.items, start);
      GoneCuts(View(), true, a, kept);
      CutQueue(was, View(), {}, a, kept, ElemsOf(ready));
      queue := queue[a := kept];
      assert {} + ElemsOf(ready) == ElemsOf(ready) && ElemsOf(ready) - ElemsOf(ready) == {};
      assert forall n :: n in m ==> m[n] in ready;
      PromoteAll(ready, m, a, was, ElemsOf(ready));
    }

    /** Drops an account's queued transactions that are stale or unpayable. */
    method DropHopeless(st: ChainState, a: Address, ghost was: PoolVal)
      requires Sound(View()) && Tracked(was, View(), {}) && a in queue
      modifies this`queue, this`all
      ensures Sound(View()) && Tracked(was, View(), {})
      ensures a in queue && queue[a].items == Affordable(old(queue)[a].items, st, a) && SameBut(queue, old(queue), a)
    {
      hide Tracked, Consistent, Filtered, From, Payable, CapOk, PartOf;
      ghost var v0 := queue[a];
      QueuedFacts(View(), a);
      KeptParts(queue[a], st.Nonce(a), st.Balance(a));
      CutQueued(a, queue[a].(items := From(queue[a].items, st.Nonce(a))), was);
      QueuedFacts(View(), a);
      KeptParts(queue[a], st.Nonce(a), st.Balance(a));
      CutQueued(a, Filtered(queue[a], st.Balance(a)), was);
      FilteredLoose(v0.(items := From(v0.items, st.Nonce(a))), st.Balance(a));
    }

    /** Caps an account's queue, and deletes it if nothing is left. */
    method CapQueue(a: Address, ghost was: PoolVal)
      requires Sound(View()) && Tracked(was, View(), {}) && a in queue
      modifies this`queue, this`all
      ensures Sound(View()) && Tracked(was, View(), {})
      ensures Items(queue, a) == Lowest(old(queue)[a].items, MAX_QUEUED_PER_ACCOUNT) && SameBut(queue, old(queue), a)
      ensures a in queue ==> queue[a].items != map[]
    {
      hide Tracked, Consistent, Filtered, Lowest, CapOk, PartOf;
      QueuedFacts(View(), a);
      KeptParts(queue[a], MAX_QUEUED_PER_ACCOUNT, 0);
      CutQueued(a, Capped(queue[a], MAX_QUEUED_PER_ACCOUNT), was);
      if queue[a].items == map[] {
        DropEmpty(was, View(), {}, a);
        queue := queue - {a};
      }
    }

    /** One account of the promotion pass: drop what is stale or unpayable, promote what is ready, cap the rest. */
    method PromoteAccount(st: ChainState, a: Address, ghost was: PoolVal)
      requires Valid() && a in queue && Tracked(was, View(), {})
      modifies this`pending, this`queue, this`all, this`ahead
      ensures Valid() && Tracked(was, View(), {})
      ensures AccountPromoted(st, a, old(PendingNonce(a)), Items(old(pending), a), Items(old(queue), a),
                              Items(pending, a), Items(queue, a))
      ensures ahead == PromotedNonces(st, base, old(ahead), old(View()), a)
      ensures SameBut(pending, old(pending), a) && SameBut(queue, old(queue), a) && SameBut(ahead, old(ahead), a)
    {
      hide Tracked, Sound, Followed, Merge, ReadyRun, ReadyRest, Lowest, Affordable;
      DropHopeless(st, a, was);
      ghost var m := queue[a].items;
      ghost var q1 := queue;
      PromoteReady(a, was);
      FollowAlone(old(ahead), a, Items(old(pending), a), ReadyRun(m, old(PendingNonce(a))));
      ghost var q2 := queue;
      CapQueue(a, was);
      SameButTwice(queue, q2, q1, a);
      SameButTwice(queue, q1, old(queue), a);
      FullBut(old(queue), queue, a);
    }

    /** The promotion pass over all queued accounts, in some order; counts what stays queued. */
    method PromoteQueued(st: ChainState) returns (queued: nat)
      requires Valid()
      modifies this`pending, this`queue, this`all, this`ahead
      ensures Valid() && Tracked(old(View()), View(), {})
      ensures queued == Total(queue)
      ensures forall a :: Promotion(st, old(base), old(ahead), old(View()), View(), ahead, a)
      ensures forall t: Tx :: PromotedTo(st, StartOf(old(base), old(ahead), t.from), old(View()), View(), t)
      ensures OnlyFit(st, old(base), old(ahead), old(View()), View())
      ensures forall a :: NonceRises(old(ahead), ahead, a, Risen(st, StartOf(old(base), old(ahead), a), old(View()), a))
    {
      hide PromotedTo, NonceRises, Risen, OnlyFit;
      hide Tracked, Sound, AccountPromoted, PromotedNonces, Total, NoEmpty, SameBut, SameOn, Restrict;
      ghost var was, ahead0 := View(), ahead;
      TrackedStart(was);
      SameOnStart(pending, queue.Keys);
      SameOnStart(queue, queue.Keys);
      SameOnStart(ahead, queue.Keys);
      queued := 0;
      var left := queue.Keys;
      RestrictAll(queue);
      while left != {}
        invariant Valid() && Tracked(was, View(), {}) && left <= was.queue.Keys
        invariant SameOn(pending, was.pending, left) && SameOn(queue, was.queue, left) && SameOn(ahead, ahead0, left)
        invariant forall a :: a !in left ==> Promotion(st, base, ahead0, was, View(), ahead, a)
        invariant queued + Total(Restrict(queue, left)) == Total(queue)
        decreases |left|
      {
        var a :| a in left;
        ghost var p, ahead1 := View(), ahead;
        OnAt(pending, was.pending, left, a);
        OnAt(queue, was.queue, left, a);
        OnAt(ahead, ahead0, left, a);
        PromoteAccount(st, a, was);
        NoncesAgree(st, base, ahead0, ahead1, was, p, a);
        assert Promotion(st, base, ahead0, was, View(), ahead, a);
        TotalStep(p.queue, queue, a, left);
        SameOnStep(queue, p.queue, was.queue, left, a);
        SameOnStep(pending, p.pending, was.pending, left, a);
        SameOnStep(ahead, ahead1, ahead0, left, a);
        PromotionFrame(st, base, ahead0, was, p, View(), ahead1, ahead, a);
        queued, left := queued + |Items(queue, a)|, left - {a};
      }
      RestrictNone(queue);
      forall a ensures Promotion(st, old(base), old(ahead), old(View()), View(), ahead, a) {
        assert a !in left;
      }
      PromotionLaws(st, old(base), old(ahead), old(View()), View(), ahead);
      PromotedFit(st, old(base), old(ahead), old(View()), View());
    }

    /** Cuts a pending list down to `kept` and takes the rest in hand. */
    method TakeOut(a: Address, kept: ListVal, ghost was: PoolVal, ghost hand: set<Tx>) returns (ghost out: set<Tx>)
      requires Sound(View()) && Tracked(was, View(), hand)
      requires a in pending && PartOf(kept, pending[a]) && kept.strict
      modifies this`pending
      ensures Sound(View()) && pending == old(pending)[a := kept]
      ensures out == ValuesOf(old(pending)[a].items - kept.items.Keys) && out !! hand
              && Tracked(was, View(), hand + out)
    {
      hide Tracked, Consistent;
      GoneCuts(View(), false, a, kept);
      ghost var gone := pending[a].items - kept.items.Keys;
      out := ValuesOf(gone);
      forall t | t in hand ensures t !in out { HandFacts(was, View(), hand, t); }
      CutPending(was, View(), hand, a, kept, out);
      pending := pending[a := kept];
    }

    /** Cuts a pending list down to `kept` and drops the rest from the index. */
    method CutPended(a: Address, kept: ListVal, ghost was: PoolVal, ghost hand: set<Tx>)
      requires Sound(View()) && Tracked(was, View(), hand)
      requires a in pending && PartOf(kept, pending[a]) && kept.strict
      modifies this`pending, this`all
      ensures Sound(View()) && Tracked(was, View(), hand) && pending == old(pending)[a := kept]
    {
      hide Tracked, Consistent, CapOk, PartOf, ElemsOf, ValuesOf;
      var gone := pending[a].items - kept.items.Keys;
      GoneCuts(View(), false, a, kept);
      ghost var out := TakeOut(a, kept, was, hand);
      var txs := InSomeOrder(gone);
      ElemsAreValues(txs, gone);
      ElemsIn(txs);
      assert hand + out - ElemsOf(txs) == hand;
      Forget(txs, was, hand + out);
    }

    /** Drops an account's pending transactions that the chain already has. */
    method DropStale(st: ChainState, a: Address, ghost was: PoolVal, ghost hand: set<Tx>)
      requires Sound(View()) && Tracked(was, View(), hand) && a in pending
      modifies this`pending, this`all
      ensures Sound(View()) && Tracked(was, View(), hand)
      ensures pending == old(pending)[a := old(pending)[a].(items := From(old(pending)[a].items, st.Nonce(a)))]
    {
      hide Tracked, Consistent, CapOk, PartOf, From;
      PendingFacts(View(), a);
      KeptParts(pending[a], st.Nonce(a), 0);
      CutPended(a, pending[a].(items := From(pending[a].items, st.Nonce(a))), was, hand);
    }

    /** One account of the demotion pass: drop what is stale or unpayable, and queue what no longer can run. */
    method DemoteAccount(st: ChainState, a: Address, ghost was: PoolVal, ghost hand: set<Tx>)
      requires Valid() && a in pending && Tracked(was, View(), hand)
      modifies this`pending, this`queue, this`all
      ensures Valid() && Tracked(was, View(), hand + Spurned(st, a, Items(old(pending), a), Items(old(queue), a)))
      ensures AccountDemoted(st, a, Items(old(pending), a), Items(old(queue), a), Items(pending, a), Items(queue, a))
      ensures SameBut(pending, old(pending), a) && SameBut(queue, old(queue), a)
    {
      hide Tracked, Sound, NoEmpty, Filtered, Invalidated, TooCostly, Merge, Taken;
      DropStale(st, a, was, hand);
      ghost var p1 := pending;
      DemoteUnpayable(st.Balance(a), a, was, hand);
      SameButTwice(pending, p1, old(pending), a);
      FullBut(old(pending), pending, a);
    }

    method DemoteUnpayable(balance: nat, a: Address, ghost was: PoolVal, ghost hand: set<Tx>)
      requires Sound(View()) && NoEmpty(queue) && a in pending && Tracked(was, View(), hand)
      modifies this`pending, this`queue, this`all
      ensures Sound(View()) && NoEmpty(queue)
      ensures var m, q := old(pending)[a].items, Items(old(queue), a);
              && Tracked(was, View(), hand + TurnedDown(q, Invalidated(true, m, balance)))
              && Items(pending, a) == FilteredItems(true, m, balance)
              && Items(queue, a) == Merge(q, Invalidated(true, m, balance))
      ensures SameBut(pending, old(pending), a) && SameBut(queue, old(queue), a)
      ensures a in pending ==> pending[a].items != map[]
    {
      hide Tracked, Consistent, CapOk, PartOf, Merge, Taken, BeatenHashes, NoEmpty, Filtered, FilteredItems,
        Invalidated, TooCostly, ValuesOf, ElemsOf, TurnedDown, SameBut;
      var v := pending[a];
      PendingFacts(View(), a);
      KeptParts(v, 0, balance);
      var drops, invalids := TooCostly(v.items, balance), Invalidated(true, v.items, balance);
      UnpayableParts(v, balance);
      ghost var out := TakeOut(a, Filtered(v, balance), was, hand);
      var txs := InSomeOrder(drops);
      ElemsAreValues(txs, drops);
      ElemsIn(txs);
      Forget(txs, was, hand + out);
      assert hand + out - ValuesOf(drops) == hand + ValuesOf(invalids);
      txs := InSomeOrder(invalids);
      InValues(invalids);
      EnqueueAll(txs, invalids, a, was, hand + ValuesOf(invalids));
      LeftInHand(hand, Items(old(queue), a), invalids);
      DeleteIfEmpty(a, old(pending), was, hand + TurnedDown(Items(old(queue), a), invalids));
    }

    method DeleteIfEmpty(a: Address, ghost p0: Accounts, ghost was: PoolVal, ghost hand: set<Tx>)
      requires Sound(View()) && Tracked(was, View(), hand) && a in pending && a in p0 && pending == p0[a := pending[a]]
      modifies this`pending
      ensures Sound(View()) && Tracked(was, View(), hand)
      ensures Items(pending, a) == Items(old(pending), a) && SameBut(pending, p0, a)
      ensures a in pending ==> pending[a].items != map[]
    {
      hide Tracked, Consistent;
      if pending[a].items == map[] {
        DropEmpty(was, View(), hand, a);
        pending := pending - {a};
      }
    }

    /** The demotion pass over all pending accounts, in some order. */
    method DemoteUnexecutables(st: ChainState) returns (ghost strays: set<Tx>)
      requires Valid()
      modifies this`pending, this`queue, this`all
      ensures Valid() && Demotes(st, old(View()), View(), strays)
      ensures AllFiled(View()) <==> AllFiled(old(View())) && forall t :: !SpurnedBy(st, old(View()), t)
      ensures forall t :: DemotedTo(st, old(View()), View(), t)
      ensures forall t :: t in strays <==> Stranded(st, old(pending), t) && Outpaid(old(queue), t)
    {
      hide DemotedTo, Stranded, Outpaid;
      hide Tracked, Sound, AccountDemoted, NoEmpty, SameBut, SameOn, Spurned, AllFiled;
      ghost var was := View();
      strays := {};
      TrackedStart(was);
      SameOnStart(pending, pending.Keys);
      SameOnStart(queue, pending.Keys);
      var left := pending.Keys;
      while left != {}
        invariant Valid() && Tracked(was, View(), strays) && left <= was.pending.Keys
        invariant SameOn(pending, was.pending, left) && SameOn(queue, was.queue, left)
        invariant forall a :: a !in left ==> Demotion(st, was, View(), a)
        invariant forall t :: t in strays <==> t.from !in left && SpurnedBy(st, was, t)
        decreases |left|
      {
        var a :| a in left;
        ghost var p := View();
        OnAt(pending, was.pending, left, a);
        OnAt(queue, was.queue, left, a);
        DemoteAccount(st, a, was, strays);
        assert Demotion(st, was, View(), a);
        SpurnedHere(st, was, a);
        SameOnStep(queue, p.queue, was.queue, left, a);
        SameOnStep(pending, p.pending, was.pending, left, a);
        DemotionFrame(st, was, p, View(), a);
        strays := strays + Spurned(st, a, Items(was.pending, a), Items(was.queue, a));
        left := left - {a};
      }
      forall a ensures Demotion(st, old(View()), View(), a) {
        assert a !in left;
      }
      DemoteFiled(st, was, View(), strays);
      DemotionLaws(st, was, View(), strays);
    }

    /**
     * Takes the nonce of `tx` and all above it off the pending list; the rest is queued again
     * unless the list is now empty.
     */
    method RemovePending(tx: Tx, ghost was: PoolVal) returns (ghost hand: set<Tx>)
      requires Valid() && Tracked(was, View(), {})
      modifies this`pending, this`queue, this`all, this`ahead
      ensures Valid() && Tracked(was, View(), hand)
      ensures var a, p, q := tx.from, Items(old(pending), tx.from), Items(old(queue), tx.from);
              && Items(pending, a) == (if tx.nonce in p then Below(p, tx.nonce) else p)
              && Items(queue, a) == Merge(q, Returned(p, tx.nonce))
              && all == old(all) - BeatenHashes(q, Returned(p, tx.nonce))
              && ahead == Lowered(base, old(ahead), a, p, {tx.nonce})
              && (a in pending ==> a in old(pending) && pending[a] == RemovedAt(old(pending)[a], tx.nonce))
      ensures SameBut(pending, old(pending), tx.from) && SameBut(queue, old(queue), tx.from)
    {
      hide Tracked, Consistent, Merge, Taken, BeatenHashes, PartOf, CapOk, ValuesOf, ElemsOf, SameBut, Lowered;
      hand := {};
      var a, nonce := tx.from, tx.nonce;
      MergeNothing(Items(queue, a));
      SameSelf(pending, a);
      SameSelf(queue, a);
      assert all == all - {};
      LowerOne(base, ahead, a, Items(pending, a), nonce);
      if a !in pending || nonce !in pending[a].items { return; }
      var v := pending[a];
      var invalids := Above(v.items, nonce);
      PendingFacts(View(), a);
      BelowPart(v, nonce);
      hand := TakeOut(a, RemovedAt(v, nonce), was, {});
      assert {} + hand == hand;
      SameUpdate(old(pending), a, RemovedAt(v, nonce));
      if pending[a].items == map[] {
        DropEmpty(was, View(), hand, a);
        SameDelete(old(pending), a, RemovedAt(v, nonce));
        pending := pending - {a};
      } else {
        var txs := InSomeOrder(invalids);
        EnqueueAll(txs, invalids, a, was, hand);
        hand := hand - Taken(Items(old(queue), a), invalids);
      }
      FullBut(old(pending), pending, a);
      if PendingNonce(a) > nonce { ahead := ahead[a := nonce]; }
    }

    /** Takes the nonce of `tx` off the queue. */
    method RemoveQueued(tx: Tx, ghost was: PoolVal, ghost hand: set<Tx>) returns (ghost hand2: set<Tx>)
      requires Valid() && Tracked(was, View(), hand)
      modifies this`queue
      ensures Valid() && Tracked(was, View(), hand2)
      ensures Items(queue, tx.from) == Items(old(queue), tx.from) - {tx.nonce} && SameBut(queue, old(queue), tx.from)
    {
      hide Tracked, Consistent, PartOf, CapOk, ValuesOf;
      hand2 := hand;
      var a := tx.from;
      if a !in queue { return; }
      var kept := RemovedAt(queue[a], tx.nonce);
      ghost var gone := queue[a].items - kept.items.Keys;
      QueuedFacts(View(), a);
      WithoutPart(queue[a], tx.nonce);
      GoneCuts(View(), true, a, kept);
      CutQueue(was, View(), hand, a, kept, ValuesOf(gone));
      hand2 := hand + ValuesOf(gone);
      queue := queue[a := kept];
      if queue[a].items == map[] {
        DropEmpty(was, View(), hand2, a);
        queue := queue - {a};
      }
      FullBut(old(queue), queue, a);
    }

    /** Removes a transaction by hash; its nonce leaves both lists. */
    method RemoveTx(hash: TxId)
      requires Valid()
      modifies this`pending, this`queue, this`all, this`ahead
      ensures Valid() && hash !in all
      ensures hash !in old(all) ==> View() == old(View()) && ahead == old(ahead)
      ensures hash in old(all) ==> Removal(old(View()), View(), old(all)[hash])
      ensures hash in old(all) ==> forall t :: RemovedTo(old(View()), View(), old(all)[hash], t)
      ensures ahead == NoncesAfter(base, old(ahead), hash, old(View()))
      ensures hash in old(all) ==>
                var tx := old(all)[hash];
                ahead == if Occupied(old(pending), tx) && StartOf(base, old(ahead), tx.from) > tx.nonce
                         then old(ahead)[tx.from := tx.nonce] else old(ahead)
      ensures hash in old(all) && AllFiled(old(View())) ==>
                && (forall t :: InHand(View(), t) <==> LeftBehind(old(View()), old(all)[hash], t))
                && (AllFiled(View()) <==> forall t :: !LeftBehind(old(View()), old(all)[hash], t))
    {
      hide Tracked, Consistent, Merge, BeatenHashes, NoEmpty, SameBut, Lowered, AllFiled, LeftBehind, InHand,
        RemovedTo, Occupied, RemovalOf;
      if hash !in all { return; }
      var tx := all[hash];
      HashesTell(View());
      ghost var was := View();
      TrackedStart(was);
      ghost var hand := RemovePending(tx, was);
      ghost var q1 := queue;
      ghost var all1 := all;
      hand := RemoveQueued(tx, was, hand);
      SameButTwice(queue, q1, was.queue, tx.from);
      Unfiled(View(), tx);
      ForgetOne(View(), hash);
      all := all - {hash};
      NoStrays(was);
      RemovedFiled(was, View(), tx);
      RemovalLaws(was, View(), tx, base, old(ahead));
    }

    /**
     * The accounts the limiter may cut: more than the guaranteed slots, and the one transaction
     * looked at is not local.
     */
    method Spammers() returns (spam: set<Address>)
      requires NoEmpty(pending)
      ensures forall a :: a in spam ==> LongList(pending, a) && false in Locality(pending[a].items, local)
      ensures forall a :: LongList(pending, a) && a !in spam ==> true in Locality(pending[a].items, local)
    {
      spam := {};
      var left := pending.Keys;
      while left != {}
        invariant left <= pending.Keys
        invariant forall a :: a in spam ==> LongList(pending, a) && a !in left
                                            && false in Locality(pending[a].items, local)
        invariant forall a :: LongList(pending, a) && a !in left && a !in spam ==>
                    true in Locality(pending[a].items, local)
        decreases |left|
      {
        var a :| a in left;
        left := left - {a};
        if Len(pending[a]) > MIN_PENDING_PER_ACCOUNT {
          assert pending[a].items.Keys != {};
          var n :| n in pending[a].items.Keys;
          assert (pending[a].items[n].hash in local) in Locality(pending[a].items, local);
          if pending[a].items[n].hash !in local { spam := spam + {a}; }
        }
      }
    }

    /** Cuts back long pending lists when there are too many pending transactions; the index keeps what is cut. */
    method LimitPending() returns (ghost spam: set<Address>, ghost level: nat)
      requires Valid()
      modifies this`pending
      ensures Valid()
      ensures Limited(old(pending), pending, local, spam, level)
    {
      hide Total, Consistent, NoEmpty, AtLevel, Locality;
      spam, level := {}, MIN_PENDING_PER_ACCOUNT;
      Untouched(pending, {}, level);
      var total := CountPending(pending);
      if total > MAX_PENDING_TOTAL {
        var offenders := Spammers();
        spam := offenders;
        ghost var p := View();
        var cut, l := Equalize(pending, offenders, MAX_PENDING_TOTAL, MIN_PENDING_PER_ACCOUNT);
        level := l;
        LevelKeeps(p, spam, level);
        pending := cut;
      }
    }

    /** Removes one queued transaction of the account that is being cut. */
    method RemoveOne(tx: Tx, ghost was: PoolVal)
      requires Valid() && Within(View(), was, tx.from) && tx.hash in was.all && was.all[tx.hash] == tx
      modifies this`pending, this`queue, this`all, this`ahead
      ensures Valid() && Within(View(), was, tx.from) && RemovalOf(tx.hash, old(View()), View())
      ensures ahead == NoncesAfter(base, old(ahead), tx.hash, old(View()))
    {
      hide Sound, NoEmpty, SameBut, Merge, BeatenHashes, NoncesAfter;
      ghost var p := View();
      RemoveTx(tx.hash);
      if tx.hash in p.all {
        SameButTwice(pending, p.pending, was.pending, tx.from);
        SameButTwice(queue, p.queue, was.queue, tx.from);
      }
    }

    /** Removes the whole queue of an account, lowest nonce first. */
    method RemoveWhole(a: Address)
      requires Valid() && a in queue
      modifies this`pending, this`queue, this`all, this`ahead
      ensures Valid() && Within(View(), old(View()), a) && Emptied(old(View()), View(), a)
      ensures all == old(all) - QueueHashes(old(View()), {a})
      ensures ahead == Lowered(base, old(ahead), a, Items(old(pending), a), Items(old(queue), a).Keys)
    {
      hide Sound, NoEmpty, Sorted, SameBut, Within, LowGone, NextUp, NextDown, Lowest, RemovalOf, QueueIndexed, Emptied,
        QueueHashes, Lowered, NoncesAfter;
      ghost var was := View();
      ghost var q0 := Items(queue, a);
      WithinSelf(was, a);
      var txs := Sorted(queue[a].items);
      SortedQueue(was, a);
      QueueSound(was, a);
      LowestNone(q0);
      assert Lowest(q0, 0).Keys == {};
      LowStart(was, a);
      NothingLowered(base, ahead, a, Items(pending, a));
      for i := 0 to |txs|
        invariant Valid() && Within(View(), was, a) && LowGone(was, View(), a, Lowest(q0, i).Keys)
        invariant ahead == Lowered(base, old(ahead), a, Items(was.pending, a), Lowest(q0, i).Keys)
      {
        var tx := txs[i];
        assert tx in txs;
        InOrder(q0, i);
        ghost var p := View();
        LowNonces(base, old(ahead), was, p, a, Lowest(q0, i).Keys, tx.nonce);
        RemoveOne(tx, was);
        LowStep(was, p, View(), a, Lowest(q0, i).Keys, tx.nonce);
      }
      LowestAll(q0);
      LowEnd(was, View(), a);
    }

    /** Removes the highest nonce left of the account's former queue. */
    method RemoveLast(tx: Tx, ghost a: Address, ghost was: PoolVal, ghost i: nat, ghost ahead0: map<Address, nat>)
      requires Valid() && Within(View(), was, a) && QueueIndexed(was, a) && 0 < i <= |Items(was.queue, a)|
      requires WellNonced(Items(was.queue, a)) && tx == Sorted(Items(was.queue, a))[i - 1] && tx.from == a
      requires tx.hash in was.all && was.all[tx.hash] == tx
      requires LowLeft(was, View(), a, i) && ahead == LoweredTo(base, ahead0, was, a, i)
      modifies this`pending, this`queue, this`all, this`ahead
      ensures Valid() && Within(View(), was, a) && LowLeft(was, View(), a, i - 1)
      ensures ahead == LoweredTo(base, ahead0, was, a, i - 1)
    {
      hide Sound, NoEmpty, Sorted, Within, HighGone, NextUp, NextDown, Lowest, RemovalOf, QueueIndexed, Upper, Lowered,
        NoncesAfter;
      InOrder(Items(was.queue, a), i - 1);
      ghost var p := View();
      HighNonces(base, ahead0, was, p, a, Upper(Items(was.queue, a), i), tx.nonce);
      RemoveOne(tx, was);
      HighStep(was, p, View(), a, Upper(Items(was.queue, a), i), tx.nonce);
    }

    /** Removes the `drop` highest nonces from an account's queue. */
    method RemoveHighest(a: Address, drop: nat)
      requires Valid() && a in queue && drop < Len(queue[a])
      modifies this`pending, this`queue, this`all, this`ahead
      ensures Valid() && Within(View(), old(View()), a) && Shortened(old(View()), View(), a, drop)
      ensures all == old(all) - CutHashes(old(View()), Some(a), drop)
      ensures ahead == Lowered(base, old(ahead), a, Items(old(pending), a), Highest(Items(old(queue), a), drop))
    {
      hide Sound, NoEmpty, Sorted, Within, LowLeft, QueueIndexed, Shortened, CutHashes, LoweredTo, Highest, Lowered;
      ghost var was := View();
      WithinSelf(was, a);
      HighStart(was, a);
      HighestNonces(base, ahead, was, a, drop);
      var txs := Sorted(queue[a].items);
      SortedQueue(was, a);
      QueueSound(was, a);
      var i, left := |txs|, drop;
      while i > 0 && left > 0
        invariant 0 <= i <= |txs| && left == drop - (|txs| - i) && left >= 0
        invariant Valid() && Within(View(), was, a) && LowLeft(was, View(), a, i)
        invariant ahead == LoweredTo(base, old(ahead), was, a, i)
      {
        var tx := txs[i - 1];
        assert tx in txs;
        RemoveLast(tx, a, was, i, old(ahead));
        i, left := i - 1, left - 1;
      }
      assert i == |Items(was.queue, a)| - drop;
      HighEnd(was, View(), a, drop);
    }

    /** One round of the overflow loop: takes the last account off the list. */
    method DropNext(addresses0: seq<Address>, drop0: nat, ghost was: PoolVal, ghost whole0: set<Address>,
                    ghost ahead0: map<Address, nat>)
      returns (addresses: seq<Address>, drop: nat, ghost whole: set<Address>, ghost part: Option<Address>, ghost k: nat)
      requires Valid() && drop0 > 0 && forall i, j :: 0 <= i < j < |addresses0| ==> addresses0[i] != addresses0[j]
      requires Shedding(was, View(), AddressSet(addresses0), whole0, None, 0, drop0)
      requires forall a :: NonceFate(base, was, ahead0, ahead, whole0, None, 0, a)
      modifies this`pending, this`queue, this`all, this`ahead
      ensures Valid() && addresses < addresses0 && (drop > 0 ==> part.None? && k == 0)
      ensures Shedding(was, View(), AddressSet(addresses), whole, part, k, drop)
      ensures forall a :: NonceFate(base, was, ahead0, ahead, whole, part, k, a)
    {
      hide Sound, NoEmpty, Within, Shedding, Emptied, Shortened, QueueHashes, CutHashes, NonceFate, Lowered, Highest;
      ghost var p, left, between := View(), AddressSet(addresses0), ahead;
      SomeLeft(was, p, left, whole0, None, 0, drop0);
      assert addresses0 == [] ==> left == {};
      var a := addresses0[|addresses0| - 1];
      addresses := addresses0[..|addresses0| - 1];
      LastAddress(addresses0);
      StillThere(was, p, left, whole0, None, 0, drop0, a);
      var size := Len(queue[a]);
      if size <= drop0 {
        RemoveWhole(a);
        drop, whole, part, k := drop0 - size, whole0 + {a}, None, 0;
        ShedWhole(was, p, View(), left, whole0, drop0, a);
        NonceStep(base, was, p, ahead0, between, ahead, whole0, whole, None, 0, a);
      } else {
        RemoveHighest(a, drop0);
        drop, whole, part, k := 0, whole0, Some(a), drop0;
        ShedPart(was, p, View(), left, whole0, drop0, a);
        NonceStep(base, was, p, ahead0, between, ahead, whole0, whole0, Some(a), drop0, a);
      }
    }

    /**
     * Drops queued transactions, whole accounts at a time in some order, until as many are gone as there were too
     * many. The accounts never run out: what their lists hold together covers what is still to be dropped.
     */
    method DropOverflow(queued: nat) returns (ghost whole: set<Address>, ghost part: Option<Address>, ghost k: nat)
      requires Valid() && queued == Total(queue) && queued > MAX_QUEUED_IN_TOTAL
      modifies this`pending, this`queue, this`all, this`ahead
      ensures Valid()
      ensures ShedBy(old(View()), View(), whole, part, k)
      ensures forall a :: NonceFate(base, old(View()), old(ahead), ahead, whole, part, k, a)
      ensures AllFiled(View()) <==> AllFiled(old(View())) && Untangled(old(View()), whole, part, k)
    {
      hide Sound, NoEmpty, Shedding, ShedBy, NonceFate, AllFiled, Untangled;
      ghost var was := View();
      var addresses := AddressesOf(queue);
      var drop: nat := queued - MAX_QUEUED_IN_TOTAL;
      whole, part, k := {}, None, 0;
      ShedStart(was, drop);
      NonceStart(base, was, ahead);
      while drop > 0
        invariant Valid() && (forall i, j :: 0 <= i < j < |addresses| ==> addresses[i] != addresses[j])
        invariant Shedding(was, View(), AddressSet(addresses), whole, part, k, drop)
        invariant drop > 0 ==> part.None? && k == 0
        invariant forall a :: NonceFate(base, was, old(ahead), ahead, whole, part, k, a)
        decreases |addresses|
      {
        addresses, drop, whole, part, k := DropNext(addresses, drop, was, whole, old(ahead));
      }
      ShedEnd(was, View(), AddressSet(addresses), whole, part, k);
      ShedFiled(was, View(), whole, part, k);
    }

    /** Moves what has become executable to pending, then enforces the two limits. */
    method PromoteExecutables(st: ChainState) returns (ghost s: Passes)
      requires Valid()
      modifies this`pending, this`queue, this`all, this`ahead
      ensures Valid()
      ensures Settles(st, base, local, old(View()), old(ahead), s, View(), ahead)
      ensures AllFiled(View()) <==> AllFiled(old(View())) && Tidy(s)
      ensures forall t: Tx :: PromotedTo(st, StartOf(base, old(ahead), t.from), old(View()), s.promoted, t)
      ensures OnlyFit(st, base, old(ahead), old(View()), s.promoted)
      ensures forall t :: Filed(View(), t) ==> In(old(pending), t) || (In(old(queue), t) && Fit(st, t))
    {
      hide Consistent, NoEmpty, Total, Tracked, Promotion, Limited, ShedBy, NonceFate, AllFiled, Tidy, Untangled,
        PromotedTo, OnlyFit, Fit, NonceRises, Risen, StartOf;
      var queued := PromoteQueued(st);
      ghost var promoted, nonces := View(), ahead;
      ghost var spam, level := LimitPending();
      s := Passes(promoted, nonces, View(), spam, level, {}, None, 0);
      if queued > MAX_QUEUED_IN_TOTAL {
        assert ahead == nonces;
        ghost var whole, part, k := DropOverflow(queued);
        s := s.(whole := whole, part := part, k := k);
      }
      SettledFiled(st, base, local, old(View()), old(ahead), s, View(), ahead);
      SettledLaws(st, base, local, old(View()), old(ahead), s, View(), ahead);
    }

    /** Starts the pending nonces over: one after the last pending transaction of each account. */
    method ResetNonces()
      requires Valid()
      modifies this`ahead
      ensures ahead == old(ahead) + NextNonces(pending)
    {
      hide Sound, Sorted, WithNext, NextNonces, NextNonce, NoEmpty;
      ghost var ahead0 := ahead;
      var left := pending.Keys;
      NextStart(pending, ahead);
      while left != {}
        invariant left <= pending.Keys && ahead == WithNext(pending, left, ahead0)
        decreases |left|
      {
        var a :| a in left;
        var txs := Sorted(pending[a].items);
        ListFilled(pending, a);
        NextStep(pending, left, ahead0, a);
        ahead := ahead[a := txs[|txs| - 1].nonce + 1];
        left := left - {a};
      }
    }

    /** Brings the pool in line with a new head. */
    method ResetState(current: Option<ChainState>)
      returns (ghost strays: set<Tx>, ghost demoted: PoolVal, ghost s: Passes)
      requires Valid()
      modifies this`pending, this`queue, this`all, this`ahead, this`base
      ensures Valid()
      ensures current.None? ==> View() == old(View()) && ahead == old(ahead) && base == old(base)
      ensures current.Some? ==>
                && base == current.value
                && Demotes(current.value, old(View()), demoted, strays)
                && Settles(current.value, base, local, demoted, NextNonces(demoted.pending), s, View(), ahead)
      ensures current.Some? ==>
                (AllFiled(View()) <==>
                   AllFiled(old(View())) && (forall t :: !SpurnedBy(current.value, old(View()), t)) && Tidy(s))
    {
      hide Sound, NoEmpty, Tracked, Demotion, Settles, NextNonces, SpurnedBy, AllFiled, Tidy;
      strays, demoted, s := {}, View(), Passes(View(), ahead, View(), {}, 0, {}, None, 0);
      if current.None? { return; }
      base, ahead := current.value, map[];
      strays := DemoteUnexecutables(current.value);
      demoted := View();
      ResetNonces();
      assert map[] + NextNonces(pending) == NextNonces(pending);
      s := PromoteExecutables(current.value);
    }

    /** Queues a transaction that is new and valid. */
    method TryAdd(tx: Tx, valid: bool) returns (ok: bool)
      requires Valid()
      modifies this`queue, this`all
      ensures Valid() && ok == (tx.hash !in old(all) && valid)
      ensures View() == if ok then Enqueue(old(View()), tx) else old(View())
      ensures ok ==> forall t :: EnqueuedTo(old(View()), View(), tx, t)
      ensures AllFiled(View()) <==> AllFiled(old(View()))
    {
      hide Consistent, NoEmpty, AllStrict, Added, Accepts, Replaced, AllFiled, EnqueuedTo;
      if tx.hash in all || !valid { return false; }
      if Filed(View(), tx) { FiledIndexed(View(), tx); }
      EnqueueKeeps(View(), tx);
      StrictKept(queue, false, tx);
      EnqueuedFiled(View(), tx);
      forall t ensures EnqueuedTo(View(), Enqueue(View(), tx), tx, t) { EnqueuedExactly(View(), tx, t); }
      EnqueueTx(tx);
      ok := true;
    }

    /** Queues a transaction that is new and valid, and then promotes. */
    method Add(tx: Tx, valid: bool, current: Option<ChainState>) returns (ok: bool, ghost s: Passes)
      requires Valid()
      modifies this`pending, this`queue, this`all, this`ahead
      ensures Valid() && ok == (tx.hash !in old(all) && valid && current.Some?)
      ensures !ok ==> View() == (if tx.hash !in old(all) && valid then Enqueue(old(View()), tx) else old(View()))
                      && ahead == old(ahead)
      ensures ok ==> Settles(current.value, base, local, Enqueue(old(View()), tx), old(ahead), s, View(), ahead)
      ensures ok ==> (AllFiled(View()) <==> AllFiled(old(View())) && Tidy(s))
    {
      hide Sound, NoEmpty, Enqueue, Settles, AllFiled, Tidy;
      s := Passes(View(), ahead, View(), {}, 0, {}, None, 0);
      ok := TryAdd(tx, valid);
      if !ok || current.None? { return false, s; }
      s := PromoteExecutables(current.value);
    }

    /** Queues what is valid of a batch, and promotes if anything was added. */
    method AddBatch(txs: seq<(Tx, bool)>, current: Option<ChainState>) returns (added: nat, ghost s: Passes)
      requires Valid()
      modifies this`pending, this`queue, this`all, this`ahead
      ensures Valid() && added == WithBatch(old(View()), txs).1
      ensures if added > 0 && current.Some?
              then Settles(current.value, base, local, WithBatch(old(View()), txs).0, old(ahead), s, View(), ahead)
              else View() == WithBatch(old(View()), txs).0 && ahead == old(ahead)
      ensures AllFiled(View()) <==> AllFiled(old(View())) && (added > 0 && current.Some? ==> Tidy(s))
    {
      hide Sound, NoEmpty, Enqueue, Settles, AllFiled, Tidy;
      s := Passes(View(), ahead, View(), {}, 0, {}, None, 0);
      added := 0;
      for i := 0 to |txs|
        invariant Valid() && ahead == old(ahead) && (View(), added) == WithBatch(old(View()), txs[..i])
        invariant AllFiled(View()) <==> AllFiled(old(View()))
      {
        assert txs[..i + 1][..i] == txs[..i];
        var ok := TryAdd(txs[i].0, txs[i].1);
        if ok { added := added + 1; }
      }
      assert txs[..|txs|] == txs;
      if added > 0 && current.Some? {
        s := PromoteExecutables(current.value);
      }
    }

    /** Removes hashes one after the other. */
    method RemoveBatch(hashes: seq<TxId>) returns (ghost trace: seq<PoolVal>)
      requires Valid()
      modifies this`pending, this`queue, this`all, this`ahead
      ensures Valid() && Removals(hashes, trace) && trace[0] == old(View()) && trace[|hashes|] == View()
      ensures forall h :: h in all ==> h in old(all) && h !in hashes && all[h] == old(all)[h]
      ensures ahead == NoncesAfterAll(base, old(ahead), hashes, trace)
    {
      hide Sound, NoEmpty, Merge, BeatenHashes, SameBut, NoncesAfter;
      trace := [View()];
      for i := 0 to |hashes|
        invariant Valid() && Removals(hashes[..i], trace) && trace[0] == old(View()) && trace[i] == View()
        invariant forall h :: h in all ==> h in old(all) && h !in hashes[..i] && all[h] == old(all)[h]
        invariant ahead == NoncesAfterAll(base, old(ahead), hashes[..i], trace)
      {
        RemoveTx(hashes[i]);
        RemovalsStep(hashes, trace, i, View());
        NoncesStep(base, old(ahead), hashes, trace, i, View());
        trace := trace + [View()];
      }
      assert hashes[..|hashes|] == hashes;
    }

    /** The executable transactions of each account in nonce order. */
    method Pending(current: Option<ChainState>)
      returns (lists: Option<map<Address, seq<Tx>>>, ghost mid: PoolVal, ghost s: Passes, ghost strays: set<Tx>)
      requires Valid()
      modifies this`pending, this`queue, this`all, this`ahead
      ensures Valid() && (lists.None? <==> current.None?)
      ensures current.None? ==> View() == old(View()) && ahead == old(ahead)
      ensures current.Some? ==>
                && Settles(current.value, base, local, old(View()), old(ahead), s, mid, ahead)
                && Demotes(current.value, mid, View(), strays)
      ensures current.Some? ==>
                (AllFiled(View()) <==>
                   AllFiled(old(View())) && Tidy(s) && forall t :: !SpurnedBy(current.value, mid, t))
      ensures lists.Some? ==> lists.value.Keys == pending.Keys
      ensures lists.Some? ==>
                forall a :: a in lists.value ==>
                              Executable(current.value, a, lists.value[a]) && lists.value[a] == Sorted(pending[a].items)
    {
      hide Sound, NoEmpty, Settles, Tracked, Sorted, Executable, AllFiled, Tidy, SpurnedBy;
      mid, s, strays := View(), Passes(View(), ahead, View(), {}, 0, {}, None, 0), {};
      lists := None;
      if current.None? { return; }
      s := PromoteExecutables(current.value);
      mid := View();
      strays := DemoteUnexecutables(current.value);
      lists := Some(map a | a in pending :: Sorted(pending[a].items));
      forall a | a in pending ensures Executable(current.value, a, Sorted(pending[a].items)) {
        DemotedExecutable(current.value, mid, View(), a);
      }
    }

    /** Drops the queues of the accounts that have been idle for too long. */
    method Expire(idle: set<Address>)
      requires Valid()
      modifies this`pending, this`queue, this`all, this`ahead
      ensures Valid()
      ensures forall b :: Expiry(old(View()), View(), idle, old(queue).Keys, b)
      ensures all == old(all) - QueueHashes(old(View()), idle * old(queue).Keys)
      ensures forall a :: NonceFate(base, old(View()), old(ahead), ahead, idle * old(queue).Keys, None, 0, a)
      ensures AllFiled(View()) <==>
                AllFiled(old(View())) && forall a :: a in idle && a in old(queue) ==> ClashFree(old(View()), a)
    {
      hide Sound, NoEmpty, Within, Fate, Emptied, QueueHashes, NonceFate, Lowered, AllFiled, ClashFree;
      var addresses := AddressesOf(queue);
      ghost var was := View();
      ExpiryStart(was, idle);
      NonceStart(base, was, ahead);
      assert idle * AddressSet(addresses[..0]) == {};
      for i := 0 to |addresses|
        invariant Valid() && forall b :: Expiry(was, View(), idle, AddressSet(addresses[..i]), b)
        invariant all == was.all - QueueHashes(was, idle * AddressSet(addresses[..i]))
        invariant forall a :: NonceFate(base, was, old(ahead), ahead, idle * AddressSet(addresses[..i]), None, 0, a)
      {
        var a := addresses[i];
        assert addresses[..i + 1] == addresses[..i] + [a] && a !in addresses[..i];
        ghost var p, done, between := View(), AddressSet(addresses[..i]), ahead;
        assert AddressSet(addresses[..i + 1]) == done + {a} && a in AddressSet(addresses) && a in was.queue;
        Unexpired(was, p, idle, done, a);
        if a in queue && a in idle {
          RemoveWhole(a);
          ExpiryStep(was, p, View(), idle, done, a);
          NonceStep(base, was, p, old(ahead), between, ahead, idle * done, idle * (done + {a}), None, 0, a);
        } else {
          assert idle * (done + {a}) == idle * done;
          forall b ensures Expiry(was, View(), idle, done + {a}, b) {
            assert Expiry(was, p, idle, done, b);
          }
        }
      }
      assert addresses[..|addresses|] == addresses;
      ExpireFiled(was, View(), idle);
    }

    constructor (current: ChainState)
      ensures Valid() && View() == PoolVal(map[], map[], map[]) && base == current && ahead == map[] && local == {}
    {
      pending, queue, all, base, ahead, local := map[], map[], map[], current, map[], {};
    }

    /** Any call on the pool. */
    method Apply(op: Op)
      requires Valid()
      modifies this
      ensures Valid()
      ensures base == if op.Reset? && op.current.Some? then op.current.value else old(base)
      ensures local == if op.SetLocal? then old(local) + {op.hash} else old(local)
      ensures op.RemoveTxs? ==> forall h :: h in op.hashes ==> h !in all
    {
      hide Sound, NoEmpty;
      match op
      case AddTx(tx, valid, current) =>
        var ok;
        ghost var s;
        ok, s := Add(tx, valid, current);
      case AddTxs(txs, current) =>
        var added;
        ghost var s;
        added, s := AddBatch(txs, current);
      case RemoveTxs(hashes) => ghost var trace := RemoveBatch(hashes);
      case GetPending(current) =>
        var lists;
        ghost var mid, s, strays;
        lists, mid, s, strays := Pending(current);
      case Reset(current) =>
        ghost var strays, demoted, s := ResetState(current);
      case ExpireIdle(idle) => Expire(idle);
      case SetLocal(hash) => local := local + {hash};
    }
  }

  /** The calls that may reach the pool, each with what it reads from outside. */
  datatype Op =
    | AddTx(tx: Tx, valid: bool, current: Option<ChainState>)
    | AddTxs(txs: seq<(Tx, bool)>, current: Option<ChainState>)
    | RemoveTxs(hashes: seq<TxId>)
    | GetPending(current: Option<ChainState>)
    | Reset(current: Option<ChainState>)
    | ExpireIdle(idle: set<Address>)
    | SetLocal(hash: TxId)

  /**
   * Whatever is called in whatever order: no transaction is filed twice, each filed one is indexed
   * under its place, no list is empty.
   */
  method RunPool(current: ChainState, ops: seq<Op>) returns (pool: TxPool)
    ensures pool.Valid()
    ensures forall tx :: !(In(pool.pending, tx) && In(pool.queue, tx))
    ensures forall tx :: In(pool.pending, tx) || In(pool.queue, tx) ==> tx.hash in pool.all && pool.all[tx.hash] == tx
    ensures forall a :: a in pool.pending ==> pool.pending[a].items != map[]
    ensures forall a :: a in pool.queue ==> pool.queue[a].items != map[]
  {
    pool := new TxPool(current);
    for i := 0 to |ops|
      invariant pool.Valid() && fresh(pool)
    {
      pool.Apply(ops[i]);
    }
    forall tx | Filed(pool.View(), tx) ensures tx.hash in pool.all && pool.all[tx.hash] == tx {
      FiledIndexed(pool.View(), tx);
    }
  }
}
