/**
 * What the transaction pool stores: executable transactions in strict pending lists, future ones
 * in gapped queue lists, and an index of all transactions by hash. Lists appear as the values
 * that the list operations are specified by. The lemmas follow a transaction through the pool:
 * it is filed, or taken in hand on its way to another list, or gone from the index.
 */
module PoolIndex {
  import opened Wrappers
  import opened Nonces
  import opened TxLists
  import opened RateLimit
  import opened Sums

  const MIN_PENDING_PER_ACCOUNT: nat := 16
  const MAX_PENDING_TOTAL: nat := 4096
  const MAX_QUEUED_PER_ACCOUNT: nat := 64
  const MAX_QUEUED_IN_TOTAL: nat := 1024

  datatype PoolVal = PoolVal(pending: Accounts, queue: Accounts, all: map<TxId, Tx>)

  // ----- what the pool keeps

  /** A listed transaction sits under its sender and nonce and is indexed by its hash. */
  ghost predicate TxOk(tx: Tx, a: Address, n: nat, all: map<TxId, Tx>) {
    tx.from == a && tx.nonce == n && tx.hash in all && all[tx.hash] == tx
  }

  ghost predicate ListOk(v: ListVal, a: Address, all: map<TxId, Tx>) {
    CapOk(v) && forall n :: n in v.items ==> TxOk(v.items[n], a, n, all)
  }

  ghost predicate ListsOk(l: Accounts, all: map<TxId, Tx>) {
    forall a :: a in l ==> ListOk(l[a], a, all)
  }

  ghost predicate In(l: Accounts, tx: Tx) {
    tx.from in l && tx.nonce in l[tx.from].items && l[tx.from].items[tx.nonce] == tx
  }

  ghost predicate Filed(p: PoolVal, tx: Tx) {
    In(p.pending, tx) || In(p.queue, tx)
  }

  ghost predicate NoEmpty(l: Accounts) {
    forall a :: a in l ==> l[a].items != map[]
  }

  /** Every filed transaction is well placed and indexed, and none is filed twice. */
  ghost predicate Consistent(p: PoolVal) {
    && ListsOk(p.pending, p.all) && ListsOk(p.queue, p.all)
    && (forall tx :: !(In(p.pending, tx) && In(p.queue, tx)))
    && (forall h :: h in p.all ==> p.all[h].hash == h)
  }

  /** Taken out of its list but still indexed. */
  ghost predicate InHand(p: PoolVal, tx: Tx) {
    !Filed(p, tx) && tx.hash in p.all && p.all[tx.hash] == tx
  }

  lemma FiledIndexed(p: PoolVal, tx: Tx)
    requires Consistent(p) && Filed(p, tx)
    ensures tx.hash in p.all && p.all[tx.hash] == tx
  {
    if In(p.pending, tx) {
      assert ListOk(p.pending[tx.from], tx.from, p.all);
      assert TxOk(p.pending[tx.from].items[tx.nonce], tx.from, tx.nonce, p.all);
    } else {
      assert ListOk(p.queue[tx.from], tx.from, p.all);
      assert TxOk(p.queue[tx.from].items[tx.nonce], tx.from, tx.nonce, p.all);
    }
  }

  // ----- changing one list

  function ListAt(l: Accounts, a: Address, strict: bool): ListVal {
    if a in l then l[a] else ListVal(strict, map[], 0)
  }

  /** Files `tx` in `l`, which takes it, over whatever it replaces there. */
  function IndexAfter(all: map<TxId, Tx>, was: Option<Tx>, tx: Tx): map<TxId, Tx> {
    (if was.Some? then all - {was.value.hash} else all)[tx.hash := tx]
  }

  /** Puts a transaction into the queue, unless one of its nonce there pays as much. */
  function Enqueue(p: PoolVal, tx: Tx): PoolVal {
    var v := ListAt(p.queue, tx.from, false);
    PoolVal(p.pending, p.queue[tx.from := Added(v, tx)],
            if Accepts(v, tx) then IndexAfter(p.all, Replaced(v, tx), tx) else p.all)
  }

  /** Puts a transaction into the pending list, or drops it when one of its nonce there pays as much. */
  function Promote(p: PoolVal, tx: Tx): PoolVal {
    var v := ListAt(p.pending, tx.from, true);
    PoolVal(p.pending[tx.from := Added(v, tx)], p.queue,
            if Accepts(v, tx) then IndexAfter(p.all, Replaced(v, tx), tx) else p.all - {tx.hash})
  }

  /** Adding to a list files the transaction and unfiles at most the one it replaces. */
  lemma AddedIn(l: Accounts, strict: bool, tx: Tx, t: Tx)
    requires WellNonced(ListAt(l, tx.from, strict).items)
    requires forall n :: n in ListAt(l, tx.from, strict).items ==> ListAt(l, tx.from, strict).items[n].from == tx.from
    ensures var v := ListAt(l, tx.from, strict);
            In(l[tx.from := Added(v, tx)], t) <==>
              (In(l, t) && Replaced(v, tx) != Some(t)) || (t == tx && Accepts(v, tx))
  {
    var v := ListAt(l, tx.from, strict);
    assert tx.nonce in v.items ==> v.items[tx.nonce].nonce == tx.nonce && v.items[tx.nonce].from == tx.from;
  }

  /** Index entries that no listed transaction needs can go. */
  lemma ListsOkFrame(l: Accounts, all: map<TxId, Tx>, other: map<TxId, Tx>)
    requires ListsOk(l, all)
    requires forall t :: In(l, t) ==> t.hash in other && other[t.hash] == t
    ensures ListsOk(l, other)
  {
    forall a | a in l ensures ListOk(l[a], a, other) {
      forall n | n in l[a].items ensures TxOk(l[a].items[n], a, n, other) {
        assert TxOk(l[a].items[n], a, n, all);
        assert In(l, l[a].items[n]);
      }
    }
  }

  /** Replacing an index entry is safe for everything that is filed and not replaced. */
  lemma IndexKept(p: PoolVal, was: Option<Tx>, tx: Tx, t: Tx)
    requires Consistent(p) && (was.Some? ==> Filed(p, was.value)) && !Filed(p, tx)
    requires tx.hash in p.all ==> p.all[tx.hash] == tx
    requires Filed(p, t) || InHand(p, t)
    requires was != Some(t)
    ensures t.hash in IndexAfter(p.all, was, tx) && IndexAfter(p.all, was, tx)[t.hash] == t
  {
    if Filed(p, t) { FiledIndexed(p, t); }
    if was.Some? { FiledIndexed(p, was.value); }
  }

  lemma ListNonced(l: Accounts, all: map<TxId, Tx>, a: Address, strict: bool)
    requires ListsOk(l, all)
    ensures WellNonced(ListAt(l, a, strict).items)
    ensures forall n :: n in ListAt(l, a, strict).items ==> ListAt(l, a, strict).items[n].from == a
    ensures forall n :: n in ListAt(l, a, strict).items ==> In(l, ListAt(l, a, strict).items[n])
  {
    if a in l {
      assert ListOk(l[a], a, all);
      forall n | n in l[a].items ensures l[a].items[n].nonce == n && l[a].items[n].from == a && In(l, l[a].items[n]) {
        assert TxOk(l[a].items[n], a, n, all);
      }
    }
  }

  /** Queueing a transaction that is filed nowhere keeps the pool consistent and disturbs no other one in hand. */
  lemma EnqueueKeeps(p: PoolVal, tx: Tx)
    requires Consistent(p) && !Filed(p, tx) && (tx.hash in p.all ==> p.all[tx.hash] == tx)
    ensures Consistent(Enqueue(p, tx))
    ensures NoEmpty(p.queue) ==> NoEmpty(Enqueue(p, tx).queue)
    ensures forall t :: t != tx && InHand(p, t) ==> InHand(Enqueue(p, tx), t)
  {
    hide Added, Accepts, Replaced;
    var v := ListAt(p.queue, tx.from, false);
    var q := Enqueue(p, tx);
    ListNonced(p.queue, p.all, tx.from, false);
    AddedFacts(v, tx);
    forall t ensures In(q.queue, t) <==> (In(p.queue, t) && Replaced(v, tx) != Some(t)) || (t == tx && Accepts(v, tx)) {
      AddedIn(p.queue, false, tx, t);
    }
    if Accepts(v, tx) {
      forall t | (Filed(p, t) || InHand(p, t)) && Replaced(v, tx) != Some(t)
        ensures t.hash in q.all && q.all[t.hash] == t
      {
        IndexKept(p, Replaced(v, tx), tx, t);
      }
      AddedListsOk(p.queue, p.all, q.all, false, tx);
      ListsOkFrame(p.pending, p.all, q.all);
    } else {
      assert q.queue == p.queue;
    }
  }

  /** The same for promotion; a transaction that is turned down leaves the index. */
  lemma PromoteKeeps(p: PoolVal, tx: Tx)
    requires Consistent(p) && InHand(p, tx)
    ensures Consistent(Promote(p, tx))
    ensures NoEmpty(p.pending) ==> NoEmpty(Promote(p, tx).pending)
    ensures forall t :: t != tx && InHand(p, t) ==> InHand(Promote(p, tx), t)
  {
    hide Added, Accepts, Replaced;
    var v := ListAt(p.pending, tx.from, true);
    var q := Promote(p, tx);
    ListNonced(p.pending, p.all, tx.from, true);
    AddedFacts(v, tx);
    forall t
      ensures In(q.pending, t) <==> (In(p.pending, t) && Replaced(v, tx) != Some(t)) || (t == tx && Accepts(v, tx))
    {
      AddedIn(p.pending, true, tx, t);
    }
    forall t | (Filed(p, t) || InHand(p, t)) && Replaced(v, tx) != Some(t) && (t != tx || Accepts(v, tx))
      ensures t.hash in q.all && q.all[t.hash] == t
    {
      if Accepts(v, tx) {
        IndexKept(p, Replaced(v, tx), tx, t);
      } else if Filed(p, t) {
        FiledIndexed(p, t);
      }
    }
    if Accepts(v, tx) {
      AddedListsOk(p.pending, p.all, q.all, true, tx);
    } else {
      assert q.pending == p.pending;
      ListsOkFrame(p.pending, p.all, q.all);
    }
    ListsOkFrame(p.queue, p.all, q.all);
  }

  lemma AddedFacts(v: ListVal, tx: Tx)
    ensures !Accepts(v, tx) ==> Added(v, tx) == v && Replaced(v, tx).None? && v.items != map[]
    ensures Added(v, tx).items != map[]
    ensures Replaced(v, tx).Some? ==> tx.nonce in v.items && v.items[tx.nonce] == Replaced(v, tx).value
  {
    assert tx.nonce in Added(v, tx).items;
  }

  /** The list a transaction was added to is sound for an index that knows everything left in it. */
  lemma AddedListsOk(l: Accounts, all: map<TxId, Tx>, other: map<TxId, Tx>, strict: bool, tx: Tx)
    requires ListsOk(l, all) && tx.hash in other && other[tx.hash] == tx
    requires var v := ListAt(l, tx.from, strict);
             && Accepts(v, tx)
             && forall t :: In(l, t) && Replaced(v, tx) != Some(t) ==> t.hash in other && other[t.hash] == t
    ensures ListsOk(l[tx.from := Added(ListAt(l, tx.from, strict), tx)], other)
  {
    var v := ListAt(l, tx.from, strict);
    var m := l[tx.from := Added(v, tx)];
    ListNonced(l, all, tx.from, strict);
    forall a | a in m ensures ListOk(m[a], a, other) {
      assert a in l ==> ListOk(l[a], a, all);
      forall n | n in m[a].items ensures TxOk(m[a].items[n], a, n, other) {
        if !(a == tx.from && n == tx.nonce) {
          assert TxOk(l[a].items[n], a, n, all);
          assert In(l, l[a].items[n]);
        }
      }
    }
  }

  // ----- following transactions through the pool

  ghost predicate Held(p: PoolVal, hand: set<Tx>, t: Tx) {
    Filed(p, t) || t in hand
  }

  /**
   * `p` was reached from `was` by moving transactions around. Those in `hand` have been taken out
   * of their lists and are still indexed; whatever else is not filed any more has left the index,
   * and nothing that was indexed without being filed has been touched.
   */
  ghost predicate Tracked(was: PoolVal, p: PoolVal, hand: set<Tx>) {
    && (forall t :: Held(p, hand, t) ==> Filed(was, t))
    && (forall t :: t in hand ==> InHand(p, t))
    && (forall h :: h in p.all <==> h in was.all && (Filed(was, was.all[h]) ==> Held(p, hand, was.all[h])))
    && (forall h :: h in p.all ==> p.all[h] == was.all[h])
  }

  lemma TrackedStart(p: PoolVal)
    ensures Tracked(p, p, {})
  {
  }

  /** A step that lets go of `gone`, in the lists or in hand as well as in the index. */
  lemma TrackedStep(was: PoolVal, p: PoolVal, hand: set<Tx>, q: PoolVal, hand2: set<Tx>, gone: set<Tx>)
    requires Tracked(was, p, hand)
    requires forall t :: Held(q, hand2, t) <==> Held(p, hand, t) && t !in gone
    requires forall t :: t in gone ==> Held(p, hand, t)
    requires forall h :: h in q.all <==> h in p.all && p.all[h] !in gone
    requires forall h :: h in q.all ==> q.all[h] == p.all[h]
    requires forall t :: t in hand2 ==> InHand(q, t)
    ensures Tracked(was, q, hand2)
  {
    forall h ensures h in q.all <==> h in was.all && (Filed(was, was.all[h]) ==> Held(q, hand2, was.all[h])) {
      if h in was.all {
        var t := was.all[h];
        assert h in p.all <==> (Filed(was, t) ==> Held(p, hand, t));
        assert t in gone ==> Held(p, hand, t) && Filed(was, t);
      }
    }
  }

  /** `v` is `u` without some of its entries. */
  ghost predicate PartOf(v: ListVal, u: ListVal) {
    && CapOk(v)
    && forall n :: n in v.items ==> n in u.items && v.items[n] == u.items[n]
  }

  lemma CutIn(l: Accounts, all: map<TxId, Tx>, a: Address, v: ListVal)
    requires ListsOk(l, all) && a in l && PartOf(v, l[a])
    ensures ListsOk(l[a := v], all)
    ensures forall t :: In(l[a := v], t) <==> In(l, t) && (t.from == a ==> t.nonce in v.items)
  {
    var m := l[a := v];
    forall b | b in m ensures ListOk(m[b], b, all) {
      assert ListOk(l[b], b, all);
      forall n | n in m[b].items ensures TxOk(m[b].items[n], b, n, all) {
        assert TxOk(l[b].items[n], b, n, all);
      }
    }
  }

  /** The transactions that a list loses when it is cut down to `v`. */
  ghost predicate Cuts(l: Accounts, a: Address, v: ListVal, out: set<Tx>) {
    forall t :: t in out <==> In(l, t) && t.from == a && t.nonce !in v.items
  }

  lemma CutQueue(was: PoolVal, p: PoolVal, hand: set<Tx>, a: Address, v: ListVal, out: set<Tx>)
    requires Consistent(p) && Tracked(was, p, hand)
    requires a in p.queue && PartOf(v, p.queue[a]) && Cuts(p.queue, a, v, out)
    ensures var q := p.(queue := p.queue[a := v]);
            Consistent(q) && Tracked(was, q, hand + out)
  {
    hide ListsOk, Tracked, In;
    var q := p.(queue := p.queue[a := v]);
    CutIn(p.queue, p.all, a, v);
    forall t | t in hand + out ensures InHand(q, t) {
      HandFacts(was, p, hand, t);
      if Filed(p, t) { FiledIndexed(p, t); }
    }
    TrackedStep(was, p, hand, q, hand + out, {});
  }

  lemma CutPending(was: PoolVal, p: PoolVal, hand: set<Tx>, a: Address, v: ListVal, out: set<Tx>)
    requires Consistent(p) && Tracked(was, p, hand)
    requires a in p.pending && PartOf(v, p.pending[a]) && Cuts(p.pending, a, v, out)
    ensures var q := p.(pending := p.pending[a := v]);
            Consistent(q) && Tracked(was, q, hand + out)
  {
    hide ListsOk, Tracked, In;
    var q := p.(pending := p.pending[a := v]);
    CutIn(p.pending, p.all, a, v);
    forall t | t in hand + out ensures InHand(q, t) {
      HandFacts(was, p, hand, t);
      if Filed(p, t) { FiledIndexed(p, t); }
    }
    TrackedStep(was, p, hand, q, hand + out, {});
  }

  lemma HandFacts(was: PoolVal, p: PoolVal, hand: set<Tx>, t: Tx)
    requires Tracked(was, p, hand)
    ensures t in hand ==> InHand(p, t)
  {
  }

  /** Dropping a transaction in hand from the index. */
  lemma DropTracked(was: PoolVal, p: PoolVal, hand: set<Tx>, tx: Tx)
    requires Consistent(p) && Tracked(was, p, hand) && tx in hand
    ensures var q := p.(all := p.all - {tx.hash});
            Consistent(q) && Tracked(was, q, hand - {tx})
  {
    var q := p.(all := p.all - {tx.hash});
    assert InHand(p, tx);
    forall t | Filed(p, t) ensures t.hash in q.all && q.all[t.hash] == t { FiledIndexed(p, t); }
    ListsOkFrame(p.pending, p.all, q.all);
    ListsOkFrame(p.queue, p.all, q.all);
    TrackedStep(was, p, hand, q, hand - {tx}, {tx});
  }

  /** Filing a transaction in hand changes the index only by what it replaces. */
  lemma IndexOf(p: PoolVal, was: Option<Tx>, tx: Tx)
    requires Consistent(p) && InHand(p, tx) && (was.Some? ==> Filed(p, was.value))
    ensures var all := IndexAfter(p.all, was, tx);
            && (forall h :: h in all <==> h in p.all && Some(p.all[h]) != was)
            && (forall h :: h in all ==> all[h] == p.all[h])
  {
    if was.Some? { FiledIndexed(p, was.value); }
  }

  ghost function Single(was: Option<Tx>): set<Tx> {
    if was.Some? then {was.value} else {}
  }

  lemma PromoteTracked(was: PoolVal, p: PoolVal, hand: set<Tx>, tx: Tx)
    requires Consistent(p) && Tracked(was, p, hand) && tx in hand
    ensures Consistent(Promote(p, tx)) && Tracked(was, Promote(p, tx), hand - {tx})
  {
    hide Added, Accepts, Replaced, Consistent, In;
    var v := ListAt(p.pending, tx.from, true);
    var q := Promote(p, tx);
    HandFacts(was, p, hand, tx);
    PromoteKeeps(p, tx);
    PromoteFiled(p, tx);
    if Accepts(v, tx) {
      IndexOf(p, Replaced(v, tx), tx);
      TrackedStep(was, p, hand, q, hand - {tx}, Single(Replaced(v, tx)));
    } else {
      assert q.all == p.all - {tx.hash};
      HashesTell(p);
      TrackedStep(was, p, hand, q, hand - {tx}, {tx});
    }
  }

  lemma HashesTell(p: PoolVal)
    requires Consistent(p)
    ensures forall h :: h in p.all ==> p.all[h].hash == h
  {
  }

  lemma PromoteFiled(p: PoolVal, tx: Tx)
    requires Consistent(p) && InHand(p, tx)
    ensures var v := ListAt(p.pending, tx.from, true);
            && (Replaced(v, tx).Some? ==> Filed(p, Replaced(v, tx).value))
            && (forall t :: Filed(Promote(p, tx), t) <==>
                              (Filed(p, t) && Replaced(v, tx) != Some(t)) || (t == tx && Accepts(v, tx)))
            && (!Accepts(v, tx) ==> Replaced(v, tx).None?)
  {
    hide Added, Accepts, Replaced;
    var v := ListAt(p.pending, tx.from, true);
    ListNonced(p.pending, p.all, tx.from, true);
    AddedFacts(v, tx);
    forall t ensures Filed(Promote(p, tx), t) <==>
                       (Filed(p, t) && Replaced(v, tx) != Some(t)) || (t == tx && Accepts(v, tx))
    {
      AddedIn(p.pending, true, tx, t);
    }
  }

  lemma EnqueueFiled(p: PoolVal, tx: Tx)
    requires Consistent(p) && !Filed(p, tx)
    ensures var v := ListAt(p.queue, tx.from, false);
            && (Replaced(v, tx).Some? ==> Filed(p, Replaced(v, tx).value))
            && (forall t :: Filed(Enqueue(p, tx), t) <==>
                              (Filed(p, t) && Replaced(v, tx) != Some(t)) || (t == tx && Accepts(v, tx)))
            && (!Accepts(v, tx) ==> Replaced(v, tx).None?)
  {
    hide Added, Accepts, Replaced;
    var v := ListAt(p.queue, tx.from, false);
    ListNonced(p.queue, p.all, tx.from, false);
    AddedFacts(v, tx);
    forall t ensures Filed(Enqueue(p, tx), t) <==>
                       (Filed(p, t) && Replaced(v, tx) != Some(t)) || (t == tx && Accepts(v, tx))
    {
      AddedIn(p.queue, false, tx, t);
    }
  }

  /** A transaction the queue turns down stays in hand: the index still has it. */
  lemma EnqueueTracked(was: PoolVal, p: PoolVal, hand: set<Tx>, tx: Tx)
    requires Consistent(p) && Tracked(was, p, hand) && tx in hand
    ensures Consistent(Enqueue(p, tx))
    ensures Tracked(was, Enqueue(p, tx), if Accepts(ListAt(p.queue, tx.from, false), tx) then hand - {tx} else hand)
  {
    hide Added, Accepts, Replaced, Consistent, In;
    var v := ListAt(p.queue, tx.from, false);
    var q := Enqueue(p, tx);
    HandFacts(was, p, hand, tx);
    EnqueueKeeps(p, tx);
    EnqueueFiled(p, tx);
    if Accepts(v, tx) {
      IndexOf(p, Replaced(v, tx), tx);
      TrackedStep(was, p, hand, q, hand - {tx}, Single(Replaced(v, tx)));
    } else {
      assert InHand(q, tx);
      TrackedStep(was, p, hand, q, hand, {});
    }
  }

  /** Deleting an empty list loses nothing. */
  lemma DropEmpty(was: PoolVal, p: PoolVal, hand: set<Tx>, a: Address)
    requires Consistent(p) && Tracked(was, p, hand)
    ensures a in p.queue && p.queue[a].items == map[] ==>
              Consistent(p.(queue := p.queue - {a})) && Tracked(was, p.(queue := p.queue - {a}), hand)
    ensures a in p.pending && p.pending[a].items == map[] ==>
              Consistent(p.(pending := p.pending - {a})) && Tracked(was, p.(pending := p.pending - {a}), hand)
  {
    hide Tracked;
    forall q, t | (q == p.(queue := p.queue - {a}) && a in p.queue && p.queue[a].items == map[])
               || (q == p.(pending := p.pending - {a}) && a in p.pending && p.pending[a].items == map[])
      ensures Filed(q, t) <==> Filed(p, t)
    {
    }
    forall t | t in hand ensures InHand(p, t) { HandFacts(was, p, hand, t); }
    if a in p.queue && p.queue[a].items == map[] {
      TrackedStep(was, p, hand, p.(queue := p.queue - {a}), hand, {});
    }
    if a in p.pending && p.pending[a].items == map[] {
      TrackedStep(was, p, hand, p.(pending := p.pending - {a}), hand, {});
    }
  }
}
