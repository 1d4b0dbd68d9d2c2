/** What each pass over the transaction pool does to an account, and the steps it is made of. */
module PoolSteps {
  import opened Collections
  import opened Wrappers
  import opened Nonces
  import opened TxLists
  import opened RateLimit
  import opened PoolIndex
  import opened Sums

  /** Nonces and balances of the chain head; accounts that do not exist have zero of both. */
  datatype ChainState = ChainState(nonces: map<Address, nat>, balances: map<Address, nat>) {
    function Nonce(a: Address): nat {
      if a in nonces then nonces[a] else 0
    }

    function Balance(a: Address): nat {
      if a in balances then balances[a] else 0
    }
  }

  function NonceOf(base: ChainState, ahead: map<Address, nat>, a: Address): nat {
    if a in ahead then ahead[a] else base.Nonce(a)
  }

  function Items(l: Accounts, a: Address): TxMap {
    if a in l then l[a].items else map[]
  }

  ghost predicate AllStrict(l: Accounts, strict: bool) {
    forall a :: a in l ==> l[a].strict == strict
  }

  ghost predicate Sound(p: PoolVal) {
    Consistent(p) && AllStrict(p.pending, true) && AllStrict(p.queue, false)
  }

  ghost predicate SameAt<V>(l: map<Address, V>, m: map<Address, V>, a: Address) {
    (a in l <==> a in m) && (a in l && a in m ==> l[a] == m[a])
  }

  /** Only the entry of `a` may differ. */
  ghost predicate SameBut<V>(l: map<Address, V>, m: map<Address, V>, a: Address) {
    forall b :: b != a ==> SameAt(l, m, b)
  }

  lemma SameButTwice<V>(l: map<Address, V>, m: map<Address, V>, o: map<Address, V>, a: Address)
    requires SameBut(l, m, a) && SameBut(m, o, a)
    ensures SameBut(l, o, a)
  {
    forall b | b != a ensures SameAt(l, o, b) {
      assert SameAt(l, m, b) && SameAt(m, o, b);
    }
  }

  ghost predicate SameOn<V>(l: map<Address, V>, m: map<Address, V>, s: set<Address>) {
    forall b :: b in s ==> SameAt(l, m, b)
  }

  lemma SameOnStep<V>(l: map<Address, V>, m: map<Address, V>, o: map<Address, V>, s: set<Address>, a: Address)
    requires SameBut(l, m, a) && SameOn(m, o, s)
    ensures SameOn(l, o, s - {a})
  {
    forall b | b in s - {a} ensures SameAt(l, o, b) {
      assert SameAt(l, m, b) && SameAt(m, o, b);
    }
  }

  lemma OnAt<V>(l: map<Address, V>, m: map<Address, V>, s: set<Address>, a: Address)
    requires SameOn(l, m, s) && a in s
    ensures SameAt(l, m, a)
  {
  }

  lemma SameOnStart<V>(l: map<Address, V>, s: set<Address>)
    ensures SameOn(l, l, s)
  {
  }

  ghost function ElemsOf(txs: seq<Tx>): set<Tx> {
    set tx | tx in txs
  }

  // ----- filing several transactions

  /**
   * A list after filing `m` into it: of two transactions with one nonce the better paid one stays,
   * the old one on a tie.
   */
  ghost function Merge(q: TxMap, m: TxMap): TxMap {
    map n | n in q.Keys + m.Keys :: if n in q && (n in m ==> q[n].gasPrice >= m[n].gasPrice) then q[n] else m[n]
  }

  /** What filing `m` puts into the list, and what it pushes out. */
  ghost function Taken(q: TxMap, m: TxMap): set<Tx> {
    set n | n in m && (n in q ==> q[n].gasPrice < m[n].gasPrice) :: m[n]
  }

  ghost function BeatenHashes(q: TxMap, m: TxMap): set<TxId> {
    set n | n in m && n in q && q[n].gasPrice < m[n].gasPrice :: q[n].hash
  }

  /** `txs` holds the values of `m`, each once. */
  ghost predicate Enumerates(txs: seq<Tx>, m: TxMap) {
    && (forall i, j :: 0 <= i < j < |txs| ==> txs[i] != txs[j])
    && (forall tx :: tx in txs <==> tx.nonce in m && m[tx.nonce] == tx)
  }

  /** The run taken from the front of a list holds what it leaves out. */
  lemma ReadyEnumerates(m: TxMap, start: nat)
    requires WellNonced(m)
    ensures Enumerates(ReadyRun(m, start), m - ReadyRest(m, start).Keys)
    ensures forall i, j :: 0 <= i < j < |ReadyRun(m, start)| ==>
              ReadyRun(m, start)[i].nonce < ReadyRun(m, start)[j].nonce
  {
    if m.Keys != {} && MinOf(m.Keys) <= start {
      var lo := MinOf(m.Keys);
      RunMeans(m, lo);
      var r, out := Run(m, lo), m - AfterRun(m, lo).Keys;
      forall tx ensures tx in r <==> tx.nonce in out && out[tx.nonce] == tx {
        if tx.nonce in out && out[tx.nonce] == tx {
          assert r[tx.nonce - lo] == tx;
        }
      }
    } else {
      assert m - m.Keys == map[];
    }
  }

  /** One more transaction. */
  lemma MergeStep(q: TxMap, m: TxMap, v: ListVal, tx: Tx)
    requires tx.nonce !in m && v.items == Merge(q, m)
    ensures Added(v, tx).items == Merge(q, m[tx.nonce := tx])
    ensures Accepts(v, tx) <==> (tx.nonce in q ==> q[tx.nonce].gasPrice < tx.gasPrice)
    ensures Replaced(v, tx) == if Accepts(v, tx) && tx.nonce in q then Some(q[tx.nonce]) else None
  {
    assert tx.nonce in v.items <==> tx.nonce in q;
    assert tx.nonce in q ==> v.items[tx.nonce] == q[tx.nonce];
  }

  lemma TakenStep(q: TxMap, m: TxMap, tx: Tx)
    requires tx.nonce !in m
    ensures Taken(q, m[tx.nonce := tx]) ==
              Taken(q, m) + (if tx.nonce in q ==> q[tx.nonce].gasPrice < tx.gasPrice then {tx} else {})
  {
    var m2 := m[tx.nonce := tx];
    assert m2[tx.nonce] == tx;
    assert forall n :: n in m2 ==> n == tx.nonce || (n in m && m2[n] == m[n]);
    assert forall n :: n in m ==> m2[n] == m[n];
  }

  lemma BeatenStep(q: TxMap, m: TxMap, tx: Tx)
    requires tx.nonce !in m
    ensures BeatenHashes(q, m[tx.nonce := tx]) ==
              BeatenHashes(q, m)
              + (if tx.nonce in q && q[tx.nonce].gasPrice < tx.gasPrice then {q[tx.nonce].hash} else {})
  {
    var m2 := m[tx.nonce := tx];
    assert m2[tx.nonce] == tx;
    assert forall n :: n in m2 ==> n == tx.nonce || (n in m && m2[n] == m[n]);
    assert forall n :: n in m ==> m2[n] == m[n];
  }

  lemma StrictKept(l: Accounts, strict: bool, tx: Tx)
    requires AllStrict(l, strict)
    ensures AllStrict(l[tx.from := Added(ListAt(l, tx.from, strict), tx)], strict)
    ensures NoEmpty(l) ==> NoEmpty(l[tx.from := Added(ListAt(l, tx.from, strict), tx)])
  {
    AddedFacts(ListAt(l, tx.from, strict), tx);
  }

  /** What has been filed so far, and what the next one adds to it. */
  ghost function FirstOf(txs: seq<Tx>, m: TxMap, i: nat): TxMap
    requires i <= |txs|
  {
    map n | n in m && m[n] in txs[..i] :: m[n]
  }

  lemma FirstStep(txs: seq<Tx>, m: TxMap, i: nat)
    requires Enumerates(txs, m) && WellNonced(m) && i < |txs|
    ensures WellNonced(FirstOf(txs, m, i))
    ensures txs[i].nonce !in FirstOf(txs, m, i)
    ensures FirstOf(txs, m, i + 1) == FirstOf(txs, m, i)[txs[i].nonce := txs[i]]
  {
    assert txs[i] in txs;
    assert txs[..i + 1] == txs[..i] + [txs[i]];
    assert txs[i] !in txs[..i];
  }

  lemma FirstAll(txs: seq<Tx>, m: TxMap)
    requires Enumerates(txs, m) && WellNonced(m)
    ensures FirstOf(txs, m, 0) == map[] && FirstOf(txs, m, |txs|) == m
  {
    assert txs[..|txs|] == txs;
  }

  lemma MergeNothing(q: TxMap)
    ensures Merge(q, map[]) == q && Taken(q, map[]) == {} && BeatenHashes(q, map[]) == {}
  {
  }

  /** The pending nonces after promoting `txs`: one after the last of them that was taken. */
  ghost function Followed(ahead: map<Address, nat>, a: Address, p: TxMap, txs: seq<Tx>): map<Address, nat> {
    if txs == [] then ahead
    else
      var last := txs[|txs| - 1];
      if Pays(p, last) then ahead[a := last.nonce + 1] else Followed(ahead, a, p, txs[..|txs| - 1])
  }

  ghost predicate Pays(p: TxMap, tx: Tx) {
    tx.nonce in p ==> p[tx.nonce].gasPrice < tx.gasPrice
  }

  lemma FollowStep(ahead: map<Address, nat>, a: Address, p: TxMap, txs: seq<Tx>, tx: Tx)
    ensures Followed(ahead, a, p, txs + [tx]) ==
              if Pays(p, tx) then Followed(ahead, a, p, txs)[a := tx.nonce + 1] else Followed(ahead, a, p, txs)
  {
    assert (txs + [tx])[..|txs|] == txs;
    FollowAlone(ahead, a, p, txs);
    SameOver<nat>(Followed(ahead, a, p, txs), ahead, a, tx.nonce + 1);
  }

  lemma NoneFollow(ahead: map<Address, nat>, a: Address, p: TxMap)
    ensures Followed(ahead, a, p, []) == ahead
  {
  }

  lemma SameOver<V>(l: map<Address, V>, m: map<Address, V>, a: Address, v: V)
    requires SameBut(l, m, a)
    ensures l[a := v] == m[a := v]
  {
    var l2, m2 := l[a := v], m[a := v];
    forall b | b in l2.Keys + m2.Keys ensures b in l2 && b in m2 && l2[b] == m2[b] {
      assert b != a ==> SameAt(l, m, b);
    }
  }

  lemma {:induction false} FollowAlone(ahead: map<Address, nat>, a: Address, p: TxMap, txs: seq<Tx>)
    ensures SameBut(Followed(ahead, a, p, txs), ahead, a)
    decreases |txs|
  {
    if txs != [] { FollowAlone(ahead, a, p, txs[..|txs| - 1]); }
  }

  /** What happens to the pending nonce of `a` depends on that nonce alone. */
  lemma {:induction false} FollowAt(was: map<Address, nat>, now: map<Address, nat>, a: Address, p: TxMap, txs: seq<Tx>)
    requires SameAt(now, was, a)
    ensures SameAt(Followed(now, a, p, txs), Followed(was, a, p, txs), a)
    decreases |txs|
  {
    if txs != [] { FollowAt(was, now, a, p, txs[..|txs| - 1]); }
  }

  /**
   * The pending nonces after the nonces in `gone` have been removed: down to the lowest that was
   * pending, if above it.
   */
  ghost function Lowered(base: ChainState, ahead: map<Address, nat>, a: Address, p: TxMap, gone: set<nat>): map<Address,
    nat>
  {
    var both := p.Keys * gone;
    if both != {} && NonceOf(base, ahead, a) > MinOf(both) then ahead[a := MinOf(both)] else ahead
  }

  lemma LowerAlone(base: ChainState, was: map<Address, nat>, now: map<Address, nat>, a: Address, p: TxMap,
                   gone: set<nat>)
    ensures SameBut(Lowered(base, now, a, p, gone), now, a)
    ensures SameAt(now, was, a) ==> SameAt(Lowered(base, now, a, p, gone), Lowered(base, was, a, p, gone), a)
  {
  }

  /** The values of a map in some order. */
  method InSomeOrder(m: TxMap) returns (txs: seq<Tx>)
    requires WellNonced(m)
    ensures Enumerates(txs, m)
  {
    txs := [];
    var left := m.Keys;
    while left != {}
      invariant left <= m.Keys
      invariant forall i, j :: 0 <= i < j < |txs| ==> txs[i] != txs[j]
      invariant forall tx :: tx in txs <==> tx.nonce in m && tx.nonce !in left && m[tx.nonce] == tx
      decreases |left|
    {
      var n :| n in left;
      txs, left := txs + [m[n]], left - {n};
    }
  }

  /** One step of queueing transactions in hand. */
  lemma EnqueueStep(p: PoolVal, txs: seq<Tx>, m: TxMap, i: nat, a: Address, was: PoolVal, hand: set<Tx>, q0: TxMap)
    returns (lost: set<TxId>)
    requires Sound(p) && NoEmpty(p.queue) && i < |txs|
    requires Enumerates(txs, m) && WellNonced(m)
    requires forall n :: n in m ==> m[n].from == a && m[n] in hand
    requires Items(p.queue, a) == Merge(q0, FirstOf(txs, m, i))
    requires Tracked(was, p, hand - Taken(q0, FirstOf(txs, m, i)))
    ensures var q := Enqueue(p, txs[i]);
            && Sound(q) && NoEmpty(q.queue)
            && Items(q.queue, a) == Merge(q0, FirstOf(txs, m, i + 1)) && SameBut(q.queue, p.queue, a)
            && Tracked(was, q, hand - Taken(q0, FirstOf(txs, m, i + 1)))
            && q.all == p.all - lost
            && BeatenHashes(q0, FirstOf(txs, m, i + 1)) == BeatenHashes(q0, FirstOf(txs, m, i)) + lost
  {
    hide Consistent, Tracked, Merge, Taken, BeatenHashes, FirstOf, NoEmpty, AllStrict, Added, Accepts, Replaced,
      IndexAfter;
    var tx := txs[i];
    assert tx in txs && m[tx.nonce] == tx;
    var q := Enqueue(p, tx);
    var v := ListAt(p.queue, a, false);
    var done := FirstOf(txs, m, i);
    FirstStep(txs, m, i);
    MergeStep(q0, done, v, tx);
    TakenStep(q0, done, tx);
    BeatenStep(q0, done, tx);
    NotYetTaken(q0, done, tx);
    EnqueueTracked(was, p, hand - Taken(q0, done), tx);
    StrictKept(p.queue, false, tx);
    HandFacts(was, p, hand - Taken(q0, done), tx);
    EnqueueFiled(p, tx);
    assert hand - Taken(q0, done) - {tx} == hand - (Taken(q0, done) + {tx});
    assert hand - Taken(q0, done) == hand - (Taken(q0, done) + {});
    if Accepts(v, tx) {
      IndexOf(p, Replaced(v, tx), tx);
      HashesTell(p);
      lost := if Replaced(v, tx).Some? then {Replaced(v, tx).value.hash} else {};
      LostIndex(p, Replaced(v, tx), q.all);
    } else {
      lost := {};
    }
  }

  lemma NotYetTaken(q: TxMap, m: TxMap, tx: Tx)
    requires tx.nonce !in m && WellNonced(m)
    ensures tx !in Taken(q, m)
  {
  }

  lemma LostIndex(p: PoolVal, was: Option<Tx>, all: map<TxId, Tx>)
    requires Consistent(p) && (was.Some? ==> Filed(p, was.value))
    requires forall h :: h in all <==> h in p.all && Some(p.all[h]) != was
    requires forall h :: h in all ==> all[h] == p.all[h]
    ensures all == p.all - (if was.Some? then {was.value.hash} else {})
  {
    if was.Some? { FiledIndexed(p, was.value); }
  }

  /** One step of promoting transactions in hand. */
  lemma PromoteStep(p: PoolVal, txs: seq<Tx>, m: TxMap, i: nat, a: Address, was: PoolVal, hand: set<Tx>, p0: TxMap)
    requires Sound(p) && NoEmpty(p.pending) && i < |txs|
    requires Enumerates(txs, m) && WellNonced(m)
    requires forall n :: n in m ==> m[n].from == a && m[n] in hand
    requires Items(p.pending, a) == Merge(p0, FirstOf(txs, m, i))
    requires Tracked(was, p, hand - ElemsOf(txs[..i]))
    ensures var q := Promote(p, txs[i]);
            && Sound(q) && NoEmpty(q.pending)
            && Items(q.pending, a) == Merge(p0, FirstOf(txs, m, i + 1)) && SameBut(q.pending, p.pending, a)
            && Tracked(was, q, hand - ElemsOf(txs[..i + 1]))
            && (Accepts(ListAt(p.pending, txs[i].from, true), txs[i]) <==> Pays(p0, txs[i]))
            && txs[i].from == a
  {
    hide Consistent, Tracked, Merge, FirstOf, NoEmpty, AllStrict, Added, Accepts, Replaced, IndexAfter;
    var tx := txs[i];
    assert tx in txs && m[tx.nonce] == tx;
    var v := ListAt(p.pending, a, true);
    FirstStep(txs, m, i);
    MergeStep(p0, FirstOf(txs, m, i), v, tx);
    assert tx !in txs[..i] && txs[..i + 1] == txs[..i] + [tx];
    assert ElemsOf(txs[..i + 1]) == ElemsOf(txs[..i]) + {tx};
    assert hand - ElemsOf(txs[..i]) - {tx} == hand - (ElemsOf(txs[..i]) + {tx});
    PromoteTracked(was, p, hand - ElemsOf(txs[..i]), tx);
    StrictKept(p.pending, true, tx);
  }

  /** The entries that a cut takes out of a list, as the pool sees them. */
  lemma GoneCuts(p: PoolVal, queued: bool, a: Address, kept: ListVal)
    requires Consistent(p)
    requires var l := if queued then p.queue else p.pending; a in l && PartOf(kept, l[a])
    ensures var l := if queued then p.queue else p.pending;
            var gone := l[a].items - kept.items.Keys;
            && WellNonced(gone)
            && (forall n :: n in gone ==> gone[n].from == a)
            && Cuts(l, a, kept, ValuesOf(gone))
            && forall txs :: Enumerates(txs, gone) ==> Cuts(l, a, kept, ElemsOf(txs))
  {
    var l := if queued then p.queue else p.pending;
    var gone := l[a].items - kept.items.Keys;
    assert ListOk(l[a], a, p.all);
    forall n | n in gone ensures gone[n].nonce == n && gone[n].from == a {
      assert TxOk(l[a].items[n], a, n, p.all);
    }
  }

  /** The queued transactions of an account that are neither stale nor unpayable. */
  function Affordable(m: TxMap, st: ChainState, a: Address): TxMap {
    Payable(From(m, st.Nonce(a)), st.Balance(a))
  }

  /**
   * What promotion does to one account: the affordable run up to the pending nonce `start` joins the
   * pending list `p`, and at most the lowest 64 of the other affordable ones stay in the queue `q`.
   */
  ghost predicate AccountPromoted(st: ChainState, a: Address, start: nat, p: TxMap, q: TxMap, p2: TxMap, q2: TxMap) {
    var m := Affordable(q, st, a);
    && p2 == Merge(p, m - ReadyRest(m, start).Keys)
    && q2 == Lowest(ReadyRest(m, start), MAX_QUEUED_PER_ACCOUNT)
  }

  lemma KeptParts(v: ListVal, k: nat, b: int)
    requires CapOk(v)
    ensures PartOf(v.(items := From(v.items, k)), v) && PartOf(Filtered(v, b), v) && PartOf(Capped(v, k), v)
    ensures Filtered(v, b).strict == v.strict
  {
    CapKept(v, b);
  }

  /** A list that is not strict loses only what is too costly. */
  lemma FilteredLoose(v: ListVal, b: int)
    requires !v.strict
    ensures Filtered(v, b).items == Payable(v.items, b)
  {
    NothingInvalid(v.strict, v.items, b);
  }

  lemma QueuedFacts(p: PoolVal, a: Address)
    requires Consistent(p) && a in p.queue
    ensures CapOk(p.queue[a]) && WellNonced(p.queue[a].items)
    ensures forall n :: n in p.queue[a].items ==> p.queue[a].items[n].from == a
  {
    assert ListOk(p.queue[a], a, p.all);
    ListNonced(p.queue, p.all, a, false);
  }

  lemma FullBut(l: Accounts, m: Accounts, a: Address)
    requires NoEmpty(l) && SameBut(m, l, a) && (a in m ==> m[a].items != map[])
    ensures NoEmpty(m)
  {
    forall b | b in m ensures m[b].items != map[] {
      assert b != a ==> SameAt(m, l, b);
    }
  }

  /** An account with queued transactions is promoted; any other is left alone. */
  ghost predicate Promotion(st: ChainState, base: ChainState, ahead: map<Address, nat>, p: PoolVal, q: PoolVal,
                            after: map<Address, nat>, a: Address) {
    if a in p.queue
    then && AccountPromoted(st, a, NonceOf(base, ahead, a), Items(p.pending, a), Items(p.queue, a), Items(q.pending, a),
                            Items(q.queue, a))
         && SameAt(after, PromotedNonces(st, base, ahead, p, a), a)
    else SameAt(q.pending, p.pending, a) && SameAt(q.queue, p.queue, a) && SameAt(after, ahead, a)
  }

  /** The pending nonces after the promotion of one account. */
  ghost function PromotedNonces(st: ChainState, base: ChainState, ahead: map<Address, nat>, p: PoolVal, a: Address):
    map<Address, nat>
  {
    Followed(ahead, a, Items(p.pending, a), ReadyRun(Affordable(Items(p.queue, a), st, a), NonceOf(base, ahead, a)))
  }

  lemma NoncesAgree(st: ChainState, base: ChainState, was: map<Address, nat>, now: map<Address, nat>, p: PoolVal,
                    q: PoolVal,
                    a: Address)
    requires SameAt(now, was, a) && SameAt(q.pending, p.pending, a) && SameAt(q.queue, p.queue, a)
    ensures NonceOf(base, now, a) == NonceOf(base, was, a)
    ensures SameAt(PromotedNonces(st, base, now, q, a), PromotedNonces(st, base, was, p, a), a)
  {
    hide ReadyRun, Affordable;
    assert Items(q.pending, a) == Items(p.pending, a) && Items(q.queue, a) == Items(p.queue, a);
    FollowAt(was, now, a, Items(p.pending, a), ReadyRun(Affordable(Items(p.queue, a), st, a), NonceOf(base, was, a)));
  }

  lemma PromotionFrame(st: ChainState, base: ChainState, ahead: map<Address, nat>, was: PoolVal, p: PoolVal, q: PoolVal,
                       between: map<Address, nat>, after: map<Address, nat>, a: Address)
    requires SameBut(q.pending, p.pending, a) && SameBut(q.queue, p.queue, a) && SameBut(after, between, a)
    ensures forall b :: b != a && Promotion(st, base, ahead, was, p, between, b) ==>
                          Promotion(st, base, ahead, was, q, after, b)
  {
    hide AccountPromoted, PromotedNonces;
    forall b | b != a && Promotion(st, base, ahead, was, p, between, b)
      ensures Promotion(st, base, ahead, was, q, after, b)
    {
      assert SameAt(q.pending, p.pending, b) && SameAt(q.queue, p.queue, b) && SameAt(after, between, b);
    }
  }

  ghost function Restrict(l: Accounts, s: set<Address>): Accounts {
    map a | a in l && a in s :: l[a]
  }

  lemma RestrictAll(l: Accounts)
    ensures Restrict(l, l.Keys) == l
  {
  }

  lemma RestrictNone(l: Accounts)
    ensures Total(Restrict(l, {})) == 0
  {
    assert Lens(Restrict(l, {})) == map[];
  }

  /** Replacing one list changes the totals by its length. */
  lemma TotalStep(l: Accounts, m: Accounts, a: Address, left: set<Address>)
    requires SameBut(m, l, a) && a in left && a in l
    ensures Total(Restrict(l, left)) == Total(Restrict(m, left - {a})) + |Items(l, a)|
    ensures Total(m) == Total(l) - |Items(l, a)| + |Items(m, a)|
  {
    hide SameBut, Total;
    RestrictBut(l, m, a, left);
    TotalBut(l, m, a);
    TotalBut(Restrict(l, left), Restrict(m, left - {a}), a);
  }

  lemma TotalBut(l: Accounts, m: Accounts, a: Address)
    requires SameBut(m, l, a)
    ensures Total(m) + |Items(l, a)| == Total(l) + |Items(m, a)|
  {
    LensBut(l, m, a);
    TotalWithout(l, a);
    TotalWithout(m, a);
  }

  lemma TotalWithout(l: Accounts, a: Address)
    ensures Total(l) == |Items(l, a)| + Sum(Lens(l) - {a})
  {
    if a in l {
      SumWithout(Lens(l), a);
    } else {
      assert Lens(l) - {a} == Lens(l);
    }
  }

  lemma LensBut(l: Accounts, m: Accounts, a: Address)
    requires SameBut(m, l, a)
    ensures Lens(m) - {a} == Lens(l) - {a}
  {
    forall b | b != a ensures (b in m <==> b in l) && (b in m ==> m[b] == l[b]) {
      assert SameAt(m, l, b);
    }
  }

  lemma RestrictBut(l: Accounts, m: Accounts, a: Address, left: set<Address>)
    requires SameBut(m, l, a)
    ensures SameBut(Restrict(m, left - {a}), Restrict(l, left), a)
  {
    forall b | b != a ensures SameAt(Restrict(m, left - {a}), Restrict(l, left), b) {
      assert SameAt(m, l, b);
    }
  }

  ghost function ValuesOf(m: TxMap): set<Tx> {
    set n | n in m :: m[n]
  }

  lemma ElemsAreValues(txs: seq<Tx>, m: TxMap)
    requires WellNonced(m) && forall tx :: tx in txs <==> tx.nonce in m && m[tx.nonce] == tx
    ensures ElemsOf(txs) == ValuesOf(m)
  {
  }

  lemma PendingFacts(p: PoolVal, a: Address)
    requires Consistent(p) && a in p.pending
    ensures CapOk(p.pending[a]) && WellNonced(p.pending[a].items)
    ensures forall n :: n in p.pending[a].items ==> p.pending[a].items[n].from == a
  {
    assert ListOk(p.pending[a], a, p.all);
    ListNonced(p.pending, p.all, a, true);
  }

  /** Transactions of `m` that filing into `q` turns down. */
  ghost function TurnedDown(q: TxMap, m: TxMap): set<Tx> {
    set n | n in m && n in q && q[n].gasPrice >= m[n].gasPrice :: m[n]
  }

  /** What demotion leaves indexed without filing it: what the queue turns down. */
  ghost function Spurned(st: ChainState, a: Address, p: TxMap, q: TxMap): set<Tx> {
    TurnedDown(q, Invalidated(true, From(p, st.Nonce(a)), st.Balance(a)))
  }

  /** What demotion does to one account with pending transactions `p` and queued ones `q`. */
  ghost predicate AccountDemoted(st: ChainState, a: Address, p: TxMap, q: TxMap, p2: TxMap, q2: TxMap) {
    var m := From(p, st.Nonce(a));
    && p2 == FilteredItems(true, m, st.Balance(a))
    && q2 == Merge(q, Invalidated(true, m, st.Balance(a)))
  }

  lemma UnpayableParts(v: ListVal, balance: nat)
    requires v.strict && WellNonced(v.items)
    ensures var costly, bad := TooCostly(v.items, balance), Invalidated(true, v.items, balance);
            var kept := Filtered(v, balance).items;
            && WellNonced(costly) && WellNonced(bad)
            && kept == FilteredItems(true, v.items, balance)
            && (forall n :: n in bad ==> n in v.items && bad[n] == v.items[n])
            && ValuesOf(v.items - kept.Keys) == ValuesOf(costly) + ValuesOf(bad)
            && ValuesOf(costly) !! ValuesOf(bad)
  {
    var costly, bad := TooCostly(v.items, balance), Invalidated(true, v.items, balance);
    var kept := Filtered(v, balance).items;
    FilterPartition(v, balance);
    var gone := v.items - kept.Keys;
    forall n ensures n in gone <==> n in costly || n in bad {}
  }

  lemma LeftInHand(hand: set<Tx>, q: TxMap, m: TxMap)
    ensures hand !! ValuesOf(m) && WellNonced(m) ==> hand + ValuesOf(m) - Taken(q, m) == hand + TurnedDown(q, m)
  {
  }

  lemma ElemsIn(txs: seq<Tx>)
    ensures forall tx :: tx in txs ==> tx in ElemsOf(txs)
  {
  }

  lemma InValues(m: TxMap)
    ensures forall n :: n in m ==> m[n] in ValuesOf(m)
  {
  }

  ghost predicate Demotion(st: ChainState, p: PoolVal, q: PoolVal, a: Address) {
    if a in p.pending
    then AccountDemoted(st, a, Items(p.pending, a), Items(p.queue, a), Items(q.pending, a), Items(q.queue, a))
    else SameAt(q.pending, p.pending, a) && SameAt(q.queue, p.queue, a)
  }

  lemma DemotionFrame(st: ChainState, was: PoolVal, p: PoolVal, q: PoolVal, a: Address)
    requires SameBut(q.pending, p.pending, a) && SameBut(q.queue, p.queue, a)
    ensures forall b :: b != a && Demotion(st, was, p, b) ==> Demotion(st, was, q, b)
  {
    forall b | b != a && Demotion(st, was, p, b) ensures Demotion(st, was, q, b) {
      assert SameAt(q.pending, p.pending, b) && SameAt(q.queue, p.queue, b);
    }
  }

  /**
   * What the demotion pass does. The index loses what is filed no longer, except for what the queue
   * turned down: those stay indexed, and they are exactly the ones in `strays`.
   */
  ghost predicate Demotes(st: ChainState, p: PoolVal, q: PoolVal, strays: set<Tx>) {
    && (forall a :: Demotion(st, p, q, a))
    && Tracked(p, q, strays) && (forall t :: t in strays <==> SpurnedBy(st, p, t))
  }

  ghost predicate SpurnedBy(st: ChainState, p: PoolVal, t: Tx) {
    t.from in p.pending && t in Spurned(st, t.from, Items(p.pending, t.from), Items(p.queue, t.from))
  }

  lemma SpurnedHere(st: ChainState, p: PoolVal, a: Address)
    ensures Sound(p) && a in p.pending ==>
              forall t :: t in Spurned(st, a, Items(p.pending, a), Items(p.queue, a)) <==>
                            t.from == a && SpurnedBy(st, p, t)
  {
    if Sound(p) && a in p.pending {
      PendingFacts(p, a);
    }
  }

  /** What goes back to the queue when a pending nonce is removed. */
  function Returned(p: TxMap, nonce: nat): TxMap {
    if nonce in p && Below(p, nonce) != map[] then Above(p, nonce) else map[]
  }

  /**
   * What removing `tx` does: its nonce is gone from both lists of its account, and the pending ones
   * above it are queued or, if nothing is left below, lost.
   */
  ghost predicate Removal(p: PoolVal, q: PoolVal, tx: Tx) {
    var was, queued := Items(p.pending, tx.from), Items(p.queue, tx.from);
    && Items(q.pending, tx.from) == (if tx.nonce in was then Below(was, tx.nonce) else was)
    && Items(q.queue, tx.from) == Merge(queued, Returned(was, tx.nonce)) - {tx.nonce}
    && q.all == p.all - BeatenHashes(queued, Returned(was, tx.nonce)) - {tx.hash}
    && SameBut(q.pending, p.pending, tx.from) && SameBut(q.queue, p.queue, tx.from)
    && (tx.from in q.pending ==> tx.from in p.pending && q.pending[tx.from] == RemovedAt(p.pending[tx.from], tx.nonce))
  }

  lemma SameSelf<V>(l: map<Address, V>, a: Address)
    ensures SameBut(l, l, a)
  {
  }

  lemma SameUpdate<V>(l: map<Address, V>, a: Address, v: V)
    ensures SameBut(l[a := v], l, a)
  {
  }

  lemma SameDelete<V>(l: map<Address, V>, a: Address, v: V)
    ensures SameBut(l[a := v] - {a}, l, a)
  {
  }

  lemma BelowPart(v: ListVal, nonce: nat)
    requires CapOk(v) && WellNonced(v.items) && nonce in v.items && v.strict
    ensures PartOf(RemovedAt(v, nonce), v) && RemovedAt(v, nonce).strict
    ensures WellNonced(Above(v.items, nonce))
    ensures forall n :: n in Above(v.items, nonce) ==>
              Above(v.items, nonce)[n] in ValuesOf(v.items - RemovedAt(v, nonce).items.Keys)
  {
    var gone := v.items - RemovedAt(v, nonce).items.Keys;
    forall n | n in Above(v.items, nonce) ensures Above(v.items, nonce)[n] in ValuesOf(gone) {
      assert n in gone && gone[n] == v.items[n];
    }
  }

  lemma WithoutPart(v: ListVal, nonce: nat)
    requires CapOk(v) && !v.strict
    ensures PartOf(RemovedAt(v, nonce), v) && RemovedAt(v, nonce).items == v.items - {nonce}
            && !RemovedAt(v, nonce).strict
  {
    assert nonce !in v.items ==> v.items - {nonce} == v.items;
  }

  lemma Unfiled(p: PoolVal, tx: Tx)
    ensures tx.nonce !in Items(p.pending, tx.from) && tx.nonce !in Items(p.queue, tx.from) ==> !Filed(p, tx)
  {
  }

  lemma ForgetOne(p: PoolVal, h: TxId)
    requires Sound(p) && (h in p.all ==> !Filed(p, p.all[h]))
    ensures Sound(p.(all := p.all - {h}))
  {
    var q := p.(all := p.all - {h});
    forall t | Filed(p, t) ensures t.hash in q.all && q.all[t.hash] == t {
      FiledIndexed(p, t);
    }
    ListsOkFrame(p.pending, p.all, q.all);
    ListsOkFrame(p.queue, p.all, q.all);
  }

  predicate LongList(p: Accounts, a: Address) {
    a in p && Len(p[a]) > MIN_PENDING_PER_ACCOUNT
  }

  /** For each transaction of a list, whether it is local. */
  ghost function Locality(m: TxMap, local: set<TxId>): set<bool> {
    set n | n in m :: m[n].hash in local
  }

  /** The contract of the limiter: water-filling to a level that is as high as it can be. */
  ghost predicate Limited(was: Accounts, p: Accounts, local: set<TxId>, spam: set<Address>, level: nat) {
    && (forall a :: a in spam ==> LongList(was, a) && false in Locality(Items(was, a), local))
    && (Total(was) > MAX_PENDING_TOTAL ==>
          forall a :: LongList(was, a) && a !in spam ==> true in Locality(Items(was, a), local))
    && (Total(was) <= MAX_PENDING_TOTAL ==> p == was)
    && Filled(was, spam, MAX_PENDING_TOTAL, MIN_PENDING_PER_ACCOUNT, p, level)
  }

  lemma LevelKeeps(p: PoolVal, spam: set<Address>, level: nat)
    requires Sound(p) && NoEmpty(p.pending) && level > 0
    ensures Sound(p.(pending := AtLevel(p.pending, spam, level))) && NoEmpty(AtLevel(p.pending, spam, level))
  {
    var m := AtLevel(p.pending, spam, level);
    forall a | a in m ensures ListOk(m[a], a, p.all) && m[a].items != map[] {
      assert ListOk(p.pending[a], a, p.all);
      CappedLen(p.pending[a], level);
      assert Len(p.pending[a]) > 0 by {
        var n :| n in p.pending[a].items;
        assert n in p.pending[a].items.Keys;
      }
      forall n | n in m[a].items ensures TxOk(m[a].items[n], a, n, p.all) {
        assert TxOk(p.pending[a].items[n], a, n, p.all);
      }
    }
    assert forall t :: In(m, t) ==> In(p.pending, t);
  }

  /** Only the lists of `a` differ from `was`, and nothing was added to the index. */
  ghost predicate Within(p: PoolVal, was: PoolVal, a: Address) {
    && SameBut(p.pending, was.pending, a) && SameBut(p.queue, was.queue, a)
    && forall h :: h in p.all ==> h in was.all && p.all[h] == was.all[h]
  }

  lemma WithinSelf(p: PoolVal, a: Address)
    ensures Within(p, p, a)
  {
    SameSelf(p.pending, a);
    SameSelf(p.queue, a);
  }

  /** A queue list in nonce order. */
  lemma SortedQueue(p: PoolVal, a: Address)
    requires Sound(p) && a in p.queue
    ensures var m := p.queue[a].items; var txs := Sorted(m);
            && WellNonced(m) && Enumerates(txs, m)
            && forall tx :: tx in txs ==> tx.from == a && In(p.queue, tx) && tx.hash in p.all && p.all[tx.hash] == tx
  {
    hide Sorted;
    var m := p.queue[a].items;
    QueuedFacts(p, a);
    SortedMeans(m);
    forall tx | tx in Sorted(m) ensures tx.from == a && In(p.queue, tx) && tx.hash in p.all && p.all[tx.hash] == tx {
      assert m[tx.nonce] == tx;
      FiledIndexed(p, tx);
    }
  }

  ghost function AddressSet(addresses: seq<Address>): set<Address> {
    set a | a in addresses
  }

  /** The accounts of a map in some order. */
  method AddressesOf(l: Accounts) returns (addresses: seq<Address>)
    ensures AddressSet(addresses) == l.Keys
    ensures forall i, j :: 0 <= i < j < |addresses| ==> addresses[i] != addresses[j]
  {
    addresses := [];
    var left := l.Keys;
    while left != {}
      invariant left <= l.Keys && forall a :: a in addresses <==> a in l && a !in left
      invariant forall i, j :: 0 <= i < j < |addresses| ==> addresses[i] != addresses[j]
      decreases |left|
    {
      var a :| a in left;
      addresses, left := addresses + [a], left - {a};
    }
  }

  lemma LastAddress(addresses: seq<Address>)
    requires addresses != [] && forall i, j :: 0 <= i < j < |addresses| ==> addresses[i] != addresses[j]
    ensures var a := addresses[|addresses| - 1];
            a in AddressSet(addresses) && AddressSet(addresses[..|addresses| - 1]) == AddressSet(addresses) - {a}
  {
    var rest, a := addresses[..|addresses| - 1], addresses[|addresses| - 1];
    assert addresses == rest + [a];
    assert a !in rest;
  }

  lemma LowestLen(m: TxMap, k: nat)
    ensures k <= |m| ==> |Lowest(m, k)| == k
  {
    if k <= |m| { LowestSorted(m, k); }
  }

  lemma LowestNone(m: TxMap)
    ensures Lowest(m, 0) == map[]
  {
    LowestLen(m, 0);
    assert |Lowest(m, 0).Keys| == 0;
  }

  /** Removing a batch of hashes one after the other, each that is indexed. */
  ghost predicate Removals(hashes: seq<TxId>, trace: seq<PoolVal>) {
    && |trace| == |hashes| + 1
    && forall i :: 0 <= i < |hashes| ==> RemovalOf(hashes[i], trace[i], trace[i + 1])
  }

  ghost predicate RemovalOf(h: TxId, p: PoolVal, q: PoolVal) {
    if h in p.all then Removal(p, q, p.all[h]) else q == p
  }

  /** The pool after queueing what is new and valid of a batch, and how many that are. */
  ghost function WithBatch(p: PoolVal, txs: seq<(Tx, bool)>): (PoolVal, nat) {
    if txs == [] then (p, 0)
    else
      var (q, n) := WithBatch(p, txs[..|txs| - 1]);
      var (tx, valid) := txs[|txs| - 1];
      if valid && tx.hash !in q.all then (Enqueue(q, tx), n + 1) else (q, n)
  }

  /** The nonce after the last one of a list. */
  function NextNonce(m: TxMap): nat {
    var txs := Sorted(m);
    if txs == [] then 0 else txs[|txs| - 1].nonce + 1
  }

  function NextNonces(p: Accounts): map<Address, nat> {
    map a | a in p :: NextNonce(p[a].items)
  }

  ghost function WithNext(p: Accounts, left: set<Address>, ahead: map<Address, nat>): map<Address, nat> {
    ahead + map a | a in p && a !in left :: NextNonce(p[a].items)
  }

  lemma NextStart(p: Accounts, ahead: map<Address, nat>)
    ensures WithNext(p, p.Keys, ahead) == ahead && WithNext(p, {}, ahead) == ahead + NextNonces(p)
  {
    hide NextNonce;
  }

  lemma NextStep(p: Accounts, left: set<Address>, ahead: map<Address, nat>, a: Address)
    requires a in p
    ensures WithNext(p, left - {a}, ahead) == WithNext(p, left, ahead)[a := NextNonce(p[a].items)]
  {
    hide NextNonce;
  }

  lemma ListFilled(p: Accounts, a: Address)
    requires NoEmpty(p) && a in p
    ensures var txs := Sorted(p[a].items); |txs| > 0 && NextNonce(p[a].items) == txs[|txs| - 1].nonce + 1
  {
    hide Sorted;
    NotEmpty(p[a].items);
  }

  lemma NotEmpty(m: TxMap)
    requires m != map[]
    ensures |Sorted(m)| > 0
  {
    var n :| n in m;
    assert n in m.Keys;
  }

  /** It is free, and everything below it that is listed comes before. */
  lemma NextNonceMeans(m: TxMap)
    requires WellNonced(m) && m != map[]
    ensures NextNonce(m) > 0 && NextNonce(m) - 1 in m && forall n :: n in m ==> n < NextNonce(m)
  {
    hide Sorted;
    NotEmpty(m);
    SortedMeans(m);
    var txs := Sorted(m);
    assert txs[|txs| - 1] in txs;
    forall n | n in m ensures n < NextNonce(m) {
      assert m[n] in txs;
      var i :| 0 <= i < |txs| && txs[i] == m[n];
    }
  }

  lemma ButAt<V>(l: map<Address, V>, m: map<Address, V>, a: Address, b: Address)
    requires SameBut(l, m, a) && a != b
    ensures SameAt(l, m, b)
  {
  }

  /** Transactions of `a` in nonce order that the account can start with and pay for one at a time. */
  ghost predicate Executable(st: ChainState, a: Address, txs: seq<Tx>) {
    && (forall i, j :: 0 <= i < j < |txs| ==> txs[i].nonce < txs[j].nonce)
    && forall tx :: tx in txs ==> tx.from == a && tx.nonce >= st.Nonce(a) && tx.cost <= st.Balance(a)
  }

  lemma DemotedExecutable(st: ChainState, was: PoolVal, p: PoolVal, a: Address)
    requires Sound(was) && Sound(p) && Demotion(st, was, p, a) && a in p.pending
    ensures Executable(st, a, Sorted(p.pending[a].items))
  {
    hide Sorted, FilteredItems, Merge, From, Consistent, AllStrict;
    var m := p.pending[a].items;
    PendingFacts(p, a);
    SortedMeans(m);
    KeptPayable(Items(was.pending, a), st.Nonce(a), st.Balance(a));
    forall tx | tx in Sorted(m) ensures tx.from == a && tx.nonce >= st.Nonce(a) && tx.cost <= st.Balance(a) {
      assert m[tx.nonce] == tx;
    }
  }

  lemma KeptPayable(m: TxMap, nonce: nat, balance: nat)
    ensures var kept := FilteredItems(true, From(m, nonce), balance);
            forall n :: n in kept ==> n >= nonce && kept[n].cost <= balance
  {
  }

  /** Otherwise every pending transaction above it is queued, or lost if nothing is pending below it. */
  lemma RemovalRequeues(p: PoolVal, q: PoolVal, tx: Tx, n: nat)
    requires Removal(p, q, tx) && tx.nonce in Items(p.pending, tx.from) && n in Items(p.pending, tx.from)
             && n > tx.nonce
    ensures n !in Items(q.pending, tx.from)
    ensures (exists low :: low in Items(p.pending, tx.from) && low < tx.nonce) ==> n in Items(q.queue, tx.from)
    ensures (forall low :: low in Items(p.pending, tx.from) ==> low >= tx.nonce) && n !in Items(p.queue, tx.from) ==>
              n !in Items(q.queue, tx.from)
  {
    hide BeatenHashes, SameBut;
    var was := Items(p.pending, tx.from);
    if low :| low in was && low < tx.nonce {
      assert low in Below(was, tx.nonce);
      assert n in Returned(was, tx.nonce);
    } else {
      assert Below(was, tx.nonce) == map[];
    }
  }

  /** The pending nonces after the removal of one hash. */
  ghost function NoncesAfter(base: ChainState, ahead: map<Address, nat>, h: TxId, p: PoolVal): map<Address, nat> {
    if h !in p.all then ahead
    else var tx := p.all[h]; Lowered(base, ahead, tx.from, Items(p.pending, tx.from), {tx.nonce})
  }

  /** The same for several, each removed from the pool that `trace` gives. */
  ghost function NoncesAfterAll(base: ChainState, ahead: map<Address, nat>, hashes: seq<TxId>, trace: seq<PoolVal>):
    map<Address, nat>
    requires |hashes| <= |trace|
  {
    if hashes == [] then ahead
    else
      var i := |hashes| - 1;
      NoncesAfter(base, NoncesAfterAll(base, ahead, hashes[..i], trace[..i]), hashes[i], trace[i])
  }

  lemma {:induction false} NoncesPrefix(base: ChainState, ahead: map<Address, nat>, hashes: seq<TxId>,
                                        trace: seq<PoolVal>,
                                        k: nat)
    requires |hashes| <= k <= |trace|
    ensures NoncesAfterAll(base, ahead, hashes, trace[..k]) == NoncesAfterAll(base, ahead, hashes, trace)
    decreases |hashes|
  {
    hide NoncesAfter;
    if hashes != [] {
      var i := |hashes| - 1;
      assert trace[..k][..i] == trace[..i];
    }
  }

  lemma NoncesStep(base: ChainState, ahead: map<Address, nat>, hashes: seq<TxId>, trace: seq<PoolVal>, i: nat,
                   p: PoolVal)
    requires i < |hashes| && |trace| == i + 1
    ensures NoncesAfterAll(base, ahead, hashes[..i + 1], trace + [p])
              == NoncesAfter(base, NoncesAfterAll(base, ahead, hashes[..i], trace), hashes[i], trace[i])
  {
    hide NoncesAfter;
    assert hashes[..i + 1][..i] == hashes[..i] && (trace + [p])[..i] == trace[..i];
    NoncesPrefix(base, ahead, hashes[..i], trace, i);
  }

  lemma LowerOne(base: ChainState, ahead: map<Address, nat>, a: Address, p: TxMap, n: nat)
    ensures Lowered(base, ahead, a, p, {n}) == if n in p && NonceOf(base, ahead, a) > n then ahead[a := n] else ahead
  {
    assert p.Keys * {n} == if n in p then {n} else {};
  }

  lemma RemovalsStep(hashes: seq<TxId>, trace: seq<PoolVal>, i: nat, p: PoolVal)
    requires i < |hashes| && Removals(hashes[..i], trace) && RemovalOf(hashes[i], trace[i], p)
    ensures Removals(hashes[..i + 1], trace + [p])
  {
    var less, more, longer := hashes[..i], hashes[..i + 1], trace + [p];
    forall k | 0 <= k < |more| ensures RemovalOf(more[k], longer[k], longer[k + 1]) {
      assert k < i ==> RemovalOf(less[k], trace[k], trace[k + 1]);
    }
  }
}
