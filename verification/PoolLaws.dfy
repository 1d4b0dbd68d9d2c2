/**
 * Where each transaction of the pool ends up, said of the transactions alone: what every pass keeps,
 * moves and drops, and what the pending nonces are afterwards.
 */
module PoolLaws {
  import opened Collections
  import opened Wrappers
  import opened Nonces
  import opened TxLists
  import opened RateLimit
  import opened PoolIndex
  import opened PoolSteps
  import opened PoolDrops
  import opened PoolStrays

  // ----- what a transaction may need

  /** The sender's next nonce is not past it, and the sender can pay for it. */
  ghost predicate Fit(st: ChainState, t: Tx) {
    && (t.from in st.nonces ==> st.nonces[t.from] <= t.nonce)
    && t.cost <= if t.from in st.balances then st.balances[t.from] else 0
  }

  /** A transaction of the same sender and nonce is listed that pays as much. */
  ghost predicate Outpaid(l: Accounts, t: Tx) {
    exists u :: In(l, u) && SamePlace(u, t) && u.gasPrice >= t.gasPrice
  }

  ghost predicate SamePlace(t: Tx, u: Tx) {
    t.from == u.from && t.nonce == u.nonce
  }

  ghost predicate FitAt(st: ChainState, l: Accounts, a: Address, n: nat) {
    exists t :: In(l, t) && t.from == a && t.nonce == n && Fit(st, t)
  }

  /** The fit nonces of `a` start at `lo` and go on to `hi` without a gap. */
  ghost predicate Unbroken(st: ChainState, l: Accounts, a: Address, lo: nat, hi: nat) {
    && (forall n: nat :: lo <= n <= hi ==> FitAt(st, l, a, n))
    && (forall n: nat :: n < lo ==> !FitAt(st, l, a, n))
  }

  /** It is fit, and so is everything from the lowest fit nonce up to it, which is not past `start`. */
  ghost predicate Ready(st: ChainState, start: nat, l: Accounts, t: Tx) {
    In(l, t) && exists lo: nat :: lo <= start && lo <= t.nonce && Unbroken(st, l, t.from, lo, t.nonce)
  }

  /** The nonces of fit transactions below `t` that are not ready. */
  ghost function Waiting(st: ChainState, start: nat, l: Accounts, t: Tx): set<nat> {
    set n | n in Items(l, t.from) && n < t.nonce && Fit(st, Items(l, t.from)[n])
            && !Ready(st, start, l, Items(l, t.from)[n])
  }

  /** The nonce a new transaction of `a` would get. */
  ghost function StartOf(base: ChainState, ahead: map<Address, nat>, a: Address): nat {
    if a in ahead then ahead[a] else if a in base.nonces then base.nonces[a] else 0
  }

  // ----- lists and what is in them

  lemma InItems(l: Accounts, all: map<TxId, Tx>, t: Tx)
    requires ListsOk(l, all)
    ensures In(l, t) <==> t.nonce in Items(l, t.from) && Items(l, t.from)[t.nonce] == t
    ensures WellNonced(Items(l, t.from)) && forall n :: n in Items(l, t.from) ==> Items(l, t.from)[n].from == t.from
    ensures forall n :: n in Items(l, t.from) ==> In(l, Items(l, t.from)[n])
  {
    ListNonced(l, all, t.from, true);
  }

  lemma PlaceOf(l: Accounts, all: map<TxId, Tx>, t: Tx)
    requires ListsOk(l, all)
    ensures forall u :: In(l, u) && SamePlace(u, t) ==> t.nonce in Items(l, t.from) && Items(l, t.from)[t.nonce] == u
    ensures Outpaid(l, t) <==> t.nonce in Items(l, t.from) && Items(l, t.from)[t.nonce].gasPrice >= t.gasPrice
  {
    InItems(l, all, t);
    if t.nonce in Items(l, t.from) { assert SamePlace(Items(l, t.from)[t.nonce], t); }
  }

  lemma FitItems(st: ChainState, l: Accounts, all: map<TxId, Tx>, a: Address, n: nat)
    requires ListsOk(l, all)
    ensures FitAt(st, l, a, n) <==> n in Items(l, a) && Fit(st, Items(l, a)[n])
    ensures n in Affordable(Items(l, a), st, a) <==> n in Items(l, a) && Fit(st, Items(l, a)[n])
  {
    ListNonced(l, all, a, true);
  }

  /** Which nonces are taken as a run: those without a gap down to the lowest, if that is not past `start`. */
  lemma RunTakes(m: TxMap, start: nat, n: nat)
    requires WellNonced(m)
    ensures n in m && n !in ReadyRest(m, start) <==>
            exists lo: nat :: lo <= start && lo <= n && GapFree(m.Keys, lo, n)
  {
    if m.Keys != {} && MinOf(m.Keys) <= start {
      var lo := MinOf(m.Keys);
      RunMeans(m, lo);
      if n in m && n !in ReadyRest(m, start) { assert GapFree(m.Keys, lo, n); }
      if lo2: nat :| lo2 <= start && lo2 <= n && GapFree(m.Keys, lo2, n) {
        assert lo2 in m.Keys && lo in m.Keys;
        assert lo2 == lo;
        assert lo + |Run(m, lo)| !in m;
      }
    } else {
      forall lo: nat | lo <= start && lo <= n ensures !GapFree(m.Keys, lo, n) {
        assert lo !in m.Keys;
      }
    }
  }

  ghost predicate GapFree(s: set<nat>, lo: nat, hi: nat) {
    (forall n: nat :: lo <= n <= hi ==> n in s) && (forall n: nat :: n < lo ==> n !in s)
  }

  lemma ReadyItems(st: ChainState, start: nat, l: Accounts, all: map<TxId, Tx>, a: Address, n: nat)
    requires ListsOk(l, all)
    ensures var m := Affordable(Items(l, a), st, a);
            (n in Items(l, a) && Ready(st, start, l, Items(l, a)[n])) <==> n in m && n !in ReadyRest(m, start)
  {
    hide Fit, Affordable, ReadyRest;
    var m := Affordable(Items(l, a), st, a);
    ListNonced(l, all, a, true);
    AffordablePart(Items(l, a), st, a);
    RunTakes(m, start, n);
    forall k: nat ensures FitAt(st, l, a, k) <==> k in m.Keys { FitItems(st, l, all, a, k); }
    if n in Items(l, a) {
      var t := Items(l, a)[n];
      forall lo: nat ensures Unbroken(st, l, a, lo, n) <==> GapFree(m.Keys, lo, n) {}
    }
  }

  lemma AffordablePart(m: TxMap, st: ChainState, a: Address)
    ensures forall n :: n in Affordable(m, st, a) ==> n in m && Affordable(m, st, a)[n] == m[n]
  {
  }

  ghost function LowerThan(m: TxMap, n: nat): set<nat> {
    set j | j in m && j < n
  }

  /** A list cut to its `k` lowest nonces keeps those with fewer than `k` below them. */
  lemma LowestCount(m: TxMap, k: nat, n: nat)
    requires n in m
    ensures n in Lowest(m, k) <==> |LowerThan(m, n)| < k
    ensures n in Lowest(m, k) ==> Lowest(m, k)[n] == m[n]
  {
    var low := LowerThan(m, n);
    if k >= |m| {
      SubsetSize(low, m.Keys - {n});
    } else {
      BelowKeys(m, k);
      var c := SortedKeys(m.Keys)[k];
      var kept := Below(m, c).Keys;
      if n < c { SubsetSize(low, kept - {n}); } else { SubsetSize(kept, low); }
    }
  }

  // ----- promotion

  /**
   * The promotion of one transaction: it is pending afterwards if it was and nothing ready pays more
   * for its nonce, or if it was ready and nothing pending pays as much. It stays queued if it was,
   * is fit and not ready, and fewer than 64 of its sender's wait below it.
   */
  ghost predicate PromotedTo(st: ChainState, start: nat, p: PoolVal, q: PoolVal, t: Tx) {
    && (In(q.pending, t) <==>
        (|| (In(p.pending, t)
             && forall u :: SamePlace(u, t) && Ready(st, start, p.queue, u) ==> u.gasPrice <= t.gasPrice)
         || (Ready(st, start, p.queue, t) && !Outpaid(p.pending, t))))
    && (In(q.queue, t) <==>
        In(p.queue, t) && Fit(st, t) && !Ready(st, start, p.queue, t) && |Waiting(st, start, p.queue, t)| < 64)
  }

  lemma PromotedExactly(st: ChainState, base: ChainState, ahead: map<Address, nat>, p: PoolVal, q: PoolVal,
                        after: map<Address, nat>, t: Tx)
    requires Sound(p) && Sound(q) && Promotion(st, base, ahead, p, q, after, t.from)
    ensures PromotedTo(st, StartOf(base, ahead, t.from), p, q, t)
  {
    hide Affordable, ReadyRest, Lowest, Merge, Fit, Ready, PromotedNonces, Outpaid, Waiting;
    var start := StartOf(base, ahead, t.from);
    InItems(p.pending, p.all, t);
    InItems(p.queue, p.all, t);
    InItems(q.pending, q.all, t);
    InItems(q.queue, q.all, t);
    if t.from in p.queue {
      PendingExactly(st, start, p, q, t);
      QueuedExactly(st, start, p, q, t);
    } else {
      assert SameAt(q.pending, p.pending, t.from) && SameAt(q.queue, p.queue, t.from);
      NoneReady(st, start, p.queue, t);
    }
  }

  lemma NoneReady(st: ChainState, start: nat, l: Accounts, t: Tx)
    requires t.from !in l
    ensures forall u :: SamePlace(u, t) ==> !Ready(st, start, l, u)
  {
  }

  lemma PendingExactly(st: ChainState, start: nat, p: PoolVal, q: PoolVal, t: Tx)
    requires ListsOk(p.pending, p.all) && ListsOk(p.queue, p.all) && ListsOk(q.pending, q.all)
    requires AccountPromoted(st, t.from, start, Items(p.pending, t.from), Items(p.queue, t.from),
                             Items(q.pending, t.from), Items(q.queue, t.from))
    ensures In(q.pending, t) <==>
            (|| (In(p.pending, t)
                 && forall u :: SamePlace(u, t) && Ready(st, start, p.queue, u) ==> u.gasPrice <= t.gasPrice)
             || (Ready(st, start, p.queue, t) && !Outpaid(p.pending, t)))
  {
    hide Affordable, ReadyRest, Lowest, Merge, Fit, Ready, Outpaid;
    var a, n := t.from, t.nonce;
    var m := Affordable(Items(p.queue, a), st, a);
    var run := m - ReadyRest(m, start).Keys;
    InItems(p.pending, p.all, t);
    InItems(p.queue, p.all, t);
    InItems(q.pending, q.all, t);
    PlaceOf(p.pending, p.all, t);
    AffordablePart(Items(p.queue, a), st, a);
    ReadyItems(st, start, p.queue, p.all, a, n);
    ReadyAt(st, start, p.queue, p.all, t);
    MergeAt(Items(p.pending, a), run, n);
  }

  /** At most one transaction of a place is ready: the queued one. */
  lemma ReadyAt(st: ChainState, start: nat, l: Accounts, all: map<TxId, Tx>, t: Tx)
    requires ListsOk(l, all)
    ensures forall u :: SamePlace(u, t) && Ready(st, start, l, u) ==>
              t.nonce in Items(l, t.from) && u == Items(l, t.from)[t.nonce]
    ensures t.nonce in Items(l, t.from) ==> SamePlace(Items(l, t.from)[t.nonce], t)
  {
    InItems(l, all, t);
  }

  lemma MergeAt(q: TxMap, m: TxMap, n: nat)
    ensures n in Merge(q, m) <==> n in q || n in m
    ensures n in Merge(q, m) ==>
              Merge(q, m)[n] == if n in q && (n in m ==> q[n].gasPrice >= m[n].gasPrice) then q[n] else m[n]
  {
  }

  lemma QueuedExactly(st: ChainState, start: nat, p: PoolVal, q: PoolVal, t: Tx)
    requires ListsOk(p.queue, p.all) && ListsOk(q.queue, q.all)
    requires Items(q.queue, t.from) ==
               Lowest(ReadyRest(Affordable(Items(p.queue, t.from), st, t.from), start), MAX_QUEUED_PER_ACCOUNT)
    ensures In(q.queue, t) <==>
            In(p.queue, t) && Fit(st, t) && !Ready(st, start, p.queue, t) && |Waiting(st, start, p.queue, t)| < 64
  {
    hide Affordable, ReadyRest, Lowest, Fit, Ready;
    var a, n := t.from, t.nonce;
    var m := Affordable(Items(p.queue, a), st, a);
    var rest := ReadyRest(m, start);
    InItems(p.queue, p.all, t);
    InItems(q.queue, q.all, t);
    AffordablePart(Items(p.queue, a), st, a);
    RestPart(m, start);
    forall k: nat ensures k in rest <==>
        k in Items(p.queue, a) && Fit(st, Items(p.queue, a)[k]) && !Ready(st, start, p.queue, Items(p.queue, a)[k])
    {
      FitItems(st, p.queue, p.all, a, k);
      ReadyItems(st, start, p.queue, p.all, a, k);
    }
    assert LowerThan(rest, n) == Waiting(st, start, p.queue, t);
    LowestPart(rest, MAX_QUEUED_PER_ACCOUNT);
    if n in rest { LowestCount(rest, MAX_QUEUED_PER_ACCOUNT, n); }
  }

  lemma RestPart(m: TxMap, start: nat)
    requires WellNonced(m)
    ensures forall n :: n in ReadyRest(m, start) ==> n in m && ReadyRest(m, start)[n] == m[n]
  {
    if m.Keys != {} && MinOf(m.Keys) <= start { RunMeans(m, MinOf(m.Keys)); }
  }

  lemma LowestPart(m: TxMap, k: nat)
    ensures forall n :: n in Lowest(m, k) ==> n in m && Lowest(m, k)[n] == m[n]
  {
  }

  // ----- pending nonces

  /** The nonces of `a` that become pending: ready, and nothing pending pays as much. */
  ghost function Risen(st: ChainState, start: nat, p: PoolVal, a: Address): set<nat> {
    set n | n in Items(p.queue, a) && Ready(st, start, p.queue, Items(p.queue, a)[n])
            && !Outpaid(p.pending, Items(p.queue, a)[n])
  }

  /** One after the highest of `risen`, or as it was if that is empty. */
  ghost predicate NonceRises(ahead: map<Address, nat>, after: map<Address, nat>, a: Address, risen: set<nat>) {
    if risen == {} then SameAt(after, ahead, a)
    else a in after && after[a] > 0 && after[a] - 1 in risen && forall n :: n in risen ==> n < after[a]
  }

  ghost function PaysIn(p: TxMap, txs: seq<Tx>): set<nat> {
    set i: nat | i < |txs| && Pays(p, txs[i]) :: txs[i].nonce
  }

  lemma {:induction false} FollowedMeans(ahead: map<Address, nat>, a: Address, p: TxMap, txs: seq<Tx>)
    requires forall i, j :: 0 <= i < j < |txs| ==> txs[i].nonce < txs[j].nonce
    ensures NonceRises(ahead, Followed(ahead, a, p, txs), a, PaysIn(p, txs))
    decreases |txs|
  {
    hide Pays, PaysIn;
    if txs == [] {
      NonePay(p, txs);
    } else {
      FollowedMeans(ahead, a, p, txs[..|txs| - 1]);
      OneMorePays(p, txs);
    }
  }

  lemma OneMorePays(p: TxMap, txs: seq<Tx>)
    requires txs != [] && forall i, j :: 0 <= i < j < |txs| ==> txs[i].nonce < txs[j].nonce
    ensures var front, last := txs[..|txs| - 1], txs[|txs| - 1];
            && PaysIn(p, txs) == PaysIn(p, front) + (if Pays(p, last) then {last.nonce} else {})
            && forall n :: n in PaysIn(p, front) ==> n < last.nonce
  {
    hide Pays;
    var front, k := txs[..|txs| - 1], |txs| - 1;
    var last := txs[k];
    forall n ensures n in PaysIn(p, txs) <==> n in PaysIn(p, front) || (Pays(p, last) && n == last.nonce) {
      if n in PaysIn(p, txs) {
        var i: nat :| i < |txs| && Pays(p, txs[i]) && txs[i].nonce == n;
        if i < k { assert front[i] == txs[i]; }
      }
      if n in PaysIn(p, front) {
        var i: nat :| i < |front| && Pays(p, front[i]) && front[i].nonce == n;
        assert txs[i] == front[i];
      }
      if Pays(p, last) { assert txs[k].nonce in PaysIn(p, txs); }
    }
  }

  lemma NonePay(p: TxMap, txs: seq<Tx>)
    ensures txs == [] ==> PaysIn(p, txs) == {}
  {
  }

  /** The pending nonce of an account after promotion. */
  lemma NoncePromoted(st: ChainState, base: ChainState, ahead: map<Address, nat>, p: PoolVal, q: PoolVal,
                      after: map<Address, nat>, a: Address)
    requires Sound(p) && Promotion(st, base, ahead, p, q, after, a)
    ensures NonceRises(ahead, after, a, Risen(st, StartOf(base, ahead, a), p, a))
  {
    hide Affordable, ReadyRest, ReadyRun, Lowest, Merge, Fit, Ready, Followed, AccountPromoted, Pays;
    var start := StartOf(base, ahead, a);
    if a in p.queue {
      var m := Affordable(Items(p.queue, a), st, a);
      var txs, pending := ReadyRun(m, start), Items(p.pending, a);
      ListNonced(p.queue, p.all, a, true);
      AffordablePart(Items(p.queue, a), st, a);
      ReadyEnumerates(m, start);
      FollowedMeans(ahead, a, pending, txs);
      RisenAre(st, start, p, a, txs, m);
    } else {
      assert Risen(st, start, p, a) == {};
    }
  }

  lemma RisenAre(st: ChainState, start: nat, p: PoolVal, a: Address, txs: seq<Tx>, m: TxMap)
    requires Sound(p) && m == Affordable(Items(p.queue, a), st, a) && Enumerates(txs, m - ReadyRest(m, start).Keys)
    ensures PaysIn(Items(p.pending, a), txs) == Risen(st, start, p, a)
  {
    hide Affordable, ReadyRest, Fit, Ready, Outpaid;
    var q := Items(p.queue, a);
    var run := m - ReadyRest(m, start).Keys;
    ListNonced(p.queue, p.all, a, true);
    AffordablePart(q, st, a);
    forall n ensures n in PaysIn(Items(p.pending, a), txs) <==> n in Risen(st, start, p, a) {
      ReadyItems(st, start, p.queue, p.all, a, n);
      if n in q { PlaceOf(p.pending, p.all, q[n]); }
      if n in run {
        assert run[n] in txs;
        var i :| 0 <= i < |txs| && txs[i] == run[n];
      }
      if n in PaysIn(Items(p.pending, a), txs) {
        var i: nat :| i < |txs| && Pays(Items(p.pending, a), txs[i]) && txs[i].nonce == n;
        assert txs[i] in txs;
      }
    }
  }

  // ----- demotion

  /** It is fit, and so is every pending transaction of its sender below it that is not stale. */
  ghost predicate Stays(st: ChainState, l: Accounts, t: Tx) {
    && In(l, t) && Fit(st, t)
    && forall u :: In(l, u) && u.from == t.from && u.nonce < t.nonce ==>
                     Fit(st, u) || (u.from in st.nonces && u.nonce < st.nonces[u.from])
  }

  /** It is fit but cannot run any more, because one below it cannot be paid for. */
  ghost predicate Stranded(st: ChainState, l: Accounts, t: Tx) {
    In(l, t) && Fit(st, t) && !Stays(st, l, t)
  }

  /**
   * The demotion of one transaction: it stays pending if it stays, it comes back into the queue if it
   * is stranded and nothing queued pays as much, and it stays queued unless a stranded one pays more.
   */
  ghost predicate DemotedTo(st: ChainState, p: PoolVal, q: PoolVal, t: Tx) {
    && (In(q.pending, t) <==> Stays(st, p.pending, t))
    && (In(q.queue, t) <==>
        (|| (In(p.queue, t)
             && forall u :: SamePlace(u, t) && Stranded(st, p.pending, u) ==> u.gasPrice <= t.gasPrice)
         || (Stranded(st, p.pending, t) && !Outpaid(p.queue, t))))
  }

  lemma DemotedExactly(st: ChainState, p: PoolVal, q: PoolVal, t: Tx)
    requires Sound(p) && Sound(q) && Demotion(st, p, q, t.from)
    ensures DemotedTo(st, p, q, t)
  {
    hide Merge, Fit, Stays, Stranded, Outpaid, FilteredItems, Invalidated, From;
    var a, n := t.from, t.nonce;
    InItems(p.pending, p.all, t);
    InItems(p.queue, p.all, t);
    InItems(q.pending, q.all, t);
    InItems(q.queue, q.all, t);
    PlaceOf(p.queue, p.all, t);
    if a in p.pending {
      var m := From(Items(p.pending, a), st.Nonce(a));
      StaysWhen(st, p, a, n);
      MergeAt(Items(p.queue, a), Invalidated(true, m, st.Balance(a)), n);
      StrandedAt(st, p.pending, p.all, t);
    } else {
      assert SameAt(q.pending, p.pending, a) && SameAt(q.queue, p.queue, a);
      NoneStays(st, p.pending, t);
    }
  }

  lemma NoneStays(st: ChainState, l: Accounts, t: Tx)
    requires t.from !in l
    ensures !Stays(st, l, t) && forall u :: SamePlace(u, t) ==> !Stranded(st, l, u)
  {
  }

  lemma StrandedAt(st: ChainState, l: Accounts, all: map<TxId, Tx>, t: Tx)
    requires ListsOk(l, all)
    ensures forall u :: SamePlace(u, t) && Stranded(st, l, u) ==>
              t.nonce in Items(l, t.from) && u == Items(l, t.from)[t.nonce]
    ensures t.nonce in Items(l, t.from) ==> SamePlace(Items(l, t.from)[t.nonce], t)
    ensures Stranded(st, l, t) || Stays(st, l, t) ==> In(l, t)
  {
    InItems(l, all, t);
  }

  lemma StaysWhen(st: ChainState, p: PoolVal, a: Address, n: nat)
    requires Sound(p)
    ensures var l := Items(p.pending, a);
            var m := From(l, st.Nonce(a));
            var kept, bad := FilteredItems(true, m, st.Balance(a)), Invalidated(true, m, st.Balance(a));
            && (n in kept <==> n in l && Stays(st, p.pending, l[n])) && (n in kept ==> kept[n] == l[n])
            && (n in bad <==> n in l && Stranded(st, p.pending, l[n])) && (n in bad ==> bad[n] == l[n])
  {
    var l := Items(p.pending, a);
    var m := From(l, st.Nonce(a));
    ListNonced(p.pending, p.all, a, true);
    var costly := TooCostly(m, st.Balance(a));
    assert forall k :: k in m ==> (Fit(st, m[k]) <==> k !in costly);
    if n in m && n !in costly {
      if costly.Keys != {} && MinOf(costly.Keys) < n {
        var u := m[MinOf(costly.Keys)];
        assert In(p.pending, u) && !Fit(st, u) && u.nonce < n;
      } else {
        forall u | In(p.pending, u) && u.from == a && u.nonce < n
          ensures Fit(st, u) || (u.from in st.nonces && u.nonce < st.nonces[u.from])
        {
          assert u.nonce !in costly.Keys;
          assert u.nonce in l && l[u.nonce] == u;
        }
        assert Stays(st, p.pending, l[n]);
      }
    }
  }

  // ----- removal

  /** A transaction of the sender and nonce of `t` is listed. */
  ghost predicate Occupied(l: Accounts, t: Tx) {
    exists u :: In(l, u) && SamePlace(u, t)
  }

  /** Removing `tx` takes `t` off the pending list and sends it back to the queue: `t` is above, and something below. */
  ghost predicate SentBack(l: Accounts, tx: Tx, t: Tx) {
    && In(l, t) && t.from == tx.from && t.nonce > tx.nonce && Occupied(l, tx)
    && exists u :: In(l, u) && u.from == tx.from && u.nonce < tx.nonce
  }

  /** One that is sent back pays more than `t`, which is queued in its place. */
  ghost predicate PushedOut(p: PoolVal, tx: Tx, t: Tx) {
    In(p.queue, t) && exists u :: SamePlace(u, t) && SentBack(p.pending, tx, u) && u.gasPrice > t.gasPrice
  }

  /** Where `t` is after the removal of `tx`. */
  ghost predicate RemovedTo(p: PoolVal, q: PoolVal, tx: Tx, t: Tx) {
    && (In(q.pending, t) <==>
        In(p.pending, t) && !(t.from == tx.from && t.nonce >= tx.nonce && Occupied(p.pending, tx)))
    && (In(q.queue, t) <==>
        && !SamePlace(t, tx)
        && ((In(p.queue, t) && !PushedOut(p, tx, t)) || (SentBack(p.pending, tx, t) && !Outpaid(p.queue, t))))
    && (t.hash in q.all && q.all[t.hash] == t <==>
        t.hash in p.all && p.all[t.hash] == t && t.hash != tx.hash && !PushedOut(p, tx, t))
  }

  lemma SentBackAt(l: Accounts, all: map<TxId, Tx>, tx: Tx, n: nat)
    requires ListsOk(l, all)
    ensures var m := Items(l, tx.from);
            && (Occupied(l, tx) <==> tx.nonce in m)
            && (n in Returned(m, tx.nonce) <==> n in m && SentBack(l, tx, m[n]))
            && (n in Returned(m, tx.nonce) ==> Returned(m, tx.nonce)[n] == m[n])
  {
    var m := Items(l, tx.from);
    InItems(l, all, tx);
    if tx.nonce in m { assert SamePlace(m[tx.nonce], tx); }
    assert forall k :: k in m ==> In(l, m[k]) && m[k].nonce == k;
    if u :| In(l, u) && u.from == tx.from && u.nonce < tx.nonce {
      assert u.nonce in Below(m, tx.nonce);
    } else {
      assert Below(m, tx.nonce) == map[];
    }
  }

  lemma PushedOutAt(p: PoolVal, tx: Tx, t: Tx)
    requires ListsOk(p.pending, p.all) && ListsOk(p.queue, p.all)
    ensures PushedOut(p, tx, t) <==>
            && t.from == tx.from && In(p.queue, t) && t.nonce in Returned(Items(p.pending, tx.from), tx.nonce)
            && Returned(Items(p.pending, tx.from), tx.nonce)[t.nonce].gasPrice > t.gasPrice
  {
    hide Returned, SentBack;
    SentBackAt(p.pending, p.all, tx, t.nonce);
    SentBackIn(p.pending, tx);
    if t.from == tx.from { InItems(p.pending, p.all, t); }
    if t.from == tx.from && t.nonce in Returned(Items(p.pending, tx.from), tx.nonce) {
      assert SamePlace(Items(p.pending, tx.from)[t.nonce], t);
    }
  }

  lemma SentBackIn(l: Accounts, tx: Tx)
    ensures forall u :: SentBack(l, tx, u) ==> In(l, u) && u.from == tx.from
  {
  }

  lemma RemovedExactly(p: PoolVal, q: PoolVal, tx: Tx, t: Tx)
    requires Sound(p) && Sound(q) && Removal(p, q, tx) && tx.hash in p.all && p.all[tx.hash] == tx
    ensures RemovedTo(p, q, tx, t)
  {
    hide Merge, BeatenHashes, Returned, SentBack, PushedOut, Outpaid, SameBut, AllStrict, Occupied;
    RemovedIndex(p, q, tx, t);
    if t.from == tx.from {
      RemovedPending(p, q, tx, t);
      RemovedQueued(p, q, tx, t);
    } else {
      ButAt(q.pending, p.pending, tx.from, t.from);
      ButAt(q.queue, p.queue, tx.from, t.from);
      SentBackIn(p.pending, tx);
      PushedOutAt(p, tx, t);
    }
  }

  lemma RemovedPending(p: PoolVal, q: PoolVal, tx: Tx, t: Tx)
    requires Sound(p) && Sound(q) && Removal(p, q, tx) && t.from == tx.from
    ensures In(q.pending, t) <==> In(p.pending, t) && !(t.nonce >= tx.nonce && Occupied(p.pending, tx))
  {
    hide Merge, BeatenHashes, Returned, SameBut, Occupied, SentBack;
    InItems(p.pending, p.all, t);
    InItems(q.pending, q.all, t);
    SentBackAt(p.pending, p.all, tx, t.nonce);
  }

  lemma RemovedQueued(p: PoolVal, q: PoolVal, tx: Tx, t: Tx)
    requires Sound(p) && Sound(q) && Removal(p, q, tx) && t.from == tx.from
    ensures In(q.queue, t) <==>
            && !SamePlace(t, tx)
            && ((In(p.queue, t) && !PushedOut(p, tx, t)) || (SentBack(p.pending, tx, t) && !Outpaid(p.queue, t)))
  {
    hide Merge, BeatenHashes, Returned, SameBut, Occupied, SentBack, PushedOut, Outpaid, Below;
    InItems(p.queue, p.all, t);
    InItems(p.pending, p.all, t);
    InItems(q.queue, q.all, t);
    SentBackAt(p.pending, p.all, tx, t.nonce);
    SentBackIn(p.pending, tx);
    PushedOutAt(p, tx, t);
    PlaceOf(p.queue, p.all, t);
    MergeAt(Items(p.queue, t.from), Returned(Items(p.pending, t.from), tx.nonce), t.nonce);
  }

  lemma RemovedIndex(p: PoolVal, q: PoolVal, tx: Tx, t: Tx)
    requires Sound(p) && Removal(p, q, tx) && tx.hash in p.all && p.all[tx.hash] == tx
    ensures t.hash in q.all && q.all[t.hash] == t <==>
            t.hash in p.all && p.all[t.hash] == t && t.hash != tx.hash && !PushedOut(p, tx, t)
  {
    hide Merge, Returned, SameBut, PushedOut, Below, AllStrict;
    var queued, back := Items(p.queue, tx.from), Returned(Items(p.pending, tx.from), tx.nonce);
    PushedOutAt(p, tx, t);
    InItems(p.queue, p.all, tx);
    if t.from == tx.from { InItems(p.queue, p.all, t); }
    if In(p.queue, t) { FiledIndexed(p, t); }
    if t.hash in BeatenHashes(queued, back) {
      var n :| n in back && n in queued && queued[n].gasPrice < back[n].gasPrice && queued[n].hash == t.hash;
      FiledIndexed(p, queued[n]);
    }
  }

  // ----- queueing

  /** Where `t` is after `tx` has been queued. */
  ghost predicate EnqueuedTo(p: PoolVal, q: PoolVal, tx: Tx, t: Tx) {
    && (In(q.pending, t) <==> In(p.pending, t))
    && (In(q.queue, t) <==>
        (In(p.queue, t) && !(SamePlace(t, tx) && tx.gasPrice > t.gasPrice)) || (t == tx && !Outpaid(p.queue, tx)))
    && (t.hash in q.all && q.all[t.hash] == t <==>
        (|| (t.hash in p.all && p.all[t.hash] == t && !(In(p.queue, t) && SamePlace(t, tx) && tx.gasPrice > t.gasPrice))
         || (t == tx && !Outpaid(p.queue, tx))))
  }

  lemma EnqueuedExactly(p: PoolVal, tx: Tx, t: Tx)
    requires Sound(p) && tx.hash !in p.all
    ensures EnqueuedTo(p, Enqueue(p, tx), tx, t)
  {
    hide Outpaid, AllStrict;
    InItems(p.queue, p.all, tx);
    PlaceOf(p.queue, p.all, tx);
    AddedIn(p.queue, false, tx, t);
    if In(p.queue, t) { FiledIndexed(p, t); }
    var v := ListAt(p.queue, tx.from, false);
    assert v.items == Items(p.queue, tx.from);
    if tx.nonce in v.items { FiledIndexed(p, v.items[tx.nonce]); }
  }

  /** A transaction of a batch is queued if it is valid and its hash is new, and nothing happens otherwise. */
  ghost predicate BatchStep(p: PoolVal, q: PoolVal, tx: Tx, valid: bool) {
    if valid && tx.hash !in p.all then forall t :: EnqueuedTo(p, q, tx, t) else q == p
  }

  lemma EnqueueSound(p: PoolVal, tx: Tx)
    requires Sound(p) && tx.hash !in p.all
    ensures Sound(Enqueue(p, tx))
  {
    hide AllStrict, Added, Accepts, Replaced, Consistent;
    if Filed(p, tx) { FiledIndexed(p, tx); }
    EnqueueKeeps(p, tx);
    StrictKept(p.queue, false, tx);
  }

  /** A batch goes in one by one; the count is that of the ones that were valid and new at their turn. */
  lemma {:induction false} BatchExactly(p: PoolVal, txs: seq<(Tx, bool)>)
    returns (trace: seq<PoolVal>, taken: set<nat>)
    requires Sound(p)
    ensures |trace| == |txs| + 1 && trace[0] == p && trace[|txs|] == WithBatch(p, txs).0 && Sound(trace[|txs|])
    ensures forall i :: 0 <= i < |txs| ==> BatchStep(trace[i], trace[i + 1], txs[i].0, txs[i].1)
    ensures forall i: nat :: i in taken <==> i < |txs| && txs[i].1 && txs[i].0.hash !in trace[i].all
    ensures WithBatch(p, txs).1 == |taken|
    decreases |txs|
  {
    hide Sound, EnqueuedTo, Enqueue;
    if txs == [] {
      trace, taken := [p], {};
    } else {
      var n := |txs| - 1;
      var less := txs[..n];
      trace, taken := BatchExactly(p, less);
      var last, tx := trace[n], txs[n].0;
      assert forall i :: 0 <= i < n ==> less[i] == txs[i];
      if txs[n].1 && tx.hash !in last.all {
        EnqueueSound(last, tx);
        forall t ensures EnqueuedTo(last, Enqueue(last, tx), tx, t) { EnqueuedExactly(last, tx, t); }
        trace, taken := trace + [Enqueue(last, tx)], taken + {n};
      } else {
        trace := trace + [last];
      }
    }
  }

  // ----- the laws of whole passes

  lemma PromotionLaws(st: ChainState, base: ChainState, ahead: map<Address, nat>, p: PoolVal, q: PoolVal,
                      after: map<Address, nat>)
    requires Sound(p) && Sound(q) && forall a :: Promotion(st, base, ahead, p, q, after, a)
    ensures forall t: Tx :: PromotedTo(st, StartOf(base, ahead, t.from), p, q, t)
    ensures forall a :: NonceRises(ahead, after, a, Risen(st, StartOf(base, ahead, a), p, a))
  {
    hide Promotion, PromotedTo, NonceRises, Risen, Sound;
    forall t: Tx ensures PromotedTo(st, StartOf(base, ahead, t.from), p, q, t) {
      PromotedExactly(st, base, ahead, p, q, after, t);
    }
    forall a ensures NonceRises(ahead, after, a, Risen(st, StartOf(base, ahead, a), p, a)) {
      NoncePromoted(st, base, ahead, p, q, after, a);
    }
  }

  /**
   * What is filed after promotion was pending, or is fit. What is fit stays, unless it is outpaid
   * or waits too high.
   */
  ghost predicate OnlyFit(st: ChainState, base: ChainState, ahead: map<Address, nat>, p: PoolVal, q: PoolVal) {
    && (forall t :: In(q.queue, t) || (In(q.pending, t) && !In(p.pending, t)) ==> In(p.queue, t) && Fit(st, t))
    && (forall t :: In(p.queue, t) && Fit(st, t) ==>
          || Filed(q, t) || Outpaid(p.pending, t)
          || |Waiting(st, StartOf(base, ahead, t.from), p.queue, t)| >= 64)
  }

  lemma PromotedFit(st: ChainState, base: ChainState, ahead: map<Address, nat>, p: PoolVal, q: PoolVal)
    requires Sound(p) && forall t: Tx :: PromotedTo(st, StartOf(base, ahead, t.from), p, q, t)
    ensures OnlyFit(st, base, ahead, p, q)
  {
    hide Waiting, Outpaid, Sound, Fit, StartOf;
    forall t ensures In(q.queue, t) || (In(q.pending, t) && !In(p.pending, t)) ==> In(p.queue, t) && Fit(st, t) {
      assert PromotedTo(st, StartOf(base, ahead, t.from), p, q, t);
      ReadyFit(st, StartOf(base, ahead, t.from), p, t);
    }
    forall t | In(p.queue, t) && Fit(st, t)
      ensures || Filed(q, t) || Outpaid(p.pending, t)
              || |Waiting(st, StartOf(base, ahead, t.from), p.queue, t)| >= 64
    {
      assert PromotedTo(st, StartOf(base, ahead, t.from), p, q, t);
    }
  }

  lemma ReadyFit(st: ChainState, start: nat, p: PoolVal, t: Tx)
    requires Sound(p)
    ensures Ready(st, start, p.queue, t) ==> In(p.queue, t) && Fit(st, t)
  {
    hide Fit;
    if lo: nat :| In(p.queue, t) && lo <= start && lo <= t.nonce && Unbroken(st, p.queue, t.from, lo, t.nonce) {
      assert FitAt(st, p.queue, t.from, t.nonce);
      FitItems(st, p.queue, p.all, t.from, t.nonce);
    }
  }

  /** The laws of promotion with both limits: nothing new is filed that is not fit. */
  lemma SettledLaws(st: ChainState, base: ChainState, local: set<TxId>, was: PoolVal, ahead: map<Address, nat>,
                    s: Passes, p: PoolVal, after: map<Address, nat>)
    requires Sound(was) && Settles(st, base, local, was, ahead, s, p, after)
    ensures forall t: Tx :: PromotedTo(st, StartOf(base, ahead, t.from), was, s.promoted, t)
    ensures forall a :: NonceRises(ahead, s.nonces, a, Risen(st, StartOf(base, ahead, a), was, a))
    ensures OnlyFit(st, base, ahead, was, s.promoted)
    ensures forall t :: In(s.limited.pending, t) ==> In(s.promoted.pending, t)
    ensures forall t :: Filed(p, t) ==> In(was.pending, t) || (In(was.queue, t) && Fit(st, t))
  {
    hide Promotion, PromotedTo, NonceRises, Risen, Sound, Tracked, Total, NonceFate, Fit, StartOf, Fate, AtLevel,
      NothingComesBack, QueueHashes, CutHashes, Waiting, Outpaid, Restrict;
    PromotionLaws(st, base, ahead, was, s.promoted, s.nonces);
    PromotedFit(st, base, ahead, was, s.promoted);
    forall t ensures In(s.limited.pending, t) ==> In(s.promoted.pending, t) {
      OnlyCut(s.promoted.pending, s.spam, s.level, t);
    }
    forall t | Filed(p, t) ensures In(was.pending, t) || (In(was.queue, t) && Fit(st, t)) {
      assert Filed(s.limited, t) by {
        if Total(s.promoted.queue) > MAX_QUEUED_IN_TOTAL {
          SoundConsistent(s.limited);
          CutFiled(s.limited, p, s.whole, s.part, s.k, t);
        }
      }
    }
  }

  lemma SoundConsistent(p: PoolVal)
    requires Sound(p)
    ensures Consistent(p)
  {
  }

  lemma DemotionLaws(st: ChainState, p: PoolVal, q: PoolVal, strays: set<Tx>)
    requires Sound(p) && Sound(q) && Demotes(st, p, q, strays)
    ensures forall t :: DemotedTo(st, p, q, t)
    ensures forall t :: t in strays <==> Stranded(st, p.pending, t) && Outpaid(p.queue, t)
  {
    hide DemotedTo, Stranded, Outpaid, Tracked, Stays, Invalidated, From;
    forall t: Tx ensures DemotedTo(st, p, q, t) { DemotedExactly(st, p, q, t); }
    forall t: Tx ensures t in strays <==> Stranded(st, p.pending, t) && Outpaid(p.queue, t) {
      InItems(p.pending, p.all, t);
      StaysWhen(st, p, t.from, t.nonce);
      StrandedAt(st, p.pending, p.all, t);
      PlaceOf(p.queue, p.all, t);
      SpurnedAt(st, p, t);
    }
  }

  lemma SpurnedAt(st: ChainState, p: PoolVal, t: Tx)
    requires WellNonced(Items(p.pending, t.from))
    ensures SpurnedBy(st, p, t) <==>
            var q, m := Items(p.queue, t.from), Invalidated(true, From(Items(p.pending, t.from), st.Nonce(t.from)),
                                                            st.Balance(t.from));
            t.nonce in m && m[t.nonce] == t && t.nonce in q && q[t.nonce].gasPrice >= t.gasPrice
  {
    assert t.from !in p.pending ==> Items(p.pending, t.from) == map[];
  }

  lemma RemovalLaws(p: PoolVal, q: PoolVal, tx: Tx, base: ChainState, ahead: map<Address, nat>)
    requires Sound(p) && Sound(q) && Removal(p, q, tx) && tx.hash in p.all && p.all[tx.hash] == tx
    ensures forall t :: RemovedTo(p, q, tx, t)
    ensures NoncesAfter(base, ahead, tx.hash, p) ==
              if Occupied(p.pending, tx) && StartOf(base, ahead, tx.from) > tx.nonce then ahead[tx.from := tx.nonce]
              else ahead
  {
    hide RemovedTo, Removal, Lowered, Occupied, SentBack, Returned;
    forall t: Tx ensures RemovedTo(p, q, tx, t) { RemovedExactly(p, q, tx, t); }
    SentBackAt(p.pending, p.all, tx, tx.nonce);
    LowerOne(base, ahead, tx.from, Items(p.pending, tx.from), tx.nonce);
  }
}
