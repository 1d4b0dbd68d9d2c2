/**
 * Per-account transaction lists: a nonce map with a heap of its nonces and a cache of its
 * sorted contents, and on top of it the list with the cost-cap short cut. Each operation is
 * specified by what it does to the plain map.
 */
module TxLists {
  import opened Wrappers
  import opened Nonces
  import MinHeap

  function NonceKey(n: nat): int { n }

  /** The heap holds exactly the nonces of the map. */
  ghost predicate Indexes(index: seq<nat>, items: TxMap) {
    MinHeap.IsHeap(index, NonceKey) && multiset(index) == multiset(items.Keys)
  }

  lemma IndexFacts(index: seq<nat>, items: TxMap)
    requires Indexes(index, items)
    ensures |index| == |items|
    ensures forall n :: n in index <==> n in items
    ensures index != [] ==> items.Keys != {} && index[0] == MinOf(items.Keys)
  {
    assert |multiset(index)| == |multiset(items.Keys)|;
    forall n ensures n in index <==> n in items {
      assert n in index <==> n in multiset(index);
      assert n in multiset(items.Keys) <==> n in items.Keys;
    }
    if index != [] {
      assert index[0] in index;
      assert index[0] in items;
      var lo := MinOf(items.Keys);
      var i :| 0 <= i < |index| && index[i] == lo;
      MinHeap.HeapMin(index, NonceKey, i);
    }
  }

  lemma IndexGrow(index: seq<nat>, items: TxMap, more: seq<nat>, tx: Tx)
    requires Indexes(index, items) && tx.nonce !in items
    requires MinHeap.IsHeap(more, NonceKey) && multiset(more) == multiset(index) + multiset{tx.nonce}
    ensures Indexes(more, items[tx.nonce := tx])
  {
    assert items[tx.nonce := tx].Keys == items.Keys + {tx.nonce};
  }

  lemma IndexShrink(index: seq<nat>, items: TxMap, less: seq<nat>, n: nat)
    requires Indexes(index, items) && n in items
    requires MinHeap.IsHeap(less, NonceKey) && multiset(less) == multiset(index) - multiset{n}
    ensures Indexes(less, items - {n})
  {
    assert (items - {n}).Keys == items.Keys - {n};
  }

  /** The nonces of a set in some order. */
  method Enumerate(s: set<nat>) returns (ks: seq<nat>)
    ensures multiset(ks) == multiset(s)
  {
    ks := [];
    var left := s;
    while left != {}
      invariant left <= s && multiset(ks) + multiset(left) == multiset(s)
      decreases |left|
    {
      var n :| n in left;
      assert left == (left - {n}) + {n};
      left, ks := left - {n}, ks + [n];
    }
  }

  /** `txs` lists the values of `m`, each once, in any order. */
  ghost predicate Lists(txs: seq<Tx>, m: TxMap) {
    && |txs| == |m|
    && forall tx :: tx in txs <==> tx.nonce in m && m[tx.nonce] == tx
  }

  function Matching(m: TxMap, filter: Tx -> bool): TxMap {
    map n | n in m && filter(m[n]) :: m[n]
  }

  function Others(m: TxMap, filter: Tx -> bool): TxMap {
    map n | n in m && !filter(m[n]) :: m[n]
  }

  /** What `Ready` takes and leaves, by the lowest nonce. */
  function ReadyRun(m: TxMap, start: nat): seq<Tx> {
    if m.Keys == {} || MinOf(m.Keys) > start then [] else Run(m, MinOf(m.Keys))
  }

  function ReadyRest(m: TxMap, start: nat): TxMap {
    if m.Keys == {} || MinOf(m.Keys) > start then m else AfterRun(m, MinOf(m.Keys))
  }

  lemma RunStep(m: TxMap, next: nat)
    requires next in m
    ensures Run(m, next) == [m[next]] + Run(m - {next}, next + 1)
    ensures AfterRun(m, next) == AfterRun(m - {next}, next + 1)
  {
  }

  /** A filter pass that has still to look at `left`: what is still stored, and what has been taken out. */
  function Open(m: TxMap, left: set<nat>, filter: Tx -> bool): TxMap {
    map n | n in m && (n in left || !filter(m[n])) :: m[n]
  }

  function Gone(m: TxMap, left: set<nat>, filter: Tx -> bool): TxMap {
    map n | n in m && n !in left && filter(m[n]) :: m[n]
  }

  lemma FilterStep(m: TxMap, left: set<nat>, filter: Tx -> bool, n: nat, removed: seq<Tx>)
    requires WellNonced(m) && left <= m.Keys && n in left && Lists(removed, Gone(m, left, filter))
    ensures n in Open(m, left, filter) && Open(m, left, filter)[n] == m[n]
    ensures if filter(m[n])
            then && Open(m, left - {n}, filter) == Open(m, left, filter) - {n}
                 && Lists(removed + [m[n]], Gone(m, left - {n}, filter))
            else && Open(m, left - {n}, filter) == Open(m, left, filter)
                 && Gone(m, left - {n}, filter) == Gone(m, left, filter)
  {
    if filter(m[n]) {
      ListsGrow(removed, Gone(m, left, filter), m[n]);
      assert Gone(m, left - {n}, filter) == Gone(m, left, filter)[n := m[n]];
    }
  }

  lemma NoMatch(m: TxMap, filter: Tx -> bool)
    requires Matching(m, filter) == map[]
    ensures Others(m, filter) == m
  {
    assert forall n :: n in m && filter(m[n]) ==> n in Matching(m, filter);
  }

  lemma ListsGrow(txs: seq<Tx>, m: TxMap, tx: Tx)
    requires Lists(txs, m) && tx.nonce !in m
    ensures Lists(txs + [tx], m[tx.nonce := tx])
  {
  }

  function Reversed(s: seq<Tx>): seq<Tx> {
    if s == [] then [] else Reversed(s[1..]) + [s[0]]
  }

  lemma {:induction false} ReversedLength(s: seq<Tx>)
    ensures |Reversed(s)| == |s|
  {
    if s != [] { ReversedLength(s[1..]); }
  }

  lemma ReversedStep(s: seq<Tx>, k: nat)
    requires k < |s|
    ensures Reversed(s[k..]) == Reversed(s[k + 1..]) + [s[k]]
  {
    assert s[k..][1..] == s[k + 1..];
  }

  lemma LowestAll(m: TxMap)
    ensures Lowest(m, |m|) == m
  {
  }

  lemma LowestOver(m: TxMap, t: nat)
    requires t >= |m|
    ensures Lowest(m, t) == m
  {
  }

  /** The kept nonces are the front of the sorted ones, and so are the kept values. */
  lemma LowestKept(m: TxMap, t: nat)
    requires t < |m|
    ensures |SortedKeys(m.Keys)| == |m|
    ensures multiset(SortedKeys(m.Keys)[..t]) == multiset(Lowest(m, t).Keys)
    ensures Sorted(Lowest(m, t)) == Sorted(m)[..t]
  {
    LowestSorted(m, t);
    BelowKeys(m, t);
    IncreasingMultiset(Lowest(m, t).Keys);
  }

  lemma {:induction false} IncreasingMultiset(s: set<nat>)
    ensures multiset(SortedKeys(s)) == multiset(s)
  {
    if s != {} {
      var m := MinOf(s);
      IncreasingMultiset(s - {m});
      assert s == (s - {m}) + {m};
    }
  }

  lemma CancelRight<T>(a: seq<T>, b: seq<T>, c: seq<T>)
    requires a + c == b + c
    ensures a == b
  {
    assert |a| == |b|;
    assert (a + c)[..|a|] == a && (b + c)[..|b|] == b;
  }

  class TxSortedMap {
    var items: TxMap
    var index: seq<nat>
    var cache: Option<seq<Tx>>

    /** The heap is a min-heap of exactly the map's nonces; a cache is the sorted contents. */
    ghost predicate Valid()
      reads this
    {
      && WellNonced(items)
      && Indexes(index, items)
      && (cache.Some? ==> cache.value == Sorted(items))
    }

    constructor ()
      ensures Valid() && items == map[]
    {
      items, index, cache := map[], [], None;
    }

    method Put(tx: Tx)
      requires Valid()
      modifies this
      ensures Valid() && items == old(items)[tx.nonce := tx]
    {
      hide MinHeap.IsHeap;
      if tx.nonce !in items {
        var more := MinHeap.Push(index, tx.nonce, NonceKey);
        IndexGrow(index, items, more, tx);
        index := more;
      } else {
        assert items[tx.nonce := tx].Keys == items.Keys;
      }
      items, cache := items[tx.nonce := tx], None;
    }

    /** Takes out the lowest entry. */
    method PopLowest() returns (tx: Tx)
      requires WellNonced(items) && Indexes(index, items) && index != []
      modifies this`items, this`index
      ensures WellNonced(items) && Indexes(index, items)
      ensures Sorted(old(items)) == [tx] + Sorted(items)
      ensures old(index[0]) in old(items) && tx == old(items)[old(index[0])] && items == old(items) - {old(index[0])}
      ensures forall n :: n in items ==> n > tx.nonce
    {
      hide MinHeap.IsHeap, Sorted;
      IndexFacts(index, items);
      SortedHead(items);
      var nonce, rest := MinHeap.Pop(index, NonceKey);
      IndexShrink(index, items, rest, nonce);
      tx := items[nonce];
      items, index := items - {nonce}, rest;
    }

    /** Removes every entry below `threshold` and returns them in order. */
    method Forward(threshold: nat) returns (removed: seq<Tx>)
      requires Valid()
      modifies this
      ensures Valid()
      ensures items == From(old(items), threshold) && removed == Sorted(Below(old(items), threshold))
    {
      hide MinHeap.IsHeap, Sorted;
      removed := [];
      while |index| > 0 && index[0] < threshold
        invariant WellNonced(items) && Indexes(index, items) && cache == old(cache)
        invariant Sorted(old(items)) == removed + Sorted(items)
        invariant items.Keys <= old(items).Keys && From(items, threshold) == From(old(items), threshold)
        invariant forall n :: n in items ==> items[n] == old(items)[n]
        decreases |index|
      {
        IndexFacts(index, items);
        ghost var before := items;
        var tx := PopLowest();
        IndexFacts(index, items);
        assert |items| < |before|;
        removed := removed + [tx];
      }
      IndexFacts(index, items);
      assert items == From(items, threshold);
      SortedSplit(old(items), threshold);
      CancelRight(removed, Sorted(Below(old(items), threshold)), Sorted(items));
      if cache.Some? { cache := Some(cache.value[|removed|..]); }
    }

    /** Removes every entry the filter picks and returns them in some order. */
    method Filter(filter: Tx -> bool) returns (removed: seq<Tx>)
      requires Valid()
      modifies this
      ensures Valid()
      ensures items == Others(old(items), filter) && Lists(removed, Matching(old(items), filter))
    {
      hide MinHeap.IsHeap, Sorted;
      removed := DropMatching(filter);
      if |removed| > 0 {
        var ks := Enumerate(items.Keys);
        index := MinHeap.Init(ks, NonceKey);
        cache := None;
      } else {
        assert Matching(old(items), filter) == map[];
        NoMatch(old(items), filter);
      }
    }

    method DropMatching(filter: Tx -> bool) returns (removed: seq<Tx>)
      requires WellNonced(items)
      modifies this`items
      ensures WellNonced(items)
      ensures items == Others(old(items), filter) && Lists(removed, Matching(old(items), filter))
    {
      removed := [];
      var left := items.Keys;
      ghost var m := items;
      assert items == Open(m, left, filter);
      while left != {}
        invariant left <= m.Keys && items == Open(m, left, filter)
        invariant Lists(removed, Gone(m, left, filter))
        decreases |left|
      {
        var n :| n in left;
        FilterStep(m, left, filter, n, removed);
        left := left - {n};
        if filter(items[n]) {
          removed := removed + [items[n]];
          items := items - {n};
        }
      }
      assert Open(m, {}, filter) == Others(m, filter) && Gone(m, {}, filter) == Matching(m, filter);
    }

    /** Keeps the `threshold` lowest nonces and returns the others, highest first. */
    method Cap(threshold: nat) returns (drops: seq<Tx>)
      requires Valid()
      modifies this
      ensures Valid()
      ensures items == Lowest(old(items), threshold)
      ensures drops == if |old(items)| <= threshold then [] else Reversed(Sorted(old(items))[threshold..])
    {
      hide MinHeap.IsHeap, Sorted, Lowest;
      LowestAll(items);
      if |items| <= threshold { LowestOver(items, threshold); return []; }
      index := SortedKeys(items.Keys);
      drops := DropHighest(index, threshold);
      LowestKept(old(items), threshold);
      index := MinHeap.Init(index[..threshold], NonceKey);
      ReversedLength(Sorted(old(items))[threshold..]);
      if cache.Some? { cache := Some(cache.value[..|cache.value| - |drops|]); }
    }

    method DropHighest(ks: seq<nat>, threshold: nat) returns (drops: seq<Tx>)
      requires WellNonced(items) && ks == SortedKeys(items.Keys) && threshold <= |items|
      modifies this`items
      ensures WellNonced(items) && items == Lowest(old(items), threshold)
      ensures drops == Reversed(Sorted(old(items))[threshold..])
    {
      hide Sorted, Lowest, SortedKeys;
      drops := [];
      var size := |items|;
      LowestAll(items);
      assert Sorted(items)[size..] == [];
      while size > threshold
        invariant threshold <= size <= |old(items)| && WellNonced(items)
        invariant items == Lowest(old(items), size)
        invariant drops == Reversed(Sorted(old(items))[size..])
      {
        LowestStep(old(items), size);
        SortedAt(old(items), size - 1);
        ReversedStep(Sorted(old(items)), size - 1);
        drops := drops + [items[ks[size - 1]]];
        items := items - {ks[size - 1]};
        size := size - 1;
      }
    }

    /** Deletes the entry of a nonce. */
    method Remove(nonce: nat) returns (found: bool)
      requires Valid()
      modifies this
      ensures Valid()
      ensures found <==> nonce in old(items)
      ensures items == old(items) - {nonce}
    {
      hide MinHeap.IsHeap, Sorted;
      if nonce !in items {
        assert items - {nonce} == items;
        return false;
      }
      IndexFacts(index, items);
      var i := 0;
      while index[i] != nonce
        invariant 0 <= i < |index| && nonce in index[i..]
        decreases |index| - i
      {
        assert index[i..] == [index[i]] + index[i + 1..];
        i := i + 1;
      }
      var less := MinHeap.Remove(index, i, NonceKey);
      IndexShrink(index, items, less, nonce);
      index, items, cache := less, items - {nonce}, None;
      found := true;
    }

    /** Takes out the run of consecutive nonces at the front, unless it starts beyond `start`. */
    method Ready(start: nat) returns (ready: seq<Tx>)
      requires Valid()
      modifies this
      ensures Valid()
      ensures items == ReadyRest(old(items), start) && ready == ReadyRun(old(items), start)
    {
      hide MinHeap.IsHeap, Sorted;
      IndexFacts(index, items);
      if |index| == 0 || index[0] > start { return []; }
      ready := [];
      var next := index[0];
      ghost var lo := next;
      while |index| > 0 && index[0] == next
        invariant WellNonced(items) && Indexes(index, items) && next >= lo
        invariant forall n :: n in items ==> n >= next
        invariant Run(old(items), lo) == ready + Run(items, next) && AfterRun(old(items), lo) == AfterRun(items, next)
        decreases |index|
      {
        IndexFacts(index, items);
        ghost var before := items;
        var tx := PopLowest();
        IndexFacts(index, items);
        RunStep(before, next);
        ready := ready + [tx];
        next := next + 1;
      }
      IndexFacts(index, items);
      assert next !in items;
      cache := None;
    }

    function Len(): nat
      reads this
    {
      |items|
    }

    /** The contents in nonce order, sorted at most once between changes. */
    method Flatten() returns (txs: seq<Tx>)
      requires Valid()
      modifies this`cache
      ensures Valid() && txs == Sorted(items)
    {
      if cache.None? { cache := Some(Sorted(items)); }
      txs := cache.value;
    }
  }

  /** The calls on a sorted map. */
  datatype MapOp =
    | DoPut(tx: Tx)
    | DoForward(threshold: nat)
    | DoFilter(filter: Tx -> bool)
    | DoCap(limit: nat)
    | DoRemove(nonce: nat)
    | DoReady(start: nat)
    | DoFlatten

  /** What a call does to the plain map. */
  function Apply(m: TxMap, op: MapOp): TxMap {
    match op
    case DoPut(tx) => m[tx.nonce := tx]
    case DoForward(threshold) => From(m, threshold)
    case DoFilter(filter) => Others(m, filter)
    case DoCap(limit) => Lowest(m, limit)
    case DoRemove(nonce) => m - {nonce}
    case DoReady(start) => ReadyRest(m, start)
    case DoFlatten => m
  }

  function ApplyAll(ops: seq<MapOp>): TxMap {
    if ops == [] then map[] else Apply(ApplyAll(ops[..|ops| - 1]), ops[|ops| - 1])
  }

  method Perform(m: TxSortedMap, op: MapOp)
    requires m.Valid()
    modifies m
    ensures m.Valid() && m.items == Apply(old(m.items), op)
  {
    hide Indexes, Sorted, Lowest, ReadyRest, Others, From, WellNonced;
    match op
    case DoPut(tx) => m.Put(tx);
    case DoForward(threshold) => var removed := m.Forward(threshold);
    case DoFilter(filter) => var removed := m.Filter(filter);
    case DoCap(limit) => var drops := m.Cap(limit);
    case DoRemove(nonce) => var found := m.Remove(nonce);
    case DoReady(start) => var ready := m.Ready(start);
    case DoFlatten => var txs := m.Flatten();
  }

  /**
   * Any calls in any order: the map is the plain one, the heap holds exactly its nonces, and a
   * cache, if there is one, is its sorted contents.
   */
  method RunMap(ops: seq<MapOp>) returns (m: TxSortedMap)
    ensures m.Valid() && m.items == ApplyAll(ops)
    ensures MinHeap.IsHeap(m.index, NonceKey) && multiset(m.index) == multiset(m.items.Keys)
    ensures m.cache.Some? ==> m.cache.value == Sorted(m.items)
  {
    hide MinHeap.IsHeap, Sorted, Apply;
    m := new TxSortedMap();
    for i := 0 to |ops|
      invariant m.Valid() && fresh(m) && m.items == ApplyAll(ops[..i])
    {
      assert ops[..i + 1][..i] == ops[..i];
      Perform(m, ops[i]);
    }
    assert ops[..|ops|] == ops;
  }

  // ----- lists with a cost cap

  /** What a list stands for. */
  datatype ListVal = ListVal(strict: bool, items: TxMap, costcap: int)

  /** The cap bounds every stored cost. */
  ghost predicate CapOk(v: ListVal) {
    forall n :: n in v.items ==> v.items[n].cost <= v.costcap
  }

  /** A stored transaction of the same nonce gives way only to a higher price. */
  predicate Accepts(v: ListVal, tx: Tx) {
    tx.nonce in v.items ==> v.items[tx.nonce].gasPrice < tx.gasPrice
  }

  function Replaced(v: ListVal, tx: Tx): Option<Tx> {
    if Accepts(v, tx) && tx.nonce in v.items then Some(v.items[tx.nonce]) else None
  }

  function Added(v: ListVal, tx: Tx): ListVal {
    if Accepts(v, tx)
    then v.(items := v.items[tx.nonce := tx], costcap := if v.costcap < tx.cost then tx.cost else v.costcap)
    else v
  }

  function TooCostly(m: TxMap, threshold: int): TxMap {
    map n | n in m && m[n].cost > threshold :: m[n]
  }

  function Payable(m: TxMap, threshold: int): TxMap {
    map n | n in m && m[n].cost <= threshold :: m[n]
  }

  /** Payable transactions a strict list gives up because one below them goes. */
  function Invalidated(strict: bool, m: TxMap, threshold: int): TxMap {
    var costly := TooCostly(m, threshold);
    if strict && costly.Keys != {}
    then map n | n in m && m[n].cost <= threshold && n > MinOf(costly.Keys) :: m[n]
    else map[]
  }

  /** The full filter, without any short cut. */
  function FilteredItems(strict: bool, m: TxMap, threshold: int): TxMap {
    Payable(m, threshold) - Invalidated(strict, m, threshold).Keys
  }

  function Filtered(v: ListVal, threshold: int): ListVal {
    v.(items := FilteredItems(v.strict, v.items, threshold),
       costcap := if v.costcap <= threshold then v.costcap else threshold)
  }

  /** Entries above a nonce. */
  function Above(m: TxMap, nonce: nat): TxMap {
    map n | n in m && n > nonce :: m[n]
  }

  /** Removal by nonce; a strict list also gives up everything above it. */
  function RemovedAt(v: ListVal, nonce: nat): ListVal {
    if nonce !in v.items then v
    else if v.strict then v.(items := Below(v.items, nonce))
    else v.(items := v.items - {nonce})
  }

  function CostsMore(threshold: int): Tx -> bool {
    (tx: Tx) => tx.cost > threshold
  }

  function NonceAbove(nonce: nat): Tx -> bool {
    (tx: Tx) => tx.nonce > nonce
  }

  /** With a sound cap the short cut of the filter changes nothing. */
  lemma ShortCut(v: ListVal, threshold: int)
    requires CapOk(v) && v.costcap <= threshold
    ensures Filtered(v, threshold) == v
    ensures TooCostly(v.items, threshold) == map[] && Invalidated(v.strict, v.items, threshold) == map[]
  {
    assert Payable(v.items, threshold) == v.items;
    assert TooCostly(v.items, threshold) == map[];
    assert v.items - {} == v.items;
  }

  lemma CapKept(v: ListVal, threshold: int)
    requires CapOk(v)
    ensures CapOk(Filtered(v, threshold))
  {
  }

  // ----- strict lists stay contiguous

  ghost predicate Contiguous(m: TxMap) {
    forall a, b, c :: a in m && c in m && a <= b <= c ==> b in m
  }

  lemma FromContiguous(m: TxMap, t: nat)
    requires Contiguous(m)
    ensures Contiguous(From(m, t))
  {
  }

  lemma BelowContiguous(m: TxMap, t: nat)
    requires Contiguous(m)
    ensures Contiguous(Below(m, t))
  {
  }

  /** A strict list keeps the payable transactions below the lowest unpayable one. */
  lemma FilteredStrict(v: ListVal, balance: int, n: nat)
    requires v.strict
    ensures var costly := TooCostly(v.items, balance).Keys;
            n in Filtered(v, balance).items <==>
              n in v.items && v.items[n].cost <= balance && (costly != {} ==> n <= MinOf(costly))
  {
  }

  lemma FilterContiguous(v: ListVal, balance: int)
    requires v.strict && Contiguous(v.items)
    ensures Contiguous(Filtered(v, balance).items)
  {
    hide Filtered;
    var f := Filtered(v, balance).items;
    forall a, b, c | a in f && c in f && a <= b <= c ensures b in f {
      FilteredStrict(v, balance, a);
      FilteredStrict(v, balance, b);
      FilteredStrict(v, balance, c);
      assert b in v.items;
      assert v.items[b].cost > balance ==> b in TooCostly(v.items, balance).Keys;
    }
  }

  /** Every operation of a strict list keeps its nonces contiguous. */
  lemma StrictContiguous(v: ListVal, threshold: nat, balance: int)
    requires v.strict && Contiguous(v.items)
    ensures Contiguous(From(v.items, threshold))
    ensures Contiguous(Filtered(v, balance).items)
    ensures Contiguous(Lowest(v.items, threshold))
    ensures Contiguous(RemovedAt(v, threshold).items)
  {
    hide Contiguous, Filtered, From, Below;
    FromContiguous(v.items, threshold);
    FilterContiguous(v, balance);
    BelowContiguous(v.items, threshold);
    SortedKeysMeans(v.items.Keys);
    if threshold < |v.items| { BelowContiguous(v.items, SortedKeys(v.items.Keys)[threshold]); }
  }

  /** What goes out of a strict list is what was too costly and what stood above the lowest of those. */
  lemma FilterPartition(v: ListVal, threshold: int)
    ensures var out, bad := TooCostly(v.items, threshold), Invalidated(v.strict, v.items, threshold);
            && out.Keys !! bad.Keys && (out.Keys + bad.Keys) !! Filtered(v, threshold).items.Keys
            && v.items == out + bad + Filtered(v, threshold).items
  {
  }

  class TxList {
    const strict: bool
    const txs: TxSortedMap
    var costcap: int

    ghost predicate Valid()
      reads this, txs
    {
      txs.Valid() && CapOk(View())
    }

    ghost function View(): ListVal
      reads this, txs
    {
      ListVal(strict, txs.items, costcap)
    }

    constructor (isStrict: bool)
      ensures Valid() && fresh(txs) && View() == ListVal(isStrict, map[], 0)
    {
      strict := isStrict;
      txs := new TxSortedMap();
      costcap := 0;
    }

    /** Inserts a transaction unless one of the same nonce pays at least as much. */
    method Add(tx: Tx) returns (inserted: bool, was: Option<Tx>)
      requires Valid()
      modifies this, txs
      ensures Valid() && View() == Added(old(View()), tx)
      ensures inserted == Accepts(old(View()), tx) && was == Replaced(old(View()), tx)
    {
      if tx.nonce in txs.items && txs.items[tx.nonce].gasPrice >= tx.gasPrice { return false, None; }
      was := if tx.nonce in txs.items then Some(txs.items[tx.nonce]) else None;
      txs.Put(tx);
      if costcap < tx.cost { costcap := tx.cost; }
      inserted := true;
    }

    method Forward(threshold: nat) returns (removed: seq<Tx>)
      requires Valid()
      modifies txs
      ensures Valid() && View() == old(View()).(items := From(old(txs.items), threshold))
      ensures removed == Sorted(Below(old(txs.items), threshold))
    {
      removed := txs.Forward(threshold);
    }

    /** Removes what the balance cannot pay for; the cap lets it skip the search when it can. */
    method Filter(threshold: int) returns (removed: seq<Tx>, invalids: seq<Tx>)
      requires Valid()
      modifies this, txs
      ensures Valid() && View() == Filtered(old(View()), threshold)
      ensures Lists(removed, TooCostly(old(txs.items), threshold))
      ensures Lists(invalids, Invalidated(strict, old(txs.items), threshold))
    {
      hide FilteredItems, Invalidated;
      removed, invalids := [], [];
      if costcap <= threshold {
        ShortCut(View(), threshold);
        return;
      }
      CapKept(View(), threshold);
      costcap := threshold;
      ghost var m := txs.items;
      removed := txs.Filter(CostsMore(threshold));
      ByCost(m, threshold);
      NothingInvalid(strict, m, threshold);
      if strict && |removed| > 0 {
        var lowest := LowestNonce(removed, TooCostly(m, threshold));
        invalids := txs.Filter(NonceAbove(lowest));
        ByNonce(strict, m, threshold, lowest);
      }
    }

    method Cap(threshold: nat) returns (drops: seq<Tx>)
      requires Valid()
      modifies txs
      ensures Valid() && View() == old(View()).(items := Lowest(old(txs.items), threshold))
      ensures drops == if |old(txs.items)| <= threshold then [] else Reversed(Sorted(old(txs.items))[threshold..])
    {
      hide Sorted, Reversed;
      drops := txs.Cap(threshold);
    }

    /** Removes the transaction with the nonce of `tx` and, from a strict list, those above it. */
    method Remove(tx: Tx) returns (removed: bool, invalids: seq<Tx>)
      requires Valid()
      modifies txs
      ensures Valid() && View() == RemovedAt(old(View()), tx.nonce)
      ensures removed <==> tx.nonce in old(txs.items)
      ensures Lists(invalids, if removed && strict then Above(old(txs.items), tx.nonce) else map[])
    {
      hide Sorted;
      var nonce := tx.nonce;
      invalids := [];
      ghost var m := txs.items;
      removed := txs.Remove(nonce);
      if !removed {
        assert m - {nonce} == m;
        return;
      }
      if strict {
        invalids := txs.Filter(NonceAbove(nonce));
        AfterRemoval(m, nonce);
      }
    }

    method Ready(start: nat) returns (ready: seq<Tx>)
      requires Valid()
      modifies txs
      ensures Valid() && View() == old(View()).(items := ReadyRest(old(txs.items), start))
      ensures ready == ReadyRun(old(txs.items), start)
    {
      ReadySubset(txs.items, start);
      ready := txs.Ready(start);
    }

    method Flatten() returns (all: seq<Tx>)
      requires Valid()
      modifies txs
      ensures Valid() && View() == old(View()) && all == Sorted(txs.items)
    {
      all := txs.Flatten();
    }
  }

  /** The lowest nonce of a non-empty list of transactions. */
  method LowestNonce(txs: seq<Tx>, ghost m: TxMap) returns (lowest: nat)
    requires Lists(txs, m) && WellNonced(m) && txs != []
    ensures m.Keys != {} && lowest == MinOf(m.Keys)
  {
    assert txs[0] in txs;
    lowest := txs[0].nonce;
    for i := 0 to |txs|
      invariant lowest in m && forall j :: 0 <= j < i ==> lowest <= txs[j].nonce
    {
      assert txs[i] in txs;
      if lowest > txs[i].nonce { lowest := txs[i].nonce; }
    }
    assert m[MinOf(m.Keys)] in txs;
  }

  lemma ByCost(m: TxMap, threshold: int)
    ensures Matching(m, CostsMore(threshold)) == TooCostly(m, threshold)
    ensures Others(m, CostsMore(threshold)) == Payable(m, threshold)
  {
  }

  lemma NothingInvalid(strict: bool, m: TxMap, threshold: int)
    ensures !strict || TooCostly(m, threshold) == map[] ==>
              Invalidated(strict, m, threshold) == map[] && FilteredItems(strict, m, threshold) == Payable(m, threshold)
  {
    var p := Payable(m, threshold);
    assert p - {} == p;
  }

  lemma ByNonce(strict: bool, m: TxMap, threshold: int, lowest: nat)
    requires WellNonced(m) && strict && TooCostly(m, threshold).Keys != {}
             && lowest == MinOf(TooCostly(m, threshold).Keys)
    ensures Matching(Payable(m, threshold), NonceAbove(lowest)) == Invalidated(strict, m, threshold)
    ensures Others(Payable(m, threshold), NonceAbove(lowest)) == FilteredItems(strict, m, threshold)
  {
  }

  lemma AfterRemoval(m: TxMap, nonce: nat)
    requires WellNonced(m)
    ensures Matching(m - {nonce}, NonceAbove(nonce)) == Above(m, nonce)
    ensures Others(m - {nonce}, NonceAbove(nonce)) == Below(m, nonce)
  {
  }

  lemma ReadySubset(m: TxMap, start: nat)
    requires WellNonced(m)
    ensures forall n :: n in ReadyRest(m, start) ==> n in m && ReadyRest(m, start)[n] == m[n]
  {
    if m.Keys != {} { RunMeans(m, MinOf(m.Keys)); }
  }
}
