/**
 * The block chain: whole blocks, the number-to-hash index, and the table that maps each
 * transaction of the canonical chain to its block and position. A reorganisation rewrites
 * both indices in place.
 */
module BlockChains {
  import opened Wrappers
  import opened BlockTree
  import opened HeaderChains

  type TxHash = nat
  type Bodies = map<Key, seq<TxHash>>

  datatype Block = Block(header: Header, txs: seq<TxHash>)
  datatype TxPos = TxPos(blockHash: Hash, number: nat, index: nat)
  type Lookup = map<TxHash, TxPos>

  /** Reassembles a block from its stored header and body. */
  function GetBlock(headers: Headers, bodies: Bodies, hash: Hash, number: int): Option<Block> {
    if number >= 0 && Key(number, hash) in headers && Key(number, hash) in bodies
    then Some(Block(headers[Key(number, hash)], bodies[Key(number, hash)]))
    else None
  }

  ghost predicate BlockStored(headers: Headers, bodies: Bodies, b: Block) {
    Stored(headers, b.header) && KeyOf(b.header) in bodies && bodies[KeyOf(b.header)] == b.txs
  }

  ghost predicate Clash(headers: Headers, k: Key, l: Key) {
    k in headers && l in headers && k.hash == l.hash && k != l
  }

  /** Headers and bodies are filed together, and no hash is used twice. */
  ghost predicate StoreOk(headers: Headers, bodies: Bodies) {
    && WellKeyed(headers)
    && bodies.Keys == headers.Keys
    && forall k, l :: !Clash(headers, k, l)
  }

  // ----- forks

  /** `chain` lists the ancestors of `tip`, newest first, `tip` included. */
  ghost predicate Segment(headers: Headers, bodies: Bodies, tip: Header, chain: seq<Block>)
    requires WellKeyed(headers)
  {
    && |chain| <= tip.number + 1
    && (forall i :: 0 <= i < |chain| ==> BlockStored(headers, bodies, chain[i]))
    && (forall i :: 0 <= i < |chain| ==> AncestorAt(headers, tip, tip.number - i) == Some(chain[i].header))
  }

  function TxsOf(chain: seq<Block>): seq<TxHash> {
    if chain == [] then [] else TxsOf(chain[..|chain| - 1]) + chain[|chain| - 1].txs
  }

  lemma TxsOfSnoc(chain: seq<Block>, b: Block)
    ensures TxsOf(chain + [b]) == TxsOf(chain) + b.txs
  {
    assert (chain + [b])[..|chain|] == chain;
  }

  lemma {:induction false} TxsOfMember(chain: seq<Block>, tx: TxHash)
    ensures tx in TxsOf(chain) <==> exists i :: 0 <= i < |chain| && tx in chain[i].txs
  {
    if chain != [] {
      var front := chain[..|chain| - 1];
      TxsOfMember(front, tx);
      if exists i :: 0 <= i < |chain| && tx in chain[i].txs {
        var i :| 0 <= i < |chain| && tx in chain[i].txs;
        assert i < |front| ==> tx in front[i].txs;
      }
      if tx in TxsOf(front) {
        var i :| 0 <= i < |front| && tx in front[i].txs;
        assert tx in chain[i].txs;
      }
    }
  }

  /** Where two tips part: the blocks only the old one has, and the blocks only the new one has. */
  datatype Fork = Fork(common: Block, oldChain: seq<Block>, newChain: seq<Block>, deleted: seq<TxHash>)

  ghost predicate ForkOk(headers: Headers, bodies: Bodies, oldTip: Header, newTip: Header, f: Fork)
    requires WellKeyed(headers)
  {
    && DeepestCommon(headers, oldTip, newTip, f.common.header)
    && Segment(headers, bodies, oldTip, f.oldChain) && |f.oldChain| == oldTip.number - f.common.header.number
    && Segment(headers, bodies, newTip, f.newChain) && |f.newChain| == newTip.number - f.common.header.number
    && f.deleted == TxsOf(f.oldChain)
  }

  /** The position of a cursor that has walked `chain` off `tip`. */
  ghost predicate Walked(headers: Headers, bodies: Bodies, tip: Header, chain: seq<Block>, cur: Block)
    requires WellKeyed(headers)
  {
    && BlockStored(headers, bodies, cur)
    && Segment(headers, bodies, tip, chain)
    && |chain| == tip.number - cur.header.number
    && AncestorAt(headers, tip, cur.header.number) == Some(cur.header)
  }

  /** One step of a walk: either the parent is stored or the walk has no further ancestor. */
  lemma WalkStep(headers: Headers, bodies: Bodies, tip: Header, chain: seq<Block>, cur: Block)
    requires StoreOk(headers, bodies) && Walked(headers, bodies, tip, chain, cur)
    ensures var p := GetBlock(headers, bodies, cur.header.parentHash, cur.header.number - 1);
            && (p.Some? ==>
                  && Walked(headers, bodies, tip, chain + [cur], p.value)
                  && p.value.header.number == cur.header.number - 1)
            && (p.None? ==> forall n: nat :: n < cur.header.number ==> AncestorAt(headers, tip, n).None?)
  {
    var p := GetBlock(headers, bodies, cur.header.parentHash, cur.header.number - 1);
    if p.Some? {
      AncestorTransitive(headers, tip, cur.header.number, cur.header.number - 1);
    } else {
      forall n: nat | n < cur.header.number ensures AncestorAt(headers, tip, n).None? {
        AncestorTransitive(headers, tip, cur.header.number, n);
      }
    }
  }

  /**
   * The walk of a reorganisation: lower the higher tip, then step both until they meet. It
   * fails exactly when the two tips have no common ancestor, which a tree rules out.
   */
  method FindFork(headers: Headers, bodies: Bodies, oldTip: Block, newTip: Block) returns (r: Option<Fork>)
    requires StoreOk(headers, bodies)
    requires BlockStored(headers, bodies, oldTip) && BlockStored(headers, bodies, newTip)
    ensures r.Some? ==> ForkOk(headers, bodies, oldTip.header, newTip.header, r.value)
    ensures r.None? ==> forall n: nat :: !CommonAt(headers, oldTip.header, newTip.header, n)
  {
    var oldBlock, newBlock := Some(oldTip), Some(newTip);
    var oldChain: seq<Block>, newChain: seq<Block>, deleted: seq<TxHash> := [], [], [];
    if oldTip.header.number > newTip.header.number {
      while oldBlock.Some? && oldBlock.value.header.number != newTip.header.number
        invariant oldBlock.Some? ==> Walked(headers, bodies, oldTip.header, oldChain, oldBlock.value)
        invariant oldBlock.Some? ==> oldBlock.value.header.number >= newTip.header.number
        invariant oldBlock.None? ==> forall n: nat :: n <= newTip.header.number ==>
                    AncestorAt(headers, oldTip.header, n).None?
        invariant deleted == TxsOf(oldChain)
        decreases if oldBlock.Some? then oldBlock.value.header.number + 1 else 0
      {
        var b := oldBlock.value;
        WalkStep(headers, bodies, oldTip.header, oldChain, b);
        TxsOfSnoc(oldChain, b);
        oldChain, deleted := oldChain + [b], deleted + b.txs;
        oldBlock := GetBlock(headers, bodies, b.header.parentHash, b.header.number - 1);
      }
    } else {
      while newBlock.Some? && newBlock.value.header.number != oldTip.header.number
        invariant newBlock.Some? ==> Walked(headers, bodies, newTip.header, newChain, newBlock.value)
        invariant newBlock.Some? ==> newBlock.value.header.number >= oldTip.header.number
        invariant newBlock.None? ==> forall n: nat :: n <= oldTip.header.number ==>
                    AncestorAt(headers, newTip.header, n).None?
        decreases if newBlock.Some? then newBlock.value.header.number + 1 else 0
      {
        var b := newBlock.value;
        WalkStep(headers, bodies, newTip.header, newChain, b);
        newChain := newChain + [b];
        newBlock := GetBlock(headers, bodies, b.header.parentHash, b.header.number - 1);
      }
    }
    if oldBlock.None? || newBlock.None? { return None; }
    r := Meet(headers, bodies, oldTip.header, newTip.header, oldBlock.value, newBlock.value, oldChain, newChain,
              deleted);
  }

  /** Two level cursors with different hashes: no common ancestor here, nor above. */
  lemma StepBoth(headers: Headers, bodies: Bodies, oldTip: Header, newTip: Header,
                 oldBlock: Block, newBlock: Block, oldChain: seq<Block>, newChain: seq<Block>)
    requires StoreOk(headers, bodies)
    requires Walked(headers, bodies, oldTip, oldChain, oldBlock) && Walked(headers, bodies, newTip, newChain, newBlock)
    requires oldBlock.header.number == newBlock.header.number && oldBlock.header.hash != newBlock.header.hash
    requires forall n: nat :: n > oldBlock.header.number ==> !CommonAt(headers, oldTip, newTip, n)
    ensures var p := GetBlock(headers, bodies, oldBlock.header.parentHash, oldBlock.header.number - 1);
            var q := GetBlock(headers, bodies, newBlock.header.parentHash, newBlock.header.number - 1);
            if p.Some? && q.Some? then
              && Walked(headers, bodies, oldTip, oldChain + [oldBlock], p.value)
              && Walked(headers, bodies, newTip, newChain + [newBlock], q.value)
              && p.value.header.number == q.value.header.number == oldBlock.header.number - 1
              && forall n: nat :: n > p.value.header.number ==> !CommonAt(headers, oldTip, newTip, n)
            else forall n: nat :: !CommonAt(headers, oldTip, newTip, n)
  {
    WalkStep(headers, bodies, oldTip, oldChain, oldBlock);
    WalkStep(headers, bodies, newTip, newChain, newBlock);
    assert !CommonAt(headers, oldTip, newTip, oldBlock.header.number);
  }

  /** The second half of the walk: both cursors are level and step together. */
  method Meet(headers: Headers, bodies: Bodies, ghost oldTip: Header, ghost newTip: Header,
              oldStart: Block, newStart: Block, oldRun: seq<Block>, newRun: seq<Block>, txs: seq<TxHash>)
    returns (r: Option<Fork>)
    requires StoreOk(headers, bodies)
    requires Walked(headers, bodies, oldTip, oldRun, oldStart) && Walked(headers, bodies, newTip, newRun, newStart)
    requires oldStart.header.number == newStart.header.number
    requires oldStart.header.number == oldTip.number || newStart.header.number == newTip.number
    requires txs == TxsOf(oldRun)
    ensures r.Some? ==> ForkOk(headers, bodies, oldTip, newTip, r.value)
    ensures r.None? ==> forall n: nat :: !CommonAt(headers, oldTip, newTip, n)
  {
    var oldBlock, newBlock, oldChain, newChain, deleted := oldStart, newStart, oldRun, newRun, txs;
    while oldBlock.header.hash != newBlock.header.hash
      invariant Walked(headers, bodies, oldTip, oldChain, oldBlock)
                && Walked(headers, bodies, newTip, newChain, newBlock)
      invariant oldBlock.header.number == newBlock.header.number
      invariant forall n: nat :: n > oldBlock.header.number ==> !CommonAt(headers, oldTip, newTip, n)
      invariant deleted == TxsOf(oldChain)
      decreases oldBlock.header.number
    {
      StepBoth(headers, bodies, oldTip, newTip, oldBlock, newBlock, oldChain, newChain);
      TxsOfSnoc(oldChain, oldBlock);
      oldChain, newChain, deleted := oldChain + [oldBlock], newChain + [newBlock], deleted + oldBlock.txs;
      var p := GetBlock(headers, bodies, oldBlock.header.parentHash, oldBlock.header.number - 1);
      var q := GetBlock(headers, bodies, newBlock.header.parentHash, newBlock.header.number - 1);
      if p.None? || q.None? { return None; }
      oldBlock, newBlock := p.value, q.value;
    }
    r := Some(Fork(oldBlock, oldChain, newChain, deleted));
  }

  // ----- the transaction table

  /** `pos` is a position of `tx` on the chain that ends in `head`. */
  ghost predicate TxOn(headers: Headers, bodies: Bodies, head: Header, tx: TxHash, pos: TxPos)
    requires WellKeyed(headers)
  {
    && IsAncestorHash(headers, head, pos.number, pos.blockHash)
    && Key(pos.number, pos.blockHash) in bodies
    && pos.index < |bodies[Key(pos.number, pos.blockHash)]|
    && bodies[Key(pos.number, pos.blockHash)][pos.index] == tx
  }

  /** The chain that ends in `head` holds no transaction twice. */
  ghost predicate NoRepeat(headers: Headers, bodies: Bodies, head: Header)
    requires WellKeyed(headers)
  {
    forall tx, p, q :: TxOn(headers, bodies, head, tx, p) && TxOn(headers, bodies, head, tx, q) ==> p == q
  }

  /** The table lists exactly the transactions of the chain that ends in `head`, at their positions. */
  ghost predicate LookupExact(headers: Headers, bodies: Bodies, lookup: Lookup, head: Header)
    requires WellKeyed(headers)
  {
    && (forall tx :: tx in lookup ==> TxOn(headers, bodies, head, tx, lookup[tx]))
    && (forall tx, p :: TxOn(headers, bodies, head, tx, p) ==> tx in lookup && lookup[tx] == p)
  }

  /** The table after filing the first `k` transactions of a block. */
  function FileTxs(l: Lookup, b: Block, k: nat): Lookup
    requires k <= |b.txs|
  {
    if k == 0 then l
    else FileTxs(l, b, k - 1)[b.txs[k - 1] := TxPos(b.header.hash, b.header.number, k - 1)]
  }

  function FileBlocks(l: Lookup, chain: seq<Block>): Lookup {
    if chain == [] then l
    else FileTxs(FileBlocks(l, chain[..|chain| - 1]), chain[|chain| - 1], |chain[|chain| - 1].txs|)
  }

  function IndexBlocks(canon: map<nat, Hash>, chain: seq<Block>): map<nat, Hash> {
    if chain == [] then canon
    else IndexBlocks(canon, chain[..|chain| - 1])[chain[|chain| - 1].header.number := chain[|chain| - 1].header.hash]
  }

  lemma {:induction false} FileTxsMeans(l: Lookup, b: Block, k: nat, tx: TxHash)
    requires k <= |b.txs|
    ensures var r := FileTxs(l, b, k);
            if tx in b.txs[..k] then
              && tx in r && r[tx].blockHash == b.header.hash && r[tx].number == b.header.number
              && r[tx].index < k && b.txs[r[tx].index] == tx
            else
              (tx in r <==> tx in l) && (tx in l ==> r[tx] == l[tx])
  {
    if k > 0 {
      FileTxsMeans(l, b, k - 1, tx);
      assert b.txs[..k] == b.txs[..k - 1] + [b.txs[k - 1]];
    }
  }

  /** After filing a segment each of its transactions points into it and the others are as before. */
  lemma {:induction false} FileBlocksMeans(headers: Headers, bodies: Bodies, tip: Header, chain: seq<Block>, l: Lookup,
                                           tx: TxHash)
    requires WellKeyed(headers) && Segment(headers, bodies, tip, chain)
    ensures var r := FileBlocks(l, chain);
            if tx in TxsOf(chain) then
              tx in r && TxOn(headers, bodies, tip, tx, r[tx]) && r[tx].number > tip.number - |chain|
            else
              (tx in r <==> tx in l) && (tx in l ==> r[tx] == l[tx])
  {
    if chain != [] {
      var last := chain[|chain| - 1];
      FileBlocksMeans(headers, bodies, tip, chain[..|chain| - 1], l, tx);
      FileTxsMeans(FileBlocks(l, chain[..|chain| - 1]), last, |last.txs|, tx);
      assert last.txs[..|last.txs|] == last.txs;
      AncestorNumber(headers, tip, tip.number - (|chain| - 1));
    }
  }

  lemma {:induction false} IndexBlocksMeans(headers: Headers, bodies: Bodies, tip: Header, chain: seq<Block>,
                                            canon: map<nat, Hash>, n: nat)
    requires WellKeyed(headers) && Segment(headers, bodies, tip, chain)
    ensures var r := IndexBlocks(canon, chain);
            if tip.number - |chain| < n <= tip.number then n in r && IsAncestorHash(headers, tip, n, r[n])
            else (n in r <==> n in canon) && (n in canon ==> r[n] == canon[n])
  {
    if chain != [] {
      IndexBlocksMeans(headers, bodies, tip, chain[..|chain| - 1], canon, n);
      AncestorNumber(headers, tip, tip.number - (|chain| - 1));
    }
  }

  /** A position above the fork belongs to a block of the segment, and so do its transactions. */
  lemma AboveFork(headers: Headers, bodies: Bodies, tip: Header, chain: seq<Block>, tx: TxHash, p: TxPos)
    requires WellKeyed(headers) && Segment(headers, bodies, tip, chain)
    requires TxOn(headers, bodies, tip, tx, p) && p.number > tip.number - |chain|
    ensures tx in TxsOf(chain)
  {
    AncestorNumber(headers, tip, p.number);
    var i := tip.number - p.number;
    assert BlockStored(headers, bodies, chain[i]);
    assert chain[i].txs[p.index] == tx;
    TxsOfMember(chain, tx);
  }

  /** Every transaction of a segment has a position above its start. */
  lemma InSegment(headers: Headers, bodies: Bodies, tip: Header, chain: seq<Block>, tx: TxHash) returns (p: TxPos)
    requires WellKeyed(headers) && Segment(headers, bodies, tip, chain) && tx in TxsOf(chain)
    ensures TxOn(headers, bodies, tip, tx, p) && p.number > tip.number - |chain|
  {
    FileBlocksMeans(headers, bodies, tip, chain, map[], tx);
    p := FileBlocks(map[], chain)[tx];
  }

  /** At or below the common ancestor a position serves both tips. */
  lemma BelowFork(headers: Headers, bodies: Bodies, genesis: Header, a: Header, b: Header, m: nat, tx: TxHash, p: TxPos)
    requires Rooted(headers, genesis) && Stored(headers, a) && Stored(headers, b)
    requires CommonAt(headers, a, b, m) && p.number <= m
    requires TxOn(headers, bodies, a, tx, p)
    ensures TxOn(headers, bodies, b, tx, p)
  {
    SharedBelow(headers, genesis, a, b, m, p.number);
  }

  /** The table a reorganisation leaves: new blocks filed, transactions of the old chain alone removed. */
  ghost predicate Reorganised(before: Lookup, after: Lookup, f: Fork) {
    var filed := FileBlocks(before, f.newChain);
    forall tx :: (tx in after <==> tx in filed && !(tx in f.deleted && tx !in TxsOf(f.newChain)))
      && (tx in after ==> after[tx] == filed[tx])
  }

  lemma NewTxFound(headers: Headers, bodies: Bodies, genesis: Header, oldTip: Header, newTip: Header, f: Fork,
                   before: Lookup, after: Lookup, tx: TxHash, p: TxPos)
    requires Rooted(headers, genesis) && Stored(headers, oldTip) && Stored(headers, newTip)
    requires ForkOk(headers, bodies, oldTip, newTip, f) && LookupExact(headers, bodies, before, oldTip)
    requires NoRepeat(headers, bodies, newTip) && Reorganised(before, after, f)
    requires TxOn(headers, bodies, newTip, tx, p)
    ensures tx in after && after[tx] == p
  {
    FileBlocksMeans(headers, bodies, newTip, f.newChain, before, tx);
    if p.number > f.common.header.number {
      AboveFork(headers, bodies, newTip, f.newChain, tx, p);
    } else {
      assert CommonAt(headers, newTip, oldTip, f.common.header.number);
      BelowFork(headers, bodies, genesis, newTip, oldTip, f.common.header.number, tx, p);
      if tx in f.deleted {
        var q := InSegment(headers, bodies, oldTip, f.oldChain, tx);
        assert false;
      }
    }
  }

  lemma KeptTxValid(headers: Headers, bodies: Bodies, genesis: Header, oldTip: Header, newTip: Header, f: Fork,
                    before: Lookup, after: Lookup, tx: TxHash)
    requires Rooted(headers, genesis) && Stored(headers, oldTip) && Stored(headers, newTip)
    requires ForkOk(headers, bodies, oldTip, newTip, f) && LookupExact(headers, bodies, before, oldTip)
    requires Reorganised(before, after, f) && tx in after
    ensures TxOn(headers, bodies, newTip, tx, after[tx])
  {
    FileBlocksMeans(headers, bodies, newTip, f.newChain, before, tx);
    if tx !in TxsOf(f.newChain) {
      assert TxOn(headers, bodies, oldTip, tx, before[tx]);
      if before[tx].number > f.common.header.number {
        AboveFork(headers, bodies, oldTip, f.oldChain, tx, before[tx]);
        assert false;
      }
      BelowFork(headers, bodies, genesis, oldTip, newTip, f.common.header.number, tx, before[tx]);
    }
  }

  /** A reorganisation turns the exact table of the old tip into the exact table of the new one. */
  lemma ReorgExact(headers: Headers, bodies: Bodies, genesis: Header, oldTip: Header, newTip: Header, f: Fork,
                   before: Lookup, after: Lookup)
    requires Rooted(headers, genesis) && Stored(headers, oldTip) && Stored(headers, newTip)
    requires ForkOk(headers, bodies, oldTip, newTip, f) && LookupExact(headers, bodies, before, oldTip)
    requires NoRepeat(headers, bodies, newTip) && Reorganised(before, after, f)
    ensures LookupExact(headers, bodies, after, newTip)
  {
    forall tx | tx in after ensures TxOn(headers, bodies, newTip, tx, after[tx]) {
      KeptTxValid(headers, bodies, genesis, oldTip, newTip, f, before, after, tx);
    }
    forall tx, p | TxOn(headers, bodies, newTip, tx, p) ensures tx in after && after[tx] == p {
      NewTxFound(headers, bodies, genesis, oldTip, newTip, f, before, after, tx, p);
    }
  }

  /** A reorganisation turns an index of the old tip into one of the new tip. */
  lemma ReorgCanon(headers: Headers, bodies: Bodies, genesis: Header, oldTip: Header, newTip: Header, f: Fork,
                   canon: map<nat, Hash>)
    requires Rooted(headers, genesis) && Stored(headers, oldTip) && Stored(headers, newTip)
    requires ForkOk(headers, bodies, oldTip, newTip, f) && CanonUpTo(headers, canon, oldTip)
    ensures CanonUpTo(headers, IndexBlocks(canon, f.newChain), newTip)
  {
    forall n: nat | n <= newTip.number
      ensures CanonAt(headers, IndexBlocks(canon, f.newChain), newTip, n)
    {
      IndexBlocksMeans(headers, bodies, newTip, f.newChain, canon, n);
      if n <= f.common.header.number {
        AncestorNumber(headers, oldTip, f.common.header.number);
        SharedBelow(headers, genesis, oldTip, newTip, f.common.header.number, n);
        assert CanonAt(headers, canon, oldTip, n);
      }
    }
  }

  lemma ReorgAbove(headers: Headers, bodies: Bodies, tip: Header, chain: seq<Block>, canon: map<nat, Hash>)
    requires WellKeyed(headers) && Segment(headers, bodies, tip, chain)
    ensures SameAbove(canon, IndexBlocks(canon, chain), tip.number)
  {
    forall n: nat | n > tip.number { IndexBlocksMeans(headers, bodies, tip, chain, canon, n); }
  }

  /** Filing the transactions of the tip of a chain completes the table of its parent, and only refreshes its own. */
  lemma TipFiled(headers: Headers, bodies: Bodies, genesis: Header, tip: Block, parent: Header, l: Lookup)
    requires Rooted(headers, genesis) && BlockStored(headers, bodies, tip) && NoRepeat(headers, bodies, tip.header)
    requires tip.header == parent || ParentOf(headers, tip.header) == Some(parent)
    requires LookupExact(headers, bodies, l, parent)
    ensures LookupExact(headers, bodies, FileTxs(l, tip, |tip.txs|), tip.header)
  {
    var r := FileTxs(l, tip, |tip.txs|);
    assert tip.txs[..|tip.txs|] == tip.txs;
    forall tx | tx in r ensures TxOn(headers, bodies, tip.header, tx, r[tx]) {
      FileTxsMeans(l, tip, |tip.txs|, tx);
      if tx !in tip.txs {
        assert TxOn(headers, bodies, parent, tx, l[tx]);
        AncestorNumber(headers, parent, l[tx].number);
      }
    }
    forall tx, p | TxOn(headers, bodies, tip.header, tx, p) ensures tx in r && r[tx] == p {
      FileTxsMeans(l, tip, |tip.txs|, tx);
      if tx in tip.txs {
        assert TxOn(headers, bodies, tip.header, tx, r[tx]);
      } else {
        AncestorNumber(headers, tip.header, p.number);
        assert TxOn(headers, bodies, parent, tx, p);
      }
    }
  }

  /** Filing one more block leaves an exact table exact. */
  lemma LookupFrame(headers: Headers, bodies: Bodies, more: Headers, moreBodies: Bodies, genesis: Header, head: Header,
                    l: Lookup)
    requires Rooted(headers, genesis) && Rooted(more, genesis) && Stored(headers, head)
    requires bodies.Keys == headers.Keys
    requires forall k :: k in headers ==> k in more && more[k] == headers[k]
    requires forall k :: k in bodies ==> k in moreBodies && moreBodies[k] == bodies[k]
    requires LookupExact(headers, bodies, l, head)
    ensures LookupExact(more, moreBodies, l, head)
  {
    forall tx, p: TxPos ensures TxOn(headers, bodies, head, tx, p) <==> TxOn(more, moreBodies, head, tx, p) {
      if p.number <= head.number {
        AncestorExists(headers, genesis, head, p.number);
        AncestorFrame(headers, more, head, p.number);
      }
    }
  }

  /** The transactions of `a` that are not in `b`. */
  method TxDifference(a: seq<TxHash>, b: seq<TxHash>) returns (keep: seq<TxHash>)
    ensures forall tx :: tx in keep <==> tx in a && tx !in b
  {
    keep := [];
    for i := 0 to |a|
      invariant forall tx :: tx in keep <==> tx in a[..i] && tx !in b
    {
      if a[i] !in b { keep := keep + [a[i]]; }
    }
  }

  lemma GenesisShared(headers: Headers, genesis: Header, a: Header, b: Header)
    requires Rooted(headers, genesis) && Stored(headers, a) && Stored(headers, b)
    ensures CommonAt(headers, a, b, 0)
  {
    AncestorExists(headers, genesis, a, 0);
    AncestorExists(headers, genesis, b, 0);
  }

  // ----- the header and fast heads

  /** The two heads that follow the current block only sometimes. */
  datatype Heads = Heads(header: Header, fast: Block)

  function At(b: Block): Heads {
    Heads(b.header, b)
  }

  /** The index does not name the block yet. */
  predicate Stale(canon: map<nat, Hash>, b: Block) {
    GetCanonicalHash(canon, b.header.number) != b.header.hash
  }

  /** The two heads after inserting a chain block by block. */
  function HeadsAfter(canon: map<nat, Hash>, heads: Heads, chain: seq<Block>): Heads {
    if chain == [] then heads
    else if Stale(IndexBlocks(canon, chain[..|chain| - 1]), chain[|chain| - 1]) then At(chain[|chain| - 1])
    else HeadsAfter(canon, heads, chain[..|chain| - 1])
  }

  /** Inserting the blocks before it does not change whether the index names a block. */
  lemma StaleBefore(headers: Headers, bodies: Bodies, tip: Header, chain: seq<Block>, canon: map<nat, Hash>)
    requires WellKeyed(headers) && Segment(headers, bodies, tip, chain) && chain != []
    ensures var last := |chain| - 1;
            && Segment(headers, bodies, tip, chain[..last])
            && (Stale(IndexBlocks(canon, chain[..last]), chain[last]) <==> Stale(canon, chain[last]))
  {
    var last := |chain| - 1;
    AncestorNumber(headers, tip, tip.number - last);
    IndexBlocksMeans(headers, bodies, tip, chain[..last], canon, chain[last].header.number);
  }

  /** The heads end up at the block inserted last among those the index did not name before. */
  lemma {:induction false} HeadsAtLast(headers: Headers, bodies: Bodies, tip: Header, chain: seq<Block>,
                                       canon: map<nat, Hash>, heads: Heads, i: nat)
    requires WellKeyed(headers) && Segment(headers, bodies, tip, chain)
    requires i < |chain| && Stale(canon, chain[i]) && forall j :: i < j < |chain| ==> !Stale(canon, chain[j])
    ensures HeadsAfter(canon, heads, chain) == At(chain[i])
    decreases |chain|
  {
    hide Segment, Stale, IndexBlocks;
    StaleBefore(headers, bodies, tip, chain, canon);
    if i < |chain| - 1 { HeadsAtLast(headers, bodies, tip, chain[..|chain| - 1], canon, heads, i); }
  }

  /** And stay where they are if the index named them all. */
  lemma {:induction false} HeadsStay(headers: Headers, bodies: Bodies, tip: Header, chain: seq<Block>,
                                     canon: map<nat, Hash>, heads: Heads)
    requires WellKeyed(headers) && Segment(headers, bodies, tip, chain)
    requires forall j :: 0 <= j < |chain| ==> !Stale(canon, chain[j])
    ensures HeadsAfter(canon, heads, chain) == heads
  {
    hide Segment, Stale, IndexBlocks;
    if chain != [] {
      StaleBefore(headers, bodies, tip, chain, canon);
      HeadsStay(headers, bodies, tip, chain[..|chain| - 1], canon, heads);
    }
  }

  /** When the two heads are at the tip after `chain`, which starts with it, has been inserted. */
  predicate HeadsFollow(canon: map<nat, Hash>, heads: Heads, tip: Block, chain: seq<Block>) {
    && (Stale(canon, tip) || heads == At(tip))
    && forall i :: 1 <= i < |chain| ==> !Stale(canon, chain[i])
  }

  lemma FollowExactly(headers: Headers, bodies: Bodies, tip: Block, chain: seq<Block>, canon: map<nat, Hash>,
                      heads: Heads)
    requires WellKeyed(headers) && Segment(headers, bodies, tip.header, chain) && BlockStored(headers, bodies, tip)
    requires chain == [] ==> !Stale(canon, tip)
    ensures HeadsAfter(canon, heads, chain) == At(tip) <==> HeadsFollow(canon, heads, tip, chain)
  {
    hide Stale, HeadsAfter;
    assert chain != [] ==> chain[0] == tip;
    if i :| 0 <= i < |chain| && Stale(canon, chain[i]) {
      var k := LastStale(canon, chain, i);
      HeadsAtLast(headers, bodies, tip.header, chain, canon, heads, k);
      AncestorNumber(headers, tip.header, tip.header.number - k);
      assert k > 0 ==> chain[k].header.number != tip.header.number;
    } else {
      HeadsStay(headers, bodies, tip.header, chain, canon, heads);
    }
  }

  lemma LastStale(canon: map<nat, Hash>, chain: seq<Block>, i: nat) returns (k: nat)
    requires i < |chain| && Stale(canon, chain[i])
    ensures i <= k < |chain| && Stale(canon, chain[k]) && forall j :: k < j < |chain| ==> !Stale(canon, chain[j])
    decreases |chain| - i
  {
    k := i;
    if j :| i < j < |chain| && Stale(canon, chain[j]) { k := LastStale(canon, chain, j); }
  }

  /** Above the fork the index of the old tip names none of the new blocks. */
  lemma AboveForkStale(headers: Headers, bodies: Bodies, oldTip: Header, newTip: Header, f: Fork, canon: map<nat, Hash>,
                       i: nat)
    requires WellKeyed(headers) && ForkOk(headers, bodies, oldTip, newTip, f) && CanonUpTo(headers, canon, oldTip)
    requires i < |f.newChain| && newTip.number - i <= oldTip.number
    ensures Stale(canon, f.newChain[i])
  {
    var n := newTip.number - i;
    AncestorNumber(headers, newTip, n);
    assert CanonAt(headers, canon, oldTip, n);
    assert !CommonAt(headers, oldTip, newTip, n);
  }

  /**
   * After a reorganisation that drops blocks the two heads are at the lowest new block, so at the
   * tip only if it is the only one.
   */
  lemma ReorgHeads(headers: Headers, bodies: Bodies, oldTip: Header, newTip: Block, f: Fork, canon: map<nat, Hash>,
                   heads: Heads)
    requires WellKeyed(headers) && BlockStored(headers, bodies, newTip)
             && ForkOk(headers, bodies, oldTip, newTip.header, f)
    requires CanonUpTo(headers, canon, oldTip) && f.oldChain != [] && f.newChain != []
    ensures HeadsAfter(canon, heads, f.newChain) == At(f.newChain[|f.newChain| - 1])
    ensures HeadsAfter(canon, heads, f.newChain) == At(newTip) <==> |f.newChain| == 1
  {
    var last := |f.newChain| - 1;
    AboveForkStale(headers, bodies, oldTip, newTip.header, f, canon, last);
    HeadsAtLast(headers, bodies, newTip.header, f.newChain, canon, heads, last);
    AncestorNumber(headers, newTip.header, newTip.header.number - last);
    assert f.newChain[0] == newTip;
  }

  /** How the head moved: by `chain` from the fork, or by the one block that extends it. */
  ghost predicate Moved(headers: Headers, bodies: Bodies, was: Block, block: Block, chain: seq<Block>,
                        fork: Option<Fork>)
    requires WellKeyed(headers)
  {
    if block.header.parentHash == was.header.hash then fork.None? && chain == [block]
    else fork.Some? && ForkOk(headers, bodies, was.header, block.header, fork.value) && chain == fork.value.newChain
  }

  /** Without new blocks the tip is on the old chain, which the index names. */
  lemma NoNewBlocks(headers: Headers, bodies: Bodies, genesis: Header, oldTip: Header, newTip: Block, f: Fork,
                    canon: map<nat, Hash>)
    requires Rooted(headers, genesis) && Stored(headers, oldTip) && BlockStored(headers, bodies, newTip)
    requires ForkOk(headers, bodies, oldTip, newTip.header, f) && CanonUpTo(headers, canon, oldTip)
    ensures f.newChain == [] ==> !Stale(canon, newTip)
  {
    if f.newChain == [] {
      var n := newTip.header.number;
      assert CommonAt(headers, oldTip, newTip.header, n);
      AncestorNumber(headers, oldTip, n);
      assert CanonAt(headers, canon, oldTip, n);
    }
  }

  /** An index that is right up to the head is exact just when nothing lay above it before. */
  lemma AboveDecides(headers: Headers, was: map<nat, Hash>, canon: map<nat, Hash>, head: Header)
    requires WellKeyed(headers) && CanonUpTo(headers, canon, head) && SameAbove(was, canon, head.number)
    ensures CanonExact(headers, canon, head) <==> forall n :: n in was ==> n <= head.number
  {
    hide CanonUpTo;
  }

  lemma DroppedHeads(headers: Headers, bodies: Bodies, was: Block, block: Block, chain: seq<Block>, fork: Option<Fork>,
                     canon: map<nat, Hash>, heads: Heads)
    requires WellKeyed(headers) && BlockStored(headers, bodies, block)
             && Moved(headers, bodies, was, block, chain, fork)
    requires CanonUpTo(headers, canon, was.header)
    ensures fork.Some? && fork.value.oldChain != [] && chain != [] ==>
              && HeadsAfter(canon, heads, chain) == At(chain[|chain| - 1])
              && (HeadsAfter(canon, heads, chain) == At(block) <==> |chain| == 1)
  {
    if fork.Some? && fork.value.oldChain != [] && chain != [] {
      ReorgHeads(headers, bodies, was.header, block, fork.value, canon, heads);
    }
  }

  /** Entries above `head` are as they were. */
  ghost predicate SameAbove(was: map<nat, Hash>, canon: map<nat, Hash>, head: nat) {
    forall n :: n > head ==> (n in canon <==> n in was) && (n in canon && n in was ==> canon[n] == was[n])
  }

  /** Indexing the tip completes the index of its parent, and only refreshes its own. */
  lemma TipIndexed(headers: Headers, canon: map<nat, Hash>, tip: Header, parent: Header)
    requires WellKeyed(headers) && CanonUpTo(headers, canon, parent)
    requires tip == parent || ParentOf(headers, tip) == Some(parent)
    ensures CanonUpTo(headers, canon[tip.number := tip.hash], tip)
  {
    var r := canon[tip.number := tip.hash];
    forall n: nat | n <= tip.number ensures CanonAt(headers, r, tip, n) {
      assert n < tip.number ==> CanonAt(headers, canon, parent, n);
    }
  }

  /** Filing a block keeps the store consistent. */
  lemma StoreKept(headers: Headers, bodies: Bodies, genesis: Header, b: Block)
    requires Rooted(headers, genesis) && StoreOk(headers, bodies)
    requires Fresh(headers, b.header) && ParentOf(headers, b.header).Some?
    ensures StoreOk(headers[KeyOf(b.header) := b.header], bodies[KeyOf(b.header) := b.txs])
  {
    var more := FileHeader(headers, genesis, b.header);
    forall k, l ensures !Clash(more, k, l) {
      assert !Clash(headers, k, l);
    }
  }

  lemma WriteFiles(t: Tree, genesis: Header, h: Header, coin: bool, td: int)
    requires TreeOk(t, genesis) && Fresh(t.headers, h)
             && GetTd(t.tds, h.parentHash, h.number - 1) == Some(td - h.difficulty)
    ensures Write(t, h, coin).headers == t.headers[KeyOf(h) := h] && Write(t, h, coin).tds == t.tds[KeyOf(h) := td]
    ensures Rooted(t.headers, genesis) && ParentOf(t.headers, h).Some?
  {
  }

  /** Filing a block with a known parent keeps the store and what is known about the head. */
  lemma FiledParts(headers: Headers, bodies: Bodies, canon: map<nat, Hash>, lookup: Lookup, head: Block,
                   genesis: Header,
                   block: Block)
    requires Rooted(headers, genesis) && StoreOk(headers, bodies) && BlockStored(headers, bodies, head)
    requires CanonUpTo(headers, canon, head.header) && Fresh(headers, block.header)
             && ParentOf(headers, block.header).Some?
    requires KeyOf(block.header) in bodies ==> bodies[KeyOf(block.header)] == block.txs
    ensures var more, moreBodies := headers[KeyOf(block.header) := block.header],
            bodies[KeyOf(block.header) := block.txs];
            && Rooted(more, genesis) && StoreOk(more, moreBodies) && ParentOf(more, block.header).Some?
            && BlockStored(more, moreBodies, block) && BlockStored(more, moreBodies, head)
            && CanonUpTo(more, canon, head.header)
            && (LookupExact(headers, bodies, lookup, head.header) ==>
                LookupExact(more, moreBodies, lookup, head.header))
  {
    hide CanonUpTo, LookupExact;
    var more := FileHeader(headers, genesis, block.header);
    CanonFrame(headers, more, canon, head.header);
    StoreKept(headers, bodies, genesis, block);
    if LookupExact(headers, bodies, lookup, head.header) {
      LookupFrame(headers, bodies, more, bodies[KeyOf(block.header) := block.txs], genesis, head.header, lookup);
    }
  }

  class BlockChain {
    const genesis: Header
    var headers: Headers
    var bodies: Bodies
    var tds: map<Key, int>
    var canon: map<nat, Hash>
    var lookup: Lookup
    var currentBlock: Block
    var currentFastBlock: Block
    var currentHeader: Header

    ghost function Abstract(): Tree
      reads this
    {
      Tree(headers, tds, currentBlock.header)
    }

    /**
     * The run invariant. The index is claimed up to the head's number only: an entry above a
     * shorter new head is left behind.
     */
    ghost predicate Valid()
      reads this
    {
      && TreeOk(Abstract(), genesis)
      && HeadHeaviest(Abstract())
      && StoreOk(headers, bodies)
      && BlockStored(headers, bodies, currentBlock)
      && CanonUpTo(headers, canon, currentBlock.header)
    }

    /** The transaction table is exact for the head. */
    ghost predicate Indexed()
      requires WellKeyed(headers)
      reads this
    {
      LookupExact(headers, bodies, lookup, currentBlock.header)
    }

    function SideHeads(): Heads
      reads this
    {
      Heads(currentHeader, currentFastBlock)
    }

    constructor (g: Block)
      requires g.header.number == 0 && g.header.hash != ZERO_HASH && g.txs == []
      ensures Valid() && Indexed() && genesis == g.header && Abstract() == Genesis(g.header)
      ensures bodies == map[KeyOf(g.header) := []] && SideHeads() == At(g) && canon == map[0 := g.header.hash]
    {
      genesis := g.header;
      headers := map[KeyOf(g.header) := g.header];
      bodies := map[KeyOf(g.header) := []];
      tds := map[KeyOf(g.header) := g.header.difficulty];
      canon := map[0 := g.header.hash];
      lookup := map[];
      currentBlock, currentFastBlock, currentHeader := g, g, g.header;
    }

    /** Makes `block` the head; the other two heads follow only when the index did not name it yet. */
    method Insert(block: Block)
      modifies this`canon, this`currentBlock, this`currentFastBlock, this`currentHeader
      ensures canon == old(canon)[block.header.number := block.header.hash]
      ensures currentBlock == block
      ensures SideHeads() == if Stale(old(canon), block) then At(block) else old(SideHeads())
    {
      var updateHeads := GetCanonicalHash(canon, block.header.number) != block.header.hash;
      canon := canon[block.header.number := block.header.hash];
      currentBlock := block;
      if updateHeads {
        currentHeader := block.header;
        currentFastBlock := block;
      }
    }

    method WriteTransactions(block: Block)
      modifies this`lookup
      ensures lookup == FileTxs(old(lookup), block, |block.txs|)
    {
      for i := 0 to |block.txs|
        invariant lookup == FileTxs(old(lookup), block, i)
      {
        lookup := lookup[block.txs[i] := TxPos(block.header.hash, block.header.number, i)];
      }
    }

    /** Inserts the blocks of the new chain, newest first, and files their transactions. */
    method InsertAll(chain: seq<Block>) returns (added: seq<TxHash>)
      modifies this`canon, this`currentBlock, this`currentFastBlock, this`currentHeader, this`lookup
      ensures canon == IndexBlocks(old(canon), chain)
      ensures lookup == FileBlocks(old(lookup), chain)
      ensures added == TxsOf(chain)
      ensures SideHeads() == HeadsAfter(old(canon), old(SideHeads()), chain)
    {
      added := [];
      for i := 0 to |chain|
        invariant canon == IndexBlocks(old(canon), chain[..i])
        invariant lookup == FileBlocks(old(lookup), chain[..i])
        invariant added == TxsOf(chain[..i])
        invariant SideHeads() == HeadsAfter(old(canon), old(SideHeads()), chain[..i])
      {
        assert chain[..i + 1][..i] == chain[..i];
        Insert(chain[i]);
        WriteTransactions(chain[i]);
        added := added + chain[i].txs;
      }
      assert chain[..|chain|] == chain;
    }

    method DeleteTransactions(diff: seq<TxHash>)
      modifies this`lookup
      ensures lookup == map tx | tx in old(lookup) && tx !in diff :: old(lookup)[tx]
    {
      for i := 0 to |diff|
        invariant lookup == map tx | tx in old(lookup) && tx !in diff[..i] :: old(lookup)[tx]
      {
        lookup := map tx | tx in lookup && tx != diff[i] :: lookup[tx];
      }
      assert diff[..|diff|] == diff;
    }

    /** Rewrites both indices from the old tip to the new one. With all ancestors stored it cannot fail. */
    method Reorg(oldTip: Block, newTip: Block) returns (fork: Option<Fork>)
      requires Rooted(headers, genesis) && StoreOk(headers, bodies)
      requires BlockStored(headers, bodies, oldTip) && BlockStored(headers, bodies, newTip)
      requires CanonUpTo(headers, canon, oldTip.header)
      modifies this`canon, this`currentBlock, this`currentFastBlock, this`currentHeader, this`lookup
      ensures fork.Some? && ForkOk(headers, bodies, oldTip.header, newTip.header, fork.value)
      ensures CanonUpTo(headers, canon, newTip.header)
      ensures (LookupExact(headers, bodies, old(lookup), oldTip.header) && NoRepeat(headers, bodies, newTip.header))
              ==> LookupExact(headers, bodies, lookup, newTip.header)
      ensures SideHeads() == HeadsAfter(old(canon), old(SideHeads()), fork.value.newChain)
      ensures SameAbove(old(canon), canon, newTip.header.number)
    {
      GenesisShared(headers, genesis, oldTip.header, newTip.header);
      fork := FindFork(headers, bodies, oldTip, newTip);
      if fork.None? { assert false; }
      ghost var f, before := fork.value, lookup;
      ReorgCanon(headers, bodies, genesis, oldTip.header, newTip.header, f, canon);
      ReorgAbove(headers, bodies, newTip.header, f.newChain, canon);
      var added := InsertAll(fork.value.newChain);
      var diff := TxDifference(fork.value.deleted, added);
      DeleteTransactions(diff);
      assert Reorganised(before, lookup, f);
      if LookupExact(headers, bodies, before, oldTip.header) && NoRepeat(headers, bodies, newTip.header) {
        ReorgExact(headers, bodies, genesis, oldTip.header, newTip.header, f, before, lookup);
      }
    }

    /** Files the total difficulty, header and body of a block, whatever becomes of the head. */
    method File(block: Block, externTd: int, ghost coin: bool)
      requires Valid() && Fresh(headers, block.header)
      requires KeyOf(block.header) in bodies ==> bodies[KeyOf(block.header)] == block.txs
      requires GetTd(tds, block.header.parentHash, block.header.number - 1) == Some(externTd - block.header.difficulty)
      modifies this`headers, this`tds, this`bodies
      ensures headers == Write(old(Abstract()), block.header, coin).headers
              && tds == Write(old(Abstract()), block.header, coin).tds
      ensures bodies == old(bodies)[KeyOf(block.header) := block.txs]
      ensures TreeOk(Write(old(Abstract()), block.header, coin), genesis)
              && HeadHeaviest(Write(old(Abstract()), block.header, coin))
      ensures StoreOk(headers, bodies) && BlockStored(headers, bodies, block)
              && BlockStored(headers, bodies, currentBlock)
      ensures Rooted(headers, genesis) && CanonUpTo(headers, canon, currentBlock.header)
      ensures ParentOf(headers, block.header).Some?
      ensures old(Indexed()) ==> Indexed()
    {
      hide HeadHeaviest, CanonUpTo, LookupExact, NoRepeat, TreeOk, StoreOk, BlockStored;
      WriteKeeps(Abstract(), genesis, block.header, coin);
      WriteFiles(Abstract(), genesis, block.header, coin, externTd);
      FiledParts(headers, bodies, canon, lookup, currentBlock, genesis, block);
      tds := tds[KeyOf(block.header) := externTd];
      headers := headers[KeyOf(block.header) := block.header];
      bodies := bodies[KeyOf(block.header) := block.txs];
    }

    /**
     * Moves the head to a stored block: a plain extension, or a reorganisation first. The header and
     * fast heads come along exactly when `HeadsFollow` says so, and the index is exact afterwards
     * exactly when it had no entry above the new head.
     */
    method MoveHead(block: Block) returns (ghost chain: seq<Block>, ghost fork: Option<Fork>)
      requires Rooted(headers, genesis) && StoreOk(headers, bodies)
      requires BlockStored(headers, bodies, currentBlock) && BlockStored(headers, bodies, block)
      requires ParentOf(headers, block.header).Some? && CanonUpTo(headers, canon, currentBlock.header)
      modifies this`canon, this`currentBlock, this`currentFastBlock, this`currentHeader, this`lookup
      ensures currentBlock == block && CanonUpTo(headers, canon, block.header)
      ensures block.header.parentHash == old(currentBlock).header.hash
              ==> lookup == old(lookup) && ParentOf(headers, block.header) == Some(old(currentBlock).header)
      ensures (block.header.parentHash != old(currentBlock).header.hash && old(Indexed())
               && NoRepeat(headers, bodies, block.header))
              ==> Indexed()
      ensures Moved(headers, bodies, old(currentBlock), block, chain, fork)
      ensures SideHeads() == HeadsAfter(old(canon), old(SideHeads()), chain)
      ensures SideHeads() == At(block) <==> HeadsFollow(old(canon), old(SideHeads()), block, chain)
      ensures SameAbove(old(canon), canon, block.header.number)
    {
      hide LookupExact, NoRepeat;
      ghost var was := currentBlock.header;
      if block.header.parentHash != currentBlock.header.hash {
        fork := Reorg(currentBlock, block);
        chain := fork.value.newChain;
        TipIndexed(headers, canon, block.header, block.header);
        assert CanonAt(headers, canon, block.header, block.header.number);
        NoNewBlocks(headers, bodies, genesis, was, block, fork.value, old(canon));
      } else {
        fork, chain := None, [block];
        assert !Clash(headers, KeyOf(ParentOf(headers, block.header).value), KeyOf(was));
        TipIndexed(headers, canon, block.header, was);
        assert [block][..0] == [];
      }
      FollowExactly(headers, bodies, block, chain, old(canon), old(SideHeads()));
      Insert(block);
    }

    /** Files a block and, when its chain is the heavier one, makes it the head. */
    method WriteBlock(block: Block, coin: bool)
      returns (status: WriteStatus, ghost chain: seq<Block>, ghost fork: Option<Fork>)
      requires Valid() && Fresh(headers, block.header)
      requires KeyOf(block.header) in bodies ==> bodies[KeyOf(block.header)] == block.txs
      modifies this
      ensures Valid()
      ensures Abstract() == Write(old(Abstract()), block.header, coin)
      ensures status == Decide(old(Abstract()), block.header, coin)
      ensures status == CanonStat ==> currentBlock == block
      ensures status != CanonStat ==> currentBlock == old(currentBlock) && canon == old(canon) && lookup == old(lookup)
                                      && SideHeads() == old(SideHeads())
      ensures status != CanonStat && old(Indexed()) ==> Indexed()
      ensures (status == CanonStat && old(Indexed()) && NoRepeat(headers, bodies, block.header))
              ==> if block.header.parentHash == old(currentBlock).header.hash
                  then ParentOf(headers, block.header) == Some(old(currentBlock).header)
                       && LookupExact(headers, bodies, lookup, old(currentBlock).header)
                  else Indexed()
      ensures status == CanonStat ==>
                && Moved(headers, bodies, old(currentBlock), block, chain, fork)
                && SideHeads() == HeadsAfter(old(canon), old(SideHeads()), chain)
                && (SideHeads() == At(block) <==> HeadsFollow(old(canon), old(SideHeads()), block, chain))
                && SameAbove(old(canon), canon, block.header.number)
                && (CanonExact(headers, canon, block.header) <==>
                      forall n :: n in old(canon) ==> n <= block.header.number)
      ensures status == CanonStat && fork.Some? && fork.value.oldChain != [] && chain != [] ==>
                && SideHeads() == At(chain[|chain| - 1])
                && (SideHeads() == At(block) <==> |chain| == 1)
      ensures status != NonStat ==> headers == old(headers)[KeyOf(block.header) := block.header]
                                    && bodies == old(bodies)[KeyOf(block.header) := block.txs]
      ensures status == NonStat ==> bodies == old(bodies)
    {
      hide LookupExact, NoRepeat, CanonUpTo, TreeOk, HeadHeaviest, StoreOk, BlockStored, Moved, HeadsAfter, HeadsFollow;
      chain, fork := [], None;
      HeadHasTd(Abstract(), genesis);
      var ptd := GetTd(tds, block.header.parentHash, block.header.number - 1);
      if ptd.None? { return NonStat, chain, fork; }
      var localTd, externTd := tds[KeyOf(currentBlock.header)], block.header.difficulty + ptd.value;
      File(block, externTd, coin);
      if externTd > localTd || (externTd == localTd && coin) {
        ghost var was := currentBlock;
        ghost var before, heads := canon, SideHeads();
        chain, fork := MoveHead(block);
        AboveDecides(headers, before, canon, block.header);
        DroppedHeads(headers, bodies, was, block, chain, fork, before, heads);
        status := CanonStat;
      } else {
        status := SideStat;
      }
    }

    /**
     * One block of an import: write it and, when it became the head, file its transactions.
     * Whatever the reorganisation, an exact table is exact again afterwards, unless the new head's
     * chain repeats a transaction.
     */
    method ImportBlock(block: Block, coin: bool) returns (status: WriteStatus)
      requires Valid() && Fresh(headers, block.header)
      requires KeyOf(block.header) in bodies ==> bodies[KeyOf(block.header)] == block.txs
      modifies this
      ensures Valid()
      ensures old(Indexed()) && (status == CanonStat ==> NoRepeat(headers, bodies, block.header)) ==> Indexed()
      ensures Abstract() == Write(old(Abstract()), block.header, coin)
      ensures status == Decide(old(Abstract()), block.header, coin)
      ensures status == CanonStat ==> currentBlock == block
      ensures status != CanonStat ==> lookup == old(lookup) && canon == old(canon) && SideHeads() == old(SideHeads())
      ensures status != NonStat ==> headers == old(headers)[KeyOf(block.header) := block.header]
      ensures bodies == if status != NonStat then old(bodies)[KeyOf(block.header) := block.txs] else old(bodies)
    {
      hide LookupExact, NoRepeat, CanonUpTo, HeadHeaviest, Moved, HeadsAfter, HeadsFollow;
      ghost var was, chain, fork, indexed := currentBlock.header, [], None, Indexed();
      status, chain, fork := WriteBlock(block, coin);
      if status == CanonStat {
        if indexed && NoRepeat(headers, bodies, block.header) {
          TipFiled(headers, bodies, genesis, block,
                   if block.header.parentHash == was.hash then was else block.header, lookup);
        }
        WriteTransactions(block);
      }
    }
  }

  // ----- whole imports

  datatype BlockInput = BlockInput(block: Block, coin: bool)

  ghost function HeaderInputs(ins: seq<BlockInput>): (hs: seq<Input>)
    ensures |hs| == |ins| && forall i :: 0 <= i < |ins| ==> hs[i] == Input(ins[i].block.header, ins[i].coin)
  {
    if ins == [] then []
    else HeaderInputs(ins[..|ins| - 1]) + [Input(ins[|ins| - 1].block.header, ins[|ins| - 1].coin)]
  }

  /** The bodies filed by a run: those of blocks whose parent was known. */
  ghost function StoredBodies(g: Block, ins: seq<BlockInput>): Bodies {
    if ins == [] then map[KeyOf(g.header) := g.txs]
    else
      var before, b := ins[..|ins| - 1], ins[|ins| - 1].block;
      var t := Run(g.header, HeaderInputs(before));
      if GetTd(t.tds, b.header.parentHash, b.header.number - 1).Some?
      then StoredBodies(g, before)[KeyOf(b.header) := b.txs] else StoredBodies(g, before)
  }

  /** Different blocks of a run have different hashes. */
  ghost predicate DistinctBlocks(g: Block, ins: seq<BlockInput>) {
    && NoCollisions(g.header, HeaderInputs(ins))
    && (forall i :: 0 <= i < |ins| && ins[i].block.header == g.header ==> ins[i].block.txs == g.txs)
    && (forall i, j :: 0 <= i < |ins| && 0 <= j < |ins| && ins[i].block.header == ins[j].block.header
          ==> ins[i].block.txs == ins[j].block.txs)
  }

  /** With the `i`th block filed, its chain does not repeat a transaction. */
  ghost predicate Importable(g: Block, ins: seq<BlockInput>, i: nat)
    requires i < |ins|
  {
    var b, t := ins[i].block, Run(g.header, HeaderInputs(ins[..i]));
    var more := t.headers[KeyOf(b.header) := b.header];
    WellKeyed(more) && NoRepeat(more, StoredBodies(g, ins[..i])[KeyOf(b.header) := b.txs], b.header)
  }

  /** A body that is already filed under a key is the one of that block. */
  lemma {:induction false} BodyKnown(g: Block, ins: seq<BlockInput>, all: seq<BlockInput>, b: Block)
    requires DistinctBlocks(g, all) && |ins| <= |all| && ins == all[..|ins|]
    requires exists i :: 0 <= i < |all| && all[i].block == b
    ensures KeyOf(b.header) in StoredBodies(g, ins) ==> StoredBodies(g, ins)[KeyOf(b.header)] == b.txs
    decreases |ins|
  {
    var i :| 0 <= i < |all| && all[i].block == b;
    var hs := HeaderInputs(all);
    assert hs[i].header == b.header;
    if ins == [] {
      assert KeyOf(g.header) == KeyOf(b.header) ==> hs[i].header.hash == g.header.hash;
    } else {
      var last := ins[|ins| - 1].block;
      assert hs[|ins| - 1].header == last.header;
      assert KeyOf(last.header) == KeyOf(b.header) ==> hs[i].header.hash == hs[|ins| - 1].header.hash;
      assert ins[..|ins| - 1] == all[..|ins| - 1];
      BodyKnown(g, ins[..|ins| - 1], all, b);
    }
  }

  lemma ImportStart(g: Block, ins: seq<BlockInput>)
    requires DistinctBlocks(g, ins)
    ensures NoCollisions(g.header, HeaderInputs(ins)) && |HeaderInputs(ins)| == |ins|
    ensures Run(g.header, HeaderInputs([])) == Genesis(g.header) && StoredBodies(g, []) == map[KeyOf(g.header) := g.txs]
  {
  }

  /** One more block of a run. */
  lemma ImportStep(g: Block, ins: seq<BlockInput>, i: nat)
    requires i < |ins|
    ensures var b, t := ins[i].block, Run(g.header, HeaderInputs(ins[..i]));
            && Run(g.header, HeaderInputs(ins[..i + 1])) == Write(t, b.header, ins[i].coin)
            && StoredBodies(g, ins[..i + 1]) ==
                 (if Decide(t, b.header, ins[i].coin) != NonStat
                  then StoredBodies(g, ins[..i])[KeyOf(b.header) := b.txs]
                  else StoredBodies(g, ins[..i]))
            && HeaderInputs(ins)[i] == Input(b.header, ins[i].coin)
  {
    hide Write;
    var upto := ins[..i + 1];
    assert upto[..|upto| - 1] == ins[..i] && upto[|upto| - 1] == ins[i];
    var hs := HeaderInputs(upto);
    assert hs[..|hs| - 1] == HeaderInputs(ins[..i]);
  }

  lemma ImportFine(g: Block, ins: seq<BlockInput>, i: nat)
    requires i < |ins| && Importable(g, ins, i)
    ensures var b := ins[i].block;
            var more := Run(g.header, HeaderInputs(ins[..i])).headers[KeyOf(b.header) := b.header];
            WellKeyed(more) && NoRepeat(more, StoredBodies(g, ins[..i])[KeyOf(b.header) := b.txs], b.header)
  {
  }

  lemma PrefixInputs(ins: seq<BlockInput>, i: nat)
    requires i <= |ins|
    ensures HeaderInputs(ins[..i]) == HeaderInputs(ins)[..i]
  {
  }

  /**
   * Any run of imports from genesis: at every number up to the head's, the index names the head's
   * ancestor; the head is the heaviest block; and if no imported chain repeats a transaction, the
   * transaction table holds exactly the transactions on the head's chain.
   */
  method RunBlocks(g: Block, ins: seq<BlockInput>) returns (chain: BlockChain)
    requires g.header.number == 0 && g.txs == [] && DistinctBlocks(g, ins)
    ensures chain.Valid() && chain.Abstract() == Run(g.header, HeaderInputs(ins))
    ensures CanonUpTo(chain.headers, chain.canon, chain.currentBlock.header)
    ensures HeadHeaviest(chain.Abstract())
    ensures (forall i :: 0 <= i < |ins| ==> Importable(g, ins, i)) ==>
              LookupExact(chain.headers, chain.bodies, chain.lookup, chain.currentBlock.header)
  {
    hide TreeOk, HeadHeaviest, CanonUpTo, BlockStored, LookupExact, Write, NoRepeat, StoredBodies, HeaderInputs,
      DistinctBlocks, Run, Importable, Decide;
    ImportStart(g, ins);
    chain := new BlockChain(g);
    for i := 0 to |ins|
      invariant chain.Valid() && fresh(chain) && chain.genesis == g.header
      invariant (forall j :: 0 <= j < i ==> Importable(g, ins, j)) ==> chain.Indexed()
      invariant chain.Abstract() == Run(g.header, HeaderInputs(ins[..i])) && chain.bodies == StoredBodies(g, ins[..i])
    {
      var b := ins[i].block;
      assert ins[..i + 1][..i] == ins[..i];
      PrefixInputs(ins, i);
      NextInRun(g.header, HeaderInputs(ins), i);
      BodyKnown(g, ins[..i], ins, b);
      ImportStep(g, ins, i);
      ghost var fine := forall j :: 0 <= j < i + 1 ==> Importable(g, ins, j);
      assert fine ==> Importable(g, ins, i) && chain.Indexed();
      if fine { ImportFine(g, ins, i); }
      var status := chain.ImportBlock(b, ins[i].coin);
      assert fine ==> chain.Indexed();
    }
    assert ins[..|ins|] == ins;
  }

  /** The walk of a reorganisation and the search for a common ancestor stop at the same header. */
  method BothMeet(headers: Headers, bodies: Bodies, a: Block, b: Block)
    returns (fork: Option<Fork>, common: Option<Header>)
    requires StoreOk(headers, bodies) && BlockStored(headers, bodies, a) && BlockStored(headers, bodies, b)
    ensures fork.Some? <==> common.Some?
    ensures fork.Some? ==> fork.value.common.header == common.value
                           && ForkOk(headers, bodies, a.header, b.header, fork.value)
  {
    fork := FindFork(headers, bodies, a, b);
    common := FindCommonAncestor(headers, a.header, b.header);
    if fork.Some? && common.Some? {
      DeepestCommonUnique(headers, a.header, b.header, fork.value.common.header, common.value);
    }
  }

  // ----- two runs

  const G := Block(Header(1, 0, 0, 1), [])
  const A := Block(Header(2, 1, 1, 1), [])

  /** Genesis with one block on it. */
  ghost function TwoBlocks(): Tree {
    Tree(map[Key(0, 1) := G.header, Key(1, 2) := A.header], map[Key(0, 1) := 1, Key(1, 2) := 2], A.header)
  }

  method Started() returns (chain: BlockChain)
    ensures fresh(chain) && chain.Valid() && chain.Abstract() == TwoBlocks() && chain.currentBlock == A
    ensures chain.bodies == map[Key(0, 1) := [], Key(1, 2) := []]
  {
    chain := new BlockChain(G);
    assert Write(Genesis(G.header), A.header, false) == TwoBlocks();
    ghost var path, fork;
    var status;
    status, path, fork := chain.WriteBlock(A, false);
  }

  /** A further block on top of those two, filed. */
  lemma ThirdBlock(h: Header)
    requires KeyOf(h) !in TwoBlocks().headers && (h.parentHash, h.number) in {(1, 1), (2, 2)}
    ensures var ptd := h.number; var t := TwoBlocks();
            && Write(t, h, false) == Tree(t.headers[KeyOf(h) := h], t.tds[KeyOf(h) := ptd + h.difficulty],
                                          if ptd + h.difficulty > 2 then h else A.header)
            && Decide(t, h, false) == (if ptd + h.difficulty > 2 then CanonStat else SideStat)
  {
  }

  /** The search finds genesis below the two blocks on one side and the one block on the other. */
  lemma MeetsAtGenesis(headers: Headers, bodies: Bodies, b: Header, c: Header, f: Fork)
    requires WellKeyed(headers) && b == Header(3, 1, 1, 1) && c == Header(4, 3, 2, 1)
    requires headers == map[Key(0, 1) := G.header, Key(1, 2) := A.header, Key(1, 3) := b, Key(2, 4) := c]
    requires ForkOk(headers, bodies, A.header, c, f)
    ensures |f.oldChain| == 1 && |f.newChain| == 2 && f.newChain[1].header == b
  {
    assert ParentOf(headers, c) == Some(b) && ParentOf(headers, b) == Some(G.header);
    assert AncestorAt(headers, c, 1) == Some(b) && AncestorAt(headers, A.header, 1) == Some(A.header);
    assert !CommonAt(headers, A.header, c, 1);
    assert forall n: nat :: n >= 2 ==> AncestorAt(headers, A.header, n).None?;
  }

  /** After a reorganisation to two new blocks the header and fast heads are one block behind. */
  method HeadsLag() returns (chain: BlockChain)
    ensures chain.Valid() && chain.currentBlock.header.number == 2
    ensures chain.currentHeader.number == 1 && chain.currentFastBlock.header == chain.currentHeader
  {
    hide TreeOk, HeadHeaviest, CanonUpTo, BlockStored, LookupExact, NoRepeat, HeadsAfter, HeadsFollow, SameAbove,
      ForkOk, CanonExact;
    var b, c := Block(Header(3, 1, 1, 1), []), Block(Header(4, 3, 2, 1), []);
    ghost var path, fork;
    var status;
    chain := Started();
    assert KeyOf(b.header) !in chain.bodies;
    ThirdBlock(b.header);
    status, path, fork := chain.WriteBlock(b, false);
    assert status == SideStat && KeyOf(c.header) !in chain.bodies;
    status, path, fork := chain.WriteBlock(c, false);
    assert status == CanonStat;
    assert chain.headers == map[Key(0, 1) := G.header, Key(1, 2) := A.header, Key(1, 3) := b.header,
                                Key(2, 4) := c.header];
    MeetsAtGenesis(chain.headers, chain.bodies, b.header, c.header, fork.value);
  }

  /** After a heavier but shorter chain has won, the index still has an entry above the head. */
  method EntriesLeft() returns (chain: BlockChain)
    ensures chain.Valid() && chain.currentBlock.header.number == 1 && 2 in chain.canon
    ensures !CanonExact(chain.headers, chain.canon, chain.currentBlock.header)
  {
    hide TreeOk, HeadHeaviest, BlockStored, LookupExact, NoRepeat, HeadsAfter, HeadsFollow, Moved;
    var b, c := Block(Header(3, 2, 2, 1), []), Block(Header(4, 1, 1, 5), []);
    ghost var path, fork;
    var status;
    chain := Started();
    assert KeyOf(b.header) !in chain.bodies;
    ThirdBlock(b.header);
    status, path, fork := chain.WriteBlock(b, false);
    assert status == CanonStat && KeyOf(c.header) !in chain.bodies;
    assert CanonAt(chain.headers, chain.canon, b.header, 2);
    status, path, fork := chain.WriteBlock(c, false);
    assert status == CanonStat;
  }
}
