/**
 * The header chain: headers are filed under the rule "the heaviest chain is canonical", and
 * the number-to-hash index is rewritten in place when the heaviest chain changes.
 */
module HeaderChains {
  import opened Wrappers
  import opened BlockTree

  datatype WriteStatus = NonStat | CanonStat | SideStat

  /** What the header chain stands for: the stored tree, its total difficulties and its head. */
  datatype Tree = Tree(headers: Headers, tds: map<Key, int>, head: Header)

  function GetTd(tds: map<Key, int>, hash: Hash, number: int): Option<int> {
    if number >= 0 && Key(number, hash) in tds then Some(tds[Key(number, hash)]) else None
  }

  ghost predicate TdOk(headers: Headers, tds: map<Key, int>, k: Key)
    requires WellKeyed(headers)
  {
    k in headers && k in tds && tds[k] == PathDifficulty(headers, headers[k])
  }

  ghost predicate TdsOk(headers: Headers, tds: map<Key, int>)
    requires WellKeyed(headers)
  {
    && tds.Keys == headers.Keys
    && forall k {:trigger TdOk(headers, tds, k)} :: k in headers ==> TdOk(headers, tds, k)
  }

  ghost predicate TreeOk(t: Tree, genesis: Header) {
    && Rooted(t.headers, genesis)
    && Stored(t.headers, t.head)
    && TdsOk(t.headers, t.tds)
  }

  lemma HeadHasTd(t: Tree, genesis: Header)
    requires TreeOk(t, genesis)
    ensures KeyOf(t.head) in t.tds
  {
  }

  ghost predicate NotHeavier(t: Tree, k: Key) {
    k in t.tds && KeyOf(t.head) in t.tds && t.tds[k] <= t.tds[KeyOf(t.head)]
  }

  /** No stored header carries more total difficulty than the head. */
  ghost predicate HeadHeaviest(t: Tree)
    requires KeyOf(t.head) in t.tds
  {
    forall k {:trigger NotHeavier(t, k)} :: k in t.tds ==> NotHeavier(t, k)
  }

  /** The heavier tip wins; `coin` decides a tie. */
  predicate Wins(externTd: int, localTd: int, coin: bool) {
    externTd > localTd || (externTd == localTd && coin)
  }

  /** What becomes of a written header: no known parent, new head, or side branch. */
  ghost function Decide(t: Tree, h: Header, coin: bool): WriteStatus
    requires KeyOf(t.head) in t.tds
  {
    match GetTd(t.tds, h.parentHash, h.number - 1)
    case None => NonStat
    case Some(ptd) => if Wins(ptd + h.difficulty, t.tds[KeyOf(t.head)], coin) then CanonStat else SideStat
  }

  /** Writing one header, without any index. */
  ghost function Write(t: Tree, h: Header, coin: bool): Tree
    requires KeyOf(t.head) in t.tds
  {
    match GetTd(t.tds, h.parentHash, h.number - 1)
    case None => t
    case Some(ptd) =>
      Tree(t.headers[KeyOf(h) := h],
           t.tds[KeyOf(h) := ptd + h.difficulty],
           if Wins(ptd + h.difficulty, t.tds[KeyOf(t.head)], coin) then h else t.head)
  }

  ghost function Genesis(genesis: Header): Tree {
    Tree(map[KeyOf(genesis) := genesis], map[KeyOf(genesis) := genesis.difficulty], genesis)
  }

  lemma TdsFrame(t: Tree, genesis: Header, h: Header)
    requires TreeOk(t, genesis) && Fresh(t.headers, h) && ParentOf(t.headers, h).Some?
    ensures var more := t.headers[KeyOf(h) := h];
            var parent := ParentOf(t.headers, h).value;
            Rooted(more, genesis) && TdsOk(more, t.tds[KeyOf(h) := t.tds[KeyOf(parent)] + h.difficulty])
  {
    var more := FileHeader(t.headers, genesis, h);
    var p := ParentOf(t.headers, h).value;
    var tds := t.tds[KeyOf(h) := t.tds[KeyOf(p)] + h.difficulty];
    forall k | k in more ensures TdOk(more, tds, k) {
      if k == KeyOf(h) {
        assert TdOk(t.headers, t.tds, KeyOf(p));
        PathDifficultyFrame(t.headers, more, genesis, p);
      } else {
        assert TdOk(t.headers, t.tds, k);
        PathDifficultyFrame(t.headers, more, genesis, t.headers[k]);
      }
    }
  }

  /** The tip that wins a write is as heavy as everything stored. */
  lemma HeaviestKept(t: Tree, h: Header, coin: bool, ptd: int)
    requires KeyOf(t.head) in t.tds && HeadHeaviest(t)
    requires GetTd(t.tds, h.parentHash, h.number - 1) == Some(ptd)
    requires KeyOf(h) == KeyOf(t.head) ==> t.tds[KeyOf(h)] == ptd + h.difficulty
    ensures HeadHeaviest(Write(t, h, coin))
  {
    forall k | k in Write(t, h, coin).tds ensures NotHeavier(Write(t, h, coin), k) {
      assert k in t.tds ==> NotHeavier(t, k);
    }
  }

  /** One write keeps the tree a tree, its difficulties exact and its head heaviest. */
  lemma WriteKeeps(t: Tree, genesis: Header, h: Header, coin: bool)
    requires TreeOk(t, genesis) && HeadHeaviest(t) && Fresh(t.headers, h)
    ensures TreeOk(Write(t, h, coin), genesis) && HeadHeaviest(Write(t, h, coin))
  {
    var ptd := GetTd(t.tds, h.parentHash, h.number - 1);
    if ptd.Some? {
      TdsFrame(t, genesis, h);
      assert KeyOf(h) in t.headers ==> TdOk(t.headers, t.tds, KeyOf(h));
      assert TdOk(t.headers, t.tds, KeyOf(ParentOf(t.headers, h).value));
      HeaviestKept(t, h, coin, ptd.value);
    }
  }

  /**
   * What a write does, by the difficulties along the paths: without a stored parent nothing; else the
   * header is filed, and it becomes the head if its path is heavier than that of the head, or as
   * heavy and the coin says so.
   */
  lemma WriteDecides(t: Tree, genesis: Header, h: Header, coin: bool)
    requires TreeOk(t, genesis)
    ensures KeyOf(t.head) in t.tds
    ensures h.number == 0 || Key(h.number - 1, h.parentHash) !in t.headers ==>
              Write(t, h, coin) == t && Decide(t, h, coin) == NonStat
    ensures h.number > 0 && Key(h.number - 1, h.parentHash) in t.headers ==>
              var its := PathDifficulty(t.headers, t.headers[Key(h.number - 1, h.parentHash)]) + h.difficulty;
              var best := PathDifficulty(t.headers, t.head);
              && Write(t, h, coin).headers == t.headers[Key(h.number, h.hash) := h]
              && Write(t, h, coin).tds == t.tds[Key(h.number, h.hash) := its]
              && if its > best || (its == best && coin)
                 then Write(t, h, coin).head == h && Decide(t, h, coin) == CanonStat
                 else Write(t, h, coin).head == t.head && Decide(t, h, coin) == SideStat
  {
    assert TdOk(t.headers, t.tds, KeyOf(t.head));
    if h.number > 0 && Key(h.number - 1, h.parentHash) in t.headers {
      assert TdOk(t.headers, t.tds, Key(h.number - 1, h.parentHash));
    }
  }

  datatype Input = Input(header: Header, coin: bool)

  /** The tree after a run of writes. */
  ghost function Run(genesis: Header, ins: seq<Input>): (t: Tree)
    ensures KeyOf(t.head) in t.tds
  {
    if ins == [] then Genesis(genesis)
    else Write(Run(genesis, ins[..|ins| - 1]), ins[|ins| - 1].header, ins[|ins| - 1].coin)
  }

  /** Distinct headers of a run have distinct hashes, and none hashes to the missing marker. */
  ghost predicate NoCollisions(genesis: Header, ins: seq<Input>) {
    && genesis.hash != ZERO_HASH
    && (forall i :: 0 <= i < |ins| ==> ins[i].header.hash != ZERO_HASH)
    && (forall i :: 0 <= i < |ins| && ins[i].header.hash == genesis.hash ==> ins[i].header == genesis)
    && (forall i, j :: 0 <= i < |ins| && 0 <= j < |ins| && ins[i].header.hash == ins[j].header.hash
          ==> ins[i].header == ins[j].header)
  }

  ghost predicate FromInputs(headers: Headers, genesis: Header, ins: seq<Input>) {
    forall k :: k in headers ==> headers[k] == genesis || exists i :: 0 <= i < |ins| && ins[i].header == headers[k]
  }

  lemma NextIsFresh(headers: Headers, genesis: Header, ins: seq<Input>)
    requires ins != [] && NoCollisions(genesis, ins) && WellKeyed(headers)
    requires FromInputs(headers, genesis, ins[..|ins| - 1])
    ensures Fresh(headers, ins[|ins| - 1].header)
  {
    var last := ins[|ins| - 1].header;
    forall k | k in headers && k.hash == last.hash ensures headers[k] == last {
      if headers[k] != genesis {
        var i :| 0 <= i < |ins| - 1 && ins[..|ins| - 1][i].header == headers[k];
        assert ins[i].header.hash == last.hash;
      }
    }
  }

  lemma FromInputsKept(headers: Headers, genesis: Header, ins: seq<Input>, h: Header)
    requires ins != [] && FromInputs(headers, genesis, ins[..|ins| - 1]) && ins[|ins| - 1].header == h
    ensures FromInputs(headers, genesis, ins) && FromInputs(headers[KeyOf(h) := h], genesis, ins)
  {
    forall k | k in headers && headers[k] != genesis
      ensures exists i :: 0 <= i < |ins| && ins[i].header == headers[k]
    {
      var i :| 0 <= i < |ins| - 1 && ins[..|ins| - 1][i].header == headers[k];
      assert ins[i].header == headers[k];
    }
  }

  /**
   * Over every run of header writes, whatever the coins: the stored headers form a tree, each
   * stored total difficulty is the sum along its path, and the head is as heavy as any header.
   */
  lemma {:induction false} RunSafe(genesis: Header, ins: seq<Input>)
    requires genesis.number == 0 && NoCollisions(genesis, ins)
    ensures TreeOk(Run(genesis, ins), genesis) && HeadHeaviest(Run(genesis, ins))
    ensures FromInputs(Run(genesis, ins).headers, genesis, ins)
    decreases |ins|
  {
    if ins != [] {
      var before, last := ins[..|ins| - 1], ins[|ins| - 1];
      RunSafe(genesis, before);
      var t := Run(genesis, before);
      NextIsFresh(t.headers, genesis, ins);
      WriteKeeps(t, genesis, last.header, last.coin);
      FromInputsKept(t.headers, genesis, ins, last.header);
    }
  }

  // ----- the number-to-hash index

  function GetCanonicalHash(canon: map<nat, Hash>, n: nat): Hash {
    if n in canon then canon[n] else ZERO_HASH
  }

  ghost predicate CanonAt(headers: Headers, canon: map<nat, Hash>, head: Header, n: nat)
    requires WellKeyed(headers)
  {
    n in canon && IsAncestorHash(headers, head, n, canon[n])
  }

  /** Up to the head's number the index is the head's ancestor path. */
  ghost predicate CanonUpTo(headers: Headers, canon: map<nat, Hash>, head: Header)
    requires WellKeyed(headers)
  {
    forall n: nat {:trigger CanonAt(headers, canon, head, n)} :: n <= head.number ==> CanonAt(headers, canon, head, n)
  }

  /** The index is the head's ancestor path and nothing else. */
  ghost predicate CanonExact(headers: Headers, canon: map<nat, Hash>, head: Header)
    requires WellKeyed(headers)
  {
    && CanonUpTo(headers, canon, head)
    && forall n :: n in canon ==> n <= head.number
  }

  /** The index of a tree is determined by its head. */
  lemma CanonUnique(headers: Headers, c: map<nat, Hash>, d: map<nat, Hash>, head: Header)
    requires WellKeyed(headers) && CanonExact(headers, c, head) && CanonExact(headers, d, head)
    ensures c == d
  {
    forall n: nat ensures (n in c <==> n in d) && (n in c ==> c[n] == d[n]) {
      if n <= head.number {
        assert CanonAt(headers, c, head, n) && CanonAt(headers, d, head, n);
      }
    }
    assert c.Keys == d.Keys;
  }

  /** The index, spelled out entry by entry. */
  lemma CanonEntries(headers: Headers, canon: map<nat, Hash>, head: Header)
    requires WellKeyed(headers) && CanonUpTo(headers, canon, head)
    ensures forall n: nat :: n <= head.number ==> n in canon && IsAncestorHash(headers, head, n, canon[n])
  {
    forall n: nat | n <= head.number ensures n in canon && IsAncestorHash(headers, head, n, canon[n]) {
      assert CanonAt(headers, canon, head, n);
    }
  }

  lemma CanonFrame(headers: Headers, more: Headers, canon: map<nat, Hash>, head: Header)
    requires WellKeyed(headers) && WellKeyed(more)
    requires forall k :: k in headers ==> k in more && more[k] == headers[k]
    requires CanonUpTo(headers, canon, head)
    ensures CanonUpTo(more, canon, head)
  {
    forall n: nat | n <= head.number
      ensures CanonAt(more, canon, head, n)
    {
      assert CanonAt(headers, canon, head, n);
      AncestorFrame(headers, more, head, n);
    }
  }

  /** Writing a header leaves the index right for the head it served. */
  lemma WriteKeepsCanon(t: Tree, genesis: Header, h: Header, coin: bool, canon: map<nat, Hash>)
    requires TreeOk(t, genesis) && Fresh(t.headers, h) && WellKeyed(Write(t, h, coin).headers)
    requires CanonExact(t.headers, canon, t.head)
    ensures CanonExact(Write(t, h, coin).headers, canon, t.head)
  {
    if GetTd(t.tds, h.parentHash, h.number - 1).Some? {
      CanonFrame(t.headers, t.headers[KeyOf(h) := h], canon, t.head);
    }
  }

  lemma CanonNonZero(headers: Headers, genesis: Header, canon: map<nat, Hash>, head: Header)
    requires Rooted(headers, genesis) && Stored(headers, head) && CanonUpTo(headers, canon, head)
    ensures forall n: nat :: n <= head.number ==> n in canon && canon[n] != ZERO_HASH
  {
    forall n: nat | n <= head.number ensures n in canon && canon[n] != ZERO_HASH {
      assert CanonAt(headers, canon, head, n);
      AncestorExists(headers, genesis, head, n);
    }
  }

  /** Once the two chains meet at `m`, every entry below `m` already serves the new head. */
  lemma MeetsBelow(headers: Headers, genesis: Header, canon: map<nat, Hash>, was: Header, head: Header, m: nat, n: nat)
    requires Rooted(headers, genesis) && Stored(headers, was) && Stored(headers, head)
    requires n <= m <= was.number && m <= head.number
    requires m in canon && IsAncestorHash(headers, was, m, canon[m]) && IsAncestorHash(headers, head, m, canon[m])
    requires n in canon && IsAncestorHash(headers, was, n, canon[n])
    ensures IsAncestorHash(headers, head, n, canon[n])
  {
    assert CommonAt(headers, was, head, m);
    SharedBelow(headers, genesis, was, head, m, n);
  }

  class HeaderChain {
    const genesis: Header
    var headers: Headers
    var tds: map<Key, int>
    var canon: map<nat, Hash>
    var currentHeader: Header
    var headHeaderHash: Hash

    ghost function Abstract(): Tree
      reads this
    {
      Tree(headers, tds, currentHeader)
    }

    /** The run invariant; `CanonUnique` makes the index a function of the tree. */
    ghost predicate Valid()
      reads this
    {
      && TreeOk(Abstract(), genesis)
      && HeadHeaviest(Abstract())
      && CanonExact(headers, canon, currentHeader)
      && headHeaderHash == currentHeader.hash
    }

    constructor (g: Header)
      requires g.number == 0 && g.hash != ZERO_HASH
      ensures Valid() && genesis == g && Abstract() == Genesis(g)
    {
      genesis := g;
      headers := map[KeyOf(g) := g];
      tds := map[KeyOf(g) := g.difficulty];
      canon := map[0 := g.hash];
      currentHeader := g;
      headHeaderHash := g.hash;
    }

    /** Deletes index entries from `from` upwards until the first missing one. */
    method DropFrom(from: nat, ghost top: nat)
      requires forall n: nat :: from <= n <= top ==> n in canon && canon[n] != ZERO_HASH
      requires forall n :: n in canon ==> n <= top
      modifies this`canon
      ensures canon == map n | n in old(canon) && n < from :: old(canon)[n]
    {
      var i := from;
      while GetCanonicalHash(canon, i) != ZERO_HASH
        invariant i >= from
        invariant forall n: nat :: i <= n <= top ==> n in canon && canon[n] != ZERO_HASH
        invariant canon == map n | n in old(canon) && !(from <= n < i) :: old(canon)[n]
        decreases top + 1 - i
      {
        canon := map n | n in canon && n != i :: canon[n];
        i := i + 1;
      }
      forall n | n in canon ensures n < from {
        assert !(i <= n <= top);
      }
    }

    /**
     * Walks from the parent of `header` towards genesis, overwriting stale entries, until
     * an entry already names the header walked over. `was` is the head the index served.
     */
    method Reroute(header: Header, ghost was: Header)
      requires Rooted(headers, genesis) && Stored(headers, was) && Stored(headers, header)
      requires header.number > 0
      requires forall n :: n in canon ==> n <= was.number && IsAncestorHash(headers, was, n, canon[n])
      requires forall n: nat :: n <= was.number && n < header.number ==> n in canon
      modifies this`canon
      ensures forall n: nat :: n < header.number ==> n in canon && IsAncestorHash(headers, header, n, canon[n])
      ensures forall n :: n in canon ==> n in old(canon) || n < header.number
    {
      AncestorExists(headers, genesis, header, header.number - 1);
      var headHash, headNumber := header.parentHash, header.number - 1;
      var headHeader := GetHeader(headers, headHash, headNumber);
      while GetCanonicalHash(canon, headNumber) != headHash
        invariant 0 <= headNumber < header.number
        invariant headHeader.Some? && AncestorAt(headers, header, headNumber) == headHeader
        invariant headHash != ZERO_HASH && headHeader.value.hash == headHash && headHeader.value.number == headNumber
        invariant Stored(headers, headHeader.value)
        invariant forall n: nat :: headNumber < n < header.number ==>
                                     n in canon && IsAncestorHash(headers, header, n, canon[n])
        invariant forall n: nat :: n <= headNumber ==>
                                     (n in canon <==> n in old(canon)) && (n in canon ==> canon[n] == old(canon)[n])
        invariant forall n :: n in canon ==> n in old(canon) || n < header.number
        decreases headNumber
      {
        if headNumber == 0 {
          AncestorExists(headers, genesis, was, 0);
          assert false;
        }
        canon := canon[headNumber := headHash];
        AncestorExists(headers, genesis, header, headNumber - 1);
        AncestorTransitive(headers, header, headNumber, headNumber - 1);
        headHash, headNumber := headHeader.value.parentHash, headHeader.value.number - 1;
        headHeader := GetHeader(headers, headHash, headNumber);
      }
      forall n: nat | n <= headNumber
        ensures n in canon && IsAncestorHash(headers, header, n, canon[n])
      {
        MeetsBelow(headers, genesis, canon, was, header, headNumber, n);
      }
    }

    /** Re-routes the index to `header` and makes it the head. */
    method MakeCanonical(header: Header)
      requires Rooted(headers, genesis) && Stored(headers, currentHeader) && Stored(headers, header)
      requires header.number > 0 && CanonExact(headers, canon, currentHeader)
      modifies this`canon, this`currentHeader, this`headHeaderHash
      ensures CanonExact(headers, canon, header)
      ensures currentHeader == header && headHeaderHash == header.hash
    {
      CanonNonZero(headers, genesis, canon, currentHeader);
      CanonEntries(headers, canon, currentHeader);
      DropFrom(header.number + 1, currentHeader.number);
      Reroute(header, currentHeader);
      canon := canon[header.number := header.hash];
      headHeaderHash := header.hash;
      currentHeader := header;
    }

    /** Writes the total difficulty and the header, whatever becomes of the head. */
    method File(header: Header, externTd: int, ghost coin: bool)
      requires Valid() && Fresh(headers, header)
      requires GetTd(tds, header.parentHash, header.number - 1) == Some(externTd - header.difficulty)
      modifies this`headers, this`tds
      ensures headers == Write(old(Abstract()), header, coin).headers && tds == Write(old(Abstract()), header, coin).tds
      ensures TreeOk(Write(old(Abstract()), header, coin), genesis)
              && HeadHeaviest(Write(old(Abstract()), header, coin))
      ensures Stored(headers, currentHeader) && Stored(headers, header) && CanonExact(headers, canon, currentHeader)
    {
      WriteKeeps(Abstract(), genesis, header, coin);
      WriteKeepsCanon(Abstract(), genesis, header, coin, canon);
      tds := tds[KeyOf(header) := externTd];
      headers := headers[KeyOf(header) := header];
    }

    /**
     * Files a header; when its chain is heavier (or ties and wins the coin flip) the index is
     * re-routed to it. The new tree is `Write` of the old one, so runs are covered by `RunSafe`.
     */
    method WriteHeader(header: Header, coin: bool) returns (status: WriteStatus)
      requires Valid() && Fresh(headers, header)
      modifies this
      ensures Valid()
      ensures Abstract() == Write(old(Abstract()), header, coin)
      ensures status == Decide(old(Abstract()), header, coin)
      ensures status != CanonStat ==> canon == old(canon)
    {
      var ptd := GetTd(tds, header.parentHash, header.number - 1);
      if ptd.None? { return NonStat; }
      var localTd, externTd := tds[KeyOf(currentHeader)], header.difficulty + ptd.value;
      File(header, externTd, coin);
      if externTd > localTd || (externTd == localTd && coin) {
        MakeCanonical(header);
        status := CanonStat;
      } else {
        status := SideStat;
      }
    }
  }

  /**
   * Any run of header writes: the index is exactly the ancestor path of the current header, with
   * nothing above it, and everything `RunSafe` says of the tree holds.
   */
  method RunHeaders(genesis: Header, ins: seq<Input>) returns (hc: HeaderChain)
    requires genesis.number == 0 && NoCollisions(genesis, ins)
    ensures hc.Valid() && hc.Abstract() == Run(genesis, ins)
    ensures TreeOk(hc.Abstract(), genesis) && HeadHeaviest(hc.Abstract())
    ensures CanonExact(hc.headers, hc.canon, hc.currentHeader)
  {
    hide TreeOk, HeadHeaviest, CanonExact, Write;
    hc := new HeaderChain(genesis);
    for i := 0 to |ins|
      invariant hc.Valid() && fresh(hc) && hc.genesis == genesis && hc.Abstract() == Run(genesis, ins[..i])
    {
      assert ins[..i + 1][..i] == ins[..i];
      NextInRun(genesis, ins, i);
      var status := hc.WriteHeader(ins[i].header, ins[i].coin);
    }
    assert ins[..|ins|] == ins;
  }

  lemma NextInRun(genesis: Header, ins: seq<Input>, i: nat)
    requires genesis.number == 0 && NoCollisions(genesis, ins) && i < |ins|
    ensures Fresh(Run(genesis, ins[..i]).headers, ins[i].header)
  {
    var upto := ins[..i + 1];
    assert NoCollisions(genesis, ins[..i]) && NoCollisions(genesis, upto);
    RunSafe(genesis, ins[..i]);
    assert upto[..|upto| - 1] == ins[..i];
    NextIsFresh(Run(genesis, ins[..i]).headers, genesis, upto);
  }
}
