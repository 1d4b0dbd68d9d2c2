/**
 * The tree of headers a node has stored, keyed by block number and hash, and the walk
 * from a header to its ancestors. Both the header chain and the block chain are built on it.
 *
 * A header carries its own hash; that two headers do not share one is a condition on what
 * is written (see `Fresh`), never assumed of the store.
 */
module BlockTree {
  import opened Wrappers

  type Hash = nat

  /** The all-zero hash, which the store hands out for "no such entry". */
  const ZERO_HASH: Hash := 0

  datatype Header = Header(hash: Hash, parentHash: Hash, number: nat, difficulty: int)
  datatype Key = Key(number: nat, hash: Hash)
  type Headers = map<Key, Header>

  function KeyOf(h: Header): Key {
    Key(h.number, h.hash)
  }

  /**
   * A header by hash and number. The number is an `int` because callers ask for
   * `number - 1`: below zero the 64-bit value wraps to a number no header has.
   */
  function GetHeader(headers: Headers, hash: Hash, number: int): Option<Header> {
    if number >= 0 && Key(number, hash) in headers then Some(headers[Key(number, hash)]) else None
  }

  function ParentOf(headers: Headers, h: Header): Option<Header> {
    GetHeader(headers, h.parentHash, h.number - 1)
  }

  /** Entries are filed under their own number and hash. */
  ghost predicate WellKeyed(headers: Headers) {
    forall k :: k in headers ==> KeyOf(headers[k]) == k
  }

  ghost predicate Stored(headers: Headers, h: Header) {
    KeyOf(h) in headers && headers[KeyOf(h)] == h
  }

  ghost predicate HasParent(headers: Headers, k: Key) {
    k in headers && ParentOf(headers, headers[k]).Some?
  }

  /** A tree: every stored header reaches the genesis header through stored parents. */
  ghost predicate Rooted(headers: Headers, genesis: Header) {
    && WellKeyed(headers)
    && genesis.number == 0
    && Stored(headers, genesis)
    && (forall k :: k in headers && k.number == 0 ==> headers[k] == genesis)
    && (forall k {:trigger HasParent(headers, k)} :: k in headers && k.number > 0 ==> HasParent(headers, k))
    && (forall k :: k in headers ==> k.hash != ZERO_HASH)
  }

  /** `h` may be filed: its hash is not the "missing" marker and does not collide with a stored one. */
  ghost predicate Fresh(headers: Headers, h: Header) {
    && h.hash != ZERO_HASH
    && (forall k :: k in headers && k.hash == h.hash ==> headers[k] == h)
  }

  /** The ancestor of `h` with number `n`, `h` itself included; none when the walk meets a gap. */
  ghost function AncestorAt(headers: Headers, h: Header, n: nat): Option<Header>
    requires WellKeyed(headers)
    decreases h.number
  {
    if n == h.number then Some(h)
    else if n > h.number then None
    else match ParentOf(headers, h)
      case None => None
      case Some(p) => AncestorAt(headers, p, n)
  }

  ghost predicate IsAncestorHash(headers: Headers, h: Header, n: nat, hash: Hash)
    requires WellKeyed(headers)
  {
    AncestorAt(headers, h, n).Some? && AncestorAt(headers, h, n).value.hash == hash
  }

  /** Sum of the difficulties from genesis to `h`. */
  ghost function PathDifficulty(headers: Headers, h: Header): int
    requires WellKeyed(headers)
    decreases h.number
  {
    match ParentOf(headers, h)
    case None => h.difficulty
    case Some(p) => PathDifficulty(headers, p) + h.difficulty
  }

  // ----- walking

  lemma {:induction false} AncestorNumber(headers: Headers, h: Header, n: nat)
    requires WellKeyed(headers)
    ensures AncestorAt(headers, h, n).Some? ==> AncestorAt(headers, h, n).value.number == n
    ensures AncestorAt(headers, h, n).Some? && n != h.number ==> Stored(headers, AncestorAt(headers, h, n).value)
    decreases h.number
  {
    if n < h.number && ParentOf(headers, h).Some? {
      AncestorNumber(headers, ParentOf(headers, h).value, n);
    }
  }

  /** In a tree every stored header has a stored ancestor at every number up to its own. */
  lemma {:induction false} AncestorExists(headers: Headers, genesis: Header, h: Header, n: nat)
    requires Rooted(headers, genesis) && Stored(headers, h) && n <= h.number
    ensures AncestorAt(headers, h, n).Some?
    ensures Stored(headers, AncestorAt(headers, h, n).value)
    ensures AncestorAt(headers, h, n).value.number == n
    decreases h.number
  {
    assert headers[KeyOf(h)] == h;
    if n < h.number {
      assert HasParent(headers, KeyOf(h));
      AncestorExists(headers, genesis, ParentOf(headers, h).value, n);
    }
  }

  /** Walking to `m` and then to `n` is walking to `n`. */
  lemma {:induction false} AncestorTransitive(headers: Headers, h: Header, m: nat, n: nat)
    requires WellKeyed(headers) && n <= m
    requires AncestorAt(headers, h, m).Some?
    ensures AncestorAt(headers, h, n) == AncestorAt(headers, AncestorAt(headers, h, m).value, n)
    decreases h.number
  {
    if m < h.number {
      AncestorTransitive(headers, ParentOf(headers, h).value, m, n);
    }
  }

  /** Filing more headers does not change an existing walk. */
  lemma {:induction false} AncestorFrame(headers: Headers, more: Headers, h: Header, n: nat)
    requires WellKeyed(headers) && WellKeyed(more)
    requires forall k :: k in headers ==> k in more && more[k] == headers[k]
    requires AncestorAt(headers, h, n).Some?
    ensures AncestorAt(more, h, n) == AncestorAt(headers, h, n)
    decreases h.number
  {
    if n < h.number {
      AncestorFrame(headers, more, ParentOf(headers, h).value, n);
    }
  }

  lemma {:induction false} PathDifficultyFrame(headers: Headers, more: Headers, genesis: Header, h: Header)
    requires Rooted(headers, genesis) && Rooted(more, genesis) && Stored(headers, h)
    requires forall k :: k in headers ==> k in more && more[k] == headers[k]
    ensures PathDifficulty(more, h) == PathDifficulty(headers, h)
    decreases h.number
  {
    assert headers[KeyOf(h)] == h;
    if h.number > 0 {
      assert HasParent(headers, KeyOf(h));
      PathDifficultyFrame(headers, more, genesis, ParentOf(headers, h).value);
    }
  }

  /** Filing a header whose parent is stored keeps the tree a tree and its walks as they were. */
  lemma FileHeader(headers: Headers, genesis: Header, h: Header) returns (more: Headers)
    requires Rooted(headers, genesis) && Fresh(headers, h) && ParentOf(headers, h).Some?
    ensures more == headers[KeyOf(h) := h]
    ensures Rooted(more, genesis) && Stored(more, h)
    ensures forall k :: k in headers ==> k in more && more[k] == headers[k]
    ensures ParentOf(more, h) == ParentOf(headers, h)
  {
    more := headers[KeyOf(h) := h];
    assert h.number > 0;
    forall k | k in more && k.number > 0
      ensures HasParent(more, k)
    {
      assert k in headers ==> HasParent(headers, k);
    }
  }

  // ----- common ancestors

  ghost predicate CommonAt(headers: Headers, a: Header, b: Header, n: nat)
    requires WellKeyed(headers)
  {
    && AncestorAt(headers, a, n).Some?
    && AncestorAt(headers, b, n).Some?
    && AncestorAt(headers, a, n).value.hash == AncestorAt(headers, b, n).value.hash
  }

  /** `c` is the ancestor `a` and `b` share that has the highest number. */
  ghost predicate DeepestCommon(headers: Headers, a: Header, b: Header, c: Header)
    requires WellKeyed(headers)
  {
    && AncestorAt(headers, a, c.number) == Some(c)
    && CommonAt(headers, a, b, c.number)
    && forall n: nat :: n > c.number ==> !CommonAt(headers, a, b, n)
  }

  lemma DeepestCommonUnique(headers: Headers, a: Header, b: Header, c: Header, d: Header)
    requires WellKeyed(headers)
    requires DeepestCommon(headers, a, b, c) && DeepestCommon(headers, a, b, d)
    ensures c == d
  {
    assert CommonAt(headers, a, b, c.number) && CommonAt(headers, a, b, d.number);
    assert c.number == d.number;
  }

  /** Below a common ancestor two stored headers have the same ancestors. */
  lemma SharedBelow(headers: Headers, genesis: Header, a: Header, b: Header, m: nat, n: nat)
    requires Rooted(headers, genesis) && Stored(headers, a) && Stored(headers, b)
    requires CommonAt(headers, a, b, m) && n <= m
    ensures AncestorAt(headers, a, n) == AncestorAt(headers, b, n)
  {
    AncestorNumber(headers, a, m);
    AncestorNumber(headers, b, m);
    assert AncestorAt(headers, a, m) == AncestorAt(headers, b, m);
    AncestorTransitive(headers, a, m, n);
    AncestorTransitive(headers, b, m, n);
  }

  /**
   * Walks the higher header down to the lower one's number, then both in step, until their
   * hashes meet. It gives up exactly when the two walks have no hash in common.
   */
  method FindCommonAncestor(headers: Headers, a0: Header, b0: Header) returns (r: Option<Header>)
    requires WellKeyed(headers)
    ensures r.Some? ==> DeepestCommon(headers, a0, b0, r.value)
    ensures r.None? ==> forall n: nat :: !CommonAt(headers, a0, b0, n)
  {
    var a, b := a0, b0;
    while a.number > b.number
      invariant a.number <= a0.number
      invariant a == a0 || a.number >= b.number
      invariant forall n: nat :: n <= a.number ==> AncestorAt(headers, a0, n) == AncestorAt(headers, a, n)
      decreases a.number
    {
      var p := ParentOf(headers, a);
      if p.None? { return None; }
      a := p.value;
    }
    while a.number < b.number
      invariant b.number <= b0.number
      invariant b == b0 || b.number >= a.number
      invariant forall n: nat :: n <= b.number ==> AncestorAt(headers, b0, n) == AncestorAt(headers, b, n)
      invariant forall n: nat :: n <= a.number ==> AncestorAt(headers, a0, n) == AncestorAt(headers, a, n)
      decreases b.number
    {
      var p := ParentOf(headers, b);
      if p.None? { return None; }
      b := p.value;
    }
    assert forall n: nat :: n > a.number ==> !CommonAt(headers, a0, b0, n);
    while a.hash != b.hash
      invariant a.number == b.number
      invariant forall n: nat :: n <= a.number ==> AncestorAt(headers, a0, n) == AncestorAt(headers, a, n)
      invariant forall n: nat :: n <= b.number ==> AncestorAt(headers, b0, n) == AncestorAt(headers, b, n)
      invariant forall n: nat :: n > a.number ==> !CommonAt(headers, a0, b0, n)
      decreases a.number
    {
      var p, q := ParentOf(headers, a), ParentOf(headers, b);
      assert !CommonAt(headers, a0, b0, a.number);
      if p.None? || q.None? { return None; }
      a, b := p.value, q.value;
    }
    r := Some(a);
  }
}
