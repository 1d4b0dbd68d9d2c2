/** Transactions keyed by nonce, seen as a plain map, and that map in nonce order. */
module Nonces {

  type Address = nat
  type TxId = nat

  /** `cost` is gas price times gas limit plus value. */
  datatype Tx = Tx(hash: TxId, from: Address, nonce: nat, gasPrice: nat, cost: int)

  type TxMap = map<nat, Tx>

  ghost predicate WellNonced(m: TxMap) {
    forall n :: n in m ==> m[n].nonce == n
  }

  // ----- sorted nonces

  predicate IsMin(s: set<nat>, m: nat) {
    m in s && forall x :: x in s ==> m <= x
  }

  lemma {:induction false} MinExists(s: set<nat>)
    requires s != {}
    ensures exists m :: IsMin(s, m)
    decreases |s|
  {
    var a :| a in s;
    if s == {a} {
      assert IsMin(s, a);
    } else {
      var t := s - {a};
      assert s == t + {a};
      MinExists(t);
      var m :| IsMin(t, m);
      assert IsMin(s, if a <= m then a else m);
    }
  }

  function MinOf(s: set<nat>): (m: nat)
    requires s != {}
    ensures m in s && forall x :: x in s ==> m <= x
  {
    MinExists(s);
    var m :| IsMin(s, m);
    m
  }

  function SortedKeys(s: set<nat>): seq<nat> {
    if s == {} then [] else [MinOf(s)] + SortedKeys(s - {MinOf(s)})
  }

  ghost predicate Increasing(ks: seq<nat>) {
    forall i, j :: 0 <= i < j < |ks| ==> ks[i] < ks[j]
  }

  lemma {:induction false} SortedKeysMeans(s: set<nat>)
    ensures |SortedKeys(s)| == |s| && Increasing(SortedKeys(s))
    ensures forall k :: k in SortedKeys(s) <==> k in s
  {
    if s != {} {
      var m := MinOf(s);
      SortedKeysMeans(s - {m});
      LowestFirst(s, m, SortedKeys(s - {m}));
    }
  }

  lemma LowestFirst(s: set<nat>, m: nat, rest: seq<nat>)
    requires m in s && (forall x :: x in s ==> m <= x)
    requires Increasing(rest) && forall k :: k in rest <==> k in s - {m}
    ensures Increasing([m] + rest) && forall k :: k in [m] + rest <==> k in s
  {
    assert forall j :: 0 <= j < |rest| ==> rest[j] in rest;
  }

  /** There is one increasing sequence of the members of a set. */
  lemma {:induction false} SortedKeysUnique(s: set<nat>, ks: seq<nat>)
    requires Increasing(ks) && forall k :: k in ks <==> k in s
    ensures ks == SortedKeys(s)
    decreases |ks|
  {
    hide Increasing;
    if ks == [] {
      assert s == {};
    } else {
      IncreasingTail(s, ks);
      SortedKeysUnique(s - {ks[0]}, ks[1..]);
    }
  }

  lemma IncreasingTail(s: set<nat>, ks: seq<nat>)
    requires Increasing(ks) && ks != [] && forall k :: k in ks <==> k in s
    ensures s != {} && ks[0] == MinOf(s)
    ensures Increasing(ks[1..]) && forall k :: k in ks[1..] <==> k in s - {ks[0]}
  {
    assert ks[0] in s;
    var i :| 0 <= i < |ks| && ks[i] == MinOf(s);
    forall k ensures k in ks[1..] <==> k in s - {ks[0]} {
      if k in ks[1..] { var j :| 0 <= j < |ks| - 1 && ks[1..][j] == k; assert ks[j + 1] == k; }
      if k in s - {ks[0]} { var j :| 0 <= j < |ks| && ks[j] == k; assert ks[1..][j - 1] == k; }
    }
  }

  /** All keys of `a` below all keys of `b`: the sorted union is the concatenation. */
  lemma SortedKeysSplit(a: set<nat>, b: set<nat>)
    requires forall x, y :: x in a && y in b ==> x < y
    ensures SortedKeys(a + b) == SortedKeys(a) + SortedKeys(b)
  {
    hide SortedKeys;
    SortedKeysMeans(a);
    SortedKeysMeans(b);
    var ks := SortedKeys(a) + SortedKeys(b);
    forall i, j | 0 <= i < j < |ks| ensures ks[i] < ks[j] {
      if i < |a| <= j {
        assert SortedKeys(a)[i] in SortedKeys(a);
        assert SortedKeys(b)[j - |a|] in SortedKeys(b);
      }
    }
    SortedKeysUnique(a + b, ks);
  }

  // ----- sorted contents

  function Values(m: TxMap, ks: seq<nat>): seq<Tx>
    requires forall k :: k in ks ==> k in m
  {
    if ks == [] then [] else [m[ks[0]]] + Values(m, ks[1..])
  }

  function Sorted(m: TxMap): (txs: seq<Tx>)
    ensures |txs| == |m|
  {
    SortedKeysMeans(m.Keys);
    ValuesLength(m, SortedKeys(m.Keys));
    Values(m, SortedKeys(m.Keys))
  }

  lemma {:induction false} ValuesLength(m: TxMap, ks: seq<nat>)
    requires forall k :: k in ks ==> k in m
    ensures |Values(m, ks)| == |ks|
    ensures forall i :: 0 <= i < |ks| ==> Values(m, ks)[i] == m[ks[i]]
  {
    if ks != [] { ValuesLength(m, ks[1..]); }
  }

  lemma {:induction false} ValuesConcat(m: TxMap, a: seq<nat>, b: seq<nat>)
    requires forall k :: k in a + b ==> k in m
    ensures (forall k :: k in a ==> k in m) && (forall k :: k in b ==> k in m)
    ensures Values(m, a + b) == Values(m, a) + Values(m, b)
  {
    assert forall k :: k in a ==> k in a + b;
    assert forall k :: k in b ==> k in a + b;
    ValuesLength(m, a + b);
    ValuesLength(m, a);
    ValuesLength(m, b);
  }

  lemma {:induction false} ValuesFrame(m: TxMap, o: TxMap, ks: seq<nat>)
    requires forall k :: k in ks ==> k in m && k in o && m[k] == o[k]
    ensures Values(m, ks) == Values(o, ks)
  {
    if ks != [] { ValuesFrame(m, o, ks[1..]); }
  }

  /** What `Sorted` lists: each entry once, in nonce order. */
  lemma SortedMeans(m: TxMap)
    requires WellNonced(m)
    ensures forall i, j :: 0 <= i < j < |Sorted(m)| ==> Sorted(m)[i].nonce < Sorted(m)[j].nonce
    ensures forall tx :: tx in Sorted(m) <==> tx.nonce in m && m[tx.nonce] == tx
  {
    var ks := SortedKeys(m.Keys);
    SortedKeysMeans(m.Keys);
    ValuesLength(m, ks);
    forall i | 0 <= i < |ks| ensures Sorted(m)[i].nonce == ks[i] {
      assert ks[i] in ks;
    }
    forall tx ensures tx in Sorted(m) <==> tx.nonce in m && m[tx.nonce] == tx {
      if tx in Sorted(m) {
        var i :| 0 <= i < |ks| && Sorted(m)[i] == tx;
        assert ks[i] in ks;
      }
      if tx.nonce in m && m[tx.nonce] == tx {
        var i :| 0 <= i < |ks| && ks[i] == tx.nonce;
        assert Sorted(m)[i] == tx;
      }
    }
  }

  /** Entries below and from `t` on. */
  function Below(m: TxMap, t: nat): TxMap {
    map n | n in m && n < t :: m[n]
  }

  function From(m: TxMap, t: nat): TxMap {
    map n | n in m && n >= t :: m[n]
  }

  lemma SortedSplit(m: TxMap, t: nat)
    ensures Sorted(m) == Sorted(Below(m, t)) + Sorted(From(m, t))
  {
    var a, b := Below(m, t), From(m, t);
    assert m.Keys == a.Keys + b.Keys;
    SortedKeysSplit(a.Keys, b.Keys);
    SortedKeysMeans(m.Keys);
    SortedKeysMeans(a.Keys);
    SortedKeysMeans(b.Keys);
    ValuesConcat(m, SortedKeys(a.Keys), SortedKeys(b.Keys));
    ValuesFrame(m, a, SortedKeys(a.Keys));
    ValuesFrame(m, b, SortedKeys(b.Keys));
  }

  /** Taking out the lowest entry takes off the head of the sorted list. */
  lemma SortedHead(m: TxMap)
    requires m != map[]
    ensures m.Keys != {} && MinOf(m.Keys) in m
    ensures Sorted(m) == [m[MinOf(m.Keys)]] + Sorted(m - {MinOf(m.Keys)})
  {
    var k :| k in m;
    var lo := MinOf(m.Keys);
    var rest := m - {lo};
    assert rest.Keys == m.Keys - {lo};
    SortedKeysMeans(m.Keys);
    SortedKeysMeans(rest.Keys);
    ValuesFrame(m, rest, SortedKeys(rest.Keys));
  }

  /** The `t` entries with the lowest nonces. */
  function Lowest(m: TxMap, t: nat): TxMap {
    SortedKeysMeans(m.Keys);
    if t >= |m| then m else Below(m, SortedKeys(m.Keys)[t])
  }

  lemma CutIndex(a: seq<nat>, b: seq<nat>, ks: seq<nat>, t: nat)
    requires ks == a + b && Increasing(ks) && t < |ks|
    requires forall x :: x in a ==> x < ks[t]
    requires forall x :: x in b ==> x >= ks[t]
    ensures t == |a| && ks[..t] == a
  {
    forall i | 0 <= i < |a| ensures ks[i] < ks[t] {
      assert ks[i] == a[i] && a[i] in a;
    }
    assert b != [] ==> b[0] in b && b[0] == ks[|a|];
  }

  lemma BelowKeys(m: TxMap, t: nat)
    requires t < |m|
    ensures |SortedKeys(m.Keys)| == |m|
    ensures var b := Below(m, SortedKeys(m.Keys)[t]);
            |b| == t && SortedKeys(b.Keys) == SortedKeys(m.Keys)[..t]
  {
    SortedKeysMeans(m.Keys);
    var ks := SortedKeys(m.Keys);
    var b, f := Below(m, ks[t]), From(m, ks[t]);
    assert m.Keys == b.Keys + f.Keys;
    SortedKeysSplit(b.Keys, f.Keys);
    SortedKeysMeans(b.Keys);
    SortedKeysMeans(f.Keys);
    CutIndex(SortedKeys(b.Keys), SortedKeys(f.Keys), ks, t);
  }

  lemma LowestSorted(m: TxMap, t: nat)
    requires t <= |m|
    ensures |Lowest(m, t)| == t && Sorted(Lowest(m, t)) == Sorted(m)[..t]
  {
    if t < |m| {
      BelowKeys(m, t);
      SortedSplit(m, SortedKeys(m.Keys)[t]);
    }
  }

  /** Capping one lower drops the highest entry. */
  lemma LowestStep(m: TxMap, t: nat)
    requires 0 < t <= |m|
    ensures |SortedKeys(m.Keys)| == |m| && SortedKeys(m.Keys)[t - 1] in m
    ensures Lowest(m, t - 1) == Lowest(m, t) - {SortedKeys(m.Keys)[t - 1]}
    ensures SortedKeys(m.Keys)[t - 1] in Lowest(m, t)
            && Lowest(m, t)[SortedKeys(m.Keys)[t - 1]] == m[SortedKeys(m.Keys)[t - 1]]
  {
    var ks := SortedKeys(m.Keys);
    SortedKeysMeans(m.Keys);
    hide SortedKeys, Increasing;
    assert ks[t - 1] in ks;
    forall n | n in m ensures n in Lowest(m, t) <==> n <= ks[t - 1] {
      Between(ks, t, n);
    }
    assert Lowest(m, t - 1) == Below(m, ks[t - 1]);
  }

  lemma SortedAt(m: TxMap, i: nat)
    requires i < |m|
    ensures |SortedKeys(m.Keys)| == |m| && SortedKeys(m.Keys)[i] in m
    ensures Sorted(m)[i] == m[SortedKeys(m.Keys)[i]]
  {
    SortedKeysMeans(m.Keys);
    ValuesLength(m, SortedKeys(m.Keys));
    assert SortedKeys(m.Keys)[i] in SortedKeys(m.Keys);
  }

  /** Nothing lies between two neighbours of an increasing sequence. */
  lemma Between(ks: seq<nat>, t: nat, n: nat)
    requires Increasing(ks) && 0 < t <= |ks| && n in ks
    ensures if t < |ks| then (n < ks[t] <==> n <= ks[t - 1]) else n <= ks[t - 1]
  {
    var i :| 0 <= i < |ks| && ks[i] == n;
  }

  /** Capping twice is capping at the lower limit. */
  lemma LowestLowest(m: TxMap, t: nat, u: nat)
    requires u <= t
    ensures Lowest(Lowest(m, t), u) == Lowest(m, u)
  {
    hide SortedKeys;
    if t < |m| {
      BelowKeys(m, t);
      if u < t {
        var ks, lo := SortedKeys(m.Keys), Lowest(m, t);
        assert SortedKeys(lo.Keys)[u] == ks[u];
        assert ks[u] < ks[t] by { SortedKeysMeans(m.Keys); }
        assert Below(lo, ks[u]) == Below(m, ks[u]);
      }
    }
  }

  /** The run of consecutive nonces from `next` on. */
  function Run(m: TxMap, next: nat): seq<Tx>
    decreases |m|
  {
    if next in m then
      assert (m - {next}).Keys == m.Keys - {next};
      [m[next]] + Run(m - {next}, next + 1)
    else []
  }

  /** The map without that run. */
  function AfterRun(m: TxMap, next: nat): TxMap
    decreases |m|
  {
    if next in m then
      assert (m - {next}).Keys == m.Keys - {next};
      AfterRun(m - {next}, next + 1)
    else m
  }

  /** The run is consecutive from `next`, and as long as it can be. */
  lemma {:induction false} RunMeans(m: TxMap, next: nat)
    requires WellNonced(m)
    ensures forall n :: next <= n < next + |Run(m, next)| ==> n in m && m[n] == Run(m, next)[n - next]
    ensures forall i :: 0 <= i < |Run(m, next)| ==> Run(m, next)[i].nonce == next + i
    ensures next + |Run(m, next)| !in m
    ensures AfterRun(m, next) == map n | n in m && !(next <= n < next + |Run(m, next)|) :: m[n]
    decreases |m|
  {
    if next in m {
      var rest := m - {next};
      assert rest.Keys == m.Keys - {next};
      RunMeans(rest, next + 1);
      var r, q := Run(m, next), Run(rest, next + 1);
      assert r == [m[next]] + q;
      forall n | next <= n < next + |r| ensures n in m && m[n] == r[n - next] {
        assert n > next ==> n in rest && rest[n] == q[n - (next + 1)];
      }
      forall i | 0 <= i < |r| ensures r[i].nonce == next + i {
        assert i > 0 ==> r[i] == q[i - 1];
      }
    }
  }
}
