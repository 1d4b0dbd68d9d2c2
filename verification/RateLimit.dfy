/**
 * The pending rate limiter. When the pool holds too many pending transactions, the accounts
 * with the longest lists are cut back together, one transaction each per round, until the
 * total fits or everyone is down to the guaranteed minimum.
 */
module RateLimit {
  import opened Collections
  import opened Nonces
  import opened TxLists
  import opened Sums

  type Accounts = map<Address, ListVal>

  function Len(v: ListVal): nat {
    |v.items|
  }

  ghost function Lens(p: Accounts): map<Address, nat> {
    map a | a in p :: Len(p[a])
  }

  /** How many transactions are pending. */
  ghost function Total(p: Accounts): nat {
    Sum(Lens(p))
  }

  function Capped(v: ListVal, level: nat): ListVal {
    v.(items := Lowest(v.items, level))
  }

  /** Every account in `spam` cut to its `level` lowest nonces, the others untouched. */
  ghost function AtLevel(p: Accounts, spam: set<Address>, level: nat): Accounts {
    map a | a in p :: if a in spam then Capped(p[a], level) else p[a]
  }

  lemma CappedLen(v: ListVal, level: nat)
    ensures Len(Capped(v, level)) == if Len(v) <= level then Len(v) else level
    ensures Len(v) <= level ==> Capped(v, level) == v
  {
    if level < |v.items| { LowestSorted(v.items, level); }
  }

  lemma CappedAgain(v: ListVal, level: nat, lower: nat)
    requires lower <= level
    ensures Capped(Capped(v, level), lower) == Capped(v, lower)
  {
    LowestLowest(v.items, level, lower);
  }

  /** Counts the pending transactions. */
  method CountPending(p: Accounts) returns (total: nat)
    ensures total == Total(p)
  {
    total := 0;
    var left := p.Keys;
    ghost var done: map<Address, nat> := map[];
    while left != {}
      invariant left <= p.Keys && done == map a | a in p && a !in left :: Len(p[a])
      invariant total == Sum(done)
      decreases |left|
    {
      var a :| a in left;
      SumInsert(done, a, Len(p[a]));
      left, done, total := left - {a}, done[a := Len(p[a])], total + Len(p[a]);
    }
    assert done == Lens(p);
  }

  /** Part of a round: the accounts in `done` are one level lower than the rest of `spam`. */
  ghost function MidRound(p: Accounts, spam: set<Address>, done: set<Address>, level: nat): Accounts
    requires level > 0
  {
    map a | a in p :: if a in done then Capped(p[a], level - 1) else if a in spam then Capped(p[a], level) else p[a]
  }

  /** Taking one transaction off the list of `a`. */
  lemma RoundStep(orig: Accounts, spam: set<Address>, done: set<Address>, level: nat, a: Address)
    requires level > 0 && done <= spam <= orig.Keys && a in spam && a !in done && Len(orig[a]) >= level
    ensures var p := MidRound(orig, spam, done, level);
            && Len(p[a]) == level
            && MidRound(orig, spam, done + {a}, level) == p[a := Capped(p[a], level - 1)]
            && Total(MidRound(orig, spam, done + {a}, level)) == Total(p) - 1
  {
    hide Capped, Len;
    var p := MidRound(orig, spam, done, level);
    CappedLen(orig[a], level);
    CappedAgain(orig[a], level, level - 1);
    CappedLen(orig[a], level - 1);
    var q := p[a := Capped(p[a], level - 1)];
    SumUpdate(Lens(p), a, level - 1);
    assert Lens(q) == Lens(p)[a := level - 1];
  }

  /** One round over the offenders: each loses its highest nonce. */
  method Round(orig: Accounts, ghost spam: set<Address>, p0: Accounts, offenders: seq<Address>, total0: nat,
               ghost level: nat)
    returns (p: Accounts, total: nat)
    requires level > 0 && spam <= orig.Keys && p0 == AtLevel(orig, spam, level) && total0 == Total(p0)
    requires forall i, j :: 0 <= i < j < |offenders| ==> offenders[i] != offenders[j]
    requires forall a :: a in offenders ==> a in spam && Len(orig[a]) >= level
    requires forall a :: a in spam && a !in offenders ==> Len(orig[a]) < level
    ensures p == AtLevel(orig, spam, level - 1) && total == Total(p)
  {
    hide Total, Capped;
    p, total := p0, total0;
    assert p == MidRound(orig, spam, {}, level);
    ghost var done: set<Address> := {};
    for i := 0 to |offenders|
      invariant done == set a | a in offenders[..i]
      invariant done <= spam && p == MidRound(orig, spam, done, level) && total == Total(p)
    {
      var a := offenders[i];
      assert a !in offenders[..i];
      assert offenders[..i + 1] == offenders[..i] + [a];
      RoundStep(orig, spam, done, level, a);
      TotalPositive(p, a);
      p, total := p[a := Capped(p[a], Len(p[a]) - 1)], total - 1;
      done := done + {a};
    }
    assert offenders[..|offenders|] == offenders;
    forall a | a in orig && a in spam && a !in done ensures Capped(orig[a], level) == Capped(orig[a], level - 1) {
      CappedLen(orig[a], level);
      CappedLen(orig[a], level - 1);
    }
  }

  lemma TotalPositive(p: Accounts, a: Address)
    requires a in p && Len(p[a]) > 0
    ensures Total(p) > 0
  {
    SumAtLeast(Lens(p), a);
  }

  // ----- cutting back

  ghost predicate Longest(p: Accounts, left: set<Address>, a: Address)
    requires left <= p.Keys
  {
    a in left && forall b :: b in left ==> Len(p[b]) <= Len(p[a])
  }

  /** Pops an account with a longest list. */
  method PopLongest(p: Accounts, left: set<Address>) returns (a: Address)
    requires left <= p.Keys && left != {}
    ensures Longest(p, left, a)
  {
    a :| a in left;
    var seen := {a};
    while seen < left
      invariant seen <= left && Longest(p, seen, a)
      decreases |left| - |seen|
    {
      assert left - seen != {};
      var b :| b in left - seen;
      if Len(p[a]) < Len(p[b]) { a := b; }
      assert |seen + {b}| == |seen| + 1 && seen + {b} <= left;
      SubsetSize(seen + {b}, left);
      seen := seen + {b};
    }
  }

  /** The pending lists are `orig` with `spam` cut to `level`, and any cut was still needed one level higher. */
  ghost predicate CutTo(orig: Accounts, spam: set<Address>, p: Accounts, total: nat, level: nat, max: nat) {
    && spam <= orig.Keys
    && p == AtLevel(orig, spam, level) && total == Total(p)
    && (p != orig ==> Total(AtLevel(orig, spam, level + 1)) > max)
  }

  lemma Untouched(orig: Accounts, spam: set<Address>, level: nat)
    requires spam <= orig.Keys && forall a :: a in spam ==> Len(orig[a]) <= level
    ensures AtLevel(orig, spam, level) == orig
  {
    forall a | a in spam ensures Capped(orig[a], level) == orig[a] {
      CappedLen(orig[a], level);
    }
  }

  lemma LevelLen(orig: Accounts, spam: set<Address>, level: nat, a: Address)
    requires a in spam && spam <= orig.Keys
    ensures Len(AtLevel(orig, spam, level)[a]) == if Len(orig[a]) <= level then Len(orig[a]) else level
  {
    CappedLen(orig[a], level);
  }

  /** Rounds until the total fits or the offenders are down to `floor`. */
  method CutBack(orig: Accounts, ghost spam: set<Address>, p0: Accounts, total0: nat, offenders: seq<Address>,
                 floor: nat, max: nat, ghost level0: nat)
    returns (p: Accounts, total: nat, ghost level: nat)
    requires CutTo(orig, spam, p0, total0, level0, max) && floor <= level0
    requires offenders != [] && forall i, j :: 0 <= i < j < |offenders| ==> offenders[i] != offenders[j]
    requires forall a :: a in offenders ==> a in spam && Len(orig[a]) >= level0
    requires forall a :: a in spam && a !in offenders ==> Len(orig[a]) <= floor
    ensures CutTo(orig, spam, p, total, level, max) && floor <= level <= level0
    ensures total <= max || level == floor
  {
    hide Total, AtLevel, Capped;
    p, total, level := p0, total0, level0;
    var last := offenders[|offenders| - 1];
    LevelLen(orig, spam, level, last);
    AtLevelKeys(orig, spam, level);
    while total > max && Len(p[last]) > floor
      invariant CutTo(orig, spam, p, total, level, max) && floor <= level <= level0
      invariant last in p && Len(p[last]) == level
      decreases level
    {
      p, total := Round(orig, spam, p, offenders, total, level);
      level := level - 1;
      LevelLen(orig, spam, level, last);
      AtLevelKeys(orig, spam, level);
    }
  }

  lemma AtLevelKeys(orig: Accounts, spam: set<Address>, level: nat)
    ensures AtLevel(orig, spam, level).Keys == orig.Keys
  {
  }

  /** What holds between two pops: everyone popped is at the level, everyone else at or below it. */
  ghost predicate Popped(orig: Accounts, spam: set<Address>, left: set<Address>, offenders: seq<Address>, level: nat,
                         needed: bool)
    requires spam <= orig.Keys
  {
    && left <= spam
    && (forall i, j :: 0 <= i < j < |offenders| ==> offenders[i] != offenders[j])
    && (forall a :: a in offenders <==> a in spam && a !in left)
    && (forall a :: a in left ==> Len(orig[a]) <= level)
    && (needed ==> forall a :: a in offenders ==> Len(orig[a]) >= level)
  }

  /**
   * Water-filling: every account in `spam` is cut to `level`, which is at least the guaranteed
   * minimum, and no account further. It fits or it is the minimum, and if anything was cut then
   * no higher level would have fitted.
   */
  ghost predicate Filled(orig: Accounts, spam: set<Address>, max: nat, min: nat, p: Accounts, level: nat) {
    && p == AtLevel(orig, spam, level) && level >= min
    && (Total(p) <= max || level == min)
    && (p != orig ==> forall higher: nat :: higher > level ==> Total(AtLevel(orig, spam, higher)) > max)
  }

  /** Water-filling leaves no choice. */
  lemma FilledUnique(orig: Accounts, spam: set<Address>, max: nat, min: nat, p: Accounts, q: Accounts, i: nat, j: nat)
    requires spam <= orig.Keys && forall a :: a in spam ==> Len(orig[a]) > min
    requires Filled(orig, spam, max, min, p, i) && Filled(orig, spam, max, min, q, j)
    ensures p == q
  {
    hide Total, AtLevel;
    if p == orig && q != orig { CutWasNeeded(orig, spam, max, min, i, q, j); }
    if q == orig && p != orig { CutWasNeeded(orig, spam, max, min, j, p, i); }
  }

  /** If some level has to be cut to, leaving everything as it is does not fill. */
  lemma CutWasNeeded(orig: Accounts, spam: set<Address>, max: nat, min: nat, i: nat, q: Accounts, j: nat)
    requires spam <= orig.Keys && forall a :: a in spam ==> Len(orig[a]) > min
    requires Filled(orig, spam, max, min, q, j) && q != orig
    ensures !Filled(orig, spam, max, min, orig, i)
  {
    hide Total;
    var high := if Total(orig) > j then Total(orig) else j + 1;
    ShortLists(orig);
    Untouched(orig, spam, high);
    assert Total(orig) > max;
    if i == min && orig == AtLevel(orig, spam, min) {
      forall a | a in spam ensures false {
        CappedLen(orig[a], min);
      }
      Untouched(orig, spam, j);
    }
  }

  /** The limiter. */
  method Equalize(orig: Accounts, spam: set<Address>, max: nat, min: nat) returns (p: Accounts, ghost level: nat)
    requires spam <= orig.Keys && forall a :: a in spam ==> Len(orig[a]) > min
    ensures Filled(orig, spam, max, min, p, level)
    ensures exists l: nat :: Filled(orig, spam, max, min, p, l)
  {
    hide Total, AtLevel, Capped;
    p := orig;
    var total: nat := CountPending(orig);
    level := if total >= min then total else min;
    ShortLists(orig);
    Untouched(orig, spam, level);
    var offenders: seq<Address>, left := [], spam;
    while total > max && left != {}
      invariant CutTo(orig, spam, p, total, level, max) && level >= min
      invariant Popped(orig, spam, left, offenders, level, total > max)
      decreases left
    {
      p, total, offenders, left, level := PopAndLevel(orig, spam, p, total, offenders, left, max, min, level);
    }
    if total > max {
      if |offenders| > 0 {
        p, total, level := CutBack(orig, spam, p, total, offenders, min, max, level);
      } else {
        assert spam == {};
        Untouched(orig, spam, level);
        level := min;
        Untouched(orig, spam, min);
      }
    }
    forall higher: nat | higher > level && p != orig ensures Total(AtLevel(orig, spam, higher)) > max {
      TotalMonotone(orig, spam, level + 1, higher);
    }
  }

  /** A higher level keeps at least as many transactions. */
  lemma TotalMonotone(orig: Accounts, spam: set<Address>, lower: nat, higher: nat)
    requires spam <= orig.Keys && lower <= higher
    ensures Total(AtLevel(orig, spam, lower)) <= Total(AtLevel(orig, spam, higher))
  {
    var p, q := AtLevel(orig, spam, lower), AtLevel(orig, spam, higher);
    forall a | a in orig ensures Len(p[a]) <= Len(q[a]) {
      CappedLen(orig[a], lower);
      CappedLen(orig[a], higher);
    }
    SumMonotone(Lens(p), Lens(q));
  }

  /** One pass of the outer loop: pop the next offender and bring the earlier ones down to its length. */
  method PopAndLevel(orig: Accounts, ghost spam: set<Address>, p0: Accounts, total0: nat, offenders0: seq<Address>,
                     left0: set<Address>, max: nat, min: nat, ghost level0: nat)
    returns (p: Accounts, total: nat, offenders: seq<Address>, left: set<Address>, ghost level: nat)
    requires CutTo(orig, spam, p0, total0, level0, max) && total0 > max && left0 != {}
    requires forall a :: a in spam ==> Len(orig[a]) > min
    requires level0 >= min && Popped(orig, spam, left0, offenders0, level0, true)
    ensures CutTo(orig, spam, p, total, level, max) && level >= min
    ensures left < left0 && Popped(orig, spam, left, offenders, level, total > max)
  {
    hide Total, AtLevel, Capped;
    AtLevelKeys(orig, spam, level0);
    LeftAsBefore(orig, spam, left0, level0);
    var a := PopLongest(p0, left0);
    p, total, level := p0, total0, level0;
    offenders, left := offenders0 + [a], left0 - {a};
    if |offenders0| > 0 {
      p, total, level := CutBack(orig, spam, p0, total0, offenders0, Len(p0[a]), max, level0);
    } else {
      level := Len(orig[a]);
      assert spam == left0;
      Untouched(orig, spam, level0);
      Untouched(orig, spam, level);
    }
  }

  /** Accounts not popped yet still have their original lists. */
  lemma LeftAsBefore(orig: Accounts, spam: set<Address>, left: set<Address>, level: nat)
    requires spam <= orig.Keys && left <= spam && forall a :: a in left ==> Len(orig[a]) <= level
    ensures forall a :: a in left ==> a in AtLevel(orig, spam, level) && AtLevel(orig, spam, level)[a] == orig[a]
  {
    forall a | a in left ensures AtLevel(orig, spam, level)[a] == orig[a] {
      CappedLen(orig[a], level);
    }
  }

  lemma ShortLists(orig: Accounts)
    ensures forall a :: a in orig ==> Len(orig[a]) <= Total(orig)
  {
    forall a | a in orig ensures Len(orig[a]) <= Total(orig) {
      SumAtLeast(Lens(orig), a);
    }
  }
}
