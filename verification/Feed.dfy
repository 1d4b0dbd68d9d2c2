/**
 * A one-to-many event feed. Send partitions one array in place: the removal case, the subscribers
 * still to be served, and those already served, which are swapped behind the active part. While it
 * waits, subscribers may join, leave, or become ready in any order. A channel may be subscribed
 * more than once, so everything is counted per channel.
 */
module Feeds {
  import opened Collections
  import opened Wrappers

  type Chan = nat
  type Value = int

  /** The first case receives removal requests; every other one sends to a subscriber. */
  datatype Case = Recv | Sub(ch: Chan, send: Option<Value>)

  datatype Delivery = Delivery(ch: Chan, value: Value)

  // ----- how often a channel is listed

  predicate Is(c: Case, ch: Chan) {
    c.Sub? && c.ch == ch
  }

  ghost function One(c: Case, ch: Chan): nat {
    if Is(c, ch) then 1 else 0
  }

  ghost function Count(s: seq<Case>, ch: Chan): nat {
    if s == [] then 0 else One(s[0], ch) + Count(s[1..], ch)
  }

  lemma {:induction false} CountConcat(a: seq<Case>, b: seq<Case>, ch: Chan)
    ensures Count(a + b, ch) == Count(a, ch) + Count(b, ch)
  {
    if a == [] {
      assert a + b == b;
    } else {
      CountConcat(a[1..], b, ch);
      assert (a + b)[1..] == a[1..] + b;
    }
  }

  lemma CountAround(s: seq<Case>, i: nat, lo: nat, hi: nat, ch: Chan)
    requires lo <= i < hi <= |s|
    ensures Count(s[lo..hi], ch) == Count(s[lo..i], ch) + One(s[i], ch) + Count(s[i + 1..hi], ch)
  {
    assert s[lo..hi] == s[lo..i] + ([s[i]] + s[i + 1..hi]);
    CountConcat(s[lo..i], [s[i]] + s[i + 1..hi], ch);
    CountConcat([s[i]], s[i + 1..hi], ch);
    assert [s[i]][1..] == [];
  }

  /** Only the channels matter. */
  lemma {:induction false} CountSame(s: seq<Case>, t: seq<Case>, ch: Chan)
    requires |s| == |t| && forall i :: 0 <= i < |s| ==> Is(s[i], ch) == Is(t[i], ch)
    ensures Count(s, ch) == Count(t, ch)
  {
    if s != [] {
      assert forall i :: 0 <= i < |s| - 1 ==> s[1..][i] == s[i + 1] && t[1..][i] == t[i + 1];
      CountSame(s[1..], t[1..], ch);
    }
  }

  lemma {:induction false} CountFind(s: seq<Case>, ch: Chan)
    ensures Count(s, ch) > 0 <==> exists i :: 0 <= i < |s| && Is(s[i], ch)
  {
    if s != [] {
      CountFind(s[1..], ch);
      if i :| 0 <= i < |s[1..]| && Is(s[1..][i], ch) { assert Is(s[i + 1], ch); }
      if i :| 0 <= i < |s| && Is(s[i], ch) { assert i > 0 ==> Is(s[1..][i - 1], ch); }
    }
  }

  /** How often a channel got a value. */
  ghost function Received(got: seq<Delivery>, ch: Chan): nat {
    if got == [] then 0 else Received(got[..|got| - 1], ch) + if got[|got| - 1].ch == ch then 1 else 0
  }

  lemma ReceivedStep(got: seq<Delivery>, d: Delivery, ch: Chan)
    ensures Received(got + [d], ch) == Received(got, ch) + if d.ch == ch then 1 else 0
  {
    assert (got + [d])[..|got|] == got;
  }

  // ----- the two ways a case leaves the active part

  function Swapped<T>(s: seq<T>, i: nat, j: nat): seq<T>
    requires i < |s| && j < |s|
  {
    s[i := s[j]][j := s[i]]
  }

  /** A served case moves from the active part `[1..n]` to the part behind it. */
  lemma DeactivateParts(s: seq<Case>, n: nat, i: nat, ch: Chan)
    requires 1 <= i < n <= |s|
    ensures var t := Swapped(s, i, n - 1);
            && Count(s[1..n], ch) == Count(t[1..n - 1], ch) + One(s[i], ch)
            && Count(t[n - 1..], ch) == Count(s[n..], ch) + One(s[i], ch)
  {
    hide Count, One;
    var t := Swapped(s, i, n - 1);
    CountAround(s, i, 1, n, ch);
    CountAround(t, n - 1, n - 1, |t|, ch);
    assert t[n - 1..|t|] == t[n - 1..] && t[n - 1..n - 1] == [] && t[n - 1 + 1..|t|] == s[n..];
    CountNone(ch);
    if i < n - 1 {
      CountAround(t, i, 1, n - 1, ch);
      assert t[1..i] == s[1..i] && t[i + 1..n - 1] == s[i + 1..n - 1];
      CountAround(s, n - 1, i + 1, n, ch);
      assert s[n - 1 + 1..n] == [];
    } else {
      assert t == s && s[i + 1..n] == [];
    }
  }

  lemma CountNone(ch: Chan)
    ensures Count([], ch) == 0
  {
  }

  /** A removed case comes out of the part it is in. */
  lemma DeleteParts(s: seq<Case>, n: nat, k: nat, ch: Chan)
    requires 1 <= k < |s| && 1 <= n <= |s|
    ensures var t, m := DeleteAt(s, k), if k < n then n - 1 else n;
            && Count(s[1..n], ch) == Count(t[1..m], ch) + (if k < n then One(s[k], ch) else 0)
            && Count(s[n..], ch) == Count(t[m..], ch) + (if k < n then 0 else One(s[k], ch))
  {
    hide Count, One;
    var t, m := DeleteAt(s, k), if k < n then n - 1 else n;
    if k < n {
      CountAround(s, k, 1, n, ch);
      assert t[1..m] == s[1..k] + s[k + 1..n];
      CountConcat(s[1..k], s[k + 1..n], ch);
      assert t[m..] == s[n..];
    } else {
      assert t[1..m] == s[1..n];
      CountAround(s, k, n, |s|, ch);
      assert s[n..|s|] == s[n..] && s[k + 1..|s|] == s[k + 1..];
      assert t[m..] == s[n..k] + s[k + 1..];
      CountConcat(s[n..k], s[k + 1..], ch);
    }
  }

  lemma CountDelete(s: seq<Case>, k: nat, ch: Chan)
    requires k < |s|
    ensures Count(s, ch) == Count(DeleteAt(s, k), ch) + One(s[k], ch)
  {
    hide Count, One;
    CountAround(s, k, 0, |s|, ch);
    assert s[0..|s|] == s && s[0..k] == s[..k] && s[k + 1..|s|] == s[k + 1..];
    CountConcat(s[..k], s[k + 1..], ch);
  }

  lemma CountSwapped(s: seq<Case>, i: nat, j: nat, ch: Chan)
    requires 1 <= i <= j < |s|
    ensures Count(Swapped(s, i, j), ch) == Count(s, ch)
  {
    hide Count, One;
    var t := Swapped(s, i, j);
    DeactivateParts(s, j + 1, i, ch);
    CountWhole(s, j + 1, ch);
    CountWhole(t, j, ch);
  }

  lemma CountWhole(s: seq<Case>, n: nat, ch: Chan)
    requires 1 <= n <= |s|
    ensures Count(s, ch) == One(s[0], ch) + Count(s[1..n], ch) + Count(s[n..], ch)
  {
    CountConcat(s[1..n], s[n..], ch);
    assert s[1..] == s[1..n] + s[n..];
  }

  // ----- a send in progress

  /** The removal case, then subscribers that all hold `v`. */
  ghost predicate Shaped(s: seq<Case>, v: Option<Value>) {
    |s| >= 1 && s[0].Recv? && forall i :: 1 <= i < |s| ==> s[i].Sub? && s[i].send == v
  }

  /**
   * Where one channel's subscriptions are, `n` being the end of the active part: of the `start`
   * ones each is still active, has got the value, or left before (`early`); the part behind holds
   * those that got it and have not left since (`late`).
   */
  ghost predicate Placed(s: seq<Case>, n: nat, start: multiset<Chan>, got: seq<Delivery>,
                         early: multiset<Chan>, late: multiset<Chan>, ch: Chan)
    requires 1 <= n <= |s|
  {
    && Count(s[1..n], ch) + Received(got, ch) + early[ch] == start[ch]
    && Count(s[n..], ch) + late[ch] == Received(got, ch)
  }

  ghost predicate Sending(s: seq<Case>, n: nat, value: Value, start: multiset<Chan>, got: seq<Delivery>,
                          early: multiset<Chan>, late: multiset<Chan>) {
    && Shaped(s, Some(value)) && 1 <= n <= |s|
    && (forall ch :: Placed(s, n, start, got, early, late, ch))
    && (forall i :: 0 <= i < |got| ==> got[i].value == value)
  }

  lemma SendingBounds(s: seq<Case>, n: nat, value: Value, start: multiset<Chan>, got: seq<Delivery>,
                      early: multiset<Chan>, late: multiset<Chan>)
    requires Sending(s, n, value, start, got, early, late)
    ensures 1 <= n <= |s| && s[0].Recv? && forall i :: 1 <= i < |s| ==> s[i].Sub? && s[i].send == Some(value)
  {
  }

  ghost predicate SameCounts(s: seq<Case>, t: seq<Case>) {
    forall ch :: Count(s, ch) == Count(t, ch)
  }

  lemma DeliveryStep(s: seq<Case>, n: nat, value: Value, start: multiset<Chan>, got: seq<Delivery>,
                     early: multiset<Chan>, late: multiset<Chan>, i: nat)
    requires Sending(s, n, value, start, got, early, late) && 1 <= i < n
    ensures Sending(Swapped(s, i, n - 1), n - 1, value, start, got + [Delivery(s[i].ch, value)], early, late)
    ensures SameCounts(s, Swapped(s, i, n - 1))
  {
    var t, more := Swapped(s, i, n - 1), got + [Delivery(s[i].ch, value)];
    assert Shaped(t, Some(value)) && |t| == |s|;
    hide Swapped;
    forall ch ensures Count(s, ch) == Count(t, ch) {
      CountSwapped(s, i, n - 1, ch);
    }
    var m := n - 1;
    forall ch ensures Placed(t, m, start, more, early, late, ch) {
      hide Count, Received;
      assert Placed(s, n, start, got, early, late, ch);
      DeactivateParts(s, n, i, ch);
      ReceivedStep(got, Delivery(s[i].ch, value), ch);
    }
  }

  /** Who left, added to one of the two counts. */
  ghost function Left(was: multiset<Chan>, here: bool, ch: Chan): multiset<Chan> {
    if here then was + multiset{ch} else was
  }

  lemma RemovalStep(s: seq<Case>, n: nat, value: Value, start: multiset<Chan>, got: seq<Delivery>,
                    early: multiset<Chan>, late: multiset<Chan>, k: nat)
    requires Sending(s, n, value, start, got, early, late) && 1 <= k < |s|
    ensures Sending(DeleteAt(s, k), if k < n then n - 1 else n, value, start, got,
                    Left(early, k < n, s[k].ch), Left(late, k >= n, s[k].ch))
  {
    var t, m := DeleteAt(s, k), if k < n then n - 1 else n;
    var early2, late2 := Left(early, k < n, s[k].ch), Left(late, k >= n, s[k].ch);
    assert Shaped(t, Some(value));
    hide DeleteAt;
    forall ch ensures Placed(t, m, start, got, early2, late2, ch) {
      hide Count, Received;
      assert Placed(s, n, start, got, early, late, ch);
      DeleteParts(s, n, k, ch);
    }
  }

  /** Those who left are those who asked to. */
  ghost predicate Tally(early: multiset<Chan>, late: multiset<Chan>, asked: seq<Chan>) {
    forall ch :: early[ch] + late[ch] == multiset(asked)[ch]
  }

  lemma TallyStart()
    ensures Tally(multiset{}, multiset{}, [])
  {
  }

  lemma TallyStep(early: multiset<Chan>, late: multiset<Chan>, asked: seq<Chan>, first: bool, ch: Chan)
    requires Tally(early, late, asked)
    ensures Tally(Left(early, first, ch), Left(late, !first, ch), asked + [ch])
  {
  }

  lemma SendingStart(s: seq<Case>, value: Value, start: multiset<Chan>)
    requires Shaped(s, Some(value)) && forall ch :: Count(s, ch) == start[ch]
    ensures Sending(s, |s|, value, start, [], multiset{}, multiset{})
  {
    forall ch ensures Placed(s, |s|, start, [], multiset{}, multiset{}, ch) {
      CountWhole(s, |s|, ch);
      assert s[|s|..] == [];
    }
  }

  /** Each subscription of the start got the value once, unless it left before. */
  ghost predicate Served(start: multiset<Chan>, got: seq<Delivery>, early: multiset<Chan>) {
    forall ch :: Received(got, ch) + early[ch] == start[ch]
  }

  /** What is listed at the end is the start without those who left, before or after their turn. */
  ghost predicate Survivors(s: seq<Case>, start: multiset<Chan>, got: seq<Delivery>, early: multiset<Chan>,
                            late: multiset<Chan>) {
    forall ch :: Count(s, ch) + early[ch] + late[ch] == start[ch] && late[ch] <= Received(got, ch)
  }

  lemma SendingEnd(s: seq<Case>, value: Value, start: multiset<Chan>, got: seq<Delivery>, early: multiset<Chan>,
                   late: multiset<Chan>)
    requires Sending(s, 1, value, start, got, early, late)
    ensures forall i :: 0 <= i < |got| ==> got[i].value == value
    ensures Served(start, got, early) && Survivors(s, start, got, early, late)
  {
    forall ch ensures Received(got, ch) + early[ch] == start[ch] && Count(s, ch) + early[ch] + late[ch] == start[ch]
                      && late[ch] <= Received(got, ch) {
      assert Placed(s, 1, start, got, early, late, ch);
      CountWhole(s, 1, ch);
      assert s[1..1] == [];
    }
  }

  lemma SurvivorsSame(s: seq<Case>, t: seq<Case>, start: multiset<Chan>, got: seq<Delivery>, early: multiset<Chan>,
                      late: multiset<Chan>)
    requires Survivors(s, start, got, early, late) && SameCounts(s, t)
    ensures Survivors(t, start, got, early, late)
  {
    hide Count, Received;
  }

  /** Every active subscription is in the array or in the inbox. */
  ghost predicate Listed(s: seq<Case>, inbox: seq<Chan>, subs: multiset<Chan>) {
    forall ch :: Count(s, ch) + multiset(inbox)[ch] == subs[ch]
  }

  lemma ListedSame(s: seq<Case>, t: seq<Case>, inbox: seq<Chan>, subs: multiset<Chan>)
    requires Listed(s, inbox, subs) && SameCounts(s, t)
    ensures Listed(t, inbox, subs)
  {
    hide Count;
  }

  lemma ListedDelete(s: seq<Case>, k: nat, inbox: seq<Chan>, subs: multiset<Chan>)
    requires Listed(s, inbox, subs) && k < |s| && s[k].Sub?
    ensures Listed(DeleteAt(s, k), inbox, subs - multiset{s[k].ch})
  {
    var t := DeleteAt(s, k);
    hide DeleteAt;
    forall ch ensures Count(t, ch) + multiset(inbox)[ch] == (subs - multiset{s[k].ch})[ch] {
      hide Count;
      CountDelete(s, k, ch);
    }
  }

  lemma ListedInbox(s: seq<Case>, inbox: seq<Chan>, other: seq<Chan>, subs: multiset<Chan>)
    requires Listed(s, inbox, subs)
    ensures Listed(s, other, subs - multiset(inbox) + multiset(other)) && multiset(inbox) <= subs
  {
    hide Count;
  }

  lemma ListedAll(s: seq<Case>, subs: multiset<Chan>)
    requires forall ch :: Count(s, ch) == subs[ch]
    ensures Listed(s, [], subs)
  {
    hide Count;
  }

  lemma ListedFind(s: seq<Case>, inbox: seq<Chan>, subs: multiset<Chan>, ch: Chan)
    requires Listed(s, inbox, subs) && ch in subs && ch !in inbox
    ensures Count(s, ch) > 0
  {
    hide Count;
  }

  /** The cases of channels that wait in the inbox. */
  function Waiting(chs: seq<Chan>): (s: seq<Case>)
    ensures |s| == |chs| && forall i :: 0 <= i < |s| ==> s[i] == Sub(chs[i], None)
  {
    if chs == [] then [] else [Sub(chs[0], None)] + Waiting(chs[1..])
  }

  lemma {:induction false} WaitingCount(chs: seq<Chan>, ch: Chan)
    ensures Count(Waiting(chs), ch) == multiset(chs)[ch]
  {
    if chs != [] {
      WaitingCount(chs[1..], ch);
      assert chs == [chs[0]] + chs[1..];
      assert Waiting(chs)[1..] == Waiting(chs[1..]);
    }
  }

  lemma InboxSub(subs: multiset<Chan>, inbox: multiset<Chan>, ch: Chan)
    requires ch in inbox && inbox <= subs
    ensures subs - inbox + (inbox - multiset{ch}) == subs - multiset{ch}
  {
  }

  lemma InboxDelete(s: seq<Chan>, i: nat)
    requires i < |s|
    ensures multiset(DeleteAt(s, i)) == multiset(s) - multiset{s[i]}
  {
    assert s == s[..i] + [s[i]] + s[i + 1..];
  }

  class Feed {
    var buf: array<Case>
    var len: nat
    var inbox: seq<Chan>
    /** The subscriptions that have not been cancelled. */
    ghost var subs: multiset<Chan>
    /** The cancellations that a send in progress was asked to carry out. */
    ghost var asked: seq<Chan>

    ghost function Cases(): seq<Case>
      requires len <= buf.Length
      reads this, buf
    {
      buf[..len]
    }

    /** No send is in progress. */
    ghost predicate Valid()
      reads this, buf
    {
      len <= buf.Length && Shaped(Cases(), None) && Listed(Cases(), inbox, subs)
    }

    constructor ()
      ensures Valid() && subs == multiset{} && fresh(buf)
    {
      buf := new Case[1](i => Recv);
      len, inbox, subs, asked := 1, [], multiset{}, [];
      new;
      assert buf[..1] == [Recv];
    }

    /** A new subscriber waits in the inbox for the next send. */
    method Subscribe(ch: Chan)
      requires Valid()
      modifies this
      ensures Valid() && subs == old(subs) + multiset{ch} && inbox == old(inbox) + [ch]
      ensures buf == old(buf) && len == old(len)
    {
      hide Count, Shaped;
      inbox := inbox + [ch];
      subs := subs + multiset{ch};
    }

    /** The first case of a channel. */
    method Find(ch: Chan) returns (index: int)
      requires len <= buf.Length
      ensures -1 <= index < len
      ensures if index >= 0 then Is(buf[index], ch) && forall j :: 0 <= j < index ==> !Is(buf[j], ch)
              else Count(Cases(), ch) == 0
    {
      for i := 0 to len
        invariant forall j :: 0 <= j < i ==> !Is(buf[j], ch)
      {
        if Is(buf[i], ch) { return i; }
      }
      CountFind(Cases(), ch);
      index := -1;
    }

    /** Deletes a case by shifting the later ones down. */
    method Delete(k: nat)
      requires k < len <= buf.Length
      modifies this`len, buf
      ensures len == old(len) - 1 && Cases() == DeleteAt(old(Cases()), k)
    {
      ghost var s := Cases();
      var i := k;
      while i < len - 1
        invariant k <= i < len && len == old(len)
        invariant forall j :: 0 <= j < k ==> buf[j] == s[j]
        invariant forall j :: k <= j < i ==> buf[j] == s[j + 1]
        invariant forall j :: i <= j < len ==> buf[j] == s[j]
      {
        buf[i] := buf[i + 1];
        i := i + 1;
      }
      len := len - 1;
    }

    /** Moves a case behind the active part. */
    method Deactivate(n: nat, i: nat)
      requires 1 <= i < n <= len <= buf.Length
      modifies buf
      ensures Cases() == Swapped(old(Cases()), i, n - 1)
    {
      var last := n - 1;
      buf[i], buf[last] := buf[last], buf[i];
    }

    /** Cancels a subscription while no send is in progress. */
    method Unsubscribe(ch: Chan)
      requires Valid() && ch in subs
      modifies this, buf
      ensures Valid() && subs == old(subs) - multiset{ch} && buf == old(buf)
    {
      hide Count, Listed;
      var found := InboxIndex(ch);
      if found >= 0 {
        InboxDelete(inbox, found);
        ListedInbox(Cases(), inbox, DeleteAt(inbox, found), subs);
        InboxSub(subs, multiset(inbox), ch);
        inbox := DeleteAt(inbox, found);
      } else {
        ListedFind(Cases(), inbox, subs, ch);
        var index := Find(ch);
        ListedDelete(Cases(), index, inbox, subs);
        Delete(index);
      }
      subs := subs - multiset{ch};
    }

    method InboxIndex(ch: Chan) returns (index: int)
      ensures -1 <= index < |inbox|
      ensures if index >= 0 then inbox[index] == ch else ch !in inbox
    {
      for i := 0 to |inbox|
        invariant ch !in inbox[..i]
      {
        if inbox[i] == ch { return i; }
      }
      index := -1;
    }

    /** Other goroutines: any number of subscriptions, and cancellations of some still in the inbox. */
    method Interleave()
      requires len <= buf.Length && Listed(Cases(), inbox, subs)
      modifies this`inbox, this`subs
      ensures Listed(Cases(), inbox, subs)
    {
      hide Listed;
      var other: seq<Chan> := *;
      ListedInbox(Cases(), inbox, other, subs);
      subs := subs - multiset(inbox) + multiset(other);
      inbox := other;
    }

    /** Takes the inbox into the array, for this and later sends, and gives everyone the value. */
    method TakeInbox(value: Value)
      requires Valid()
      modifies this, buf
      ensures len <= buf.Length && Shaped(Cases(), Some(value)) && fresh(buf) && inbox == [] && subs == old(subs)
              && asked == old(asked)
      ensures forall ch :: Count(Cases(), ch) == subs[ch]
    {
      hide Count, Waiting;
      ghost var s, w := Cases(), Waiting(inbox);
      var more := Joined();
      forall ch ensures Count(s + w, ch) == subs[ch] {
        WaitingCount(inbox, ch);
        CountConcat(s, w, ch);
      }
      buf, len, inbox := more, len + |inbox|, [];
      assert Cases() == s + w;
      SetValues(Some(value));
    }

    /** A new array with the cases and the inbox. */
    method Joined() returns (more: array<Case>)
      requires len <= buf.Length
      ensures fresh(more) && more[..] == Cases() + Waiting(inbox)
    {
      hide Waiting;
      more := new Case[len + |inbox|](_ => Recv);
      for i := 0 to len
        modifies more
        invariant forall j :: 0 <= j < i ==> more[j] == buf[j]
      {
        more[i] := buf[i];
      }
      for i := 0 to |inbox|
        modifies more
        invariant forall j :: 0 <= j < len ==> more[j] == buf[j]
        invariant forall j :: 0 <= j < i ==> more[len + j] == Sub(inbox[j], None)
      {
        more[len + i] := Sub(inbox[i], None);
      }
    }

    /** Puts a value into every subscriber's case, or takes it out again. */
    method SetValues(v: Option<Value>)
      requires 1 <= len <= buf.Length && forall i :: 1 <= i < len ==> buf[i].Sub?
      modifies buf
      ensures SameCounts(old(Cases()), Cases())
      ensures buf[0] == old(buf[0]) && forall i :: 1 <= i < len ==> buf[i] == Sub(old(buf[i].ch), v)
    {
      ghost var s := Cases();
      for i := 1 to len
        invariant buf[0] == s[0]
        invariant forall j :: 1 <= j < i ==> buf[j] == Sub(s[j].ch, v)
        invariant forall j :: i <= j < len ==> buf[j] == s[j]
      {
        buf[i] := buf[i].(send := v);
      }
      forall ch ensures Count(s, ch) == Count(Cases(), ch) { CountSame(s, Cases(), ch); }
    }

    /** The fast path: offers the value to everyone still active without waiting. */
    method TrySendAll(value: Value, n0: nat, ghost start: multiset<Chan>, ghost got0: seq<Delivery>,
                      ghost early: multiset<Chan>, ghost late: multiset<Chan>)
      returns (n: nat, sent: nat, ghost got: seq<Delivery>)
      requires len <= buf.Length && Listed(Cases(), inbox, subs)
               && Sending(Cases(), n0, value, start, got0, early, late)
      modifies buf
      ensures Listed(Cases(), inbox, subs) && Sending(Cases(), n, value, start, got, early, late) && n <= n0
      ensures |got| == |got0| + sent
    {
      hide Sending, Listed, SameCounts, Swapped;
      n, sent, got := n0, 0, got0;
      SendingBounds(Cases(), n, value, start, got, early, late);
      var i := 1;
      while i < n
        invariant 1 <= i <= n <= n0 && Listed(Cases(), inbox, subs)
                  && Sending(Cases(), n, value, start, got, early, late)
        invariant |got| == |got0| + sent
        decreases n - i
      {
        var ready: bool := *;
        SendingBounds(Cases(), n, value, start, got, early, late);
        if ready {
          DeliveryStep(Cases(), n, value, start, got, early, late, i);
          ListedSame(Cases(), Swapped(Cases(), i, n - 1), inbox, subs);
          got := got + [Delivery(buf[i].ch, value)];
          sent := sent + 1;
          Deactivate(n, i);
          n := n - 1;
        } else {
          i := i + 1;
        }
      }
    }

    /** Another goroutine cancels a subscription that is not in the inbox any more. */
    method AwaitRemoval() returns (ch: Chan)
      requires 1 < len <= buf.Length && forall i :: 1 <= i < len ==> buf[i].Sub?
      modifies this`subs, this`asked
      ensures Count(Cases(), ch) > 0 && subs == old(subs) - multiset{ch} && asked == old(asked) + [ch]
    {
      var who: nat := *;
      who := if 1 <= who < len then who else 1;
      ch := buf[who].ch;
      CountFind(Cases(), ch);
      assert Is(Cases()[who], ch);
      subs := subs - multiset{ch};
      asked := asked + [ch];
    }

    /** Carries out a cancellation. */
    method RemoveAsked(value: Value, n0: nat, ghost start: multiset<Chan>, ghost got: seq<Delivery>,
                       ghost early0: multiset<Chan>, ghost late0: multiset<Chan>)
      returns (n: nat, ghost early: multiset<Chan>, ghost late: multiset<Chan>)
      requires len <= buf.Length && Listed(Cases(), inbox, subs)
               && Sending(Cases(), n0, value, start, got, early0, late0) && len > 1
      requires Tally(early0, late0, asked)
      modifies this`len, this`subs, this`asked, buf
      ensures len == old(len) - 1 && n <= n0 && old(asked) <= asked
      ensures Listed(Cases(), inbox, subs) && Sending(Cases(), n, value, start, got, early, late)
      ensures Tally(early, late, asked)
    {
      hide Sending, Listed, DeleteAt, Count, Left, Tally;
      ghost var s, subs0, asked0 := Cases(), subs, asked;
      SendingBounds(s, n0, value, start, got, early0, late0);
      var ch := AwaitRemoval();
      var index := Find(ch);
      RemovalStep(s, n0, value, start, got, early0, late0, index);
      ListedDelete(s, index, inbox, subs0);
      TallyStep(early0, late0, asked0, index < n0, ch);
      Delete(index);
      n := if index < n0 then n0 - 1 else n0;
      early, late := Left(early0, index < n0, ch), Left(late0, index >= n0, ch);
    }

    /** Waits for one event: a subscriber takes the value, or a cancelled one is removed. */
    method Select(value: Value, n0: nat, ghost start: multiset<Chan>, ghost got0: seq<Delivery>,
                  ghost early0: multiset<Chan>, ghost late0: multiset<Chan>)
      returns (n: nat, sent: nat, ghost got: seq<Delivery>, ghost early: multiset<Chan>, ghost late: multiset<Chan>)
      requires len <= buf.Length && Listed(Cases(), inbox, subs)
               && Sending(Cases(), n0, value, start, got0, early0, late0) && n0 > 1
      requires Tally(early0, late0, asked)
      modifies this`len, this`subs, this`asked, buf
      ensures len <= buf.Length && n + len < n0 + old(len)
      ensures Listed(Cases(), inbox, subs) && Sending(Cases(), n, value, start, got, early, late)
      ensures |got| == |got0| + sent && Tally(early, late, asked)
    {
      hide Sending, Listed, SameCounts, Swapped, Left, Tally;
      n, sent, got, early, late := n0, 0, got0, early0, late0;
      SendingBounds(Cases(), n, value, start, got, early, late);
      var chosen: nat := *;
      if 1 <= chosen < n {
        DeliveryStep(Cases(), n, value, start, got, early, late, chosen);
        ListedSame(Cases(), Swapped(Cases(), chosen, n - 1), inbox, subs);
        got, sent := got + [Delivery(buf[chosen].ch, buf[chosen].send.value)], 1;
        Deactivate(n, chosen);
        n := n - 1;
      } else {
        n, early, late := RemoveAsked(value, n, start, got, early, late);
      }
    }

    /**
     * Sends a value. Everyone subscribed at the start gets it exactly once, except those who asked to
     * leave before their turn (`early`); the count is the number of deliveries; whoever did not ask
     * to leave stays subscribed; whoever joins meanwhile waits for the next send.
     */
    method Send(value: Value)
      returns (nsent: nat, ghost got: seq<Delivery>, ghost early: multiset<Chan>, ghost late: multiset<Chan>)
      requires Valid()
      modifies this, buf
      ensures Valid() && fresh(buf) && nsent == |got|
      ensures Served(old(subs), got, early) && forall i :: 0 <= i < |got| ==> got[i].value == value
      ensures Survivors(Cases(), old(subs), got, early, late) && Tally(early, late, asked)
    {
      hide Sending, Listed, Count, Tally, Served, Survivors, SameCounts;
      asked := [];
      ghost var start := subs;
      TakeInbox(value);
      SendingStart(Cases(), value, start);
      ListedAll(Cases(), subs);
      nsent, got, early, late := Deliver(value, start);
      SendingEnd(Cases(), value, start, got, early, late);
      SendingBounds(Cases(), 1, value, start, got, early, late);
      ghost var s := Cases();
      SetValues(None);
      ListedSame(s, Cases(), inbox, subs);
      SurvivorsSame(s, Cases(), start, got, early, late);
    }

    /** Sends until everyone still listed has got the value. */
    method Deliver(value: Value, ghost start: multiset<Chan>)
      returns (nsent: nat, ghost got: seq<Delivery>, ghost early: multiset<Chan>, ghost late: multiset<Chan>)
      requires len <= buf.Length && Listed(Cases(), inbox, subs) && asked == []
      requires Sending(Cases(), len, value, start, [], multiset{}, multiset{})
      modifies this`len, this`inbox, this`subs, this`asked, buf
      ensures len <= buf.Length && Listed(Cases(), inbox, subs) && nsent == |got|
      ensures Sending(Cases(), 1, value, start, got, early, late) && Tally(early, late, asked)
    {
      hide Sending, Listed, Tally;
      nsent, got, early, late := 0, [], multiset{}, multiset{};
      var n: nat := len;
      TallyStart();
      while true
        invariant len <= buf.Length && nsent == |got|
        invariant Listed(Cases(), inbox, subs) && Sending(Cases(), n, value, start, got, early, late)
                  && Tally(early, late, asked)
        decreases n + len
      {
        var sent;
        n, sent, got := TrySendAll(value, n, start, got, early, late);
        nsent := nsent + sent;
        SendingBounds(Cases(), n, value, start, got, early, late);
        if n == 1 { break; }
        Interleave();
        n, sent, got, early, late := Select(value, n, start, got, early, late);
        nsent := nsent + sent;
      }
    }
  }
}
