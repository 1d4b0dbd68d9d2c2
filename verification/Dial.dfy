/**
 * The dial scheduler and the server loop around it. Time is in seconds and never goes back. The
 * loop's events arrive in any order; connections of a dial task are set up while it runs.
 */
module Dialing {
  import opened Collections
  import opened Wrappers
  import MinHeap

  const MAX_ACTIVE_DIAL_TASKS: nat := 16
  const DIAL_HISTORY_EXPIRATION: nat := 30
  const FALLBACK_INTERVAL: nat := 20

  type Id = nat
  type Ip = nat

  datatype Node = Node(id: Id, ip: Ip)

  datatype Flag = Dyn | Static

  datatype Task = Dial(flag: Flag, dest: Node) | Discover | WaitExpire(duration: int)

  datatype PastDial = PastDial(id: Id, exp: nat)

  datatype ConnFlags = ConnFlags(dyn: bool, fixed: bool, inbound: bool, trusted: bool)

  type Peers = map<Id, ConnFlags>

  /** What decides whether a node may be dialed. */
  datatype Limits = Limits(peers: Peers, hist: seq<PastDial>, self: Option<Id>, allowed: Option<set<Ip>>)

  datatype DialError = AlreadyDialing | AlreadyConnected | IsSelf | NotWhitelisted | RecentlyDialed

  function ExpKey(p: PastDial): int { p.exp }

  // ----- the books: every dial in progress has exactly one task

  ghost predicate Clash(s: Task, t: Task) {
    (s.Dial? && t.Dial? && s.dest.id == t.dest.id) || (s.Discover? && t.Discover?)
  }

  ghost predicate IsDial(t: Task, id: Id) {
    t.Dial? && t.dest.id == id
  }

  /** No node is dialed twice at once, the dialing map lists exactly the dials, and at most one lookup is out. */
  ghost predicate Booked(tasks: seq<Task>, dialing: map<Id, Flag>, lookup: bool) {
    && (forall i, j :: 0 <= i < j < |tasks| ==> !Clash(tasks[i], tasks[j]))
    && (forall i :: 0 <= i < |tasks| && tasks[i].Dial? ==>
          tasks[i].dest.id in dialing && dialing[tasks[i].dest.id] == tasks[i].flag)
    && (forall id :: id in dialing ==> exists i :: 0 <= i < |tasks| && IsDial(tasks[i], id))
    && (lookup <==> Discover in tasks)
  }

  lemma BookDial(tasks: seq<Task>, dialing: map<Id, Flag>, lookup: bool, flag: Flag, n: Node)
    requires Booked(tasks, dialing, lookup) && n.id !in dialing
    ensures Booked(tasks + [Dial(flag, n)], dialing[n.id := flag], lookup)
  {
    var more := tasks + [Dial(flag, n)];
    var d := dialing[n.id := flag];
    forall id | id in d ensures exists i :: 0 <= i < |more| && IsDial(more[i], id) {
      if id == n.id {
        assert IsDial(more[|tasks|], id);
      } else {
        var i :| 0 <= i < |tasks| && IsDial(tasks[i], id);
        assert IsDial(more[i], id);
      }
    }
  }

  lemma BookOther(tasks: seq<Task>, dialing: map<Id, Flag>, lookup: bool, t: Task)
    requires Booked(tasks, dialing, lookup) && !t.Dial? && (t.Discover? ==> !lookup)
    ensures Booked(tasks + [t], dialing, lookup || t.Discover?)
  {
    var more := tasks + [t];
    forall id | id in dialing ensures exists i :: 0 <= i < |more| && IsDial(more[i], id) {
      var i :| 0 <= i < |tasks| && IsDial(tasks[i], id);
      assert IsDial(more[i], id);
    }
  }

  /** A finished task leaves the books. */
  lemma Unbook(tasks: seq<Task>, dialing: map<Id, Flag>, lookup: bool, k: nat)
    requires Booked(tasks, dialing, lookup) && k < |tasks|
    ensures var t := tasks[k];
            Booked(DeleteAt(tasks, k), if t.Dial? then dialing - {t.dest.id} else dialing, lookup && !t.Discover?)
  {
    var t, less := tasks[k], DeleteAt(tasks, k);
    var d := if t.Dial? then dialing - {t.dest.id} else dialing;
    forall i | 0 <= i < |less| ensures less[i] == tasks[if i < k then i else i + 1] {}
    forall i, j | 0 <= i < j < |less| ensures !Clash(less[i], less[j]) {}
    forall i | 0 <= i < |less| && less[i].Dial? ensures less[i].dest.id in d && d[less[i].dest.id] == less[i].flag {
      assert !Clash(less[i], t) || !Clash(t, less[i]);
    }
    forall id | id in d ensures exists i :: 0 <= i < |less| && IsDial(less[i], id) {
      var i :| 0 <= i < |tasks| && IsDial(tasks[i], id);
      assert i != k;
      assert IsDial(less[if i < k then i else i - 1], id);
    }
    UnbookLookup(tasks, dialing, lookup, k);
  }

  lemma UnbookLookup(tasks: seq<Task>, dialing: map<Id, Flag>, lookup: bool, k: nat)
    requires Booked(tasks, dialing, lookup) && k < |tasks|
    ensures (lookup && !tasks[k].Discover?) <==> Discover in DeleteAt(tasks, k)
  {
    var less := DeleteAt(tasks, k);
    assert tasks == tasks[..k] + [tasks[k]] + tasks[k + 1..];
    if Discover in less {
      var i :| 0 <= i < |less| && less[i] == Discover;
      var j := if i < k then i else i + 1;
      assert tasks[j] == Discover;
      assert !Clash(tasks[if j < k then j else k], tasks[if j < k then k else j]);
    }
  }

  // ----- dynamic nodes

  function DynDialing(dialing: map<Id, Flag>): set<Id> {
    set id | id in dialing && dialing[id].Dyn?
  }

  function DynPeers(peers: Peers): set<Id> {
    set id | id in peers && peers[id].dyn
  }

  /** Nodes that are dynamic peers or being dialed to become one. */
  function DynNodes(dialing: map<Id, Flag>, peers: Peers): set<Id> {
    DynDialing(dialing) + DynPeers(peers)
  }

  lemma DynDialingGrows(dialing: map<Id, Flag>, id: Id, flag: Flag)
    requires id !in dialing
    ensures |DynDialing(dialing[id := flag])| == |DynDialing(dialing)| + (if flag.Dyn? then 1 else 0)
  {
    assert DynDialing(dialing[id := flag]) == DynDialing(dialing) + (if flag.Dyn? then {id} else {});
  }

  // ----- dial history

  /** A node whose last dial ended less than the expiration ago is in the history. */
  ghost predicate Remembered(hist: seq<PastDial>, lastDone: map<Id, nat>, clock: nat) {
    forall id :: id in lastDone ==>
      PastDial(id, lastDone[id] + DIAL_HISTORY_EXPIRATION) in hist || lastDone[id] + DIAL_HISTORY_EXPIRATION < clock
  }

  predicate Recent(hist: seq<PastDial>, id: Id) {
    exists p :: p in hist && p.id == id
  }

  /** A node of the list that no later one of the same identity replaces. */
  ghost predicate IsLast(nodes: seq<Node>, n: Node) {
    exists i :: 0 <= i < |nodes| && nodes[i] == n && forall j :: i < j < |nodes| ==> nodes[j].id != n.id
  }

  lemma LastGrows(nodes: seq<Node>, k: nat, kept: map<Id, Node>)
    requires k < |nodes| && forall id :: id in kept ==> IsLast(nodes[..k], kept[id]) && kept[id].id == id
    ensures forall id :: id in kept && id != nodes[k].id ==> IsLast(nodes[..k + 1], kept[id])
    ensures IsLast(nodes[..k + 1], nodes[k])
  {
    var less, more := nodes[..k], nodes[..k + 1];
    assert more[k] == nodes[k] && forall j :: 0 <= j < k ==> more[j] == less[j];
    forall id | id in kept && id != nodes[k].id ensures IsLast(more, kept[id]) {
      var i :| 0 <= i < |less| && less[i] == kept[id] && forall j :: i < j < |less| ==> less[j].id != kept[id].id;
      assert more[i] == kept[id];
    }
  }

  class DialState {
    const maxDynDials: nat
    /** Own identity, unless discovery is off; addresses that may be dialed, unless all may. */
    const self: Option<Id>
    const allowed: Option<set<Ip>>
    var lookupRunning: bool
    var dialing: map<Id, Flag>
    var lookupBuf: seq<Node>
    var statics: map<Id, Node>
    var hist: seq<PastDial>
    var start: Option<nat>
    var bootnodes: seq<Node>
    /** When the last dial of a node ended, and the latest time seen. */
    ghost var lastDone: map<Id, nat>
    ghost var clock: nat

    ghost predicate Valid()
      reads this
    {
      && MinHeap.IsHeap(hist, ExpKey) && Remembered(hist, lastDone, clock)
      && forall id :: id in statics ==> statics[id].id == id
    }

    constructor (maxdyn: nat, me: Option<Id>, netrestrict: Option<set<Ip>>, fixed: seq<Node>, boot: seq<Node>)
      ensures Valid() && dialing == map[] && !lookupRunning && maxDynDials == maxdyn && lastDone == map[] && clock == 0
      ensures self == me && allowed == netrestrict && hist == [] && start == None && lookupBuf == []
              && bootnodes == boot
      ensures forall n :: n in fixed ==> n.id in statics
      ensures forall id :: id in statics ==> IsLast(fixed, statics[id]) && statics[id].id == id
    {
      maxDynDials, self, allowed := maxdyn, me, netrestrict;
      lookupRunning, dialing, lookupBuf, statics, hist, start, bootnodes := false, map[], [], map[], [], None, boot;
      lastDone, clock := map[], 0;
      new;
      for i := 0 to |fixed|
        modifies this`statics
        invariant forall n :: n in fixed[..i] ==> n.id in statics
        invariant forall id :: id in statics ==> IsLast(fixed[..i], statics[id]) && statics[id].id == id
      {
        ghost var s0 := statics;
        AddStatic(fixed[i]);
        LastGrows(fixed, i, s0);
      }
      assert fixed[..|fixed|] == fixed;
    }

    method AddStatic(n: Node)
      modifies this`statics
      ensures statics == old(statics)[n.id := n]
    {
      statics := statics[n.id := n];
    }

    method RemoveStatic(n: Node)
      modifies this`statics
      ensures statics == old(statics) - {n.id}
    {
      statics := statics - {n.id};
    }

    function Rules(peers: Peers): Limits
      reads this
    {
      Limits(peers, hist, self, allowed)
    }

    function CheckDial(n: Node, peers: Peers): (e: Option<DialError>)
      reads this
      ensures e.None? <==> n.id !in dialing && Eligible(n, Rules(peers))
    {
      if n.id in dialing then Some(AlreadyDialing)
      else if n.id in peers then Some(AlreadyConnected)
      else if self == Some(n.id) then Some(IsSelf)
      else if allowed.Some? && n.ip !in allowed.value then Some(NotWhitelisted)
      else if Recent(hist, n.id) then Some(RecentlyDialed)
      else None
    }

    /** Drops from the history exactly what has expired. */
    method Expire(now: nat)
      requires Valid() && now >= clock
      modifies this`hist, this`clock
      ensures Valid() && clock == now
      ensures forall p :: p in hist ==> p.exp >= now
      ensures forall p: PastDial :: multiset(hist)[p] == if p.exp < now then 0 else multiset(old(hist))[p]
    {
      hide MinHeap.IsHeap;
      while |hist| > 0 && hist[0].exp < now
        invariant MinHeap.IsHeap(hist, ExpKey) && Remembered(hist, lastDone, now)
        invariant forall p: PastDial :: p.exp >= now ==> multiset(hist)[p] == multiset(old(hist))[p]
        decreases |hist|
      {
        ghost var h := hist;
        var x, rest := MinHeap.Pop(hist, ExpKey);
        forall p | p in h && p != x ensures p in rest { StillIn(h, rest, x, p); }
        hist := rest;
      }
      clock := now;
      forall p | p in hist ensures p.exp >= now { FrontFirst(hist, p); }
      forall p: PastDial ensures multiset(hist)[p] == if p.exp < now then 0 else multiset(old(hist))[p] {
        assert p in hist <==> p in multiset(hist);
      }
    }

    /** Plans a dial of a node that may be dialed. */
    method AddDial(flag: Flag, n: Node, peers: Peers, tasks: seq<Task>, ghost all: seq<Task>, ghost d0: map<Id, Flag>)
      returns (ok: bool, more: seq<Task>)
      requires Planned(all, tasks, d0, dialing, lookupRunning, Rules(peers))
      modifies this`dialing
      ensures Planned(all, more, d0, dialing, lookupRunning, Rules(peers))
      ensures ok == old(CheckDial(n, peers).None?)
      ensures more == (if ok then tasks + [Dial(flag, n)] else tasks)
              && dialing == (if ok then old(dialing)[n.id := flag] else old(dialing))
      ensures |DynDialing(dialing)| == |DynDialing(old(dialing))| + (if ok && flag.Dyn? then 1 else 0)
    {
      hide Booked, NewDials;
      if CheckDial(n, peers).Some? { return false, tasks; }
      BookDial(all + tasks, dialing, lookupRunning, flag, n);
      NewDialsStep(tasks, d0, dialing, flag, n);
      DynDialingGrows(dialing, n.id, flag);
      more := tasks + [Dial(flag, n)];
      assert all + more == all + tasks + [Dial(flag, n)];
      dialing := dialing[n.id := flag];
      ok := true;
    }

    /** How many more dynamic dials there may be. */
    method NeedDynDials(peers: Peers) returns (need: int)
      ensures need == maxDynDials - |DynPeers(peers)| - |DynDialing(dialing)|
    {
      var n := CountDynPeers(peers);
      need := maxDynDials - n;
      n := CountDynDialing();
      need := need - n;
    }

    method CountDynPeers(peers: Peers) returns (n: nat)
      ensures n == |DynPeers(peers)|
    {
      n := 0;
      var left := peers.Keys;
      ghost var seen: set<Id> := {};
      while left != {}
        invariant left <= peers.Keys && seen == DynPeers(peers) - left && n == |seen|
        decreases |left|
      {
        var id :| id in left;
        left := left - {id};
        if peers[id].dyn { n, seen := n + 1, seen + {id}; }
      }
    }

    method CountDynDialing() returns (n: nat)
      ensures n == |DynDialing(dialing)|
    {
      n := 0;
      var left := dialing.Keys;
      ghost var seen: set<Id> := {};
      while left != {}
        invariant left <= dialing.Keys && seen == DynDialing(dialing) - left && n == |seen|
        decreases |left|
      {
        var id :| id in left;
        left := left - {id};
        if dialing[id].Dyn? { n, seen := n + 1, seen + {id}; }
      }
    }

    /** Dials a static node if it may be dialed, and forgets it if it never may. */
    method TryStatic(n: Node, peers: Peers, tasks: seq<Task>, ghost all: seq<Task>, ghost d0: map<Id, Flag>)
      returns (more: seq<Task>)
      requires Planned(all, tasks, d0, dialing, lookupRunning, Rules(peers))
      modifies this`dialing, this`statics
      ensures Planned(all, more, d0, dialing, lookupRunning, Rules(peers))
              && |DynDialing(dialing)| == |DynDialing(old(dialing))|
      ensures statics == if n.id !in old(dialing) && n.id !in peers && Hopeless(n, self, allowed)
                         then old(statics) - {n.id} else old(statics)
      ensures if n.id !in old(dialing) && Eligible(n, Rules(peers))
              then more == tasks + [Dial(Static, n)] && dialing == old(dialing)[n.id := Static]
              else more == tasks && dialing == old(dialing)
    {
      hide Planned, DynDialing, Recent;
      var e := CheckDial(n, peers);
      if e == Some(NotWhitelisted) || e == Some(IsSelf) {
        statics := statics - {n.id};
        more := tasks;
      } else {
        var ok;
        ok, more := AddDial(Static, n, peers, tasks, all, d0);
      }
    }

    /** Dials static nodes that are not connected, and forgets those that never can be. */
    method DialStatic(peers: Peers, ghost all: seq<Task>) returns (tasks: seq<Task>)
      requires Planned(all, [], dialing, dialing, lookupRunning, Rules(peers))
               && forall id :: id in statics ==> statics[id].id == id
      modifies this`dialing, this`statics
      ensures Planned(all, tasks, old(dialing), dialing, lookupRunning, Rules(peers))
              && |DynDialing(dialing)| == |DynDialing(old(dialing))|
      ensures StaticsKept(statics, old(statics), old(dialing), Rules(peers))
      ensures forall id :: id in old(statics) && id !in old(dialing) && Eligible(old(statics)[id], Rules(peers)) ==>
                Dial(Static, old(statics)[id]) in tasks
      ensures AllStatic(tasks, old(statics))
    {
      hide Planned, DynDialing, Eligible, Hopeless, AllStatic;
      tasks := [];
      NoStatic(statics);
      var left := statics.Keys;
      ghost var s0, d0 := statics, dialing;
      while left != {}
        invariant left <= statics.Keys && Planned(all, tasks, d0, dialing, lookupRunning, Rules(peers))
                  && |DynDialing(dialing)| == |DynDialing(d0)|
        invariant forall id :: id in statics ==> id in s0 && statics[id] == s0[id]
        invariant forall id :: id in s0 && id !in statics ==>
                    id !in d0 && id !in peers && Hopeless(s0[id], self, allowed)
        invariant forall id :: id in statics && id !in left ==>
                    id in d0 || id in peers || !Hopeless(s0[id], self, allowed)
        invariant AllStatic(tasks, s0)
        invariant forall id :: id in left ==> (id in dialing <==> id in d0)
        invariant forall id :: id in s0 && id !in left && id !in d0 && Eligible(s0[id], Rules(peers)) ==>
                    Dial(Static, s0[id]) in tasks
        decreases |left|
      {
        var id :| id in left;
        left := left - {id};
        StaticStep(tasks, s0, s0[id]);
        tasks := TryStatic(statics[id], peers, tasks, all, d0);
      }
    }

    /** Dials random nodes for half of the missing dynamic dials. */
    method DialRandom(random: seq<Node>, need0: int, peers: Peers, tasks0: seq<Task>, ghost all: seq<Task>,
                      ghost d0: map<Id, Flag>)
      returns (tasks: seq<Task>, need: int)
      requires Planned(all, tasks0, d0, dialing, lookupRunning, Rules(peers))
               && need0 == maxDynDials - |DynPeers(peers)| - |DynDialing(dialing)|
      modifies this`dialing
      ensures Planned(all, tasks, d0, dialing, lookupRunning, Rules(peers))
              && need == maxDynDials - |DynPeers(peers)| - |DynDialing(dialing)|
      ensures need0 >= 0 ==> need >= 0
      ensures need0 < 2 ==> dialing == old(dialing) && tasks == tasks0
      ensures Picked(tasks0, tasks, random) && old(dialing).Keys <= dialing.Keys
      ensures forall i :: 0 <= i < need0 / 2 && i < |random| ==> Tried(random[i], dialing, Rules(peers))
    {
      hide Planned, DynDialing, DynPeers;
      tasks, need := tasks0, need0;
      var randomCandidates := need / 2;
      if randomCandidates > 0 {
        var i := 0;
        while i < randomCandidates && i < |random|
          invariant 0 <= i <= randomCandidates && need0 - i <= need <= need0 && Picked(tasks0, tasks, random)
          invariant old(dialing).Keys <= dialing.Keys
          invariant Planned(all, tasks, d0, dialing, lookupRunning, Rules(peers))
                    && need == maxDynDials - |DynPeers(peers)| - |DynDialing(dialing)|
          invariant forall j :: 0 <= j < i && j < |random| ==> Tried(random[j], dialing, Rules(peers))
        {
          var ok, more := AddDial(Dyn, random[i], peers, tasks, all, d0);
          if ok { need := need - 1; }
          tasks, i := more, i + 1;
        }
      }
    }

    /** Dials lookup results while dynamic dials are missing, and keeps the rest for later. */
    method DialLookups(need0: int, peers: Peers, tasks0: seq<Task>, ghost all: seq<Task>, ghost d0: map<Id, Flag>)
      returns (tasks: seq<Task>, need: int)
      requires Planned(all, tasks0, d0, dialing, lookupRunning, Rules(peers))
               && need0 == maxDynDials - |DynPeers(peers)| - |DynDialing(dialing)|
      modifies this`dialing, this`lookupBuf
      ensures Planned(all, tasks, d0, dialing, lookupRunning, Rules(peers))
              && need == maxDynDials - |DynPeers(peers)| - |DynDialing(dialing)|
      ensures need0 >= 0 ==> need >= 0
      ensures need0 <= 0 ==> dialing == old(dialing) && tasks == tasks0 && lookupBuf == old(lookupBuf)
      ensures |lookupBuf| <= |old(lookupBuf)| && lookupBuf == old(lookupBuf)[|old(lookupBuf)| - |lookupBuf|..]
      ensures need > 0 ==> lookupBuf == []
      ensures Picked(tasks0, tasks, old(lookupBuf)) && old(dialing).Keys <= dialing.Keys
      ensures forall i :: 0 <= i < |old(lookupBuf)| - |lookupBuf| ==> Tried(old(lookupBuf)[i], dialing, Rules(peers))
    {
      hide Planned, DynDialing, DynPeers;
      tasks, need := tasks0, need0;
      var i := 0;
      while i < |lookupBuf| && need > 0
        invariant 0 <= i <= |lookupBuf| && lookupBuf == old(lookupBuf) && need <= need0 && (need0 >= 0 ==> need >= 0)
        invariant Planned(all, tasks, d0, dialing, lookupRunning, Rules(peers))
                  && need == maxDynDials - |DynPeers(peers)| - |DynDialing(dialing)|
        invariant need0 <= 0 ==> dialing == old(dialing) && tasks == tasks0 && i == 0
        invariant old(dialing).Keys <= dialing.Keys
        invariant Picked(tasks0, tasks, lookupBuf) && forall j :: 0 <= j < i ==>
                    Tried(lookupBuf[j], dialing, Rules(peers))
      {
        var ok, more := AddDial(Dyn, lookupBuf[i], peers, tasks, all, d0);
        if ok { need := need - 1; }
        tasks, i := more, i + 1;
      }
      lookupBuf := lookupBuf[i..];
    }

    /** Without any peer, dials the next bootnode once the fallback interval is over. */
    method DialBootnode(need0: int, peers: Peers, now: nat, tasks0: seq<Task>, ghost all: seq<Task>,
                        ghost d0: map<Id, Flag>)
      returns (tasks: seq<Task>, need: int)
      requires Planned(all, tasks0, d0, dialing, lookupRunning, Rules(peers)) && start.Some?
      requires need0 == maxDynDials - |DynPeers(peers)| - |DynDialing(dialing)|
      modifies this`dialing, this`bootnodes
      ensures Planned(all, tasks, d0, dialing, lookupRunning, Rules(peers))
      ensures need == maxDynDials - |DynPeers(peers)| - |DynDialing(dialing)| && (need0 >= 0 ==> need >= 0)
      ensures need0 <= 0 ==> dialing == old(dialing) && tasks == tasks0
      ensures multiset(bootnodes) == multiset(old(bootnodes)) && Picked(tasks0, tasks, old(bootnodes))
      ensures if peers == map[] && old(bootnodes) != [] && need0 > 0 && now - start.value > FALLBACK_INTERVAL
              then var n := old(bootnodes)[0];
                   && bootnodes == old(bootnodes)[1..] + [n] && Tried(n, dialing, Rules(peers))
                   && if old(CheckDial(n, peers)).None?
                      then tasks == tasks0 + [Dial(Dyn, n)] && dialing == old(dialing)[n.id := Dyn]
                      else tasks == tasks0 && dialing == old(dialing)
              else tasks == tasks0 && dialing == old(dialing) && bootnodes == old(bootnodes)
    {
      hide Planned, DynDialing, DynPeers;
      tasks, need := tasks0, need0;
      if |peers| == 0 && |bootnodes| > 0 && need > 0 && now - start.value > FALLBACK_INTERVAL {
        var bootnode := bootnodes[0];
        assert bootnodes == [bootnode] + bootnodes[1..];
        bootnodes := bootnodes[1..] + [bootnode];
        var ok, more := AddDial(Dyn, bootnode, peers, tasks, all, d0);
        if ok { need := need - 1; }
        tasks := more;
      }
    }

    /**
     * The tasks to add in this round. Dynamic dials are only planned while there is room for them,
     * and no node is dialed again within the expiration time after its last dial ended. Every static
     * node that may be dialed is; while dynamic dials are missing a lookup is out and no candidate is
     * held back; and with nothing else to do a timer waits for the oldest history entry.
     */
    method NewTasks(nRunning: nat, peers: Peers, now: nat, random: seq<Node>, ghost all: seq<Task>)
      returns (tasks: seq<Task>)
      requires Valid() && now >= clock && Booked(all, dialing, lookupRunning) && nRunning == |all|
      modifies this
      ensures Valid() && clock == now && lastDone == old(lastDone)
      ensures Booked(all + tasks, dialing, lookupRunning) && NewDials(tasks, old(dialing), dialing)
              && AllEligible(tasks, Rules(peers))
      ensures |DynNodes(dialing, peers)| <= maxDynDials || DynNodes(dialing, peers) == old(DynNodes(dialing, peers))
      ensures forall t :: t in tasks && t.Dial? && t.dest.id in lastDone ==>
                lastDone[t.dest.id] + DIAL_HISTORY_EXPIRATION < now
      ensures forall t :: t in tasks && t.WaitExpire? ==>
                && all == [] && tasks == [t] && t.duration >= 0
                && (exists p :: p in hist && p.exp == now + t.duration)
                && forall p :: p in hist ==> p.exp >= now + t.duration
      ensures all == [] && hist != [] ==> tasks != []
      ensures |DynPeers(peers)| + |DynDialing(dialing)| < maxDynDials ==> lookupRunning && lookupBuf == []
      ensures Discover in tasks <==>
              !old(lookupRunning) && |DynPeers(peers)| + |DynDialing(dialing)| + |lookupBuf| < maxDynDials
      ensures |lookupBuf| <= |old(lookupBuf)| && lookupBuf == old(lookupBuf)[|old(lookupBuf)| - |lookupBuf|..]
      ensures forall t :: t in tasks && t.Dial? ==>
                var n := t.dest;
                && n.id !in old(dialing) && n.id !in peers && self != Some(n.id)
                && (allowed.Some? ==> n.ip in allowed.value) && (forall p :: p in hist ==> p.id != n.id)
                && if t.flag.Static? then n.id in old(statics) && n == old(statics)[n.id]
                   else n in old(bootnodes) || n in random || n in old(lookupBuf)
      ensures forall id ::
                (&& id in old(statics) && id !in old(dialing) && id !in peers && self != Some(id)
                 && (allowed.Some? ==> old(statics)[id].ip in allowed.value)
                 && (forall p :: p in hist ==> p.id != id)) ==>
                Dial(Static, old(statics)[id]) in tasks
      ensures forall id :: id in old(statics) ==>
                (id in statics <==>
                 (|| id in old(dialing) || id in peers
                  || (self != Some(id) && (allowed.Some? ==> old(statics)[id].ip in allowed.value))))
      ensures forall id :: id in statics ==> id in old(statics) && statics[id] == old(statics)[id]
      ensures start == Some(if old(start).None? then now else old(start).value)
      ensures if peers == map[] && old(bootnodes) != [] && now - start.value > FALLBACK_INTERVAL
                 && |DynPeers(peers)| + |DynDialing(old(dialing))| < maxDynDials
              then bootnodes == old(bootnodes)[1..] + [old(bootnodes)[0]]
                   && Tried(old(bootnodes)[0], dialing, Rules(peers))
              else bootnodes == old(bootnodes)
    {
      hide MinHeap.IsHeap, Booked, NewDials, Planned, DynNodes, Remembered, DynDialing, DynPeers, Eligible, Sourced,
        Recent, AllEligible, Tried, StaticsKept;
      if start.None? { start := Some(now); }
      ghost var d0, s0 := dialing, statics;
      var need := NeedDynDials(peers);
      Expire(now);
      PlanStart(all, d0, lookupRunning, Rules(peers));
      tasks, need := PlanDials(need, peers, now, random, all);
      PlannedHistory(all, tasks, d0, dialing, lookupRunning, Rules(peers), lastDone, now);
      StaticsMean(statics, s0, d0, Rules(peers));
      PlannedMeans(all, tasks, d0, dialing, lookupRunning, Rules(peers), s0, old(bootnodes), random, old(lookupBuf));
      tasks := AddLookup(need, peers, tasks, all, d0);
      tasks := AddTimer(nRunning, peers, now, tasks, all, d0);
    }

    /** The four sources of dials, one after the other. */
    method PlanDials(need0: int, peers: Peers, now: nat, random: seq<Node>, ghost all: seq<Task>)
      returns (tasks: seq<Task>, need: int)
      requires Planned(all, [], dialing, dialing, lookupRunning, Rules(peers)) && start.Some?
      requires need0 == maxDynDials - |DynPeers(peers)| - |DynDialing(dialing)|
      requires forall id :: id in statics ==> statics[id].id == id
      modifies this`dialing, this`statics, this`bootnodes, this`lookupBuf
      ensures Planned(all, tasks, old(dialing), dialing, lookupRunning, Rules(peers))
      ensures |DynNodes(dialing, peers)| <= maxDynDials || DynNodes(dialing, peers) == DynNodes(old(dialing), peers)
      ensures StaticsKept(statics, old(statics), old(dialing), Rules(peers))
      ensures Sourced(tasks, old(statics), old(bootnodes) + random + old(lookupBuf))
      ensures if peers == map[] && old(bootnodes) != [] && need0 > 0 && now - start.value > FALLBACK_INTERVAL
              then bootnodes == old(bootnodes)[1..] + [old(bootnodes)[0]]
                   && Tried(old(bootnodes)[0], dialing, Rules(peers))
              else bootnodes == old(bootnodes)
      ensures |lookupBuf| <= |old(lookupBuf)| && lookupBuf == old(lookupBuf)[|old(lookupBuf)| - |lookupBuf|..]
      ensures need == maxDynDials - |DynPeers(peers)| - |DynDialing(dialing)| && (need > 0 ==> lookupBuf == [])
      ensures forall id :: id in old(statics) && id !in old(dialing) && Eligible(old(statics)[id], Rules(peers)) ==>
                Dial(Static, old(statics)[id]) in tasks
    {
      hide Planned, DynDialing, DynPeers, DynNodes, Sourced, Picked, AllStatic, StaticsKept,
        Eligible, CheckDial;
      ghost var d0 := dialing;
      tasks := DialStatic(peers, all);
      ghost var d1 := dialing;
      PlannedKeeps(all, tasks, d0, d1, lookupRunning, Rules(peers));
      ghost var t1 := tasks;
      tasks, need := DialBootnode(need0, peers, now, tasks, all, d0);
      ghost var t2 := tasks;
      tasks, need := DialRandom(random, need, peers, tasks, all, d0);
      ghost var t3 := tasks;
      tasks, need := DialLookups(need, peers, tasks, all, d0);
      Room(d0, d1, dialing, peers, maxDynDials, need0, need);
      PickedAll(t1, t2, t3, tasks, old(statics), old(bootnodes), random, old(lookupBuf));
    }

    /** Starts a lookup if there are too few candidates and none is running. */
    method AddLookup(need: int, peers: Peers, tasks0: seq<Task>, ghost all: seq<Task>, ghost d0: map<Id, Flag>)
      returns (tasks: seq<Task>)
      requires Planned(all, tasks0, d0, dialing, lookupRunning, Rules(peers))
      modifies this`lookupRunning
      ensures Planned(all, tasks, d0, dialing, lookupRunning, Rules(peers))
      ensures tasks == if |lookupBuf| < need && !old(lookupRunning) then tasks0 + [Discover] else tasks0
      ensures lookupRunning == (old(lookupRunning) || |lookupBuf| < need)
    {
      hide Booked;
      tasks := tasks0;
      if |lookupBuf| < need && !lookupRunning {
        BookOther(all + tasks, dialing, lookupRunning, Discover);
        lookupRunning := true;
        tasks := tasks + [Discover];
        assert all + tasks == all + tasks0 + [Discover];
      }
    }

    /** Waits for the oldest history entry if there is nothing else to do. */
    method AddTimer(nRunning: nat, peers: Peers, now: nat, tasks0: seq<Task>, ghost all: seq<Task>,
                    ghost d0: map<Id, Flag>)
      returns (tasks: seq<Task>)
      requires Planned(all, tasks0, d0, dialing, lookupRunning, Rules(peers)) && nRunning == |all|
      requires MinHeap.IsHeap(hist, ExpKey) && forall p :: p in hist ==> p.exp >= now
      ensures Booked(all + tasks, dialing, lookupRunning) && NewDials(tasks, d0, dialing)
              && AllEligible(tasks, Rules(peers))
      ensures if nRunning == 0 && tasks0 == [] && hist != [] then tasks == [WaitExpire(hist[0].exp - now)]
              else tasks == tasks0
      ensures forall t :: t in tasks && t.Dial? ==> t in tasks0
      ensures forall t :: t in tasks && t.WaitExpire? ==>
                && all == [] && tasks == [t] && t.duration >= 0
                && (exists p :: p in hist && p.exp == now + t.duration)
                && forall p :: p in hist ==> p.exp >= now + t.duration
    {
      hide Booked, MinHeap.IsHeap;
      tasks := tasks0;
      if nRunning == 0 && |tasks| == 0 && |hist| > 0 {
        assert hist[0] in hist;
        forall p | p in hist ensures p.exp >= hist[0].exp { FrontFirst(hist, p); }
        var t := WaitExpire(hist[0].exp - now);
        BookOther(all + tasks, dialing, lookupRunning, t);
        tasks := tasks + [t];
        assert all + tasks == all + tasks0 + [t];
      }
    }

    /** Takes a finished task off the books; a dial goes into the history. */
    method TaskDone(t: Task, results: seq<Node>, now: nat)
      requires Valid() && now >= clock
      modifies this`dialing, this`hist, this`lookupRunning, this`lookupBuf, this`lastDone, this`clock
      ensures Valid() && clock == now
      ensures dialing == (if t.Dial? then old(dialing) - {t.dest.id} else old(dialing))
      ensures lookupRunning == (old(lookupRunning) && !t.Discover?)
      ensures lookupBuf == (if t.Discover? then old(lookupBuf) + results else old(lookupBuf))
      ensures lastDone == (if t.Dial? then old(lastDone)[t.dest.id := now] else old(lastDone))
      ensures multiset(hist) == if t.Dial?
                                then multiset(old(hist)) + multiset{PastDial(t.dest.id, now + DIAL_HISTORY_EXPIRATION)}
                                else multiset(old(hist))
    {
      hide MinHeap.IsHeap;
      clock := now;
      if t.Dial? {
        var h := MinHeap.Push(hist, PastDial(t.dest.id, now + DIAL_HISTORY_EXPIRATION), ExpKey);
        forall p | p in hist || p == PastDial(t.dest.id, now + DIAL_HISTORY_EXPIRATION) ensures p in h {
          assert p in multiset(h);
        }
        hist := h;
        dialing := dialing - {t.dest.id};
        lastDone := lastDone[t.dest.id := now];
      } else if t.Discover? {
        lookupRunning := false;
        lookupBuf := lookupBuf + results;
      }
    }
  }

  /** Of the static nodes exactly those are dropped that are neither dialed nor connected and never can be. */
  ghost predicate StaticsKept(statics: map<Id, Node>, was: map<Id, Node>, dialing: map<Id, Flag>, r: Limits) {
    && (forall id :: id in was ==>
          (id in statics <==> id in dialing || id in r.peers || !Hopeless(was[id], r.self, r.allowed)))
    && (forall id :: id in statics ==> id in was && statics[id] == was[id])
  }

  /** The tasks are dials of nodes in the list of static ones. */
  ghost predicate AllStatic(tasks: seq<Task>, statics: map<Id, Node>) {
    forall t :: t in tasks ==>
      t.Dial? && t.flag.Static? && t.dest.id in statics && t.dest == statics[t.dest.id]
  }

  lemma NoStatic(statics: map<Id, Node>)
    ensures AllStatic([], statics)
  {
  }

  lemma StaticStep(tasks: seq<Task>, statics: map<Id, Node>, n: Node)
    requires AllStatic(tasks, statics) && n.id in statics && n == statics[n.id]
    ensures AllStatic(tasks + [Dial(Static, n)], statics)
  {
  }

  /** The tasks added are dynamic dials of candidates. */
  ghost predicate Picked(tasks0: seq<Task>, tasks: seq<Task>, candidates: seq<Node>) {
    tasks0 <= tasks && forall t :: t in tasks[|tasks0|..] ==> t.Dial? && t.flag.Dyn? && t.dest in candidates
  }

  /** The tasks are dials of static nodes, and dynamic dials of candidates. */
  ghost predicate Sourced(tasks: seq<Task>, statics: map<Id, Node>, candidates: seq<Node>) {
    forall t :: t in tasks ==>
      t.Dial? && if t.flag.Static? then t.dest.id in statics && t.dest == statics[t.dest.id] else t.dest in candidates
  }

  lemma PickedAll(t1: seq<Task>, t2: seq<Task>, t3: seq<Task>, t4: seq<Task>, statics: map<Id, Node>, boot: seq<Node>,
                  random: seq<Node>, found: seq<Node>)
    requires AllStatic(t1, statics) && Picked(t1, t2, boot) && Picked(t2, t3, random) && Picked(t3, t4, found)
    ensures Sourced(t4, statics, boot + random + found) && forall t :: t in t1 ==> t in t4
  {
    assert t2 == t1 + t2[|t1|..] && t3 == t2 + t3[|t2|..] && t4 == t3 + t4[|t3|..];
    forall t | t in t4
      ensures t.Dial?
      ensures if t.flag.Static? then t.dest.id in statics && t.dest == statics[t.dest.id]
              else t.dest in boot + random + found
    {
      assert t in t1 || t in t2[|t1|..] || t in t3[|t2|..] || t in t4[|t3|..];
    }
  }

  /** A candidate that was tried is being dialed now, or may not be. */
  ghost predicate Tried(n: Node, dialing: map<Id, Flag>, r: Limits) {
    n.id in dialing || !Eligible(n, r)
  }

  /** A static node that can never be dialed. */
  predicate Hopeless(n: Node, self: Option<Id>, allowed: Option<set<Ip>>) {
    self == Some(n.id) || (allowed.Some? && n.ip !in allowed.value)
  }

  /** The dial tasks of `tasks` are exactly what was added to the dialing map. */
  ghost predicate NewDials(tasks: seq<Task>, was: map<Id, Flag>, now: map<Id, Flag>) {
    && (forall t :: t in tasks && t.Dial? ==> t.dest.id !in was && t.dest.id in now && now[t.dest.id] == t.flag)
    && (forall id :: id in was ==> id in now && now[id] == was[id])
    && (forall id :: id in now && id !in was ==> exists t :: t in tasks && IsDial(t, id))
  }

  lemma NewDialsStep(tasks: seq<Task>, was: map<Id, Flag>, now: map<Id, Flag>, flag: Flag, n: Node)
    requires NewDials(tasks, was, now) && n.id !in now
    ensures NewDials(tasks + [Dial(flag, n)], was, now[n.id := flag])
  {
    var more, now2 := tasks + [Dial(flag, n)], now[n.id := flag];
    forall id | id in now2 && id !in was ensures exists t :: t in more && IsDial(t, id) {
      if id == n.id {
        assert IsDial(Dial(flag, n), id) && Dial(flag, n) in more;
      } else {
        var t :| t in tasks && IsDial(t, id);
        assert t in more;
      }
    }
  }

  ghost predicate AllEligible(tasks: seq<Task>, r: Limits) {
    forall t :: t in tasks && t.Dial? ==> Eligible(t.dest, r)
  }

  /** A node that is not connected, not this one, allowed, and not dialed recently. */
  predicate Eligible(n: Node, r: Limits) {
    n.id !in r.peers && r.self != Some(n.id) && (r.allowed.Some? ==> n.ip in r.allowed.value) && !Recent(r.hist, n.id)
  }

  /** `tasks` has been planned on top of `all`, starting from the dialing map `d0`. */
  ghost predicate Planned(all: seq<Task>, tasks: seq<Task>, d0: map<Id, Flag>, dialing: map<Id, Flag>, lookup: bool,
                          r: Limits) {
    && Booked(all + tasks, dialing, lookup) && NewDials(tasks, d0, dialing) && AllEligible(tasks, r)
    && forall t :: t in tasks ==> !t.WaitExpire?
  }

  lemma StillIn<T>(h: seq<T>, rest: seq<T>, x: T, p: T)
    requires multiset(rest) == multiset(h) - multiset{x} && p in h && p != x
    ensures p in rest
  {
    assert p in multiset(h);
    assert p in multiset(rest);
  }

  lemma FrontFirst(h: seq<PastDial>, p: PastDial)
    requires MinHeap.IsHeap(h, ExpKey) && p in h
    ensures h[0].exp <= p.exp
  {
    var i :| 0 <= i < |h| && h[i] == p;
    MinHeap.HeapMin(h, ExpKey, i);
  }

  lemma PlanStart(all: seq<Task>, dialing: map<Id, Flag>, lookup: bool, r: Limits)
    requires Booked(all, dialing, lookup)
    ensures Planned(all, [], dialing, dialing, lookup, r)
  {
    assert all + [] == all;
  }

  lemma PlannedKeeps(all: seq<Task>, tasks: seq<Task>, d0: map<Id, Flag>, dialing: map<Id, Flag>, lookup: bool,
                     r: Limits)
    requires Planned(all, tasks, d0, dialing, lookup, r)
    ensures forall id :: id in d0 ==> id in dialing && dialing[id] == d0[id]
  {
  }

  /** A round either had room for what it planned or planned no dynamic dial. */
  lemma Room(d0: map<Id, Flag>, d1: map<Id, Flag>, d2: map<Id, Flag>, peers: Peers, max: nat, need0: int, need: int)
    requires need0 == max - |DynPeers(peers)| - |DynDialing(d0)| && need == max - |DynPeers(peers)| - |DynDialing(d2)|
    requires |DynDialing(d1)| == |DynDialing(d0)| && (need0 >= 0 ==> need >= 0) && (need0 <= 0 ==> d2 == d1)
    requires forall id :: id in d0 ==> id in d1 && d1[id] == d0[id]
    ensures |DynNodes(d2, peers)| <= max || DynNodes(d2, peers) == DynNodes(d0, peers)
  {
    UnionSize(DynDialing(d2), DynPeers(peers));
    if need0 < 0 {
      assert DynDialing(d0) <= DynDialing(d1);
      SameSize(DynDialing(d0), DynDialing(d1));
    }
  }

  lemma StaticsMean(statics: map<Id, Node>, was: map<Id, Node>, d0: map<Id, Flag>, r: Limits)
    requires StaticsKept(statics, was, d0, r) && forall id :: id in was ==> was[id].id == id
    ensures forall id :: id in was ==>
              (id in statics <==>
               (|| id in d0 || id in r.peers
                || (r.self != Some(id) && (r.allowed.Some? ==> was[id].ip in r.allowed.value))))
    ensures forall id :: id in statics ==> id in was && statics[id] == was[id]
  {
  }

  /** Who is dialed, spelled out. */
  lemma PlannedMeans(all: seq<Task>, tasks: seq<Task>, d0: map<Id, Flag>, dialing: map<Id, Flag>, lookup: bool,
                     r: Limits, statics: map<Id, Node>, boot: seq<Node>, random: seq<Node>, found: seq<Node>)
    requires Planned(all, tasks, d0, dialing, lookup, r) && Sourced(tasks, statics, boot + random + found)
    requires forall id :: id in statics && id !in d0 && Eligible(statics[id], r) ==> Dial(Static, statics[id]) in tasks
    requires forall id :: id in statics ==> statics[id].id == id
    ensures forall t :: t in tasks ==>
              && t.Dial? && t.dest.id !in d0 && t.dest.id !in r.peers && r.self != Some(t.dest.id)
              && (r.allowed.Some? ==> t.dest.ip in r.allowed.value)
              && (forall p :: p in r.hist ==> p.id != t.dest.id)
              && if t.flag.Static? then t.dest.id in statics && t.dest == statics[t.dest.id]
                 else t.dest in boot || t.dest in random || t.dest in found
    ensures forall id ::
              (&& id in statics && id !in d0 && id !in r.peers && r.self != Some(id)
               && (r.allowed.Some? ==> statics[id].ip in r.allowed.value)
               && (forall p :: p in r.hist ==> p.id != id)) ==>
              Dial(Static, statics[id]) in tasks
  {
    hide Booked;
  }

  /** Whoever may be dialed now was not dialed within the expiration time. */
  lemma PlannedHistory(all: seq<Task>, tasks: seq<Task>, d0: map<Id, Flag>, dialing: map<Id, Flag>, lookup: bool,
                       r: Limits, lastDone: map<Id, nat>, now: nat)
    requires Planned(all, tasks, d0, dialing, lookup, r) && Remembered(r.hist, lastDone, now)
    ensures forall t :: t in tasks && t.Dial? && t.dest.id in lastDone ==>
              lastDone[t.dest.id] + DIAL_HISTORY_EXPIRATION < now
  {
    forall t | t in tasks && t.Dial? && t.dest.id in lastDone
      ensures lastDone[t.dest.id] + DIAL_HISTORY_EXPIRATION < now
    {
      assert Eligible(t.dest, r);
      assert !Recent(r.hist, t.dest.id);
      assert PastDial(t.dest.id, lastDone[t.dest.id] + DIAL_HISTORY_EXPIRATION) !in r.hist;
    }
  }

  // ----- the server loop

  datatype Discard = UselessPeer | TooManyPeers | AlreadyPeer | SelfConnect | UnexpectedIdentity

  /** The checks before a connection becomes a peer. */
  function EncHandshakeChecks(peers: Peers, id: Id, flags: ConnFlags, maxPeers: nat, self: Id): Option<Discard> {
    if !(flags.trusted || flags.fixed) && |peers| >= maxPeers then Some(TooManyPeers)
    else if id in peers then Some(AlreadyPeer)
    else if id == self then Some(SelfConnect)
    else None
  }

  function FlagsOf(dialed: Option<Task>, trusted: bool): ConnFlags
    requires dialed.Some? ==> dialed.value.Dial?
  {
    if dialed.None? then ConnFlags(false, false, true, trusted)
    else ConnFlags(dialed.value.flag.Dyn?, dialed.value.flag.Static?, false, trusted)
  }

  /** Peers that count against the maximum when they join: neither trusted nor static. */
  ghost function Ordinary(peers: Peers): set<Id> {
    set id | id in peers && !peers[id].trusted && !peers[id].fixed
  }

  lemma OrdinaryJoin(peers: Peers, id: Id, flags: ConnFlags, max: nat)
    requires |Ordinary(peers)| <= max && id !in peers && (flags.trusted || flags.fixed || |peers| < max)
    ensures |Ordinary(peers[id := flags])| <= max
  {
    if flags.trusted || flags.fixed {
      assert Ordinary(peers[id := flags]) == Ordinary(peers);
    } else {
      SubsetSize(Ordinary(peers), peers.Keys);
      assert Ordinary(peers[id := flags]) == Ordinary(peers) + {id};
    }
  }

  lemma OrdinaryLeave(peers: Peers, id: Id)
    ensures |Ordinary(peers - {id})| <= |Ordinary(peers)|
  {
    SubsetSize(Ordinary(peers - {id}), Ordinary(peers));
  }

  // ----- what was dialed when

  datatype LogEntry = PlannedDial(id: Id, at: nat) | EndedDial(id: Id, at: nat)

  /** The log entries of the dials among `ts`, planned now. */
  ghost function Plans(ts: seq<Task>, now: nat): seq<LogEntry> {
    if ts == [] then []
    else Plans(ts[..|ts| - 1], now) + if ts[|ts| - 1].Dial? then [PlannedDial(ts[|ts| - 1].dest.id, now)] else []
  }

  lemma {:induction false} PlansMean(ts: seq<Task>, now: nat)
    ensures forall e :: e in Plans(ts, now) ==> exists t :: t in ts && t.Dial? && e == PlannedDial(t.dest.id, now)
  {
    if ts != [] {
      var front, last := ts[..|ts| - 1], ts[|ts| - 1];
      PlansMean(front, now);
      forall e | e in Plans(ts, now) ensures exists t :: t in ts && t.Dial? && e == PlannedDial(t.dest.id, now) {
        if e in Plans(front, now) {
          var t :| t in front && t.Dial? && e == PlannedDial(t.dest.id, now);
          assert t in ts;
        } else {
          assert last in ts;
        }
      }
    }
  }

  /** A dial planned after another of the same node ended is planned more than the expiration later. */
  ghost predicate NoEarlyRedial(log: seq<LogEntry>) {
    forall i, j :: 0 <= i < j < |log| && log[i].EndedDial? && log[j].PlannedDial? && log[i].id == log[j].id ==>
                     log[j].at > log[i].at + DIAL_HISTORY_EXPIRATION
  }

  /** The dialer remembers for each node an end at least as late as any in the log. */
  ghost predicate Logged(log: seq<LogEntry>, lastDone: map<Id, nat>, clock: nat) {
    forall e :: e in log ==> e.at <= clock && (e.EndedDial? ==> e.id in lastDone && e.at <= lastDone[e.id])
  }

  lemma LogPlans(log: seq<LogEntry>, lastDone: map<Id, nat>, clock: nat, ts: seq<Task>, now: nat)
    requires NoEarlyRedial(log) && Logged(log, lastDone, clock) && clock <= now
    requires forall t :: t in ts && t.Dial? && t.dest.id in lastDone ==>
               lastDone[t.dest.id] + DIAL_HISTORY_EXPIRATION < now
    ensures NoEarlyRedial(log + Plans(ts, now)) && Logged(log + Plans(ts, now), lastDone, now)
  {
    PlansMean(ts, now);
    var more := log + Plans(ts, now);
    assert forall k :: |log| <= k < |more| ==> more[k] in Plans(ts, now);
    forall i, j | 0 <= i < j < |more| && more[i].EndedDial? && more[j].PlannedDial? && more[i].id == more[j].id
      ensures more[j].at > more[i].at + DIAL_HISTORY_EXPIRATION
    {
      assert more[i] in log;
      if j >= |log| {
        var t :| t in ts && t.Dial? && more[j] == PlannedDial(t.dest.id, now);
      }
    }
  }

  lemma LogEnd(log: seq<LogEntry>, lastDone: map<Id, nat>, clock: nat, id: Id, now: nat)
    requires NoEarlyRedial(log) && Logged(log, lastDone, clock) && clock <= now
    ensures NoEarlyRedial(log + [EndedDial(id, now)]) && Logged(log + [EndedDial(id, now)], lastDone[id := now], now)
    ensures Logged(log, lastDone, now)
  {
  }

  // ----- the loop

  /** A connection that has passed the first checkpoint. */
  datatype HalfConn = HalfConn(id: Id, flags: ConnFlags, dialed: Option<Task>)

  /** It was accepted, or a running task dialed it and it showed the identity that was dialed. */
  ghost predicate HalfOk(h: HalfConn, running: seq<Task>) {
    && (h.dialed.Some? ==> h.dialed.value.Dial? && h.dialed.value in running && h.dialed.value.dest.id == h.id)
    && h.flags == FlagsOf(h.dialed, h.flags.trusted)
  }

  class Server {
    const dialer: DialState
    const maxPeers: nat
    const self: Id
    const trusted: set<Id>
    var peers: Peers
    var running: seq<Task>
    var queued: seq<Task>
    /** Connections between the two checkpoints, by number. */
    var handshakes: map<nat, HalfConn>
    ghost var log: seq<LogEntry>

    /** What holds between any two events of the loop. */
    ghost predicate Valid()
      reads this, dialer
    {
      && dialer.Valid()
      && Booked(running + queued, dialer.dialing, dialer.lookupRunning)
      && |running| <= MAX_ACTIVE_DIAL_TASKS
      && |DynNodes(dialer.dialing, peers)| <= dialer.maxDynDials
      && |Ordinary(peers)| <= maxPeers && self !in peers
      && (forall c :: c in handshakes ==> HalfOk(handshakes[c], running))
      && NoEarlyRedial(log) && Logged(log, dialer.lastDone, dialer.clock)
    }

    constructor (d: DialState, maxpeers: nat, me: Id, trustedNodes: set<Id>)
      requires d.Valid() && d.dialing == map[] && !d.lookupRunning
      ensures Valid() && dialer == d && peers == map[] && running == [] && queued == [] && log == []
              && handshakes == map[]
    {
      dialer, maxPeers, self, trusted := d, maxpeers, me, trustedNodes;
      peers, running, queued, handshakes, log := map[], [], [], map[], [];
      new;
      assert DynNodes(map[], map[]) == {} && Ordinary(map[]) == {};
    }

    /** Starts tasks until the maximum is running; returns those that have to wait. */
    method StartTasks(ts: seq<Task>) returns (rest: seq<Task>)
      requires |running| <= MAX_ACTIVE_DIAL_TASKS
      modifies this`running
      ensures |running| <= MAX_ACTIVE_DIAL_TASKS && running + rest == old(running) + ts
      ensures old(running) <= running && (rest != [] ==> |running| == MAX_ACTIVE_DIAL_TASKS)
    {
      var i := 0;
      while |running| < MAX_ACTIVE_DIAL_TASKS && i < |ts|
        invariant 0 <= i <= |ts| && |running| <= MAX_ACTIVE_DIAL_TASKS && running == old(running) + ts[..i]
      {
        running := running + [ts[i]];
        i := i + 1;
      }
      rest := ts[i..];
      assert ts == ts[..i] + ts[i..];
    }

    /** Starts queued tasks, then asks the dialer for more if there is room. */
    method ScheduleTasks(now: nat, random: seq<Node>) returns (ghost planned: seq<Task>)
      requires Valid() && now >= dialer.clock
      modifies this`running, this`queued, this`log, dialer
      ensures Valid() && old(dialer.clock) <= dialer.clock <= now
      ensures queued != [] ==> |running| == MAX_ACTIVE_DIAL_TASKS
      ensures running + queued == old(running + queued) + planned && old(running) <= running
      ensures |old(running + queued)| >= MAX_ACTIVE_DIAL_TASKS ==> planned == [] && dialer.clock == old(dialer.clock)
      ensures |old(running + queued)| < MAX_ACTIVE_DIAL_TASKS ==>
                && dialer.clock == now
                && (|DynPeers(peers)| + |DynDialing(dialer.dialing)| < dialer.maxDynDials ==>
                    dialer.lookupRunning && dialer.lookupBuf == [])
                && forall id ::
                     (&& id in old(dialer.statics) && id !in old(dialer.dialing) && id !in peers
                      && dialer.self != Some(id)
                      && (dialer.allowed.Some? ==> old(dialer.statics)[id].ip in dialer.allowed.value)
                      && (forall p :: p in dialer.hist ==> p.id != id)) ==>
                     Dial(Static, old(dialer.statics)[id]) in planned
      ensures log == old(log) + Plans(planned, now)
      ensures forall t :: t in planned && t.Dial? && t.dest.id in dialer.lastDone ==>
                dialer.lastDone[t.dest.id] + DIAL_HISTORY_EXPIRATION < now
      ensures dialer.lastDone == old(dialer.lastDone)
    {
      hide Booked, NewDials, AllEligible, DynNodes, Eligible, DynPeers, DynDialing, NoEarlyRedial, Logged, HalfOk,
        Plans,
        Ordinary;
      planned := [];
      queued := StartTasks(queued);
      HalvesKept(handshakes, old(running), running);
      NoPlans(log, now);
      if |running| < MAX_ACTIVE_DIAL_TASKS {
        assert queued == [];
        ghost var all := running;
        assert running + queued == all;
        var nt := dialer.NewTasks(|running| + |queued|, peers, now, random, all);
        LogPlans(log, dialer.lastDone, old(dialer.clock), nt, now);
        var rest := StartTasks(nt);
        HalvesKept(handshakes, all, running);
        queued := queued + rest;
        assert running + queued == all + nt;
        planned, log := nt, log + Plans(nt, now);
      }
    }

    /** A task got done. A dial task is only done when its connection has been added or discarded. */
    method TaskDone(k: nat, results: seq<Node>, now: nat)
      requires Valid() && k < |running| && now >= dialer.clock
      requires forall c :: c in handshakes ==> handshakes[c].dialed != Some(running[k])
      modifies this`running, this`log, dialer
      ensures Valid() && dialer.clock == now && running == DeleteAt(old(running), k)
      ensures var t := old(running)[k];
              && dialer.lastDone == (if t.Dial? then old(dialer.lastDone)[t.dest.id := now] else old(dialer.lastDone))
              && dialer.lookupBuf == (if t.Discover? then old(dialer.lookupBuf) + results else old(dialer.lookupBuf))
              && log == (if t.Dial? then old(log) + [EndedDial(t.dest.id, now)] else old(log))
              && dialer.dialing == (if t.Dial? then old(dialer.dialing) - {t.dest.id} else old(dialer.dialing))
              && dialer.lookupRunning == (old(dialer.lookupRunning) && !t.Discover?)
      ensures dialer.statics == old(dialer.statics)
    {
      hide Booked, NoEarlyRedial, Logged, DynNodes, HalfOk, Ordinary;
      var t := running[k];
      ghost var d, looking := dialer.dialing, dialer.lookupRunning;
      Unbook(running + queued, d, looking, k);
      assert DeleteAt(running + queued, k) == DeleteAt(running, k) + queued;
      LogEnd(log, dialer.lastDone, dialer.clock, if t.Dial? then t.dest.id else 0, now);
      dialer.TaskDone(t, results, now);
      HalvesLeft(handshakes, running, k);
      running := DeleteAt(running, k);
      if t.Dial? { log := log + [EndedDial(t.dest.id, now)]; }
      if t.Dial? { DynLess(d, t.dest.id, peers); }
    }

    /** The dial that a connection belongs to, if it was not accepted. */
    function DialOf(dialed: Option<nat>): Option<Task>
      requires dialed.Some? ==> dialed.value < |running|
      reads this
    {
      if dialed.Some? then Some(running[dialed.value]) else None
    }

    /** Why a connection is discarded at the first checkpoint: not the node that was dialed, or the checks fail. */
    ghost function FirstVerdict(task: Option<Task>, remote: Id): Option<Discard>
      requires task.Some? ==> task.value.Dial?
      reads this
    {
      if task.Some? && remote != task.value.dest.id then Some(UnexpectedIdentity)
      else EncHandshakeChecks(peers, remote, FlagsOf(task, remote in trusted), maxPeers, self)
    }

    /** Why a connection is discarded at the second checkpoint. */
    ghost function SecondVerdict(h: HalfConn, claimed: Id, useful: bool): Option<Discard>
      reads this
    {
      if claimed != h.id then Some(UnexpectedIdentity)
      else if !useful then Some(UselessPeer)
      else EncHandshakeChecks(peers, h.id, h.flags, maxPeers, self)
    }

    /**
     * A connection is through its encryption handshake: one that was accepted, or the one of a
     * running dial task, which must show the identity that was dialed.
     */
    method PostHandshake(c: nat, dialed: Option<nat>, remote: Id) returns (verdict: Option<Discard>)
      requires Valid() && c !in handshakes
      requires dialed.Some? ==> dialed.value < |running| && running[dialed.value].Dial?
      modifies this`handshakes
      ensures Valid()
      ensures verdict.None? <==>
              && (dialed.Some? ==> remote == running[dialed.value].dest.id)
              && remote !in peers && remote != self
              && (|| |peers| < maxPeers || remote in trusted
                  || (dialed.Some? && running[dialed.value].flag.Static?))
      ensures verdict == Some(UnexpectedIdentity) <==> dialed.Some? && remote != running[dialed.value].dest.id
      ensures verdict == Some(AlreadyPeer) ==> remote in peers
      ensures verdict == Some(SelfConnect) ==> remote == self
      ensures verdict == Some(TooManyPeers) <==>
              && (dialed.Some? ==> remote == running[dialed.value].dest.id && !running[dialed.value].flag.Static?)
              && |peers| >= maxPeers && remote !in trusted
      ensures verdict != Some(UselessPeer)
      ensures verdict.None? ==>
                && c in handshakes && handshakes[c].id == remote && handshakes[c].flags.trusted == (remote in trusted)
                && handshakes[c].flags.inbound == dialed.None?
                && handshakes[c].flags.fixed == (dialed.Some? && running[dialed.value].flag.Static?)
                && handshakes[c].flags.dyn == (dialed.Some? && running[dialed.value].flag.Dyn?)
      ensures verdict == old(FirstVerdict(DialOf(dialed), remote))
      ensures handshakes == if verdict.Some? then old(handshakes)
                            else var task := old(DialOf(dialed));
                                 old(handshakes)[c := HalfConn(remote, FlagsOf(task, remote in trusted), task)]
    {
      hide Booked, NoEarlyRedial, Logged, Ordinary;
      var task := DialOf(dialed);
      if task.Some? && remote != task.value.dest.id { return Some(UnexpectedIdentity); }
      var flags := FlagsOf(task, remote in trusted);
      verdict := EncHandshakeChecks(peers, remote, flags, maxPeers, self);
      if verdict.None? { handshakes := handshakes[c := HalfConn(remote, flags, task)]; }
    }

    /**
     * A connection is through its protocol handshake, which must show the identity of the first
     * one. The checks are made again, and if it passes it becomes a peer.
     */
    method AddPeer(c: nat, claimed: Id, useful: bool) returns (verdict: Option<Discard>)
      requires Valid() && c in handshakes
      modifies this`peers, this`handshakes
      ensures Valid() && handshakes == old(handshakes) - {c}
      ensures var h := old(handshakes)[c];
              && (verdict.None? <==>
                  && claimed == h.id && useful && h.id !in old(peers) && h.id != self
                  && (h.flags.trusted || h.flags.fixed || |old(peers)| < maxPeers))
              && (verdict == Some(UnexpectedIdentity) <==> claimed != h.id)
              && (verdict == Some(UselessPeer) <==> claimed == h.id && !useful)
              && (verdict == Some(AlreadyPeer) ==> h.id in old(peers))
              && (verdict == Some(SelfConnect) ==> h.id == self)
              && (verdict == Some(TooManyPeers) <==>
                  && claimed == h.id && useful
                  && |old(peers)| >= maxPeers && !h.flags.trusted && !h.flags.fixed)
      ensures verdict == old(SecondVerdict(handshakes[c], claimed, useful))
      ensures peers == if verdict.Some? then old(peers)
                       else var h := old(handshakes)[c]; old(peers)[h.id := h.flags]
    {
      hide Booked, NoEarlyRedial, Logged, DynNodes, HalfOk, Ordinary;
      var h := handshakes[c];
      handshakes := handshakes - {c};
      if claimed != h.id { return Some(UnexpectedIdentity); }
      if !useful { return Some(UselessPeer); }
      verdict := EncHandshakeChecks(peers, h.id, h.flags, maxPeers, self);
      if verdict.None? {
        JoinKeepsDyn(running, queued, dialer.dialing, dialer.lookupRunning, peers, h);
        OrdinaryJoin(peers, h.id, h.flags, maxPeers);
        peers := peers[h.id := h.flags];
      }
    }

    /** A handshake failed. */
    method DropHandshake(c: nat)
      requires Valid()
      modifies this`handshakes
      ensures Valid() && handshakes == old(handshakes) - {c}
    {
      hide Booked, DynNodes, NoEarlyRedial, Logged, Ordinary;
      handshakes := handshakes - {c};
    }

    /** A peer disconnected. */
    method DelPeer(id: Id)
      requires Valid()
      modifies this`peers
      ensures Valid() && peers == old(peers) - {id}
    {
      hide Booked, NoEarlyRedial, Logged, Ordinary;
      SubsetSize(DynNodes(dialer.dialing, peers - {id}), DynNodes(dialer.dialing, peers));
      OrdinaryLeave(peers, id);
      peers := peers - {id};
    }

    /** Whether an event can happen now. */
    predicate Possible(e: Event)
      reads this
    {
      match e
      case Done(k, results, now) =>
        k < |running| && forall c :: c in handshakes ==> handshakes[c].dialed != Some(running[k])
      case Shaken(c, dialed, remote) =>
        c !in handshakes && (dialed.Some? ==> dialed.value < |running| && running[dialed.value].Dial?)
      case Joined(c, claimed, useful) => c in handshakes
      case _ => true
    }

    /** A running task ends, and no connection of its own is still being set up. */
    ghost predicate Ends(e: Event)
      reads this
    {
      && e.Done? && e.k < |running|
      && forall c :: c in handshakes && handshakes[c].dialed.Some? ==> handshakes[c].dialed.value != running[e.k]
    }

    /** A new connection arrives, accepted or of a running dial. */
    ghost predicate Arrives(e: Event)
      reads this
    {
      && e.Shaken? && e.c !in handshakes
      && (e.dialed.None? || (e.dialed.value < |running| && running[e.dialed.value].Dial?))
    }

    /** One event of the loop; one that cannot happen now is ignored. */
    method HandleEvent(e: Event)
      requires Valid() && (e.Done? ==> e.now >= dialer.clock)
      modifies this, dialer
      ensures Valid() && dialer.clock == if old(Ends(e)) then e.now else old(dialer.clock)
      ensures peers == if e.Drop? then old(peers) - {e.id}
                       else if e.Joined? && e.c in old(handshakes)
                            && old(SecondVerdict(handshakes[e.c], e.claimed, e.useful)).None?
                       then old(peers)[old(handshakes)[e.c].id := old(handshakes)[e.c].flags]
                       else old(peers)
      ensures handshakes == if e.Joined? || e.Failed? then old(handshakes) - {e.c}
                            else if old(Arrives(e)) && old(FirstVerdict(DialOf(e.dialed), e.remote)).None?
                            then var task := old(DialOf(e.dialed));
                                 old(handshakes)[e.c := HalfConn(e.remote, FlagsOf(task, e.remote in trusted), task)]
                            else old(handshakes)
      ensures queued == old(queued)
      ensures running == if old(Ends(e)) then DeleteAt(old(running), e.k) else old(running)
      ensures if old(Ends(e)) && old(running)[e.k].Dial?
              then var id := old(running)[e.k].dest.id;
                   dialer.lastDone == old(dialer.lastDone)[id := e.now] && log == old(log) + [EndedDial(id, e.now)]
              else dialer.lastDone == old(dialer.lastDone) && log == old(log)
      ensures if old(Ends(e))
              then var t := old(running)[e.k];
                   && dialer.dialing == (if t.Dial? then old(dialer.dialing) - {t.dest.id} else old(dialer.dialing))
                   && dialer.lookupRunning == (old(dialer.lookupRunning) && !t.Discover?)
                   && dialer.lookupBuf == (if t.Discover? then old(dialer.lookupBuf) + e.results
                                           else old(dialer.lookupBuf))
              else && dialer.dialing == old(dialer.dialing) && dialer.lookupRunning == old(dialer.lookupRunning)
                   && dialer.lookupBuf == old(dialer.lookupBuf)
      ensures dialer.statics == (if e.AddStatic? then old(dialer.statics)[e.n.id := e.n]
                                 else if e.RemoveStatic? then old(dialer.statics) - {e.n.id} else old(dialer.statics))
    {
      hide Booked, DynNodes, NoEarlyRedial, Logged, HalfOk, Ordinary, EncHandshakeChecks, FlagsOf, FirstVerdict,
        SecondVerdict, MinHeap.IsHeap, Remembered;
      if !Possible(e) { return; }
      match e
      case AddStatic(n) => dialer.AddStatic(n);
      case RemoveStatic(n) => dialer.RemoveStatic(n);
      case Done(k, results, now) => TaskDone(k, results, now);
      case Shaken(c, dialed, remote) => var verdict := PostHandshake(c, dialed, remote);
      case Joined(c, claimed, useful) => var verdict := AddPeer(c, claimed, useful);
      case Failed(c) => DropHandshake(c);
      case Drop(id) => DelPeer(id);
    }
  }

  lemma HalvesKept(handshakes: map<nat, HalfConn>, running: seq<Task>, more: seq<Task>)
    requires running <= more && forall c :: c in handshakes ==> HalfOk(handshakes[c], running)
    ensures forall c :: c in handshakes ==> HalfOk(handshakes[c], more)
  {
    assert forall t :: t in running ==> t in more;
  }

  lemma HalvesLeft(handshakes: map<nat, HalfConn>, running: seq<Task>, k: nat)
    requires k < |running| && forall c :: c in handshakes ==> HalfOk(handshakes[c], running)
    requires forall c :: c in handshakes ==> handshakes[c].dialed != Some(running[k])
    ensures forall c :: c in handshakes ==> HalfOk(handshakes[c], DeleteAt(running, k))
  {
    assert running == running[..k] + [running[k]] + running[k + 1..];
  }

  lemma NoPlans(log: seq<LogEntry>, now: nat)
    ensures log + Plans([], now) == log
  {
  }

  /** What reaches the loop; `k` counts running tasks, `c` numbers connections. */
  datatype Event =
    | AddStatic(n: Node)
    | RemoveStatic(n: Node)
    | Done(k: nat, results: seq<Node>, now: nat)
    | Shaken(c: nat, dialed: Option<nat>, remote: Id)
    | Joined(c: nat, claimed: Id, useful: bool)
    | Failed(c: nat)
    | Drop(id: Id)

  /** One turn of the loop: when it schedules, what the table offers, and what happens then. */
  datatype Turn = Turn(now: nat, random: seq<Node>, event: Event)

  /** Times of a run never go back. */
  ghost predicate Timely(turns: seq<Turn>, clock: nat) {
    turns == [] ||
    var t := turns[0];
    t.now >= clock && (t.event.Done? ==> t.event.now >= t.now)
      && Timely(turns[1..], if t.event.Done? then t.event.now else t.now)
  }

  lemma TimelyEarlier(turns: seq<Turn>, later: nat, clock: nat)
    requires Timely(turns, later) && clock <= later
    ensures Timely(turns, clock)
  {
  }

  lemma DialedIsBooked(running: seq<Task>, queued: seq<Task>, dialing: map<Id, Flag>, lookup: bool, t: Task)
    requires Booked(running + queued, dialing, lookup) && t in running && t.Dial?
    ensures t.dest.id in dialing && dialing[t.dest.id] == t.flag
  {
    var k :| 0 <= k < |running| && running[k] == t;
    assert (running + queued)[k] == t;
  }

  lemma DynLess(dialing: map<Id, Flag>, id: Id, peers: Peers)
    ensures |DynNodes(dialing - {id}, peers)| <= |DynNodes(dialing, peers)|
  {
    SubsetSize(DynNodes(dialing - {id}, peers), DynNodes(dialing, peers));
  }

  /** A dialed connection that joins was counted as a dial before, and an accepted one is not counted. */
  lemma JoinKeepsDyn(running: seq<Task>, queued: seq<Task>, dialing: map<Id, Flag>, lookup: bool, peers: Peers,
                     h: HalfConn)
    requires Booked(running + queued, dialing, lookup) && HalfOk(h, running) && h.id !in peers
    ensures DynNodes(dialing, peers[h.id := h.flags]) == DynNodes(dialing, peers)
  {
    hide Booked;
    if h.dialed.Some? { DialedIsBooked(running, queued, dialing, lookup, h.dialed.value); }
  }

  /**
   * Any run of the loop: at most 16 tasks run, no node is dialed twice at once, at most one lookup
   * is out, dynamic peers and dials together stay within their limit, peers that are neither trusted
   * nor static stay within the maximum, the node is never its own peer, and no node is dialed again
   * until more than the expiration time after any earlier dial of it ended.
   */
  method RunLoop(server: Server, turns: seq<Turn>)
    requires server.Valid() && Timely(turns, server.dialer.clock)
    modifies server, server.dialer
    ensures server.Valid()
    ensures |server.running| <= MAX_ACTIVE_DIAL_TASKS
    ensures |DynNodes(server.dialer.dialing, server.peers)| <= server.dialer.maxDynDials
    ensures |Ordinary(server.peers)| <= server.maxPeers && server.self !in server.peers
    ensures var tasks := server.running + server.queued;
            forall i, j :: 0 <= i < j < |tasks| ==> !Clash(tasks[i], tasks[j])
    ensures old(server.log) <= server.log && NoEarlyRedial(server.log)
  {
    hide DynNodes, NoEarlyRedial, Logged, HalfOk, Ordinary;
    var i := 0;
    assert turns[0..] == turns;
    while i < |turns|
      invariant 0 <= i <= |turns| && server.Valid() && Timely(turns[i..], server.dialer.clock)
      invariant old(server.log) <= server.log
    {
      var t := turns[i];
      assert turns[i..][0] == t && turns[i..][1..] == turns[i + 1..];
      ghost var planned := server.ScheduleTasks(t.now, t.random);
      server.HandleEvent(t.event);
      TimelyEarlier(turns[i + 1..], if t.event.Done? then t.event.now else t.now, server.dialer.clock);
      i := i + 1;
    }
  }
}
