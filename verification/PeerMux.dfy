/**
 * Protocol negotiation and message-code multiplexing. Each side of a connection matches its own
 * protocols against the other side's capabilities and lays the matches out in one code space.
 */
module PeerMux {
  import opened Wrappers

  const BASE_PROTOCOL_LENGTH: nat := 16
  const DISC_MSG: nat := 1
  const PING_MSG: nat := 2

  datatype Protocol = Protocol(name: string, version: nat, length: nat)

  datatype Cap = Cap(name: string, version: nat)

  /** A matched protocol and where its codes start. */
  datatype ProtoRW = ProtoRW(version: nat, length: nat, offset: nat)

  type Running = map<string, ProtoRW>

  // ----- byte order of names

  predicate Less(a: string, b: string) {
    b != [] && (a == [] || a[0] < b[0] || (a[0] == b[0] && Less(a[1..], b[1..])))
  }

  lemma {:induction false} LessTotal(a: string, b: string)
    ensures Less(a, b) || a == b || Less(b, a)
  {
    if a != [] && b != [] && a[0] == b[0] {
      LessTotal(a[1..], b[1..]);
      assert a == [a[0]] + a[1..] && b == [b[0]] + b[1..];
    }
  }

  lemma {:induction false} LessTransitive(a: string, b: string, c: string)
    requires Less(a, b) && Less(b, c)
    ensures Less(a, c)
  {
    if a != [] && a[0] == b[0] && b[0] == c[0] {
      LessTransitive(a[1..], b[1..], c[1..]);
    }
  }

  lemma {:induction false} LessIrreflexive(a: string)
    ensures !Less(a, a)
  {
    if a != [] { LessIrreflexive(a[1..]); }
  }

  /** The first place where two names differ decides, and a name comes before its extensions. */
  ghost predicate Before(a: string, b: string) {
    || (|a| < |b| && a == b[..|a|])
    || exists k: nat :: DiffersAt(a, b, k)
  }

  ghost predicate DiffersAt(a: string, b: string, k: nat) {
    k < |a| && k < |b| && a[..k] == b[..k] && a[k] < b[k]
  }

  lemma {:induction false} LessMeans(a: string, b: string)
    ensures Less(a, b) <==> Before(a, b)
  {
    if a != [] && b != [] {
      LessMeans(a[1..], b[1..]);
      assert a == [a[0]] + a[1..] && b == [b[0]] + b[1..];
      if Less(a, b) { LessBefore(a, b); }
      if Before(a, b) { BeforeLess(a, b); }
    } else {
      assert a == [] && b != [] ==> b[..0] == a;
    }
  }

  lemma LessBefore(a: string, b: string)
    requires a != [] && b != [] && (a[0] < b[0] || (a[0] == b[0] && Before(a[1..], b[1..])))
    ensures Before(a, b)
  {
    if a[0] < b[0] {
      assert DiffersAt(a, b, 0);
    } else if k: nat :| DiffersAt(a[1..], b[1..], k) {
      assert a[..k + 1] == [a[0]] + a[1..][..k] && b[..k + 1] == [b[0]] + b[1..][..k];
      assert DiffersAt(a, b, k + 1);
    } else {
      assert b[..|a|] == [b[0]] + b[1..][..|a| - 1] && a == [a[0]] + a[1..];
    }
  }

  lemma BeforeLess(a: string, b: string)
    requires a != [] && b != [] && Before(a, b)
    ensures a[0] < b[0] || (a[0] == b[0] && Before(a[1..], b[1..]))
  {
    if |a| < |b| && a == b[..|a|] {
      assert a[0] == b[..|a|][0] && a[1..] == b[..|a|][1..] == b[1..][..|a| - 1];
    } else {
      var k: nat :| DiffersAt(a, b, k);
      if k > 0 {
        assert a[0] == a[..k][0] == b[..k][0] == b[0];
        assert a[1..][..k - 1] == a[..k][1..] == b[..k][1..] == b[1..][..k - 1];
        assert DiffersAt(a[1..], b[1..], k - 1);
      }
    }
  }

  /** The order the capabilities are sorted in. */
  predicate CapLess(a: Cap, b: Cap) {
    Less(a.name, b.name) || (a.name == b.name && a.version < b.version)
  }

  ghost predicate SortedCaps(caps: seq<Cap>) {
    forall i, j :: 0 <= i < j < |caps| ==> !CapLess(caps[j], caps[i])
  }

  lemma CapTransitive(a: Cap, b: Cap, c: Cap)
    requires !CapLess(b, a) && !CapLess(c, b)
    ensures !CapLess(c, a)
  {
    if CapLess(c, a) {
      LessTotal(a.name, b.name);
      LessTotal(b.name, c.name);
      LessTotal(a.name, c.name);
      LessIrreflexive(a.name);
      if Less(c.name, a.name) {
        if Less(a.name, b.name) { LessTransitive(c.name, a.name, b.name); }
      } else if Less(a.name, b.name) {
        assert false;
      }
      assert false;
    }
  }

  /** Sorts the capabilities. */
  method SortCaps(caps: seq<Cap>) returns (s: seq<Cap>)
    ensures SortedCaps(s) && multiset(s) == multiset(caps)
  {
    s := [];
    for i := 0 to |caps|
      invariant SortedCaps(s) && multiset(s) == multiset(caps[..i])
    {
      assert caps[..i + 1] == caps[..i] + [caps[i]];
      s := Insert(s, caps[i]);
    }
    assert caps[..|caps|] == caps;
  }

  method Insert(s: seq<Cap>, c: Cap) returns (t: seq<Cap>)
    requires SortedCaps(s)
    ensures SortedCaps(t) && multiset(t) == multiset(s) + multiset{c}
  {
    var k := |s|;
    while k > 0 && CapLess(c, s[k - 1])
      invariant 0 <= k <= |s| && forall j :: k <= j < |s| ==> CapLess(c, s[j])
    {
      k := k - 1;
    }
    t := s[..k] + [c] + s[k..];
    assert s == s[..k] + s[k..];
    InsertSorted(s, c, k);
  }

  lemma InsertSorted(s: seq<Cap>, c: Cap, k: nat)
    requires SortedCaps(s) && k <= |s|
    requires (forall j :: k <= j < |s| ==> CapLess(c, s[j])) && (k > 0 ==> !CapLess(c, s[k - 1]))
    ensures SortedCaps(s[..k] + [c] + s[k..])
  {
    var t := s[..k] + [c] + s[k..];
    forall i, j | 0 <= i < j < |t| ensures !CapLess(t[j], t[i]) {
      if i == k {
        CapAsym(c, s[j - 1]);
      } else if j == k {
        if i < k - 1 { CapTransitive(s[i], s[k - 1], c); }
      }
    }
  }

  lemma CapAsym(a: Cap, b: Cap)
    requires CapLess(a, b)
    ensures !CapLess(b, a)
  {
    LessIrreflexive(a.name);
    if Less(a.name, b.name) && Less(b.name, a.name) { LessTransitive(a.name, b.name, a.name); }
  }

  // ----- what a match is

  /** The first protocol of that name and version. */
  function LengthOf(protocols: seq<Protocol>, cap: Cap): Option<nat> {
    if protocols == [] then None
    else if protocols[0].name == cap.name && protocols[0].version == cap.version then Some(protocols[0].length)
    else LengthOf(protocols[1..], cap)
  }

  ghost predicate IsCap(p: Protocol, cap: Cap) {
    p.name == cap.name && p.version == cap.version
  }

  /** It gives the length of the first protocol with the name and version, if there is one. */
  lemma {:induction false} LengthOfMeans(protocols: seq<Protocol>, cap: Cap)
    ensures LengthOf(protocols, cap).None? <==> forall p :: p in protocols ==> !IsCap(p, cap)
    ensures LengthOf(protocols, cap).Some? ==>
              exists k :: 0 <= k < |protocols| && IsCap(protocols[k], cap)
                          && LengthOf(protocols, cap) == Some(protocols[k].length)
                          && forall j :: 0 <= j < k ==> !IsCap(protocols[j], cap)
  {
    if protocols != [] && !IsCap(protocols[0], cap) {
      var rest := protocols[1..];
      LengthOfMeans(rest, cap);
      assert forall p :: p in protocols <==> p == protocols[0] || p in rest;
      if LengthOf(protocols, cap).Some? {
        var k :| 0 <= k < |rest| && IsCap(rest[k], cap) && LengthOf(rest, cap) == Some(rest[k].length)
                 && forall j :: 0 <= j < k ==> !IsCap(rest[j], cap);
        assert protocols[k + 1] == rest[k];
        forall j | 0 <= j < k + 1 ensures !IsCap(protocols[j], cap) {
          assert j > 0 ==> protocols[j] == rest[j - 1];
        }
      }
    } else if protocols != [] {
      assert protocols[0] in protocols && IsCap(protocols[0], cap);
    }
  }

  ghost predicate Matches(protocols: seq<Protocol>, caps: multiset<Cap>, cap: Cap) {
    cap in caps && LengthOf(protocols, cap).Some?
  }

  /** Each name that matches at all is matched once, in its highest matching version. */
  ghost predicate Matched(protocols: seq<Protocol>, caps: multiset<Cap>, r: Running) {
    && (forall name :: name in r ==>
          Matches(protocols, caps, Cap(name, r[name].version))
            && LengthOf(protocols, Cap(name, r[name].version)) == Some(r[name].length))
    && (forall cap :: Matches(protocols, caps, cap) ==> cap.name in r && cap.version <= r[cap.name].version)
  }

  ghost predicate Increasing(names: seq<string>) {
    forall i, j :: 0 <= i < j < |names| ==> Less(names[i], names[j])
  }

  ghost predicate Named(r: Running, names: seq<string>) {
    Increasing(names) && forall name :: name in r <==> name in names
  }

  /** The names' codes lie one after the other, from the base length up to `end`. */
  ghost predicate Chained(r: Running, names: seq<string>, end: nat) {
    if names == [] then end == BASE_PROTOCOL_LENGTH
    else
      var last := names[|names| - 1];
      last in r && end == r[last].offset + r[last].length && Chained(r, names[..|names| - 1], r[last].offset)
  }

  /** The matches fill the code space in the order of their names. */
  ghost predicate Laid(r: Running, names: seq<string>, end: nat) {
    Named(r, names) && Chained(r, names, end)
  }

  lemma {:induction false} ChainedFrame(r: Running, q: Running, names: seq<string>, end: nat)
    requires Chained(r, names, end)
    requires forall i :: 0 <= i < |names| ==> names[i] in r && names[i] in q && r[names[i]] == q[names[i]]
    ensures Chained(q, names, end)
  {
    if names != [] { ChainedFrame(r, q, names[..|names| - 1], r[names[|names| - 1]].offset); }
  }

  /** Looks a capability up among the protocols. */
  method FindProtocol(protocols: seq<Protocol>, cap: Cap) returns (length: Option<nat>)
    ensures length == LengthOf(protocols, cap)
  {
    for i := 0 to |protocols|
      invariant LengthOf(protocols, cap) == LengthOf(protocols[i..], cap)
    {
      var proto := protocols[i];
      assert protocols[i..][1..] == protocols[i + 1..];
      if proto.name == cap.name && proto.version == cap.version { return Some(proto.length); }
    }
    length := None;
  }

  /** A name that is new goes to the end. */
  lemma LaidNew(r: Running, names: seq<string>, end: nat, name: string, version: nat, length: nat)
    requires Laid(r, names, end) && name !in r && forall k :: 0 <= k < |names| ==> !Less(name, names[k])
    ensures Laid(r[name := ProtoRW(version, length, end)], names + [name], end + length)
  {
    hide Less;
    var r2, more := r[name := ProtoRW(version, length, end)], names + [name];
    forall i | 0 <= i < |names| ensures Less(names[i], name) && names[i] in r && names[i] != name {
      assert names[i] in names;
      LessTotal(names[i], name);
    }
    assert more[..|more| - 1] == names;
    ChainedFrame(r, r2, names, end);
  }

  /** A name that comes again is the last one, so its codes can be given back. */
  lemma LaidAgain(r: Running, names: seq<string>, end: nat, name: string, version: nat, length: nat)
    requires Laid(r, names, end) && name in r && forall k :: 0 <= k < |names| ==> !Less(name, names[k])
    ensures end - r[name].length == r[name].offset
    ensures Laid(r[name := ProtoRW(version, length, r[name].offset)], names, r[name].offset + length)
  {
    hide Less;
    var k :| 0 <= k < |names| && names[k] == name;
    var rest := names[..|names| - 1];
    assert k == |names| - 1;
    var r2 := r[name := ProtoRW(version, length, r[name].offset)];
    forall i | 0 <= i < |rest| ensures rest[i] in r && rest[i] != name {
      assert names[i] in names && Less(names[i], name);
      LessIrreflexive(name);
    }
    ChainedFrame(r, r2, rest, r[name].offset);
  }

  /** Matches the protocols against the other side's capabilities. */
  method MatchProtocols(protocols: seq<Protocol>, unsorted: seq<Cap>)
    returns (r: Running, ghost names: seq<string>, ghost end: nat)
    ensures Matched(protocols, multiset(unsorted), r) && Laid(r, names, end)
    ensures forall x, y :: x in r && y in r && Before(x, y) ==> r[x].offset + r[x].length <= r[y].offset
  {
    hide Laid, Matched, LengthOf, SortedCaps, Before;
    var caps := SortCaps(unsorted);
    var offset: int := BASE_PROTOCOL_LENGTH;
    r, names := map[], [];
    NothingYet(protocols);
    for i := 0 to |caps|
      invariant offset >= 0 && Laid(r, names, offset)
      invariant Matched(protocols, multiset(caps[..i]), r)
    {
      var cap := caps[i];
      assert caps[..i + 1] == caps[..i] + [cap];
      NoneAfter(protocols, caps, r, names, offset, i);
      MatchedStep(protocols, caps, r, i, offset);
      var length := FindProtocol(protocols, cap);
      if length.Some? {
        if cap.name in r {
          LaidAgain(r, names, offset, cap.name, cap.version, length.value);
          MatchedStep(protocols, caps, r, i, r[cap.name].offset);
          offset := offset - r[cap.name].length;
        } else {
          LaidNew(r, names, offset, cap.name, cap.version, length.value);
          names := names + [cap.name];
        }
        r := r[cap.name := ProtoRW(cap.version, length.value, offset)];
        offset := offset + length.value;
      }
    }
    assert caps[..|caps|] == caps;
    end := offset;
    LaidInOrder(r, names, end);
  }

  lemma NothingYet(protocols: seq<Protocol>)
    ensures Laid(map[], [], BASE_PROTOCOL_LENGTH)
    ensures forall caps: seq<Cap> :: Matched(protocols, multiset(caps[..0]), map[])
  {
  }

  /** In sorted order no name that was matched comes after the next one. */
  lemma NoneAfter(protocols: seq<Protocol>, caps: seq<Cap>, r: Running, names: seq<string>, end: nat, i: nat)
    requires SortedCaps(caps) && i < |caps| && Matched(protocols, multiset(caps[..i]), r) && Laid(r, names, end)
    ensures forall k :: 0 <= k < |names| ==> !Less(caps[i].name, names[k])
  {
    forall k | 0 <= k < |names| ensures !Less(caps[i].name, names[k]) {
      var c := Cap(names[k], r[names[k]].version);
      assert Matches(protocols, multiset(caps[..i]), c);
      assert c in caps[..i];
      var j :| 0 <= j < i && caps[j] == c;
      assert !CapLess(caps[i], caps[j]);
    }
  }

  lemma MatchedStep(protocols: seq<Protocol>, caps: seq<Cap>, r: Running, i: nat, offset: nat)
    requires SortedCaps(caps) && i < |caps| && Matched(protocols, multiset(caps[..i]), r)
    ensures var cap := caps[i]; var length := LengthOf(protocols, cap);
            Matched(protocols, multiset(caps[..i + 1]),
                    if length.Some? then r[cap.name := ProtoRW(cap.version, length.value, offset)] else r)
  {
    hide LengthOf, Matched, Matches;
    assert caps[..i + 1] == caps[..i] + [caps[i]];
    NewestSoFar(protocols, caps, i);
    if LengthOf(protocols, caps[i]).Some? {
      MatchedTake(protocols, multiset(caps[..i]), caps[i], r, offset);
    } else {
      MatchedSkip(protocols, multiset(caps[..i]), caps[i], r);
    }
  }

  /** In sorted order no earlier match of the same name has a higher version. */
  lemma NewestSoFar(protocols: seq<Protocol>, caps: seq<Cap>, i: nat)
    requires SortedCaps(caps) && i < |caps|
    ensures forall c :: Matches(protocols, multiset(caps[..i]), c) && c.name == caps[i].name ==>
              c.version <= caps[i].version
  {
    hide LengthOf, Less;
    forall c | Matches(protocols, multiset(caps[..i]), c) && c.name == caps[i].name
      ensures c.version <= caps[i].version
    {
      assert c in caps[..i];
      var j :| 0 <= j < i && caps[j] == c;
      assert !CapLess(caps[i], caps[j]);
    }
  }

  lemma MatchedSkip(protocols: seq<Protocol>, seen: multiset<Cap>, cap: Cap, r: Running)
    requires Matched(protocols, seen, r) && LengthOf(protocols, cap).None?
    ensures Matched(protocols, seen + multiset{cap}, r)
  {
    hide LengthOf;
    forall c | Matches(protocols, seen + multiset{cap}, c) ensures Matches(protocols, seen, c) {}
  }

  lemma MatchedTake(protocols: seq<Protocol>, seen: multiset<Cap>, cap: Cap, r: Running, offset: nat)
    requires Matched(protocols, seen, r) && LengthOf(protocols, cap).Some?
    requires forall c :: Matches(protocols, seen, c) && c.name == cap.name ==> c.version <= cap.version
    ensures Matched(protocols, seen + multiset{cap},
                    r[cap.name := ProtoRW(cap.version, LengthOf(protocols, cap).value, offset)])
  {
    hide LengthOf;
    var now := seen + multiset{cap};
    forall c | Matches(protocols, now, c) && c != cap ensures Matches(protocols, seen, c) {}
    forall c | Matches(protocols, seen, c) ensures Matches(protocols, now, c) {}
  }

  // ----- two sides agree

  lemma {:induction false} IncreasingUnique(a: seq<string>, b: seq<string>)
    requires Increasing(a) && Increasing(b) && forall name :: name in a <==> name in b
    ensures a == b
  {
    hide Less;
    SomeName(a);
    SomeName(b);
    if a != [] {
      var x, y := a[|a| - 1], b[|b| - 1];
      var a2, b2 := a[..|a| - 1], b[..|b| - 1];
      SameLast(a, b);
      assert a == a2 + [x] && b == b2 + [y];
      forall name ensures name in a2 <==> name in b2 {
        NotLast(a, name);
        NotLast(b, name);
      }
      IncreasingUnique(a2, b2);
    }
  }

  lemma SomeName(a: seq<string>)
    ensures a != [] ==> exists name :: name in a
  {
    if a != [] { assert a[0] in a; }
  }

  lemma SameLast(a: seq<string>, b: seq<string>)
    requires Increasing(a) && Increasing(b) && a != [] && b != [] && forall name :: name in a <==> name in b
    ensures a[|a| - 1] == b[|b| - 1]
  {
    hide Less;
    var x, y := a[|a| - 1], b[|b| - 1];
    assert x in b && y in a;
    var i :| 0 <= i < |b| && b[i] == x;
    var j :| 0 <= j < |a| && a[j] == y;
    if x != y {
      assert Less(x, y) && Less(y, x);
      LessTransitive(x, y, x);
      LessIrreflexive(x);
    }
  }

  lemma NotLast(a: seq<string>, name: string)
    requires Increasing(a) && a != []
    ensures name in a[..|a| - 1] <==> name in a && name != a[|a| - 1]
  {
    hide Less;
    var rest, last := a[..|a| - 1], a[|a| - 1];
    assert a == rest + [last];
    if name in rest {
      var i :| 0 <= i < |rest| && rest[i] == name;
      assert Less(a[i], last);
      LessIrreflexive(last);
    }
  }

  lemma {:induction false} ChainedUnique(r: Running, q: Running, names: seq<string>, end: nat, end2: nat)
    requires Chained(r, names, end) && Chained(q, names, end2)
    requires forall i :: 0 <= i < |names| ==> names[i] in r && names[i] in q && r[names[i]].length == q[names[i]].length
    ensures end == end2 && forall i :: 0 <= i < |names| ==> r[names[i]].offset == q[names[i]].offset
  {
    if names != [] {
      var last := names[|names| - 1];
      ChainedUnique(r, q, names[..|names| - 1], r[last].offset, q[last].offset);
    }
  }

  /** The capabilities a side announces: one per protocol. */
  function CapsOf(protocols: seq<Protocol>): seq<Cap> {
    if protocols == [] then [] else [Cap(protocols[0].name, protocols[0].version)] + CapsOf(protocols[1..])
  }

  lemma {:induction false} CapsOfMeans(protocols: seq<Protocol>, cap: Cap)
    ensures cap in CapsOf(protocols) <==> LengthOf(protocols, cap).Some?
  {
    if protocols != [] {
      CapsOfMeans(protocols[1..], cap);
      assert CapsOf(protocols) == [Cap(protocols[0].name, protocols[0].version)] + CapsOf(protocols[1..]);
    }
  }

  /** Both sides give a shared name and version the same number of codes. */
  ghost predicate LengthsAgree(a: seq<Protocol>, b: seq<Protocol>) {
    forall cap :: LengthOf(a, cap).Some? && LengthOf(b, cap).Some? ==> LengthOf(a, cap) == LengthOf(b, cap)
  }

  /** Negotiation is symmetric: the two sides of a connection compute the same layout. */
  lemma SidesAgree(a: seq<Protocol>, b: seq<Protocol>, ra: Running, rb: Running, na: seq<string>, nb: seq<string>,
                   ea: nat, eb: nat)
    requires LengthsAgree(a, b)
    requires Matched(a, multiset(CapsOf(b)), ra) && Laid(ra, na, ea)
    requires Matched(b, multiset(CapsOf(a)), rb) && Laid(rb, nb, eb)
    ensures ra == rb && na == nb && ea == eb
  {
    hide LengthOf, CapsOf, Chained, Increasing;
    forall cap ensures Matches(a, multiset(CapsOf(b)), cap) <==> Matches(b, multiset(CapsOf(a)), cap) {
      CapsOfMeans(a, cap);
      CapsOfMeans(b, cap);
    }
    MatchedSame(a, b, ra, rb);
    MatchedSame(b, a, rb, ra);
    IncreasingUnique(na, nb);
    forall i | 0 <= i < |na| ensures na[i] in ra && na[i] in rb && ra[na[i]].length == rb[na[i]].length {
      assert na[i] in na;
    }
    ChainedUnique(ra, rb, na, ea, eb);
    forall name | name in ra ensures ra[name] == rb[name] {
      var i :| 0 <= i < |na| && na[i] == name;
    }
  }

  lemma MatchedSame(a: seq<Protocol>, b: seq<Protocol>, ra: Running, rb: Running)
    requires LengthsAgree(a, b) && Matched(a, multiset(CapsOf(b)), ra) && Matched(b, multiset(CapsOf(a)), rb)
    requires forall cap :: Matches(a, multiset(CapsOf(b)), cap) <==> Matches(b, multiset(CapsOf(a)), cap)
    ensures forall name :: name in ra ==> name in rb && ra[name].version <= rb[name].version
    ensures forall name :: name in ra && name in rb && ra[name].version == rb[name].version ==>
              ra[name].length == rb[name].length
  {
    hide LengthOf, CapsOf;
    forall name | name in ra ensures name in rb && ra[name].version <= rb[name].version {
      assert Matches(a, multiset(CapsOf(b)), Cap(name, ra[name].version));
      assert Matches(b, multiset(CapsOf(a)), Cap(name, ra[name].version));
    }
  }

  // ----- codes

  lemma {:induction false} RangesApart(r: Running, names: seq<string>, end: nat, i: nat, j: nat)
    requires Chained(r, names, end) && i < j < |names|
    ensures names[i] in r && names[j] in r
    ensures r[names[i]].offset + r[names[i]].length <= r[names[j]].offset
            && r[names[j]].offset + r[names[j]].length <= end
  {
    var rest, last := names[..|names| - 1], names[|names| - 1];
    if j < |names| - 1 {
      RangesApart(r, rest, r[last].offset, i, j);
    } else {
      InRange(r, rest, r[last].offset, i);
    }
  }

  lemma {:induction false} InRange(r: Running, names: seq<string>, end: nat, i: nat)
    requires Chained(r, names, end) && i < |names|
    ensures names[i] in r && BASE_PROTOCOL_LENGTH <= r[names[i]].offset
            && r[names[i]].offset + r[names[i]].length <= end
  {
    ChainedFrom(r, names[..|names| - 1], r[names[|names| - 1]].offset);
    if i < |names| - 1 { InRange(r, names[..|names| - 1], r[names[|names| - 1]].offset, i); }
  }

  lemma {:induction false} ChainedFrom(r: Running, names: seq<string>, end: nat)
    requires Chained(r, names, end)
    ensures end >= BASE_PROTOCOL_LENGTH
  {
    if names != [] { ChainedFrom(r, names[..|names| - 1], r[names[|names| - 1]].offset); }
  }

  /** Of two names the one that comes first in the order of names has the lower codes. */
  lemma LaidInOrder(r: Running, names: seq<string>, end: nat)
    requires Laid(r, names, end)
    ensures forall x, y :: x in r && y in r && Before(x, y) ==> r[x].offset + r[x].length <= r[y].offset
  {
    hide Chained, Less, Before;
    forall x, y | x in r && y in r && Before(x, y) ensures r[x].offset + r[x].length <= r[y].offset {
      LessMeans(x, y);
      var i :| 0 <= i < |names| && names[i] == x;
      var j :| 0 <= j < |names| && names[j] == y;
      LessIrreflexive(x);
      if j < i {
        LessTransitive(x, y, x);
      } else {
        RangesApart(r, names, end, i, j);
      }
    }
  }

  /** `name` is the protocol that a code on the wire belongs to. */
  predicate Owns(r: Running, name: string, code: nat) {
    name in r && r[name].offset <= code < r[name].offset + r[name].length
  }

  /** At most one protocol owns a code, and the owned codes are those from the base length to the end. */
  lemma OwnerUnique(r: Running, names: seq<string>, end: nat, code: nat, x: string, y: string)
    requires Laid(r, names, end) && Owns(r, x, code) && Owns(r, y, code)
    ensures x == y && BASE_PROTOCOL_LENGTH <= code < end
  {
    hide Chained, Increasing;
    var i :| 0 <= i < |names| && names[i] == x;
    var j :| 0 <= j < |names| && names[j] == y;
    InRange(r, names, end, i);
    if i < j { RangesApart(r, names, end, i, j); }
    if j < i { RangesApart(r, names, end, j, i); }
  }

  lemma {:induction false} OwnerExists(r: Running, names: seq<string>, end: nat, code: nat)
    requires Chained(r, names, end) && BASE_PROTOCOL_LENGTH <= code < end
    ensures exists name :: Owns(r, name, code)
  {
    var last := names[|names| - 1];
    if code < r[last].offset {
      OwnerExists(r, names[..|names| - 1], r[last].offset, code);
    } else {
      assert Owns(r, last, code);
    }
  }

  /** The protocol responsible for a code, searched in any order. */
  method GetProto(r: Running, code: nat) returns (owner: Option<string>)
    ensures owner.Some? ==> Owns(r, owner.value, code)
    ensures owner.None? ==> forall name :: !Owns(r, name, code)
  {
    var left := r.Keys;
    while left != {}
      invariant left <= r.Keys && forall name :: name in r && name !in left ==> !Owns(r, name, code)
      decreases |left|
    {
      var name :| name in left;
      if code >= r[name].offset && code < r[name].offset + r[name].length { return Some(name); }
      left := left - {name};
    }
    owner := None;
  }

  /** Shifts a protocol's code to its place on the wire. */
  method WriteMsg(rw: ProtoRW, code: nat) returns (wire: Option<nat>)
    ensures wire == if code < rw.length then Some(rw.offset + code) else None
  {
    if code >= rw.length { return None; }
    wire := Some(code + rw.offset);
  }

  /** And back. */
  method ReadMsg(rw: ProtoRW, wire: nat) returns (code: nat)
    requires wire >= rw.offset
    ensures code == wire - rw.offset
  {
    code := wire - rw.offset;
  }

  datatype Handled = Pong | Disconnect | Ignored | Delivered(name: string) | OutOfRange

  /** What the read loop does with a message. */
  method Handle(r: Running, wire: nat) returns (h: Handled)
    ensures wire == PING_MSG <==> h.Pong?
    ensures wire == DISC_MSG <==> h.Disconnect?
    ensures wire < BASE_PROTOCOL_LENGTH && wire != PING_MSG && wire != DISC_MSG <==> h.Ignored?
    ensures h.Delivered? ==> Owns(r, h.name, wire)
    ensures h.OutOfRange? ==> wire >= BASE_PROTOCOL_LENGTH && forall name :: !Owns(r, name, wire)
  {
    if wire == PING_MSG { return Pong; }
    if wire == DISC_MSG { return Disconnect; }
    if wire < BASE_PROTOCOL_LENGTH { return Ignored; }
    var owner := GetProto(r, wire);
    if owner.None? { return OutOfRange; }
    h := Delivered(owner.value);
  }

  /**
   * A whole connection: both sides negotiate, one writes a code through one of its protocols, and
   * the other side hands it to the same protocol in the same version with the same code; a code
   * that the protocol does not have is refused before it is written.
   */
  method Exchange(a: seq<Protocol>, b: seq<Protocol>, name: string, code: nat)
    returns (ra: Running, rb: Running, sent: Option<nat>, h: Option<Handled>, got: Option<nat>)
    requires LengthsAgree(a, b)
    ensures ra == rb
    ensures name !in ra ==> sent.None?
    ensures name in ra ==> (sent.Some? <==> code < ra[name].length)
    ensures sent.Some? ==> name in rb && rb[name].version == ra[name].version && h == Some(Delivered(name))
                           && got == Some(code)
  {
    hide Laid, Matched, LengthsAgree;
    ghost var na, ea, nb, eb;
    ra, na, ea := MatchProtocols(a, CapsOf(b));
    rb, nb, eb := MatchProtocols(b, CapsOf(a));
    SidesAgree(a, b, ra, rb, na, nb, ea, eb);
    sent, h, got := None, None, None;
    if name in ra {
      sent := WriteMsg(ra[name], code);
      if sent.Some? {
        var handled := Handle(rb, sent.value);
        assert Owns(rb, name, sent.value);
        OwnerUnique(rb, nb, eb, sent.value, name, if handled.Delivered? then handled.name else name);
        h := Some(handled);
        var c := ReadMsg(rb[name], sent.value);
        got := Some(c);
      }
    }
  }
}
