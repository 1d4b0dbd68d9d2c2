/**
 * The encoder: string data is appended to one buffer and list headers are kept aside until
 * the whole value is known, so that sizes can be filled in when a list ends. A second pass
 * weaves headers and data together.
 */
module RlpEncode {
  import opened RlpSpec

  // ----- integers and headers

  /** `i` in as many bytes as `intsize` counts: zero takes one. */
  function IntBytes(i: nat): (s: seq<byte>)
    ensures |s| >= 1
  {
    if i == 0 then [0] else BigEndian(i)
  }

  /** The minimum number of bytes that hold `i`. */
  method IntSize(i: nat) returns (size: nat)
    ensures size == |IntBytes(i)|
  {
    size := 1;
    var rest: nat := i / 256;
    while rest != 0
      invariant size + |BigEndian(rest)| == |IntBytes(i)|
      decreases rest
    {
      size := size + 1;
      rest := rest / 256;
    }
  }

  lemma MulAtLeast(x: int, d: nat)
    requires x >= 1
    ensures x * d >= d
  {
    assert x * d == d + (x - 1) * d;
  }

  lemma DivUnique(i: nat, q: nat, d: nat, t: nat)
    requires d > 0 && t < d && i == q * d + t
    ensures i / d == q
  {
    var k := i / d;
    assert i == k * d + i % d;
    assert (q - k) * d == q * d - k * d == i % d - t;
    if k < q {
      MulAtLeast(q - k, d);
    } else if k > q {
      assert (k - q) * d == -((q - k) * d);
      MulAtLeast(k - q, d);
    }
  }

  lemma ShiftTwice(i: nat, p: nat)
    requires p > 0
    ensures i / 256 / p == i / (256 * p)
  {
    var h := i / 256;
    var q, r := h / p, h % p;
    assert h == q * p + r;
    assert i == q * (256 * p) + (256 * r + i % 256);
    DivUnique(i, q, 256 * p, 256 * r + i % 256);
  }

  lemma Pow256Positive(k: nat)
    ensures Pow256(k) > 0
  {
  }

  /** Byte `j` of the shortest form is `i` shifted right by the bytes behind it. */
  lemma {:induction false} BigEndianDigit(i: nat, j: nat)
    requires j < |BigEndian(i)|
    ensures Pow256(|BigEndian(i)| - 1 - j) > 0
    ensures BigEndian(i)[j] == i / Pow256(|BigEndian(i)| - 1 - j) % 256
    decreases i
  {
    Pow256Positive(|BigEndian(i)| - 1 - j);
    if j < |BigEndian(i)| - 1 {
      BigEndianDigit(i / 256, j);
      ShiftTwice(i, Pow256(|BigEndian(i)| - 2 - j));
    }
  }

  /** How many bytes `putint` writes, by the magnitude of `i`. */
  function Width(i: nat): (k: nat)
    requires i < SIZE_LIMIT
    ensures 1 <= k <= 8
  {
    if i < 0x100 then 1
    else if i < 0x1_0000 then 2
    else if i < 0x100_0000 then 3
    else if i < 0x1_0000_0000 then 4
    else if i < 0x100_0000_0000 then 5
    else if i < 0x1_0000_0000_0000 then 6
    else if i < 0x100_0000_0000_0000 then 7
    else 8
  }

  /** The magnitude test and the byte count of `intsize` agree. */
  lemma WidthIsSize(i: nat)
    requires i < SIZE_LIMIT
    ensures Width(i) == |IntBytes(i)|
  {
    if i > 0 {
      Pow256Values();
      BigEndianLength(i, Width(i));
      BigEndianLength(i, Width(i) - 1);
    }
  }

  /** `i` shifted right by `k` bytes, cut to a byte. */
  function ShiftedByte(i: nat, k: nat): byte {
    Pow256Positive(k);
    i / Pow256(k) % 256
  }

  lemma IntBytesDigit(i: nat, j: nat)
    requires j < |IntBytes(i)|
    ensures IntBytes(i)[j] == ShiftedByte(i, |IntBytes(i)| - 1 - j)
  {
    if i > 0 { BigEndianDigit(i, j); }
  }

  /** Writes `i` at `b[at..]`, most significant byte first, and touches no other byte. */
  method PutInt(b: array<byte>, at: nat, i: nat) returns (size: nat)
    requires i < SIZE_LIMIT && at + |IntBytes(i)| <= b.Length
    modifies b
    ensures size == |IntBytes(i)|
    ensures forall k :: at <= k < at + size ==> b[k] == IntBytes(i)[k - at]
    ensures forall k :: 0 <= k < b.Length && !(at <= k < at + size) ==> b[k] == old(b[k])
  {
    hide ShiftedByte, IntBytes;
    size := Width(i);
    WidthIsSize(i);
    var j := 0;
    while j < size
      invariant 0 <= j <= size
      invariant forall k :: 0 <= k < b.Length && !(at <= k < at + j) ==> b[k] == old(b[k])
      invariant forall k :: at <= k < at + j ==> b[k] == IntBytes(i)[k - at]
    {
      IntBytesDigit(i, j);
      b[at + j] := ShiftedByte(i, size - 1 - j);
      j := j + 1;
    }
  }

  /** Writes a header at `b[at..]`; it needs exactly `HeadSize(size)` bytes of room. */
  method PutHead(b: array<byte>, at: nat, small: byte, large: byte, size: nat) returns (n: nat)
    requires size < SIZE_LIMIT && small <= 200 && large <= 247
    requires at + HeadSize(size) <= b.Length
    modifies b
    ensures n == HeadSize(size)
    ensures forall k :: at <= k < at + n ==> b[k] == Head(small, large, size)[k - at]
    ensures forall k :: 0 <= k < b.Length && !(at <= k < at + n) ==> b[k] == old(b[k])
  {
    SizeBytes(size);
    assert size >= 56 ==> IntBytes(size) == BigEndian(size);
    hide IntBytes, BigEndian;
    if size < 56 {
      b[at] := small + size;
      n := 1;
    } else {
      var sizesize := PutInt(b, at + 1, size);
      b[at] := large + sizesize;
      n := sizesize + 1;
    }
  }

  lemma SmallUint(i: nat)
    requires 0 < i < 128
    ensures BigEndian(i) == [i]
  {
    assert BigEndian(i / 256) == [];
  }

  lemma LargeUint(i: nat)
    requires 128 <= i < SIZE_LIMIT && SizeOf(Str(BigEndian(i))) < SIZE_LIMIT
    ensures |BigEndian(i)| <= 8 && IntBytes(i) == BigEndian(i)
    ensures Encode(Str(BigEndian(i))) == [0x80 + |BigEndian(i)|] + BigEndian(i)
  {
    SizeBytes(i);
    if i < 256 {
      assert BigEndian(i / 256) == [];
    } else {
      Pow256Values();
      BigEndianLength(i, 1);
    }
  }

  // ----- deferred list headers

  /** A list header: where it belongs in the string data, and the size of the list. */
  datatype ListHead = ListHead(offset: nat, size: nat)

  /** The string data an item contributes: everything but list headers. */
  function Data(i: Item): seq<byte>
    requires SizeOf(i) < SIZE_LIMIT
    decreases i, 1
  {
    match i
    case Str(b) => Encode(i)
    case List(xs) => DataAll(xs)
  }

  function DataAll(xs: seq<Item>): seq<byte>
    requires SizeOfAll(xs) < SIZE_LIMIT
    decreases xs, 0
  {
    if xs == [] then [] else Data(xs[0]) + DataAll(xs[1..])
  }

  /** The list headers an item contributes when its data starts at `offset`, outer lists first. */
  function Heads(i: Item, offset: nat): seq<ListHead>
    requires SizeOf(i) < SIZE_LIMIT
    decreases i, 1
  {
    match i
    case Str(_) => []
    case List(xs) => [ListHead(offset, SizeOfAll(xs))] + HeadsAll(xs, offset)
  }

  function HeadsAll(xs: seq<Item>, offset: nat): seq<ListHead>
    requires SizeOfAll(xs) < SIZE_LIMIT
    decreases xs, 0
  {
    if xs == [] then [] else Heads(xs[0], offset) + HeadsAll(xs[1..], offset + |Data(xs[0])|)
  }

  /** Headers in order, inside the data and of encodable size. */
  ghost predicate HeadsOk(len: nat, heads: seq<ListHead>, pos: nat)
    decreases |heads|
  {
    if heads == [] then pos <= len
    else pos <= heads[0].offset <= len && heads[0].size < SIZE_LIMIT && HeadsOk(len, heads[1..], heads[0].offset)
  }

  function Tag(h: ListHead): seq<byte>
    requires h.size < SIZE_LIMIT
  {
    Head(0xC0, 0xF7, h.size)
  }

  /** String data from `pos` on with the headers woven in. */
  ghost function Flat(str: seq<byte>, heads: seq<ListHead>, pos: nat): seq<byte>
    requires HeadsOk(|str|, heads, pos)
    decreases |heads|
  {
    if heads == [] then str[pos..]
    else str[pos..heads[0].offset] + Tag(heads[0]) + Flat(str, heads[1..], heads[0].offset)
  }

  lemma Assoc<T>(a: seq<T>, b: seq<T>, c: seq<T>, d: seq<T>)
    ensures (a + b) + c + d == a + (b + c + d)
  {
  }

  lemma AssocPair<T>(a: seq<T>, b: seq<T>, c: seq<T>)
    ensures a + (b + c) == (a + b) + c
  {
  }

  lemma AssocEnd<T>(a: seq<T>, b: seq<T>, c: seq<T>, d: seq<T>)
    ensures a + b + (c + d) == (a + b + c) + d
  {
  }

  /** Data in front of the first header can be taken off. */
  lemma FlatSkip(str: seq<byte>, heads: seq<ListHead>, pos: nat, to: nat)
    requires pos <= to && HeadsOk(|str|, heads, to)
    ensures HeadsOk(|str|, heads, pos)
    ensures Flat(str, heads, pos) == str[pos..to] + Flat(str, heads, to)
  {
    hide Tag;
    if heads == [] {
      assert str[pos..] == str[pos..to] + str[to..];
    } else {
      var off := heads[0].offset;
      assert str[pos..off] == str[pos..to] + str[to..off];
      Assoc(str[pos..to], str[to..off], Tag(heads[0]), Flat(str, heads[1..], off));
    }
  }

  lemma FlatCons(str: seq<byte>, h: ListHead, heads: seq<ListHead>, pos: nat)
    requires pos <= h.offset <= |str| && h.size < SIZE_LIMIT && HeadsOk(|str|, heads, h.offset)
    ensures HeadsOk(|str|, [h] + heads, pos)
    ensures Flat(str, [h] + heads, pos) == str[pos..h.offset] + Tag(h) + Flat(str, heads, h.offset)
  {
    hide Tag;
    var all := [h] + heads;
    assert all[1..] == heads;
  }

  lemma HeadsInside(len: nat, heads: seq<ListHead>, pos: nat)
    requires HeadsOk(len, heads, pos)
    ensures pos <= len
  {
  }

  lemma DataSize(i: Item)
    requires SizeOf(i) < SIZE_LIMIT
    ensures |Data(i)| <= SizeOf(i)
    decreases i, 1
  {
    match i
    case Str(_) =>
    case List(xs) => DataSizeAll(xs);
  }

  lemma DataSizeAll(xs: seq<Item>)
    requires SizeOfAll(xs) < SIZE_LIMIT
    ensures |DataAll(xs)| <= SizeOfAll(xs)
    decreases xs, 0
  {
    if xs != [] { DataSize(xs[0]); DataSizeAll(xs[1..]); }
  }

  /** Weaving the headers of an item into its data gives its encoding, whatever comes after. */
  lemma {:induction false} FlatItem(str: seq<byte>, i: Item, offset: nat, rest: seq<ListHead>)
    requires SizeOf(i) < SIZE_LIMIT && offset + |Data(i)| <= |str|
    requires str[offset..offset + |Data(i)|] == Data(i)
    requires HeadsOk(|str|, rest, offset + |Data(i)|)
    ensures HeadsOk(|str|, Heads(i, offset) + rest, offset)
    ensures Flat(str, Heads(i, offset) + rest, offset) == Encode(i) + Flat(str, rest, offset + |Data(i)|)
    decreases i, 1
  {
    hide Head, Flat, HeadsOk;
    match i
    case Str(b) =>
      assert [] + rest == rest;
      FlatSkip(str, rest, offset, offset + |Data(i)|);
    case List(xs) =>
      FlatItems(str, xs, offset, rest);
      HeadsInside(|str|, HeadsAll(xs, offset) + rest, offset);
      FlatCons(str, ListHead(offset, SizeOfAll(xs)), HeadsAll(xs, offset) + rest, offset);
      assert str[offset..offset] == [];
      assert Heads(i, offset) + rest == [ListHead(offset, SizeOfAll(xs))] + (HeadsAll(xs, offset) + rest);
  }

  lemma {:induction false} FlatItems(str: seq<byte>, xs: seq<Item>, offset: nat, rest: seq<ListHead>)
    requires SizeOfAll(xs) < SIZE_LIMIT && offset + |DataAll(xs)| <= |str|
    requires str[offset..offset + |DataAll(xs)|] == DataAll(xs)
    requires HeadsOk(|str|, rest, offset + |DataAll(xs)|)
    ensures HeadsOk(|str|, HeadsAll(xs, offset) + rest, offset)
    ensures Flat(str, HeadsAll(xs, offset) + rest, offset) == EncodeAll(xs) + Flat(str, rest, offset + |DataAll(xs)|)
    decreases xs, 0
  {
    hide Encode, Flat, HeadsOk, SizeOf, Data, Heads;
    if xs == [] {
      assert [] + rest == rest;
    } else {
      var d := Data(xs[0]);
      var mid := offset + |d|;
      assert DataAll(xs)[..|d|] == d && DataAll(xs)[|d|..] == DataAll(xs[1..]);
      assert str[offset..mid] == str[offset..offset + |DataAll(xs)|][..|d|];
      assert str[mid..mid + |DataAll(xs[1..])|] == str[offset..offset + |DataAll(xs)|][|d|..];
      FlatItems(str, xs[1..], mid, rest);
      FlatItem(str, xs[0], offset, HeadsAll(xs[1..], mid) + rest);
      assert HeadsAll(xs, offset) + rest == Heads(xs[0], offset) + (HeadsAll(xs[1..], mid) + rest);
      AssocPair(Encode(xs[0]), EncodeAll(xs[1..]), Flat(str, rest, offset + |DataAll(xs)|));
    }
  }

  /** Appending an item to finished data and headers appends its encoding. */
  lemma {:induction false} FlatAppend(str: seq<byte>, heads: seq<ListHead>, pos: nat, i: Item)
    requires HeadsOk(|str|, heads, pos) && SizeOf(i) < SIZE_LIMIT
    ensures HeadsOk(|str + Data(i)|, heads + Heads(i, |str|), pos)
    ensures Flat(str + Data(i), heads + Heads(i, |str|), pos) == Flat(str, heads, pos) + Encode(i)
    decreases |heads|
  {
    hide Encode, Data, Heads, Tag, SizeOf;
    if heads == [] {
      FlatFirst(str, pos, i);
    } else {
      var off := heads[0].offset;
      FlatAppend(str, heads[1..], off, i);
      HeadsInside(|str|, heads[1..], off);
      FlatCons(str + Data(i), heads[0], heads[1..] + Heads(i, |str|), pos);
      assert heads + Heads(i, |str|) == [heads[0]] + (heads[1..] + Heads(i, |str|));
      assert (str + Data(i))[pos..off] == str[pos..off];
      AssocEnd(str[pos..off], Tag(heads[0]), Flat(str, heads[1..], off), Encode(i));
    }
  }

  lemma FlatFirst(str: seq<byte>, pos: nat, i: Item)
    requires pos <= |str| && SizeOf(i) < SIZE_LIMIT
    ensures HeadsOk(|str + Data(i)|, Heads(i, |str|), pos)
    ensures Flat(str + Data(i), Heads(i, |str|), pos) == str[pos..] + Encode(i)
    ensures [] + Heads(i, |str|) == Heads(i, |str|)
  {
    hide Encode, Data, Heads, Tag, SizeOf;
    var more, heads := str + Data(i), Heads(i, |str|);
    FlatItem(more, i, |str|, []);
    assert heads + [] == heads;
    FlatSkip(more, heads, pos, |str|);
    assert more[|str| + |Data(i)|..] == [];
    assert more[pos..|str|] == str[pos..];
    assert Flat(more, heads, |str|) == Encode(i);
  }

  // ----- appending at the end of a list of items

  lemma {:induction false} DataAllSnoc(xs: seq<Item>, x: Item)
    requires SizeOfAll(xs + [x]) < SIZE_LIMIT
    ensures SizeOfAll(xs) < SIZE_LIMIT && SizeOf(x) < SIZE_LIMIT
    ensures DataAll(xs + [x]) == DataAll(xs) + Data(x)
  {
    hide SizeOf, Data;
    SizeOfAllSnoc(xs, x);
    if xs == [] {
      assert (xs + [x])[1..] == [];
    } else {
      assert (xs + [x])[1..] == xs[1..] + [x];
      SizeOfAllSnoc(xs[1..], x);
      DataAllSnoc(xs[1..], x);
      assert Data(xs[0]) + (DataAll(xs[1..]) + Data(x)) == (Data(xs[0]) + DataAll(xs[1..])) + Data(x);
    }
  }

  lemma {:induction false} HeadsAllSnoc(xs: seq<Item>, x: Item, offset: nat)
    requires SizeOfAll(xs + [x]) < SIZE_LIMIT
    ensures SizeOfAll(xs) < SIZE_LIMIT && SizeOf(x) < SIZE_LIMIT
    ensures HeadsAll(xs + [x], offset) == HeadsAll(xs, offset) + Heads(x, offset + |DataAll(xs)|)
  {
    hide SizeOf, Data, Heads;
    SizeOfAllSnoc(xs, x);
    if xs == [] {
      assert (xs + [x])[1..] == [];
    } else {
      assert (xs + [x])[1..] == xs[1..] + [x];
      SizeOfAllSnoc(xs[1..], x);
      var mid := offset + |Data(xs[0])|;
      HeadsAllSnoc(xs[1..], x, mid);
      var h := Heads(x, mid + |DataAll(xs[1..])|);
      assert Heads(xs[0], offset) + (HeadsAll(xs[1..], mid) + h) == (Heads(xs[0], offset) + HeadsAll(xs[1..], mid)) + h;
    }
  }

  lemma {:induction false} SizeOfAllPrefix(xs: seq<Item>, k: nat)
    requires k <= |xs|
    ensures SizeOfAll(xs[..k]) <= SizeOfAll(xs)
  {
    hide SizeOf;
    if k > 0 {
      SizeOfAllPrefix(xs[1..], k - 1);
      assert xs[..k][1..] == xs[1..][..k - 1];
    }
  }

  /** What the loop over a list's elements adds with one more element. */
  lemma NextElement(xs: seq<Item>, k: nat, offset: nat)
    requires k < |xs| && SizeOfAll(xs) < SIZE_LIMIT
    ensures SizeOfAll(xs[..k]) < SIZE_LIMIT && SizeOfAll(xs[..k + 1]) < SIZE_LIMIT && SizeOf(xs[k]) < SIZE_LIMIT
    ensures SizeOfAll(xs[..k + 1]) == SizeOfAll(xs[..k]) + SizeOf(xs[k])
    ensures DataAll(xs[..k + 1]) == DataAll(xs[..k]) + Data(xs[k])
    ensures HeadsAll(xs[..k + 1], offset) == HeadsAll(xs[..k], offset) + Heads(xs[k], offset + |DataAll(xs[..k])|)
  {
    hide SizeOf, Data, Heads;
    assert xs[..k + 1] == xs[..k] + [xs[k]];
    SizeOfAllPrefix(xs, k + 1);
    SizeOfAllSnoc(xs[..k], xs[k]);
    DataAllSnoc(xs[..k], xs[k]);
    HeadsAllSnoc(xs[..k], xs[k], offset);
  }

  /** The part still to be written starts with the data in front of header `k` and that header. */
  lemma TakeHead(str: seq<byte>, heads: seq<ListHead>, k: nat, pos: nat)
    requires k < |heads| && HeadsOk(|str|, heads[k..], pos)
    ensures pos <= heads[k].offset <= |str| && heads[k].size < SIZE_LIMIT
    ensures HeadsOk(|str|, heads[k + 1..], heads[k].offset)
    ensures Flat(str, heads[k..], pos)
         == str[pos..heads[k].offset] + Tag(heads[k]) + Flat(str, heads[k + 1..], heads[k].offset)
  {
    hide Tag;
    assert heads[k..][0] == heads[k] && heads[k..][1..] == heads[k + 1..];
  }

  /** A destination that takes `room` more bytes and then fails, having written what fits. */
  class Writer {
    var data: seq<byte>
    var room: nat

    constructor (capacity: nat)
      ensures data == [] && room == capacity
    {
      data, room := [], capacity;
    }

    method Write(p: seq<byte>) returns (n: nat, ok: bool)
      modifies this
      ensures n == (if |p| <= old(room) then |p| else old(room))
      ensures data == old(data) + p[..n]
      ensures ok <==> |p| <= old(room)
      ensures room == old(room) - n
    {
      n := if |p| <= room then |p| else room;
      ok := n == |p|;
      data, room := data + p[..n], room - n;
    }
  }

  /** Writes the part `p` of `all` that starts at `at`, all before it having been written. */
  method Push(w: Writer, p: seq<byte>, ghost base: seq<byte>, ghost room: nat, ghost all: seq<byte>, ghost at: nat)
    returns (ok: bool)
    requires at + |p| <= |all| && all[at..at + |p|] == p
    requires w.data == base + all[..at] && w.room == room - at
    modifies w
    ensures ok <==> at + |p| <= room
    ensures ok ==> w.data == base + all[..at + |p|] && w.room == room - (at + |p|)
    ensures !ok ==> w.data == base + all[..room]
  {
    var n;
    n, ok := w.Write(p);
    assert p[..n] == all[at..at + n];
    assert base + all[..at] + p[..n] == base + all[..at + n];
  }

  /** Header `k` seen from its own place in the data. */
  lemma AtHead(str: seq<byte>, heads: seq<ListHead>, k: nat, pos: nat)
    requires k < |heads| && HeadsOk(|str|, heads[k..], pos)
    ensures pos <= heads[k].offset <= |str| && heads[k].size < SIZE_LIMIT
    ensures HeadsOk(|str|, heads[k..], heads[k].offset) && HeadsOk(|str|, heads[k + 1..], heads[k].offset)
    ensures Flat(str, heads[k..], heads[k].offset) == Tag(heads[k]) + Flat(str, heads[k + 1..], heads[k].offset)
  {
    hide Tag;
    assert heads[k..][0] == heads[k] && heads[k..][1..] == heads[k + 1..];
    assert str[heads[k].offset..heads[k].offset] == [];
  }

  lemma Taken(all: seq<byte>, n: nat, bytes: seq<byte>, tail: seq<byte>, nn: nat)
    requires n <= |all| && all[n..] == bytes + tail && nn <= |bytes|
    ensures n + nn <= |all| && all[..n] + bytes[..nn] == all[..n + nn] && all[n + nn..] == bytes[nn..] + tail
  {
    assert all == all[..n] + all[n..];
    assert all[n + nn..] == (bytes + tail)[nn..];
  }

  lemma Cut3(all: seq<byte>, at: nat, a: seq<byte>, b: seq<byte>, c: seq<byte>)
    requires at <= |all| && all[at..] == a + b + c
    ensures at + |a| + |b| <= |all|
    ensures all[at..at + |a|] == a && all[at + |a|..at + |a| + |b|] == b && all[at + |a| + |b|..] == c
  {
    var s := all[at..];
    assert all[at..at + |a|] == s[..|a|] == a;
    assert all[at + |a|..at + |a| + |b|] == s[|a|..|a| + |b|] == b;
    assert all[at + |a| + |b|..] == s[|a| + |b|..] == c;
  }

  lemma FlatEnd(str: seq<byte>, heads: seq<ListHead>, pos: nat)
    requires heads == [] && HeadsOk(|str|, heads, pos)
    ensures pos <= |str| && Flat(str, heads, pos) == str[pos..]
  {
  }

  /** Copies `s` into `out` at `pos`. */
  method Copy(out: array<byte>, pos: nat, s: seq<byte>)
    requires pos + |s| <= out.Length
    modifies out
    ensures out[..] == old(out[..pos]) + s + old(out[pos + |s|..])
  {
    forall k | 0 <= k < |s| {
      out[pos + k] := s[k];
    }
  }

  /** Copies `s` and then the header into `out` at `pos`; everything in front stays. */
  method Emit(out: array<byte>, pos: nat, s: seq<byte>, head: ListHead) returns (next: nat)
    requires head.size < SIZE_LIMIT && pos + |s| + |Tag(head)| <= out.Length
    modifies out
    ensures next == pos + |s| + |Tag(head)|
    ensures out[..next] == old(out[..pos]) + s + Tag(head)
  {
    hide Head, HeadSize;
    Copy(out, pos, s);
    assert out[..pos + |s|] == old(out[..pos]) + s;
    var n := PutHead(out, pos + |s|, 0xC0, 0xF7, head.size);
    next := pos + |s| + n;
  }

  class EncBuf {
    var str: seq<byte>
    var lheads: seq<ListHead>
    var lhsize: nat
    const sizebuf: array<byte>

    /** No list is open, and the sizes counted so far add up. */
    ghost predicate Complete()
      reads this
    {
      && sizebuf.Length == 9
      && HeadsOk(|str|, lheads, 0)
      && |Flat(str, lheads, 0)| == Size()
    }

    /** The bytes the buffer stands for. */
    ghost function Contents(): seq<byte>
      requires HeadsOk(|str|, lheads, 0)
      reads this
    {
      Flat(str, lheads, 0)
    }

    function Size(): nat
      reads this
    {
      |str| + lhsize
    }

    constructor ()
      ensures Complete() && Contents() == [] && fresh(sizebuf)
    {
      str, lheads, lhsize := [], [], 0;
      sizebuf := new byte[9](_ => 0);
    }

    method Reset()
      requires sizebuf.Length == 9
      modifies this
      ensures Complete() && Contents() == []
    {
      str, lheads, lhsize := [], [], 0;
    }

    method EncodeStringHeader(size: nat)
      requires size < SIZE_LIMIT && sizebuf.Length == 9
      modifies this`str, sizebuf
      ensures str == old(str) + Head(0x80, 0xB7, size)
    {
      SizeBytes(size);
      if size < 56 {
        str := str + [0x80 + size];
      } else {
        var sizesize := PutInt(sizebuf, 1, size);
        sizebuf[0] := 0xB7 + sizesize;
        assert sizebuf[..sizesize + 1] == Head(0x80, 0xB7, size);
        str := str + sizebuf[..sizesize + 1];
      }
    }

    method EncodeString(b: seq<byte>)
      requires SizeOf(Str(b)) < SIZE_LIMIT && sizebuf.Length == 9
      modifies this`str, sizebuf
      ensures str == old(str) + Encode(Str(b))
    {
      hide Head;
      if |b| == 1 && b[0] <= 0x7F {
        str := str + [b[0]];
      } else {
        EncodeStringHeader(|b|);
        str := str + b;
      }
    }

    /** An unsigned integer goes out as the string of its shortest big-endian form. */
    method WriteUint(i: nat)
      requires i < SIZE_LIMIT && sizebuf.Length == 9 && SizeOf(Str(BigEndian(i))) < SIZE_LIMIT
      modifies this`str, sizebuf
      ensures str == old(str) + Encode(Str(BigEndian(i)))
    {
      SizeBytes(i);
      if i == 0 {
        str := str + [0x80];
      } else if i < 128 {
        SmallUint(i);
        str := str + [i];
      } else {
        LargeUint(i);
        var s := PutInt(sizebuf, 1, i);
        sizebuf[0] := 0x80 + s;
        assert sizebuf[..s + 1] == [0x80 + s] + IntBytes(i);
        str := str + sizebuf[..s + 1];
      }
    }

    /** Opens a list: its header remembers where it belongs and how many header bytes precede it. */
    method List() returns (lh: nat)
      modifies this`lheads
      ensures lh == |old(lheads)| && lheads == old(lheads) + [ListHead(|str|, lhsize)]
    {
      lh := |lheads|;
      lheads := lheads + [ListHead(|str|, lhsize)];
    }

    /** Closes a list: its size is what has been written since, headers included. */
    method ListEnd(lh: nat)
      requires lh < |lheads| && lheads[lh].offset + lheads[lh].size <= Size()
      modifies this`lheads, this`lhsize
      ensures lheads == old(lheads)[lh := ListHead(old(lheads)[lh].offset,
                                                   old(Size()) - old(lheads)[lh].offset - old(lheads)[lh].size)]
      ensures lhsize == old(lhsize) + HeadSize(old(Size()) - old(lheads)[lh].offset - old(lheads)[lh].size)
    {
      var size := Size() - lheads[lh].offset - lheads[lh].size;
      lheads := lheads[lh := ListHead(lheads[lh].offset, size)];
      if size < 56 {
        lhsize := lhsize + 1;
      } else {
        var n := IntSize(size);
        lhsize := lhsize + 1 + n;
      }
    }

    /** The encoding pass: data and headers of `i` are appended, and the size grows by its encoded length. */
    method EncodeItem(i: Item)
      requires SizeOf(i) < SIZE_LIMIT && sizebuf.Length == 9
      modifies this`str, this`lheads, this`lhsize, sizebuf
      ensures str == old(str) + Data(i)
      ensures lheads == old(lheads) + Heads(i, |old(str)|)
      ensures Size() == old(Size()) + SizeOf(i)
      decreases i, 1
    {
      hide Head, HeadSize;
      match i
      case Str(b) =>
        EncodeString(b);
      case List(xs) =>
        var lh := List();
        EncodeElements(xs);
        ListEnd(lh);
    }

    method EncodeElements(xs: seq<Item>)
      requires SizeOfAll(xs) < SIZE_LIMIT && sizebuf.Length == 9
      modifies this`str, this`lheads, this`lhsize, sizebuf
      ensures str == old(str) + DataAll(xs)
      ensures lheads == old(lheads) + HeadsAll(xs, |old(str)|)
      ensures Size() == old(Size()) + SizeOfAll(xs)
      decreases xs, 0
    {
      hide SizeOf, Data, Heads;
      assert xs[..0] == [];
      for k := 0 to |xs|
        invariant SizeOfAll(xs[..k]) < SIZE_LIMIT
        invariant str == old(str) + DataAll(xs[..k])
        invariant lheads == old(lheads) + HeadsAll(xs[..k], |old(str)|)
        invariant Size() == old(Size()) + SizeOfAll(xs[..k])
      {
        NextElement(xs, k, |old(str)|);
        EncodeItem(xs[k]);
      }
      assert xs[..|xs|] == xs;
    }

    /** Appends the encoding of an item to what the buffer stands for. */
    method Write(i: Item)
      requires Complete() && SizeOf(i) < SIZE_LIMIT
      modifies this`str, this`lheads, this`lhsize, sizebuf
      ensures Complete() && Contents() == old(Contents()) + Encode(i)
    {
      FlatAppend(str, lheads, 0, i);
      EncodeItem(i);
    }

    /** The second pass: data and headers go to their final place in one slice of the counted size. */
    method ToBytes() returns (out: array<byte>)
      requires Complete()
      ensures fresh(out) && out[..] == Contents()
    {
      hide Head, HeadSize, Tag;
      out := new byte[Size()](_ => 0);
      var strpos: nat, pos: nat, k: nat := 0, 0, 0;
      while k < |lheads|
        invariant k <= |lheads| && pos <= out.Length
        invariant HeadsOk(|str|, lheads[k..], strpos)
        invariant out[..pos] + Flat(str, lheads[k..], strpos) == Contents()
      {
        var head := lheads[k];
        TakeHead(str, lheads, k, strpos);
        ghost var done, rest := out[..pos], Flat(str, lheads[k + 1..], head.offset);
        var n := Emit(out, pos, str[strpos..head.offset], head);
        Assoc(done, str[strpos..head.offset], Tag(head), rest);
        pos, strpos, k := n, head.offset, k + 1;
      }
      HeadsInside(|str|, lheads[k..], strpos);
      Copy(out, pos, str[strpos..]);
    }

    /** Writes one header through the scratch buffer. */
    method HeadBytes(head: ListHead) returns (enc: seq<byte>)
      requires head.size < SIZE_LIMIT && sizebuf.Length == 9
      modifies sizebuf
      ensures enc == Tag(head) && 1 <= |enc| <= 9 && sizebuf[..|enc|] == enc
    {
      SizeBytes(head.size);
      var n := PutHead(sizebuf, 0, 0xC0, 0xF7, head.size);
      hide Head, HeadSize;
      enc := sizebuf[..n];
    }

    /**
     * The same bytes, piece by piece, to a destination that may fail: it receives all of
     * them, or exactly those it had room for.
     */
    method ToWriter(w: Writer) returns (ok: bool)
      requires Complete()
      modifies w, sizebuf
      ensures ok <==> Size() <= old(w.room)
      ensures w.data == old(w.data) + Contents()[..if ok then Size() else old(w.room)]
    {
      hide Head, HeadSize, Tag, Flat;
      ghost var all, base, room := Contents(), w.data, w.room;
      var strpos: nat, k: nat := 0, 0;
      ghost var at: nat := 0;
      while k < |lheads|
        invariant k <= |lheads| && at <= |all|
        invariant HeadsOk(|str|, lheads[k..], strpos) && all[at..] == Flat(str, lheads[k..], strpos)
        invariant w.data == base + all[..at] && w.room == room - at
      {
        var head := lheads[k];
        TakeHead(str, lheads, k, strpos);
        ghost var rest := Flat(str, lheads[k + 1..], head.offset);
        ghost var mid := at + (head.offset - strpos);
        Cut3(all, at, str[strpos..head.offset], Tag(head), rest);
        if head.offset - strpos > 0 {
          var good := Push(w, str[strpos..head.offset], base, room, all, at);
          if !good { return false; }
        }
        strpos := head.offset;
        var enc := HeadBytes(head);
        var good := Push(w, enc, base, room, all, mid);
        if !good { return false; }
        at, k := mid + |enc|, k + 1;
      }
      FlatEnd(str, lheads[k..], strpos);
      ok := true;
      if strpos < |str| {
        ok := Push(w, str[strpos..], base, room, all, at);
      }
    }
  }

  /** `EncodeToBytes`: the two passes on a fresh buffer give the encoding. */
  method EncodeToBytes(i: Item) returns (out: array<byte>)
    requires SizeOf(i) < SIZE_LIMIT
    ensures fresh(out) && out[..] == Encode(i)
  {
    hide Encode;
    var eb := new EncBuf();
    eb.Write(i);
    out := eb.ToBytes();
  }

  // ----- the pull reader

  /** What is left of a piece: a slice of the string data, or a slice of the scratch buffer. */
  datatype Piece = NoPiece | DataPiece(lo: nat, hi: nat) | HeadPiece(lo: nat, hi: nat)

  ghost predicate PieceOk(p: Piece, str: seq<byte>) {
    && (p.DataPiece? ==> p.lo < p.hi <= |str|)
    && (p.HeadPiece? ==> p.lo < p.hi <= 9)
  }

  /** The bytes a piece denotes, given the string data and the scratch buffer. */
  ghost function Bytes(p: Piece, str: seq<byte>, scratch: seq<byte>): seq<byte>
    requires PieceOk(p, str) && |scratch| == 9
  {
    match p
    case NoPiece => []
    case DataPiece(lo, hi) => str[lo..hi]
    case HeadPiece(lo, hi) => scratch[lo..hi]
  }

  /**
   * Hands out the encoding in pieces of the caller's choosing. A header piece aliases the one
   * scratch buffer of the encoder, which the next header overwrites.
   */
  class EncReader {
    var buf: EncBuf?
    var lhpos: nat
    var strpos: nat
    var piece: Piece

    ghost predicate Valid()
      reads this, buf
    {
      buf != null ==>
        && buf.sizebuf.Length == 9
        && lhpos <= |buf.lheads| && HeadsOk(|buf.str|, buf.lheads[lhpos..], strpos)
        && PieceOk(piece, buf.str)
    }

    /** What the reader has still to deliver. */
    ghost function Remaining(): seq<byte>
      requires Valid()
      reads this, buf, if buf == null then {} else {buf.sizebuf}
    {
      if buf == null then [] else Bytes(piece, buf.str, buf.sizebuf[..]) + Flat(buf.str, buf.lheads[lhpos..], strpos)
    }

    constructor (eb: EncBuf)
      requires eb.Complete()
      ensures Valid() && buf == eb && Remaining() == eb.Contents()
    {
      buf, lhpos, strpos, piece := eb, 0, 0, NoPiece;
    }

    /** The next piece in front of or at header `lhpos`. */
    method NextBeforeEnd() returns (p: Piece)
      requires Valid() && buf != null && lhpos < |buf.lheads|
      modifies this`lhpos, this`strpos, buf.sizebuf
      ensures Valid()
      ensures p != NoPiece
      ensures PieceOk(p, buf.str)
      ensures Bytes(p, buf.str, buf.sizebuf[..]) + Flat(buf.str, buf.lheads[lhpos..], strpos)
                == old(Flat(buf.str, buf.lheads[lhpos..], strpos))
    {
      hide Tag, HeadsOk, Flat;
      var head := buf.lheads[lhpos];
      AtHead(buf.str, buf.lheads, lhpos, strpos);
      if head.offset - strpos > 0 {
        p := DataPiece(strpos, head.offset);
        FlatSkip(buf.str, buf.lheads[lhpos..], strpos, head.offset);
        strpos := head.offset;
      } else {
        lhpos := lhpos + 1;
        var enc := buf.HeadBytes(head);
        p := HeadPiece(0, |enc|);
      }
    }

    /** The next piece of data to be read; none at the end. Taking it up changes nothing of what remains. */
    method Next() returns (p: Piece)
      requires Valid() && buf != null
      modifies this`lhpos, this`strpos, buf.sizebuf
      ensures Valid()
      ensures PieceOk(p, buf.str)
      ensures Bytes(p, buf.str, buf.sizebuf[..]) + Flat(buf.str, buf.lheads[lhpos..], strpos) == old(Remaining())
      ensures p == NoPiece ==> old(Remaining()) == []
    {
      if piece != NoPiece { return piece; }
      if lhpos < |buf.lheads| {
        p := NextBeforeEnd();
        return;
      }
      if strpos < |buf.str| {
        p := DataPiece(strpos, |buf.str|);
        strpos := |buf.str|;
      } else {
        p := NoPiece;
      }
    }

    /** Copies as much of the current piece as fits into `b[n..]` and keeps the rest of it. */
    method TakeFromPiece(b: array<byte>, n: nat) returns (nn: nat)
      requires Valid() && buf != null && piece != NoPiece && b != buf.sizebuf && n <= b.Length
      modifies this`piece, b
      ensures Valid()
      ensures nn == (if |old(Bytes(piece, buf.str, buf.sizebuf[..]))| <= b.Length - n
                     then |old(Bytes(piece, buf.str, buf.sizebuf[..]))| else b.Length - n)
      ensures b[..n + nn] == old(b[..n]) + old(Bytes(piece, buf.str, buf.sizebuf[..]))[..nn]
      ensures Bytes(piece, buf.str, buf.sizebuf[..]) == old(Bytes(piece, buf.str, buf.sizebuf[..]))[nn..]
      ensures piece == NoPiece ==> nn >= 1
      ensures nn < |old(Bytes(piece, buf.str, buf.sizebuf[..]))| <==> piece != NoPiece
      ensures forall k :: n + nn <= k < b.Length ==> b[k] == old(b[k])
    {
      hide Flat, HeadsOk;
      var size := piece.hi - piece.lo;
      nn := if size <= b.Length - n then size else b.Length - n;
      ghost var all := Bytes(piece, buf.str, buf.sizebuf[..]);
      var src := if piece.DataPiece? then buf.str else buf.sizebuf[..];
      assert all == src[piece.lo..piece.hi];
      assert src[piece.lo..piece.lo + nn] == all[..nn] && src[piece.lo + nn..piece.hi] == all[nn..];
      Copy(b, n, src[piece.lo..piece.lo + nn]);
      if nn < size {
        piece := if piece.DataPiece? then DataPiece(piece.lo + nn, piece.hi) else HeadPiece(piece.lo + nn, piece.hi);
      } else {
        piece := NoPiece;
      }
    }

    /** One round of the read loop: take up the next piece and copy from it. */
    method ReadPiece(b: array<byte>, n: nat, ghost all: seq<byte>) returns (next: nat)
      requires Valid() && buf != null && b != buf.sizebuf
      requires n <= b.Length && n <= |all| && b[..n] == all[..n] && Remaining() == all[n..]
      modifies this`lhpos, this`strpos, this`piece, b, buf.sizebuf
      ensures Valid()
      ensures n <= next <= b.Length && next <= |all| && b[..next] == all[..next] && Remaining() == all[next..]
      ensures forall k :: next <= k < b.Length ==> b[k] == old(b[k])
      ensures next == n && piece == NoPiece ==> n == |all|
      ensures piece != NoPiece ==> next == b.Length < |all|
    {
      hide Flat, HeadsOk, Bytes;
      piece := Next();
      if piece == NoPiece { return n; }
      ghost var bytes, tail := Bytes(piece, buf.str, buf.sizebuf[..]), Flat(buf.str, buf.lheads[lhpos..], strpos);
      var nn := TakeFromPiece(b, n);
      Taken(all, n, bytes, tail, nn);
      next := n + nn;
    }

    /**
     * Fills `b` with the next bytes of the encoding. End of file is reported exactly by the
     * call that delivers the last byte, and by every call after it.
     */
    method Read(b: array<byte>) returns (n: nat, eof: bool)
      requires Valid() && (buf != null ==> b != buf.sizebuf)
      modifies this, b, if buf == null then {} else {buf.sizebuf}
      ensures Valid()
      ensures n == (if |old(Remaining())| <= b.Length then |old(Remaining())| else b.Length)
      ensures b[..n] == old(Remaining())[..n] && Remaining() == old(Remaining())[n..]
      ensures forall k :: n <= k < b.Length ==> b[k] == old(b[k])
      ensures eof <==> |old(Remaining())| <= b.Length
      ensures buf == if eof then null else old(buf)
    {
      hide Flat, HeadsOk;
      n := 0;
      if buf == null { return 0, true; }
      ghost var all := Remaining();
      while true
        invariant buf == old(buf) && buf != null && Valid()
        invariant n <= b.Length && n <= |all|
        invariant b[..n] == all[..n] && Remaining() == all[n..]
        invariant forall k :: n <= k < b.Length ==> b[k] == old(b[k])
        decreases |all| - n
      {
        var next := ReadPiece(b, n, all);
        if piece != NoPiece { return next, false; }
        if next == n {
          buf := null;
          return n, true;
        }
        n := next;
      }
    }
  }

  function Sum(sizes: seq<nat>): nat {
    if sizes == [] then 0 else Sum(sizes[..|sizes| - 1]) + sizes[|sizes| - 1]
  }

  function Min(a: nat, b: nat): nat {
    if a <= b then a else b
  }

  method EncodeToReader(i: Item) returns (size: nat, r: EncReader)
    requires SizeOf(i) < SIZE_LIMIT
    ensures size == |Encode(i)|
    ensures fresh(r) && r.Valid() && r.buf != null && fresh(r.buf) && fresh(r.buf.sizebuf)
    ensures r.Remaining() == Encode(i)
  {
    hide Encode, SizeOf, Flat, HeadsOk;
    var eb := new EncBuf();
    eb.Write(i);
    size := eb.Size();
    assert eb.Contents() == Encode(i);
    r := new EncReader(eb);
  }

  /**
   * `EncodeToReader` drained with buffers of any sizes: the reported size is right, the
   * concatenated output is the encoding up to the bytes asked for, and a call reports end of
   * file exactly when the calls so far have asked for all of it.
   */
  method ReadInPieces(i: Item, sizes: seq<nat>) returns (size: nat, out: seq<byte>, eofs: seq<bool>)
    requires SizeOf(i) < SIZE_LIMIT
    ensures size == |Encode(i)|
    ensures out == Encode(i)[..Min(Sum(sizes), size)]
    ensures |eofs| == |sizes|
    ensures forall k :: 0 <= k < |sizes| ==> (eofs[k] <==> size <= Sum(sizes[..k + 1]))
  {
    hide Encode, SizeOf, Flat, HeadsOk, EncReader.Remaining, EncReader.Valid;
    ghost var all := Encode(i);
    var r;
    size, r := EncodeToReader(i);
    out, eofs := [], [];
    for k := 0 to |sizes|
      invariant r.Valid() && fresh(r) && (r.buf == null || fresh(r.buf.sizebuf))
      invariant out == all[..Min(Sum(sizes[..k]), size)]
      invariant r.Remaining() == all[Min(Sum(sizes[..k]), size)..]
      invariant |eofs| == k
      invariant forall j :: 0 <= j < k ==> (eofs[j] <==> size <= Sum(sizes[..j + 1]))
    {
      assert sizes[..k + 1][..k] == sizes[..k];
      var part, eof := ReadMore(r, sizes[k], all, Min(Sum(sizes[..k]), size));
      out, eofs := out + part, eofs + [eof];
    }
    assert sizes[..|sizes|] == sizes;
  }

  /** One read into a fresh buffer of `n` bytes, `at` bytes into the encoding. */
  method ReadMore(r: EncReader, n: nat, ghost all: seq<byte>, ghost at: nat) returns (part: seq<byte>, eof: bool)
    requires r.Valid() && at <= |all| && r.Remaining() == all[at..]
    modifies r, if r.buf == null then {} else {r.buf.sizebuf}
    ensures r.Valid() && (r.buf == null || r.buf == old(r.buf))
    ensures all[..at] + part == all[..Min(at + n, |all|)]
    ensures r.Remaining() == all[Min(at + n, |all|)..]
    ensures eof <==> |all| <= at + n
  {
    hide Flat, HeadsOk, Bytes, EncReader.Remaining;
    var b := new byte[n](_ => 0);
    var nn, e := r.Read(b);
    eof := e;
    part := b[..nn];
    assert all[at..] == all[at..] + [];
    Taken(all, at, all[at..], [], nn);
  }
}
