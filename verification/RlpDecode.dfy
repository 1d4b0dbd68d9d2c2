/**
 * The stream decoder. It reads headers one at a time from an input, remembers the header
 * ahead until its value is taken, and keeps a stack of the lists it is inside.
 */
module RlpDecode {
  import opened Wrappers
  import opened RlpSpec
  import opened RlpRaw

  /** How far a list has been read, not counting an open child, and how long it is. */
  datatype ListPos = ListPos(pos: nat, size: nat)

  ghost predicate StackOk(stack: seq<ListPos>) {
    && (forall i :: 0 <= i < |stack| ==> stack[i].pos <= stack[i].size)
    && (forall i :: 0 <= i < |stack| - 1 ==> stack[i].pos + stack[i + 1].size <= stack[i].size)
  }

  /** Bytes of the innermost list not read yet. */
  function Room(stack: seq<ListPos>): int
    requires stack != []
  {
    stack[|stack| - 1].size - stack[|stack| - 1].pos
  }

  ghost function SumPos(stack: seq<ListPos>): nat {
    if stack == [] then 0 else SumPos(stack[..|stack| - 1]) + stack[|stack| - 1].pos
  }

  /** Bytes of the outermost list not read yet. */
  ghost function Unread(stack: seq<ListPos>): int
    requires stack != []
  {
    stack[0].size - SumPos(stack)
  }

  /** An inner list never has more to read than the lists around it. */
  lemma {:induction false} RoomWithin(stack: seq<ListPos>)
    requires stack != [] && StackOk(stack)
    ensures 0 <= Room(stack) <= Unread(stack)
    decreases |stack|
  {
    var front := stack[..|stack| - 1];
    if front == [] {
      assert SumPos(front) == 0;
    } else {
      assert StackOk(front) by {
        assert forall i :: 0 <= i < |front| ==> front[i] == stack[i];
      }
      RoomWithin(front);
      assert stack[|stack| - 2].pos + stack[|stack| - 1].size <= stack[|stack| - 2].size;
    }
  }

  /** The stack after reading `n` bytes in the innermost list. */
  function Advance(stack: seq<ListPos>, n: nat): seq<ListPos> {
    if stack == [] then []
    else var top := stack[|stack| - 1]; stack[|stack| - 1 := ListPos(top.pos + n, top.size)]
  }

  /** The lists one is inside of, at whatever position of the innermost. */
  ghost function Outline(stack: seq<ListPos>): seq<ListPos> {
    if stack == [] then [] else stack[|stack| - 1 := ListPos(0, stack[|stack| - 1].size)]
  }

  lemma AdvanceOutline(stack: seq<ListPos>, n: nat)
    ensures Outline(Advance(stack, n)) == Outline(stack)
  {
  }

  lemma AdvanceOk(stack: seq<ListPos>, n: nat)
    requires StackOk(stack) && (stack != [] ==> n <= Room(stack))
    ensures StackOk(Advance(stack, n))
    ensures stack != [] ==> Unread(Advance(stack, n)) == Unread(stack) - n
    ensures stack != [] ==> Room(Advance(stack, n)) == Room(stack) - n
  {
    if stack != [] {
      assert Advance(stack, n)[..|stack| - 1] == stack[..|stack| - 1];
    }
  }

  lemma AdvanceTwice(stack: seq<ListPos>, m: nat, n: nat)
    ensures Advance(Advance(stack, m), n) == Advance(stack, m + n)
  {
  }

  lemma PushOk(stack: seq<ListPos>, size: nat)
    requires StackOk(stack) && (stack != [] ==> size <= Room(stack))
    ensures StackOk(stack + [ListPos(0, size)])
    ensures Unread(stack + [ListPos(0, size)]) == if stack == [] then size else Unread(stack)
    ensures (stack + [ListPos(0, size)])[..|stack|] == stack
  {
    assert (stack + [ListPos(0, size)])[..|stack|] == stack;
    assert stack == [] ==> SumPos(stack) == 0;
  }

  /** Leaving a fully read list: its size is added to the position of the list around it. */
  lemma PopOk(stack: seq<ListPos>)
    requires StackOk(stack) && stack != [] && Room(stack) == 0
    ensures var front := stack[..|stack| - 1];
            var size := stack[|stack| - 1].size;
            && (front != [] ==> size <= Room(front))
            && StackOk(front) && StackOk(Advance(front, size))
            && (front != [] ==> Unread(Advance(front, size)) == Unread(stack))
  {
    var front := stack[..|stack| - 1];
    assert forall i :: 0 <= i < |front| ==> front[i] == stack[i];
    if front != [] {
      AdvanceOk(front, stack[|stack| - 1].size);
    }
  }

  // ----- what lies ahead of a reader

  /** The bytes from `start` up to the bound or the end of the input, whichever comes first. */
  ghost function Window(input: seq<byte>, start: nat, bound: Option<int>): seq<byte> {
    var end := if bound.None? || |input| <= bound.value then |input| else bound.value;
    if start <= end then input[start..end] else []
  }

  datatype Place = Place(lists: seq<ListPos>, bound: Option<int>, cap: Option<int>)

  /** The last thing read for this item is content, not a header. */
  ghost predicate EndsInContent(item: Item) {
    match item
    case Str(b) => b != [] && !(|b| == 1 && b[0] < 128)
    case List(xs) => AllEndInContent(xs)
  }

  ghost predicate AllEndInContent(xs: seq<Item>) {
    xs != [] && EndsInContent(xs[|xs| - 1])
  }

  /** Every string in the item is at most `max` bytes long. */
  ghost predicate Holdable(item: Item, max: nat) {
    match item
    case Str(b) => |b| <= max
    case List(xs) => forall x :: x in xs ==> Holdable(x, max)
  }

  ghost predicate AllHoldable(xs: seq<Item>, max: nat) {
    forall x :: x in xs ==> Holdable(x, max)
  }

  class Stream {
    const input: seq<byte>
    const limited: bool
    const limit: nat
    /**
     * Whether the read that hands out the last bytes reports the end of file along with them. That
     * read happens once, so this covers readers that do so on some reads and not on others.
     */
    const eager: bool
    /** The longest slice the runtime can make. */
    const maxSlice: nat
    var rpos: nat
    var remaining: nat
    var kind: Option<Kind>
    var size: nat
    var byteval: byte
    var kinderr: Option<Error>
    var stack: seq<ListPos>
    ghost var start: nat

    /**
     * What every call keeps: no list is read past its end, an open child fits into its
     * parent, a limited stream never reads past its limit, and a header in memory is the one
     * in front of what lies ahead.
     */
    ghost predicate Valid()
      reads this
    {
      && start <= rpos <= |input|
      && StackOk(stack)
      && (limited ==> rpos + remaining <= limit)
      && (limited && stack != [] ==> Unread(stack) <= remaining)
      && (kind.Some? && kinderr.None? ==> HoldsHeader())
      && (kind.None? ==> start == rpos)
      && kinderr != Some(EOL) && kinderr != Some(SlicePanic)
      && size < SIZE_LIMIT && maxSlice >= 1
    }

    /** Where the innermost list ends, or the limit at top level. */
    ghost function Bound(): Option<int>
      reads this
    {
      if stack != [] then Some(rpos + Room(stack)) else Cap()
    }

    /** The lists one is inside of and how far they and the limit reach. */
    ghost function Here(): Place
      reads this
    {
      Place(Outline(stack), Bound(), Cap())
    }

    /** Where the limit is reached. */
    ghost function Cap(): Option<int>
      reads this
    {
      if limited then Some(rpos + remaining) else None
    }

    /** Everything from the next value on, its header included even when that has been read. */
    ghost function Ahead(): seq<byte>
      reads this
    {
      Window(input, start, Bound())
    }

    /** `n` bytes fit into the innermost list, or into the limit at top level. */
    ghost predicate Fits(n: nat)
      reads this
    {
      Bound().None? || rpos + n <= Bound().value
    }

    /** Reading up to `end` fails although the bytes are there: the end of file comes with them. */
    ghost predicate Spoiled(end: int) {
      eager && end == |input|
    }

    /** The value ahead has a header that can be read, and a size that fits. */
    ghost predicate Accepts()
      reads this
    {
      && HeaderReadable(start, Ahead())
      && var h := PlainHead(Ahead()).value;
      && (Bound().None? || start + h.tagSize + h.size <= Bound().value)
    }

    /** The header in memory is the one in front of `Ahead`. */
    ghost predicate HoldsHeader()
      reads this
    {
      && Accepts()
      && var h := PlainHead(Ahead()).value;
      && kind == Some(h.kind) && rpos == start + HeadLen(h)
      && (if h.kind == ByteKind then size == 0 && byteval == Ahead()[0] else size == h.size)
    }

    /** Inside a list whose end has been reached. */
    ghost predicate AtEnd()
      reads this
    {
      kind.None? && stack != [] && Room(stack) == 0
    }

    /** Nothing is wrong with the next value yet, and there is one. */
    ghost predicate Ready()
      reads this
    {
      !AtEnd() && (kind.Some? ==> kinderr.None?)
    }

    ghost predicate Unmoved(r: nat, rem: nat, st: seq<ListPos>, s: nat)
      reads this
    {
      rpos == r && remaining == rem && stack == st && start == s
    }

    /** Everything up to `at` has been taken, inside the same lists. */
    ghost predicate Took(place: Place, at: int)
      reads this
    {
      kind.None? && rpos == at && Here() == place
    }

    constructor (b: seq<byte>, inputLimit: Option<nat>, eofWithData: bool, longest: nat)
      requires longest >= 1
      ensures Valid() && input == b && rpos == start == 0 && stack == [] && kind.None?
      ensures eager == eofWithData && maxSlice == longest
      ensures limited == inputLimit.Some?
      ensures limited ==> limit == remaining == inputLimit.value
    {
      input := b;
      limited := inputLimit.Some?;
      limit := if inputLimit.Some? then inputLimit.value else 0;
      eager, maxSlice := eofWithData, longest;
      rpos, remaining := 0, if inputLimit.Some? then inputLimit.value else 0;
      kind, size, byteval, kinderr, stack, start := None, 0, 0, None, [], 0;
    }

    /** Books `n` bytes on the innermost list and on the limit, before they are read. */
    method WillRead(n: nat) returns (err: Option<Error>)
      requires Valid()
      modifies this`kind, this`stack, this`remaining
      ensures kind.None? && StackOk(stack)
      ensures err.None? <==> old(Fits(n))
      ensures err.None? ==> Booked(n, old(stack), old(remaining))
      ensures err.Some? ==> stack == old(stack) && remaining == old(remaining)
      ensures err.Some? ==> err.value == (if stack == [] then ValueTooLarge else ElemTooLarge)
      ensures limited && stack != [] ==> Unread(stack) <= remaining
    {
      kind := None;
      if stack != [] {
        RoomWithin(stack);
        if n > Room(stack) { return Some(ElemTooLarge); }
        AdvanceOk(stack, n);
        stack := Advance(stack, n);
      }
      if limited {
        if n > remaining { return Some(ValueTooLarge); }
        remaining := remaining - n;
      }
      err := None;
    }

    /** `n` bytes have been charged to the innermost list and to the limit. */
    ghost predicate Booked(n: nat, st: seq<ListPos>, rem: nat)
      reads this
    {
      stack == Advance(st, n) && remaining == if limited then rem - n else rem
    }

    /**
     * A reader hands out some of the bytes asked for, and end of file when there are none. With
     * its last bytes it may report the end of file at once.
     */
    method ReaderRead(max: nat) returns (chunk: seq<byte>, eof: bool)
      requires rpos <= |input| && max > 0
      modifies this`rpos
      ensures old(rpos) == |input| ==> chunk == [] && eof
      ensures old(rpos) < |input| ==> 1 <= |chunk| <= max && (eof <==> Spoiled(rpos))
      ensures rpos == old(rpos) + |chunk| <= |input| && chunk == input[old(rpos)..rpos]
    {
      if rpos == |input| { return [], true; }
      var n :| 1 <= n <= max && rpos + n <= |input|;
      chunk := input[rpos..rpos + n];
      rpos := rpos + n;
      eof := eager && rpos == |input|;
    }

    /** Reads until `n` bytes are there or the reader reports the end, in as many reads as it takes. */
    method Fill(n: nat) returns (buf: seq<byte>, eof: bool)
      requires rpos <= |input|
      modifies this`rpos
      ensures rpos == old(rpos) + |buf| <= |input|
      ensures !eof <==> old(rpos) + n <= |input| && !(n > 0 && Spoiled(old(rpos) + n))
      ensures !eof ==> buf == input[old(rpos)..old(rpos) + n]
    {
      buf, eof := [], false;
      while |buf| < n && !eof
        invariant |buf| <= n && rpos == old(rpos) + |buf| <= |input| && buf == input[old(rpos)..rpos]
        invariant eof ==> rpos == |input| && n > 0 && (|buf| < n || eager)
        invariant !eof && buf != [] ==> !Spoiled(rpos)
        decreases n - |buf|, !eof
      {
        var chunk;
        chunk, eof := ReaderRead(n - |buf|);
        buf := buf + chunk;
      }
    }

    /**
     * Books `n` bytes and reads exactly them. It fails with all bytes in the buffer when the
     * reader reports the end of file along with the last of them.
     */
    method ReadFull(n: nat) returns (buf: seq<byte>, err: Option<Error>)
      requires Valid()
      modifies this`kind, this`stack, this`remaining, this`rpos, this`start
      ensures Valid() && kind.None? && rpos >= old(rpos)
      ensures err.None? <==> old(Fits(n)) && old(rpos) + n <= |input| && !(n > 0 && Spoiled(old(rpos) + n))
      ensures err.None? ==> buf == input[old(rpos)..old(rpos) + n] && rpos == old(rpos) + n
      ensures err.None? ==> Booked(n, old(stack), old(remaining))
      ensures err.Some? ==> err.value in {ElemTooLarge, ValueTooLarge, UnexpectedEOF}
    {
      buf := [];
      err := WillRead(n);
      if err.None? {
        var eof;
        buf, eof := Fill(n);
        if eof { err := Some(UnexpectedEOF); }
      }
      start := rpos;
    }

    method ReadByte() returns (b: byte, err: Option<Error>)
      requires Valid()
      modifies this`kind, this`stack, this`remaining, this`rpos, this`start
      ensures Valid() && kind.None? && rpos >= old(rpos)
      ensures err.None? <==> old(Fits(1)) && old(rpos) < |input|
      ensures err.None? ==> b == input[old(rpos)] && rpos == old(rpos) + 1
      ensures err.None? ==> Booked(1, old(stack), old(remaining))
      ensures err.Some? ==> err.value in {ElemTooLarge, ValueTooLarge, UnexpectedEOF}
    {
      b := 0;
      err := WillRead(1);
      if err.None? {
        if rpos == |input| {
          err := Some(UnexpectedEOF);
        } else {
          b := input[rpos];
          rpos := rpos + 1;
        }
      }
      start := rpos;
    }

    /** A big-endian integer of `n` bytes; from two bytes on a leading zero is refused. */
    method ReadUint(n: nat) returns (v: nat, err: Option<Error>)
      requires Valid() && n <= 8
      modifies this`kind, this`stack, this`remaining, this`rpos, this`start
      ensures Valid() && kind.None? && rpos >= old(rpos)
      ensures n == 0 ==> err.None? && v == 0
      ensures n > 0 ==>
                (err.None? <==> && old(Fits(n)) && old(rpos) + n <= |input|
                                && (n >= 2 ==> input[old(rpos)] != 0 && !Spoiled(old(rpos) + n)))
      ensures err.None? ==> rpos == old(rpos) + n <= |input| && v == FromBigEndian(input[old(rpos)..old(rpos) + n])
      ensures err.None? ==> Booked(n, old(stack), old(remaining))
      ensures err.Some? ==> err.value in {ElemTooLarge, ValueTooLarge, UnexpectedEOF, CanonSize}
      ensures err == Some(CanonSize) ==> n >= 2
      ensures v < SIZE_LIMIT
    {
      hide StackOk, FromBigEndian, Stream.Accepts;
      v := 0;
      if n == 0 {
        kind, start := None, rpos;
        err := None;
        EmptyValue(input, rpos);
        AdvanceNone(stack);
      } else if n == 1 {
        var b;
        b, err := ReadByte();
        v := b;
        if err.None? { ByteValue(input, rpos - 1); }
      } else {
        var buf;
        buf, err := ReadFull(n);
        if err.None? {
          if buf[0] == 0 {
            err := Some(CanonSize);
          } else {
            v := FromBigEndian(buf);
            UintBound(buf);
          }
        }
      }
    }

    /** Booked bytes move the position and not the bound. */
    lemma BoundAfter(n: nat)
      requires Valid()
      ensures Bound().Some? ==> rpos <= Bound().value
      ensures Advance(stack, n) == [] <==> stack == []
      ensures stack != [] ==> Room(Advance(stack, n)) == Room(stack) - n
    {
      if stack != [] { RoomWithin(stack); }
    }

    /** Reads the header of the next value, whatever its size. */
    method ReadHeader() returns (k: Kind, n: nat, err: Option<Error>)
      requires Valid() && kind.None?
      modifies this`kind, this`stack, this`remaining, this`rpos, this`start, this`byteval
      ensures Valid() && kind.None? && rpos >= old(rpos)
      ensures err.Some? ==> err.value in {EOF, ElemTooLarge, ValueTooLarge, UnexpectedEOF, CanonSize}
      ensures n < SIZE_LIMIT && (k == ByteKind ==> n == 0)
      ensures err.None? <==> HeaderReadable(old(rpos), old(Ahead()))
      ensures err.None? ==> TookHeader(old(rpos), old(stack), old(remaining), old(Ahead()), k, n, 0)
    {
      hide StackOk, Unread, Advance, PlainHead, Stream.HoldsHeader;
      k, n := ByteKind, 0;
      BoundAfter(1);
      EmptyHead();
      ghost var w := Ahead();
      var b;
      b, err := ReadByte();
      if err.Some? {
        assert w == [];
        if stack == [] && err.value != ElemTooLarge { err := Some(EOF); }
        return;
      }
      assert Bound() == old(Bound());
      k, n, err := ReadTagged(b, w);
      if err.None? { AdvanceTwice(old(stack), 1, rpos - old(rpos) - 1); }
    }

    /** The rest of a header whose first byte has been read. */
    method ReadTagged(b: byte, ghost w: seq<byte>) returns (k: Kind, n: nat, err: Option<Error>)
      requires Valid() && kind.None? && rpos >= 1
      requires w == Window(input, rpos - 1, Bound()) && w != [] && w[0] == b
      modifies this`kind, this`stack, this`remaining, this`rpos, this`start, this`byteval
      ensures Valid() && kind.None? && rpos >= old(rpos)
      ensures err.Some? ==> err.value in {ElemTooLarge, ValueTooLarge, UnexpectedEOF, CanonSize}
      ensures n < SIZE_LIMIT && (k == ByteKind ==> n == 0)
      ensures err.None? <==> HeaderReadable(old(rpos) - 1, w)
      ensures err.None? ==> TookHeader(old(rpos) - 1, old(stack), old(remaining), w, k, n, 1)
    {
      hide StackOk, Unread, Advance, PlainLong, Window, Stream.HoldsHeader;
      AdvanceNone(stack);
      k, n, err, byteval := ByteKind, 0, None, 0;
      if b < 0x80 {
        byteval := b;
      } else if b < 0xB8 {
        k, n := StringKind, b - 0x80;
      } else if b < 0xC0 {
        k := StringKind;
        n, err := ReadLongSize(StringKind, b - 0xB7);
      } else if b < 0xF8 {
        k, n := ListKind, b - 0xC0;
      } else {
        k := ListKind;
        n, err := ReadLongSize(ListKind, b - 0xF7);
      }
    }

    /** There is a whole header in front of `w`, and the end of file does not come with its size bytes. */
    ghost predicate HeaderReadable(at: nat, w: seq<byte>) {
      && PlainHead(w).Ok?
      && !(PlainHead(w).value.tagSize >= 3 && Spoiled(at + PlainHead(w).value.tagSize))
    }

    /** What reading the header `PlainHead(w)` leaves behind when `read` bytes of it were booked before. */
    ghost predicate TookHeader(at: nat, st: seq<ListPos>, rem: nat, w: seq<byte>, k: Kind, n: nat, read: nat)
      reads this
    {
      && w != [] && PlainHead(w).Ok?
      && var h := PlainHead(w).value;
      && k == h.kind && rpos == at + HeadLen(h) && read <= HeadLen(h) && Booked(HeadLen(h) - read, st, rem)
      && (if k == ByteKind then n == 0 && byteval == w[0] else n == h.size)
    }

    /** The size bytes of a long header whose tag has just been read. */
    method ReadLongSize(ghost k: Kind, slen: nat) returns (n: nat, err: Option<Error>)
      requires Valid() && kind.None? && 1 <= slen <= 8 && rpos >= 1
      modifies this`kind, this`stack, this`remaining, this`rpos, this`start
      ensures Valid() && kind.None? && rpos >= old(rpos)
      ensures err.Some? ==> err.value in {ElemTooLarge, ValueTooLarge, UnexpectedEOF, CanonSize}
      ensures err.None? ==> rpos == old(rpos) + slen && Booked(slen, old(stack), old(remaining))
      ensures n < SIZE_LIMIT
      ensures var w := Window(input, old(rpos) - 1, old(Bound()));
              && |w| > 0
              && (err.None? <==> PlainLong(w, k, slen).Ok? && !(slen >= 2 && Spoiled(old(rpos) + slen)))
              && (PlainLong(w, k, slen).Ok? ==> PlainLong(w, k, slen).value.tagSize == slen + 1)
              && (err.None? ==> PlainLong(w, k, slen) == Ok(Header(k, slen + 1, n)))
    {
      hide StackOk, FromBigEndian, Advance, Stream.Accepts;
      BoundAfter(slen);
      LongHeader(input, rpos - 1, Bound(), k, slen);
      n, err := ReadUint(slen);
      if old(rpos) < |input| { ByteValue(input, old(rpos)); }
      if err.None? && n < 56 { err := Some(CanonSize); }
    }

    /**
     * The kind and size of the next value. The header is read once and kept until the value
     * is taken; an error sticks. At the end of a list nothing is read.
     */
    method PeekKind() returns (k: Kind, n: nat, err: Option<Error>)
      requires Valid()
      modifies this
      ensures Valid()
      ensures err.None? ==> kind == Some(k) && size == n && kinderr.None?
      ensures old(kind).Some? ==> err == kinderr == old(kinderr)
                                  && Unmoved(old(rpos), old(remaining), old(stack), old(start))
                                  && kind == old(kind) && size == old(size) && byteval == old(byteval)
      ensures old(AtEnd()) ==> err == Some(EOL) && kind.None?
                               && Unmoved(old(rpos), old(remaining), old(stack), old(start))
      ensures (!old(AtEnd()) ==> err != Some(EOL)) && err != Some(SlicePanic)
      ensures old(kind).None? && !old(AtEnd()) ==> (err.None? <==> old(Accepts()))
      ensures err.None? ==> start == old(start) && Here() == old(Here())
    {
      hide StackOk, Unread, Outline, Stream.Accepts;
      if kind.None? {
        if stack != [] && stack[|stack| - 1].pos == stack[|stack| - 1].size {
          kinderr := None;
          return ByteKind, 0, Some(EOL);
        }
        FetchKind();
      }
      k, n, err := kind.value, size, kinderr;
    }

    /** Reads the header of the next value and checks that the value fits. */
    method FetchKind()
      requires Valid() && kind.None? && !AtEnd()
      modifies this
      ensures Valid() && kind.Some? && (kinderr.None? <==> old(Accepts()))
      ensures kinderr.None? ==> start == old(start) && Here() == old(Here())
    {
      hide StackOk, PlainHead, Advance, Unread, Window, Outline;
      ghost var at := start;
      HeaderFits();
      var k, n, err := ReadHeader();
      kind, size, kinderr, start := Some(k), n, err, at;
      if err.None? {
        if stack == [] {
          if limited && n > remaining { kinderr := Some(ValueTooLarge); }
        } else if n > Room(stack) {
          kinderr := Some(ElemTooLarge);
        }
      }
    }

    /** A header in front of the end leaves the end where it is. */
    lemma HeaderFits()
      requires Valid() && kind.None?
      ensures PlainHead(Ahead()).Ok? ==>
                var h := PlainHead(Ahead()).value;
                && |Ahead()| > 0
                && (h.kind == ByteKind ==> h == Header(ByteKind, 0, 1))
                && (Advance(stack, HeadLen(h)) == [] <==> stack == [])
                && (stack != [] ==> Room(Advance(stack, HeadLen(h))) == Room(stack) - HeadLen(h))
                && Outline(Advance(stack, HeadLen(h))) == Outline(stack)
    {
      if PlainHead(Ahead()).Ok? {
        BoundAfter(HeadLen(PlainHead(Ahead()).value));
        AdvanceOutline(stack, HeadLen(PlainHead(Ahead()).value));
      }
    }

    /** A value that is all there has an acceptable header; an acceptable header may lack its value. */
    lemma AcceptsWhole()
      requires Valid()
      ensures LooseKind(Ahead()).Ok? ==> Accepts() && PlainHead(Ahead()) == LooseKind(Ahead())
      ensures Accepts() ==>
                var h := PlainHead(Ahead()).value;
                && |Ahead()| > 0 && (h.kind == ByteKind ==> h == Header(ByteKind, 0, 1))
                && (h.kind != ByteKind ==> 1 <= h.tagSize <= 9)
                && (LooseKind(Ahead()).Ok? <==> start + h.tagSize + h.size <= |input|)
    {
      hide StackOk;
      BoundAfter(0);
    }

    /** The header ahead, read now or earlier. */
    method Peek() returns (k: Kind, n: nat, err: Option<Error>)
      requires Valid()
      modifies this
      ensures Valid()
      ensures err.None? ==> kind == Some(k) && size == n && kinderr.None?
      ensures old(AtEnd()) ==> err == Some(EOL) && kind.None?
      ensures (!old(AtEnd()) ==> err != Some(EOL)) && err != Some(SlicePanic)
      ensures !old(Ready()) ==> Unmoved(old(rpos), old(remaining), old(stack), old(start))
      ensures old(kind.Some? && kinderr.Some?) ==> err == kinderr == old(kinderr) && kind == old(kind)
      ensures old(Ready()) ==> (err.None? <==> old(Accepts()))
      ensures err.None? ==> start == old(start) && Here() == old(Here())
    {
      hide StackOk, PlainHead, Stream.Accepts;
      k, n, err := PeekKind();
    }

    /** Behind a header in memory lies the content it announces, as far as the input goes. */
    lemma HeldContent()
      requires Valid() && kind.Some? && kinderr.None? && kind != Some(ByteKind)
      ensures Fits(size)
      ensures Advance(stack, size) == [] <==> stack == []
      ensures stack != [] ==> Room(Advance(stack, size)) == Room(stack) - size
      ensures Outline(Advance(stack, size)) == Outline(stack)
      ensures var w := Ahead();
              && PlainHead(w).Ok?
              && var h := PlainHead(w).value;
              && rpos == start + h.tagSize && size == h.size
              && (LooseKind(w).Ok? <==> rpos + size <= |input|)
              && (LooseKind(w).Ok? ==> && h.tagSize + size <= |w|
                                       && w[h.tagSize..h.tagSize + size] == input[rpos..rpos + size]
                                       && (size > 0 ==> w[h.tagSize] == input[rpos]))
    {
      hide StackOk, LooseKind, PlainHead, Unread;
      AcceptsWhole();
      BoundAfter(size);
      AdvanceOutline(stack, size);
      var w, h := Ahead(), PlainHead(Ahead()).value;
      if LooseKind(w).Ok? {
        LooseKindBounds(w);
        WindowSlice(input, start, Bound(), h.tagSize, h.size);
      }
    }

    /** The content of a string or list whose header is in memory. */
    method TakeContent() returns (b: seq<byte>, err: Option<Error>)
      requires Valid() && kind.Some? && kinderr.None? && kind != Some(ByteKind)
      modifies this
      ensures Valid() && kind.None?
      ensures err != Some(EOL) && err != Some(SlicePanic) && (err.None? ==> |b| == old(size))
      ensures var w := old(Ahead());
              && PlainHead(w).Ok?
              && var h := PlainHead(w).value;
              && (err.None? <==> LooseKind(w).Ok? && !(h.size > 0 && Spoiled(old(start) + h.tagSize + h.size)))
              && (err.None? ==> && h.tagSize + h.size <= |w| && b == w[h.tagSize..h.tagSize + h.size]
                                && Took(old(Here()), old(start) + h.tagSize + h.size))
    {
      hide StackOk, LooseKind, PlainHead, Unread, Window, Stream.HoldsHeader, Advance, Outline;
      HeldContent();
      b, err := ReadFull(size);
    }

    /** The single byte that is its own header. */
    method TakeByte() returns (b: seq<byte>)
      requires Valid() && kind == Some(ByteKind) && kinderr.None?
      modifies this
      ensures Valid() && kind.None? && |b| == 1
      ensures var w := old(Ahead());
              && w != [] && LooseKind(w) == PlainHead(w) == Ok(Header(ByteKind, 0, 1)) && b == [w[0]] == w[0..1]
              && Took(old(Here()), old(start) + 1)
    {
      hide StackOk, LooseKind, PlainHead, Unread;
      AcceptsWhole();
      b := [byteval];
      kind, start := None, rpos;
    }

    /**
     * A string value. It is accepted exactly when the slice reader accepts it and the end of file
     * does not come with its content.
     */
    method Bytes() returns (b: seq<byte>, err: Option<Error>)
      requires Valid()
      modifies this
      ensures Valid()
      ensures old(AtEnd()) ==> err == Some(EOL) && kind.None?
      ensures !old(AtEnd()) ==> err != Some(EOL)
      ensures !old(Ready()) ==> Unmoved(old(rpos), old(remaining), old(stack), old(start))
      ensures old(kind.Some? && kinderr.Some?) ==> err == kinderr == old(kinderr) && kind == old(kind)
      ensures old(Ready()) ==> (err.None? <==> old(StringThere()))
      ensures err == Some(SlicePanic) <==>
                old(Ready() && Accepts()) && PlainHead(old(Ahead())).value.kind == StringKind
                && PlainHead(old(Ahead())).value.size > maxSlice
      ensures old(Ready()) && err.None? ==>
                var w := old(Ahead());
                && SplitString(w).Ok? && b == SplitString(w).value.content && LooseKind(w).Ok?
                && Took(old(Here()), old(start) + LooseKind(w).value.tagSize + LooseKind(w).value.size)
    {
      hide StackOk, LooseKind, PlainHead, SplitString, Stream.Took, Stream.Accepts, Stream.Bound;
      b := [];
      SplitStringOf(Ahead());
      if SplitString(Ahead()).Ok? { StringEnds(Ahead()); }
      AcceptsWhole();
      var k, n;
      k, n, err := Peek();
      if err.Some? { return; }
      match k
      case ByteKind =>
        b := TakeByte();
      case StringKind =>
        if n > maxSlice { return [], Some(SlicePanic); }
        b, err := TakeContent();
        if err.None? && n == 1 && b[0] < 128 { err := Some(CanonSize); }
      case ListKind =>
        err := Some(ExpectedString);
    }

    /** The value ahead is a string that can be read. */
    ghost predicate StringThere()
      reads this
    {
      && SplitString(Ahead()).Ok? && LooseKind(Ahead()).Ok?
      && var h := LooseKind(Ahead()).value;
      && !(EndsInContent(Str(SplitString(Ahead()).value.content)) && Spoiled(start + h.tagSize + h.size))
      && Holdable(Str(SplitString(Ahead()).value.content), maxSlice)
    }

    /** Steps into a list. Its size is not charged to the list around it until `ListEnd`. */
    method List() returns (n: nat, err: Option<Error>)
      requires Valid()
      modifies this
      ensures Valid()
      ensures old(AtEnd()) ==> err == Some(EOL) && kind.None?
      ensures !old(AtEnd()) ==> err != Some(EOL)
      ensures !old(Ready()) ==> Unmoved(old(rpos), old(remaining), old(stack), old(start))
      ensures old(kind.Some? && kinderr.Some?) ==> err == kinderr == old(kinderr) && kind == old(kind)
      ensures err.None? ==> stack != [] && stack[|stack| - 1] == ListPos(0, n) && kind.None?
      ensures old(Ready()) ==> (err.None? <==> old(Accepts()) && PlainHead(old(Ahead())).value.kind == ListKind)
      ensures old(Ready()) && err.None? ==>
                Entered(old(Here()), old(start), PlainHead(old(Ahead())).value)
    {
      hide StackOk, PlainHead, Window, Stream.Entered, Stream.Bound;
      n := 0;
      var k, sz;
      k, sz, err := Peek();
      if err.Some? { return; }
      if k != ListKind { return 0, Some(ExpectedList); }
      EnterList(sz);
      n := sz;
    }

    /** Pushes a list whose header is in memory. */
    method EnterList(sz: nat)
      requires Valid() && kind == Some(ListKind) && kinderr.None? && size == sz
      modifies this
      ensures Valid() && kind.None?
      ensures stack == old(stack) + [ListPos(0, sz)]
      ensures PlainHead(old(Ahead())).Ok?
      ensures Entered(old(Here()), old(start), PlainHead(old(Ahead())).value)
    {
      hide StackOk, PlainHead, Unread, Outline, Window;
      PushOk(stack, sz);
      stack := stack + [ListPos(0, sz)];
      kind, size, start := None, 0, rpos;
    }

    /** Just inside a list with header `h` that started at `at` in the given place. */
    ghost predicate Entered(place: Place, at: nat, h: Header)
      reads this
    {
      && kind.None? && stack != [] && stack[|stack| - 1] == ListPos(0, h.size)
      && rpos == at + h.tagSize && Outside() == place
    }

    /** The place of the innermost list. */
    ghost function Outside(): Place
      requires stack != []
      reads this
    {
      var outer := stack[..|stack| - 1];
      Place(Outline(outer), if outer != [] then Some(rpos - stack[|stack| - 1].pos + Room(outer)) else Cap(), Cap())
    }

    /** Leaves a list that has been read to its end; never moves past the end of the list around it. */
    method ListEnd() returns (err: Option<Error>)
      requires Valid()
      modifies this
      ensures Valid()
      ensures err == if old(stack) == [] then Some(NotInList)
                     else if Room(old(stack)) != 0 then Some(NotAtEOL) else None
      ensures err.None? ==>
                && stack == Advance(old(stack)[..|old(stack)| - 1], old(stack)[|old(stack)| - 1].size)
                && kind.None? && rpos == old(rpos)
      ensures err.Some? ==> stack == old(stack) && kind == old(kind) && rpos == old(rpos)
      ensures err.None? ==> Took(old(Outside()), old(rpos))
    {
      hide Unread, Stream.HoldsHeader;
      if stack == [] { return Some(NotInList); }
      var tos := stack[|stack| - 1];
      if tos.pos != tos.size { return Some(NotAtEOL); }
      PopOk(stack);
      AdvanceOutline(stack[..|stack| - 1], tos.size);
      stack := Advance(stack[..|stack| - 1], tos.size);
      kind, size, start := None, 0, rpos;
      err := None;
    }

    /** The value ahead can be read whole. */
    ghost predicate ItemThere()
      reads this
    {
      && ParseItem(Ahead()).Some?
      && !(EndsInContent(ParseItem(Ahead()).value.0) && Spoiled(start + ParseItem(Ahead()).value.1))
      && Holdable(ParseItem(Ahead()).value.0, maxSlice)
    }

    /** The elements of the innermost list can be read to its end. */
    ghost predicate ElemsThere()
      reads this
    {
      && Bound().Some? && Bound().value <= |input|
      && ParseAll(Ahead()).Some? && !(AllEndInContent(ParseAll(Ahead()).value) && Spoiled(Bound().value))
      && AllHoldable(ParseAll(Ahead()).value, maxSlice)
    }

    /**
     * A value of any shape, as an item tree. It agrees with the reference decoder on what lies
     * ahead, unless the end of file comes with the last bytes of content.
     */
    method DecodeInterface() returns (item: Item, err: Option<Error>)
      requires Valid()
      modifies this
      ensures Valid()
      ensures old(AtEnd()) ==> err == Some(EOL) && kind.None?
      ensures !old(AtEnd()) ==> err != Some(EOL)
      ensures !old(Ready()) ==> Unmoved(old(rpos), old(remaining), old(stack), old(start))
      ensures old(kind.Some? && kinderr.Some?) ==> err == kinderr == old(kinderr) && kind == old(kind)
      ensures old(Ready()) ==> (err.None? <==> old(ItemThere()))
      ensures old(Ready()) && err.None? ==>
                && ParseItem(old(Ahead())).Some? && item == ParseItem(old(Ahead())).value.0
                && Took(old(Here()), old(start) + ParseItem(old(Ahead())).value.1)
      decreases |Ahead()|, 1
    {
      hide StackOk, LooseKind, PlainHead, SplitString, ParseItem, ParseAll, EndsInContent, Stream.Accepts, Stream.Bound;
      item := Str([]);
      ParseItemOf(Ahead());
      SplitStringOf(Ahead());
      ListEnds();
      AcceptsWhole();
      var k, n;
      k, n, err := Peek();
      if err.Some? { return; }
      if k == ListKind {
        var xs;
        xs, err := DecodeList();
        item := Item.List(xs);
      } else {
        var b;
        b, err := Bytes();
        item := Str(b);
      }
    }

    /** A list whose header is in memory. */
    method DecodeList() returns (xs: seq<Item>, err: Option<Error>)
      requires Valid() && kind == Some(ListKind) && kinderr.None?
      modifies this
      ensures Valid()
      ensures err != Some(EOL)
      ensures var w := old(Ahead());
              && PlainHead(w).Ok?
              && var h := PlainHead(w).value;
              && (err.None? <==>
                    && LooseKind(w).Ok? && h.tagSize + h.size <= |w|
                    && ParseAll(w[h.tagSize..h.tagSize + h.size]).Some?
                    && AllHoldable(ParseAll(w[h.tagSize..h.tagSize + h.size]).value, maxSlice)
                    && !(AllEndInContent(ParseAll(w[h.tagSize..h.tagSize + h.size]).value)
                         && Spoiled(old(start) + h.tagSize + h.size)))
              && (err.None? ==> xs == ParseAll(w[h.tagSize..h.tagSize + h.size]).value
                                && Took(old(Here()), old(start) + h.tagSize + h.size))
      decreases |Ahead()|, 0
    {
      hide StackOk, LooseKind, PlainHead, ParseAll, Advance, Outline, Unread, EndsInContent, Window, Stream.HoldsHeader;
      ContentAhead();
      ghost var w, h := Ahead(), PlainHead(Ahead()).value;
      var n;
      n, err := List();
      EnteredAhead(old(Here()), old(start), h);
      ghost var inner, at := stack, rpos;
      if n == 0 {
        ParseAllStep(Ahead());
        xs := [];
      } else {
        xs, err := DecodeElems();
        if err.Some? { return; }
      }
      SameOuter(stack, inner);
      err := ListEnd();
    }

    /** The elements of the innermost list, to its end. */
    method DecodeElems() returns (xs: seq<Item>, err: Option<Error>)
      requires Valid() && kind.None? && stack != []
      modifies this
      ensures Valid()
      ensures err != Some(EOL)
      ensures err.None? <==> old(ElemsThere())
      ensures err.None? ==> xs == ParseAll(old(Ahead())).value && Took(old(Here()), old(Bound()).value)
      decreases |Ahead()|, 2
    {
      hide StackOk, ParseItem, ParseAll, EndsInContent, Outline, Window, Prepend, Unread, Stream.HoldsHeader;
      xs := [];
      PrependNone(ParseAll(Ahead()));
      while true
        invariant Valid() && Took(old(Here()), rpos) && stack != []
        invariant ParseAll(old(Ahead())) == Prepend(xs, ParseAll(Ahead()))
        invariant !(AllEndInContent(xs) && Spoiled(rpos)) && AllHoldable(xs, maxSlice)
        invariant |Ahead()| <= old(|Ahead()|)
        decreases |Ahead()|
      {
        ghost var w, at := Ahead(), rpos;
        BoundAfter(0);
        ParseAllStep(w);
        WindowEnd(input, at);
        PrependEmpty(xs);
        var x;
        x, err := DecodeInterface();
        if err == Some(EOL) {
          return xs, None;
        }
        if err.Some? {
          ElemsStop(input, eager, maxSlice, at, old(Bound()).value, w, xs);
          return;
        }
        ghost var n := ParseItem(w).value.1;
        SameOuter(stack, old(stack));
        AllEndSnoc(xs, x);
        WindowSlice(input, at, Bound(), 0, n);
        PrependTwice(xs, x, ParseAll(w[n..]));
        xs := xs + [x];
      }
    }

    /**
     * The next value as bytes, header included. The header is rebuilt rather than kept, and for
     * long strings with another tag, so the bytes are the original ones exactly when the
     * value is not a string of 56 bytes or more.
     */
    method Raw() returns (buf: seq<byte>, err: Option<Error>)
      requires Valid()
      modifies this
      ensures Valid()
      ensures old(AtEnd()) ==> err == Some(EOL) && kind.None?
      ensures !old(AtEnd()) ==> err != Some(EOL)
      ensures !old(Ready()) ==> Unmoved(old(rpos), old(remaining), old(stack), old(start))
      ensures old(kind.Some? && kinderr.Some?) ==> err == kinderr == old(kinderr) && kind == old(kind)
      ensures old(Ready()) ==> (err.None? <==> old(RawThere()))
      ensures err == Some(SlicePanic) <==>
                old(Ready() && Accepts()) && PlainHead(old(Ahead())).value.kind != ByteKind
                && !Makeable(PlainHead(old(Ahead())).value.size)
      ensures old(Ready()) && err.None? ==>
                var w := old(Ahead());
                && LooseKind(w).Ok?
                && var h := LooseKind(w).value;
                && h.tagSize + h.size <= |w|
                && Took(old(Here()), old(start) + h.tagSize + h.size)
                && (buf == w[..h.tagSize + h.size] <==> !(h.kind == StringKind && h.size >= 56))
    {
      hide StackOk, LooseKind, PlainHead, Stream.Took, Stream.Accepts, Stream.Bound, Head;
      buf := [];
      AcceptsWhole();
      var k, n;
      k, n, err := Peek();
      if err.Some? { return; }
      if k == ByteKind {
        buf := TakeByte();
        return;
      }
      if HeadSize(n) + n > maxSlice || HeadSize(n) + n >= SIZE_LIMIT { return [], Some(SlicePanic); }
      if LooseKind(old(Ahead())).Ok? { RawBytes(old(Ahead())); }
      var content;
      content, err := TakeContent();
      if err.None? { buf := Head(RawSmall(k), RawLarge(k), n) + content; }
    }

    /** The value ahead is all there, and its content can be read. */
    ghost predicate RawThere()
      reads this
    {
      && LooseKind(Ahead()).Ok?
      && var h := LooseKind(Ahead()).value;
      && !(h.kind != ByteKind && h.size > 0 && Spoiled(start + h.tagSize + h.size))
      && (h.kind != ByteKind ==> Makeable(h.size))
    }

    /** A slice for a content of `n` bytes and its header can be made; the length is computed in 64 bits. */
    ghost predicate Makeable(n: nat) {
      HeadSize(n) + n <= maxSlice && HeadSize(n) + n < SIZE_LIMIT
    }

    /** An unsigned integer of at most `maxbits` bits: the shortest big-endian form and no other. */
    method Uint(maxbits: nat) returns (v: nat, err: Option<Error>)
      requires Valid() && 8 <= maxbits <= 64
      modifies this
      ensures Valid()
      ensures old(AtEnd()) ==> err == Some(EOL) && kind.None?
      ensures !old(AtEnd()) ==> err != Some(EOL)
      ensures !old(Ready()) ==> Unmoved(old(rpos), old(remaining), old(stack), old(start))
      ensures old(kind.Some? && kinderr.Some?) ==> err == kinderr == old(kinderr) && kind == old(kind)
      ensures old(Ready()) ==> (err.None? <==> old(UintThere(maxbits / 8)))
      ensures old(Ready()) && err.None? ==>
                var w := old(Ahead());
                && Some(v) == UintAt(w, maxbits / 8) && LooseKind(w).Ok?
                && Took(old(Here()), old(start) + LooseKind(w).value.tagSize + LooseKind(w).value.size)
    {
      hide StackOk, LooseKind, PlainHead, Stream.Took, Stream.Accepts, Stream.Bound, UintAt, FromBigEndian;
      v := 0;
      UintAtOf(Ahead(), maxbits / 8);
      AcceptsWhole();
      var k, n;
      k, n, err := Peek();
      if err.Some? { return; }
      match k
      case ByteKind =>
        if byteval == 0 { return 0, Some(CanonInt); }
        v := byteval;
        var _ := TakeByte();
      case StringKind =>
        if n > maxbits / 8 { return 0, Some(UintOverflow); }
        v, err := TakeUint(n);
        if err == Some(CanonSize) {
          err := Some(CanonInt);
        } else if err.None? && n > 0 && v < 128 {
          err := Some(CanonSize);
        }
      case ListKind =>
        err := Some(ExpectedString);
    }

    /** The value ahead is an integer that can be read; a single byte of content needs no full read. */
    ghost predicate UintThere(width: nat)
      reads this
    {
      && UintAt(Ahead(), width).Some? && LooseKind(Ahead()).Ok?
      && var h := LooseKind(Ahead()).value;
      && !(h.size >= 2 && Spoiled(start + h.tagSize + h.size))
    }

    /** The content of a short string whose header is in memory, as an integer. */
    method TakeUint(n: nat) returns (v: nat, err: Option<Error>)
      requires Valid() && kind == Some(StringKind) && kinderr.None? && size == n <= 8
      modifies this
      ensures Valid() && kind.None?
      ensures err != Some(EOL)
      ensures var w := old(Ahead());
              && PlainHead(w).Ok?
              && var h := PlainHead(w).value;
              && (err.None? <==>
                    && LooseKind(w).Ok? && h.tagSize + h.size <= |w|
                    && (h.size >= 2 ==> w[h.tagSize] != 0 && !Spoiled(old(start) + h.tagSize + h.size)))
              && (err.None? ==> v == FromBigEndian(w[h.tagSize..h.tagSize + h.size])
                                && Took(old(Here()), old(start) + h.tagSize + h.size))
    {
      hide StackOk, LooseKind, PlainHead, FromBigEndian, Unread, Window, Stream.HoldsHeader, Advance, Outline;
      HeldContent();
      v, err := ReadUint(n);
    }

    lemma EnteredAhead(place: Place, at: nat, h: Header)
      requires Valid() && Entered(place, at, h)
      ensures Bound() == Some(at + h.tagSize + h.size)
      ensures Ahead() == Window(input, at + h.tagSize, Some(at + h.tagSize + h.size))
    {
    }

    /** Which of the values ahead end in content. */
    lemma ListEnds()
      ensures LooseKind(Ahead()).Ok? && ParseItem(Ahead()).Some? && LooseKind(Ahead()).value.kind == ListKind ==>
                && (EndsInContent(ParseItem(Ahead()).value.0) <==> AllEndInContent(ParseItem(Ahead()).value.0.items))
                && (Holdable(ParseItem(Ahead()).value.0, maxSlice) <==>
                      AllHoldable(ParseItem(Ahead()).value.0.items, maxSlice))
    {
    }

    /** Just inside a list whose header is in memory, its content lies ahead. */
    lemma ContentAhead()
      requires Valid() && kind == Some(ListKind) && kinderr.None?
      ensures Accepts() && PlainHead(Ahead()).Ok? && PlainHead(Ahead()).value.kind == ListKind
      ensures var h := PlainHead(Ahead()).value;
              var w := Window(input, start + h.tagSize, Some(start + h.tagSize + h.size));
              && |w| < |Ahead()|
              && (LooseKind(Ahead()).Ok? <==> start + h.tagSize + h.size <= |input|)
              && (LooseKind(Ahead()).Ok? ==> && h.tagSize + h.size <= |Ahead()|
                                             && Ahead()[h.tagSize..h.tagSize + h.size] == w)
    {
      hide StackOk, LooseKind, PlainHead, Unread, Window;
      AcceptsWhole();
      var h := PlainHead(Ahead()).value;
      InnerWindow(input, start, Bound(), h.tagSize, h.size);
      if LooseKind(Ahead()).Ok? {
        LooseKindBounds(Ahead());
        WindowSlice(input, start, Bound(), h.tagSize, h.size);
        InnerWhole(input, start + h.tagSize, h.size);
      }
    }
  }

  /** The tags `Raw` rebuilds a header with. */
  function RawSmall(k: Kind): byte { if k == ListKind then 0xC0 else 0x80 }
  function RawLarge(k: Kind): byte { if k == ListKind then 0xF7 else 0xB8 }

  lemma LongTagBytes(w: seq<byte>, kind: Kind, slen: nat)
    requires |w| > 0 && 1 <= slen <= 8 && PlainLong(w, kind, slen).Ok?
    ensures var h := PlainLong(w, kind, slen).value;
            && h.kind == kind && 56 <= h.size < SIZE_LIMIT && h.tagSize == slen + 1 <= |w|
            && |BigEndian(h.size)| == slen && w[..slen + 1] == [w[0]] + BigEndian(h.size)
  {
    var s := w[1..][..slen];
    assert s[0] == w[1..][0];
    BigEndianUnique(s);
    UintBound(s);
    assert w[..slen + 1] == [w[0]] + s;
  }

  /** The rebuilt header is the original one, but for the tag of a long string. */
  lemma RawHeadBytes(w: seq<byte>)
    requires LooseKind(w).Ok? && LooseKind(w).value.kind != ByteKind
    ensures var h := LooseKind(w).value;
            && h.size < SIZE_LIMIT && h.tagSize <= |w|
            && |Head(RawSmall(h.kind), RawLarge(h.kind), h.size)| == h.tagSize
            && (Head(RawSmall(h.kind), RawLarge(h.kind), h.size) == w[..h.tagSize] <==>
                !(h.kind == StringKind && h.size >= 56))
  {
    if 0xB8 <= w[0] < 0xC0 {
      LongTagBytes(w, StringKind, w[0] - 0xB7);
      var h := LooseKind(w).value;
      assert Head(RawSmall(h.kind), RawLarge(h.kind), h.size)[0] == w[0] + 1;
      assert w[..h.tagSize][0] == w[0];
    } else if w[0] >= 0xF8 {
      LongTagBytes(w, ListKind, w[0] - 0xF7);
    } else {
      assert w[..1] == [w[0]];
    }
  }

  lemma RawBytes(w: seq<byte>)
    requires LooseKind(w).Ok? && LooseKind(w).value.kind != ByteKind
    ensures var h := LooseKind(w).value;
            && h.size < SIZE_LIMIT && h.tagSize + h.size <= |w|
            && var rebuilt := Head(RawSmall(h.kind), RawLarge(h.kind), h.size) + w[h.tagSize..h.tagSize + h.size];
            && (rebuilt == w[..h.tagSize + h.size] <==> !(h.kind == StringKind && h.size >= 56))
  {
    hide LooseKind, Head;
    LooseKindBounds(w);
    RawHeadBytes(w);
    var h := LooseKind(w).value;
    var head, content := Head(RawSmall(h.kind), RawLarge(h.kind), h.size), w[h.tagSize..h.tagSize + h.size];
    assert w[..h.tagSize + h.size] == w[..h.tagSize] + content;
    assert (head + content)[..h.tagSize] == head && (w[..h.tagSize] + content)[..h.tagSize] == w[..h.tagSize];
  }

  /** For instance, a string of 56 zeros comes out with another tag. */
  lemma RawDiffersOn(w: seq<byte>)
    requires w == [0xB8, 56] + seq(56, _ => 0)
    ensures LooseKind(w) == Ok(Header(StringKind, 2, 56)) && |w| == 58
    ensures Head(RawSmall(StringKind), RawLarge(StringKind), 56) + w[2..58] != w
  {
    assert w[1..][..1] == [56];
    assert FromBigEndian([56]) == 56 by {
      var one: seq<byte> := [56];
      assert one[..0] == [];
    }
    RawBytes(w);
    assert w[..58] == w;
  }

  /** The integer at the front of `w`, when it is one of at most `width` bytes in its shortest form. */
  function UintAt(w: seq<byte>, width: nat): Option<nat> {
    match SplitString(w)
    case Ok(c) =>
      if |c.content| <= width && (c.content == [] || c.content[0] != 0) then Some(FromBigEndian(c.content)) else None
    case _ => None
  }

  lemma TwoBytesUp(s: seq<byte>)
    requires |s| >= 2 && s[0] != 0
    ensures FromBigEndian(s) >= 256
  {
    BigEndianUnique(s);
    BigEndianLength(FromBigEndian(s), 1);
    Pow256Values();
  }

  /** `UintAt` in terms of the header alone. */
  lemma UintAtOf(w: seq<byte>, width: nat)
    requires width >= 1
    ensures !LooseKind(w).Ok? ==> UintAt(w, width).None?
    ensures LooseKind(w).Ok? ==>
              var h := LooseKind(w).value;
              match h.kind
              case ByteKind => |w| > 0 && UintAt(w, width) == if w[0] == 0 then None else Some(w[0])
              case ListKind => UintAt(w, width).None?
              case StringKind =>
                && h.tagSize + h.size <= |w|
                && var c := w[h.tagSize..h.tagSize + h.size];
                && (UintAt(w, width).Some? <==>
                      h.size <= width && (h.size >= 2 ==> c[0] != 0) && (h.size > 0 ==> FromBigEndian(c) >= 128))
                && (UintAt(w, width).Some? ==> UintAt(w, width).value == FromBigEndian(c))
  {
    hide LooseKind, SplitString, FromBigEndian;
    SplitStringOf(w);
    if LooseKind(w).Ok? {
      LooseKindBounds(w);
      var h := LooseKind(w).value;
      var c := w[h.tagSize..h.tagSize + h.size];
      if h.size == 1 {
        ByteValue(w, h.tagSize);
      } else if h.size >= 2 && c[0] != 0 {
        TwoBytesUp(c);
      }
    }
  }

  function Prepend(xs: seq<Item>, r: Option<seq<Item>>): Option<seq<Item>> {
    if r.None? then None else Some(xs + r.value)
  }

  lemma PrependNone(r: Option<seq<Item>>)
    ensures r == Prepend([], r)
  {
    assert r.Some? ==> [] + r.value == r.value;
  }

  lemma PrependEmpty(xs: seq<Item>)
    ensures Prepend(xs, Some([])) == Some(xs)
  {
    assert xs + [] == xs;
  }

  lemma PrependTwice(xs: seq<Item>, x: Item, r: Option<seq<Item>>)
    ensures Prepend(xs, Prepend([x], r)) == Prepend(xs + [x], r)
  {
    if r.Some? { assert xs + ([x] + r.value) == xs + [x] + r.value; }
  }

  lemma ParseAllStep(w: seq<byte>)
    ensures w == [] ==> ParseAll(w) == Some([])
    ensures w != [] && ParseItem(w).None? ==> ParseAll(w) == None
    ensures w != [] && ParseItem(w).Some? ==>
              ParseAll(w) == Prepend([ParseItem(w).value.0], ParseAll(w[ParseItem(w).value.1..]))
  {
  }

  lemma SameOuter(a: seq<ListPos>, b: seq<ListPos>)
    requires b != [] && Outline(a) == Outline(b)
    ensures a != [] && a[..|a| - 1] == b[..|b| - 1] && a[|a| - 1].size == b[|b| - 1].size
  {
    assert Outline(a)[..|a| - 1] == a[..|a| - 1] && Outline(b)[..|b| - 1] == b[..|b| - 1];
  }

  lemma Slices(s: seq<byte>, from: nat, to: nat, a: nat, n: nat)
    requires from + a + n <= to <= |s|
    ensures var w := s[from..to];
            && w[a..a + n] == s[from + a..from + a + n] && w[a + n..] == s[from + a + n..to]
            && (n == 1 ==> w[a..a + n] == [w[a]])
  {
    var w := s[from..to];
    var x, y := w[a..a + n], s[from + a..from + a + n];
    forall k | 0 <= k < n ensures x[k] == y[k] {
      assert x[k] == w[a + k] == s[from + (a + k)];
    }
    var u, v := w[a + n..], s[from + a + n..to];
    forall k | 0 <= k < |v| ensures u[k] == v[k] {
      assert u[k] == w[a + n + k] == s[from + (a + n + k)];
    }
    if n == 1 { assert w[a..a + n] == [w[a]]; }
  }

  lemma AllEndSnoc(xs: seq<Item>, x: Item)
    ensures AllEndInContent(xs + [x]) <==> EndsInContent(x)
    ensures forall max :: AllHoldable(xs + [x], max) <==> AllHoldable(xs, max) && Holdable(x, max)
  {
  }

  /** An element that cannot be read keeps the list from being read to its end. */
  lemma ElemsStop(input: seq<byte>, eager: bool, max: nat, at: nat, bound: int, w: seq<byte>, xs: seq<Item>)
    requires at <= |input| && at < bound && w == Window(input, at, Some(bound))
    requires ParseItem(w).Some? ==>
               || (EndsInContent(ParseItem(w).value.0) && eager && at + ParseItem(w).value.1 == |input|)
               || !Holdable(ParseItem(w).value.0, max)
    ensures var all := Prepend(xs, ParseAll(w));
            !(&& bound <= |input| && all.Some? && AllHoldable(all.value, max)
              && !(AllEndInContent(all.value) && eager && bound == |input|))
  {
    hide ParseItem, ParseAll, EndsInContent, Holdable;
    ParseAllStep(w);
    if ParseItem(w).Some? && Prepend(xs, ParseAll(w)).Some? {
      var x, n := ParseItem(w).value.0, ParseItem(w).value.1;
      assert x in Prepend(xs, ParseAll(w)).value;
      if Holdable(x, max) {
        ParseAllStep(w[n..]);
        AllEndSnoc(xs, x);
        assert w[n..] == [] && [x] + [] == [x];
      }
    }
  }

  /** The last thing read for a string is its content, unless it is empty or its own header. */
  lemma StringEnds(w: seq<byte>)
    requires LooseKind(w).Ok? && SplitString(w).Ok?
    ensures EndsInContent(Str(SplitString(w).value.content)) <==>
              LooseKind(w).value.kind == StringKind && LooseKind(w).value.size > 0
  {
    hide LooseKind, SplitString;
    SplitStringOf(w);
    LooseKindBounds(w);
  }

  lemma WindowEnd(input: seq<byte>, at: nat)
    ensures Window(input, at, Some(at)) == []
  {
  }

  lemma InnerWindow(input: seq<byte>, start: nat, bound: Option<int>, tag: nat, size: nat)
    requires tag >= 1 && (bound.None? || start + tag + size <= bound.value) && |Window(input, start, bound)| > 0
    ensures |Window(input, start + tag, Some(start + tag + size))| < |Window(input, start, bound)|
  {
  }

  lemma InnerWhole(input: seq<byte>, start: nat, size: nat)
    requires start + size <= |input|
    ensures Window(input, start, Some(start + size)) == input[start..start + size]
  {
  }

  lemma WindowSlice(input: seq<byte>, start: nat, bound: Option<int>, a: nat, n: nat)
    requires start <= |input| && a + n <= |Window(input, start, bound)|
    ensures var w := Window(input, start, bound);
            && start + a + n <= |input| && w[a..a + n] == input[start + a..start + a + n]
            && w[a + n..] == Window(input, start + a + n, bound)
  {
    var w := Window(input, start, bound);
    if w != [] {
      Slices(input, start, start + |w|, a, n);
    }
  }

  lemma LongHeader(s: seq<byte>, at: nat, bound: Option<int>, k: Kind, slen: nat)
    requires at < |s| && (bound.Some? ==> at < bound.value) && 1 <= slen <= 8
    ensures var w := Window(s, at, bound);
            && |w| > 0
            && var r := PlainLong(w, k, slen);
            && (r.Ok? <==> && at + 1 + slen <= |s| && (bound.Some? ==> at + 1 + slen <= bound.value)
                           && s[at + 1] != 0 && FromBigEndian(s[at + 1..at + 1 + slen]) >= 56)
            && (r.Ok? ==> r.value == Header(k, slen + 1, FromBigEndian(s[at + 1..at + 1 + slen])))
  {
    var w := Window(s, at, bound);
    if slen < |w| {
      assert w[1..][..slen] == s[at + 1..at + 1 + slen];
      assert w[1..][0] == s[at + 1];
    }
  }

  lemma UintBound(s: seq<byte>)
    requires |s| <= 8
    ensures FromBigEndian(s) < SIZE_LIMIT
  {
    FromBigEndianBound(s);
    Pow256Values();
    BigEndianLength(FromBigEndian(s), |s|);
    BigEndianLength(FromBigEndian(s), 8);
  }

  lemma EmptyValue(s: seq<byte>, at: nat)
    requires at <= |s|
    ensures FromBigEndian(s[at..at + 0]) == 0
  {
    assert s[at..at] == [];
  }

  lemma ByteValue(s: seq<byte>, at: nat)
    requires at < |s|
    ensures FromBigEndian(s[at..at + 1]) == s[at]
  {
    var one := s[at..at + 1];
    assert one[..0] == [];
    assert FromBigEndian(one[..0]) == 0;
  }

  lemma EmptyHead()
    ensures !PlainHead([]).Ok?
  {
  }

  lemma AdvanceNone(stack: seq<ListPos>)
    ensures Advance(stack, 0) == stack
  {
  }

  /**
   * Decodes a byte slice that must hold one value and nothing else. It succeeds exactly on the
   * encodings of items, and returns the item encoded.
   */
  method DecodeBytes(b: seq<byte>) returns (r: Outcome<Item>)
    ensures !r.Panic?
    ensures forall i :: r == Ok(i) <==> ParseItem(b) == Some((i, |b|))
    ensures |b| < SIZE_LIMIT ==> forall i :: r == Ok(i) <==> SizeOf(i) < SIZE_LIMIT && Encode(i) == b
  {
    hide ParseItem, LooseKind, PlainHead, StackOk;
    var s := new Stream(b, Some(|b|), false, |b| + 1);
    assert s.Ahead() == b;
    ItemHoldable(b, |b| + 1);
    var item, err := s.DecodeInterface();
    if err.Some? {
      r := Err(err.value);
    } else if s.rpos < |b| {
      r := Err(MoreThanOneValue);
    } else {
      r := Ok(item);
    }
    if |b| < SIZE_LIMIT { OneEncoding(b); }
  }

  /** Strings are no longer than what they are read from. */
  lemma {:induction false} ItemHoldable(w: seq<byte>, max: nat)
    requires |w| <= max
    ensures ParseItem(w).Some? ==> Holdable(ParseItem(w).value.0, max)
    decreases |w|, 1
  {
    hide ReadKind;
    if ReadKind(w).Ok? {
      ReadKindBounds(w);
      var h := ReadKind(w).value;
      if h.kind == ListKind { AllItemsHoldable(w[h.tagSize..h.tagSize + h.size], max); }
    }
  }

  lemma {:induction false} AllItemsHoldable(w: seq<byte>, max: nat)
    requires |w| <= max
    ensures ParseAll(w).Some? ==> AllHoldable(ParseAll(w).value, max)
    decreases |w|, 2
  {
    hide ParseItem;
    if w != [] && ParseItem(w).Some? {
      ItemHoldable(w, max);
      AllItemsHoldable(w[ParseItem(w).value.1..], max);
    }
  }

  /** The calls a caller may make on a stream. */
  datatype StreamCall =
    | CallKind
    | CallBytes
    | CallList
    | CallListEnd
    | CallRaw
    | CallUint(maxbits: nat)
    | CallDecode

  /**
   * Any calls in any order on any input: no list is read beyond its size, an open child fits into
   * what is left of its parent, and a limited stream never reads past its limit.
   */
  method Replay(b: seq<byte>, inputLimit: Option<nat>, eager: bool, longest: nat, calls: seq<StreamCall>)
    returns (s: Stream)
    requires longest >= 1
    ensures s.Valid() && s.input == b
    ensures forall i :: 0 <= i < |s.stack| ==> s.stack[i].pos <= s.stack[i].size
    ensures forall i :: 0 <= i < |s.stack| - 1 ==> s.stack[i].pos + s.stack[i + 1].size <= s.stack[i].size
    ensures inputLimit.Some? ==> s.rpos <= inputLimit.value
  {
    s := new Stream(b, inputLimit, eager, longest);
    for i := 0 to |calls|
      invariant s.Valid() && fresh(s) && s.input == b
      invariant inputLimit.Some? ==> s.limited && s.limit == inputLimit.value
    {
      match calls[i]
      case CallKind => var k, n, err := s.Peek();
      case CallBytes => var c, err := s.Bytes();
      case CallList => var n, err := s.List();
      case CallListEnd => var err := s.ListEnd();
      case CallRaw => var c, err := s.Raw();
      case CallDecode => var item, err := s.DecodeInterface();
      case CallUint(maxbits) =>
        if 8 <= maxbits <= 64 { var v, err := s.Uint(maxbits); }
    }
  }

  /**
   * The same three bytes, from a reader that reports the end of file on a read of its own and from
   * one that reports it with the last byte: the second string is lost.
   */
  method EagerReaderLoses() returns (b: seq<byte>, kept: Option<Error>, lost: Option<Error>)
    ensures kept.None? && b == [5, 6] && lost.Some?
  {
    var w: seq<byte> := [0x82, 5, 6];
    assert LooseKind(w) == Ok(Header(StringKind, 1, 2)) && w[1..3] == [5, 6];
    SplitStringOf(w);
    var patient := new Stream(w, None, false, 100);
    assert patient.Ahead() == w;
    b, kept := patient.Bytes();
    var hasty := new Stream(w, None, true, 100);
    assert hasty.Ahead() == w;
    var c;
    c, lost := hasty.Bytes();
  }

  /** The header of a string of 2^64 - 1 bytes. */
  const HUGE_HEADER: seq<byte> := [0xBF, 0xFF, 0xFF, 0xFF, 0xFF, 0xFF, 0xFF, 0xFF, 0xFF]

  lemma HugeHead()
    ensures PlainHead(HUGE_HEADER) == Ok(Header(StringKind, 9, SIZE_LIMIT - 1))
  {
    var s: seq<byte> := [0xFF, 0xFF, 0xFF, 0xFF, 0xFF, 0xFF, 0xFF, 0xFF];
    assert HUGE_HEADER[1..] == s && s[..8] == s && s[..0] == [];
    NextByte(s, 0);
    NextByte(s, 1);
    NextByte(s, 2);
    NextByte(s, 3);
    NextByte(s, 4);
    NextByte(s, 5);
    NextByte(s, 6);
    NextByte(s, 7);
    assert FromBigEndian(s[..8]) == SIZE_LIMIT - 1;
  }

  lemma NextByte(s: seq<byte>, k: nat)
    requires k < |s|
    ensures FromBigEndian(s[..k + 1]) == FromBigEndian(s[..k]) * 256 + s[k]
  {
    assert s[..k + 1][..k] == s[..k];
  }

  /** Nine bytes on which both readers of an unlimited stream panic, however long slices may be. */
  method HugeSizePanics(longest: nat) returns (bytes: Option<Error>, raw: Option<Error>)
    requires 1 <= longest < SIZE_LIMIT - 1
    ensures bytes == raw == Some(SlicePanic)
  {
    hide PlainHead;
    HugeHead();
    var s := new Stream(HUGE_HEADER, None, false, longest);
    assert s.Ahead() == HUGE_HEADER;
    var b;
    b, bytes := s.Bytes();
    var t := new Stream(HUGE_HEADER, None, false, longest);
    assert t.Ahead() == HUGE_HEADER;
    b, raw := t.Raw();
  }

  /** Accepted inputs are encodings and encodings are accepted. */
  lemma OneEncoding(b: seq<byte>)
    requires |b| < SIZE_LIMIT
    ensures forall i :: ParseItem(b) == Some((i, |b|)) <==> SizeOf(i) < SIZE_LIMIT && Encode(i) == b
  {
    hide ParseItem;
    forall i ensures ParseItem(b) == Some((i, |b|)) <==> SizeOf(i) < SIZE_LIMIT && Encode(i) == b {
      if ParseItem(b) == Some((i, |b|)) {
        Canonical(b);
        assert b[..|b|] == b;
      }
      if SizeOf(i) < SIZE_LIMIT && Encode(i) == b {
        RoundTrip(i, []);
        assert b + [] == b;
      }
    }
  }

  /** An integer written as its shortest big-endian string is read back, whatever follows. */
  lemma UintRoundTrip(v: nat, rest: seq<byte>)
    requires v < SIZE_LIMIT
    ensures SizeOf(Str(BigEndian(v))) < SIZE_LIMIT
    ensures UintAt(Encode(Str(BigEndian(v))) + rest, 8) == Some(v)
  {
    hide SplitString;
    SizeBytes(v);
    BigEndianValue(v);
    SplitStringEncoded(BigEndian(v), rest);
  }
}
