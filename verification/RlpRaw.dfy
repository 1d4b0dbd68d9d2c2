/**
 * The slice reader: header parsing and splitting on a byte slice, and the reference decoder
 * built on it, which the encoder and the stream decoder are both compared with.
 */
module RlpRaw {
  import opened Wrappers
  import opened RlpSpec

  /** A result, an error, or a run-time panic (an index out of range). */
  datatype Outcome<+T> = Ok(value: T) | Err(error: Error) | Panic

  datatype Header = Header(kind: Kind, tagSize: nat, size: nat)
  datatype Parts = Parts(kind: Kind, content: seq<byte>, rest: seq<byte>)
  datatype Cut = Cut(content: seq<byte>, rest: seq<byte>)

  function ListSize(contentSize: nat): nat {
    HeadSize(contentSize) + contentSize
  }

  /** The `slen` size bytes at the front of `b`; short sizes and leading zeros are rejected. */
  function ReadSize(b: seq<byte>, slen: nat): Outcome<nat>
    requires 1 <= slen <= 8
  {
    if slen > |b| then Err(UnexpectedEOF)
    else if FromBigEndian(b[..slen]) < 56 || b[0] == 0 then Err(CanonSize)
    else Ok(FromBigEndian(b[..slen]))
  }

  /** The header of the value at the front of `buf`, which must hold the whole value. */
  function ReadKind(buf: seq<byte>): Outcome<Header> {
    if |buf| == 0 then Err(UnexpectedEOF)
    else
      var b := buf[0];
      if b < 0x80 then Fitting(buf, Header(ByteKind, 0, 1))
      else if b < 0xB8 then
        if b == 0x81 && |buf| == 1 then Panic
        else if b == 0x81 && buf[1] < 128 then Err(CanonSize)
        else Fitting(buf, Header(StringKind, 1, b - 0x80))
      else if b < 0xC0 then ReadLong(buf, StringKind, b - 0xB7)
      else if b < 0xF8 then Fitting(buf, Header(ListKind, 1, b - 0xC0))
      else ReadLong(buf, ListKind, b - 0xF7)
  }

  function ReadLong(buf: seq<byte>, kind: Kind, slen: nat): Outcome<Header>
    requires |buf| > 0 && 1 <= slen <= 8
  {
    match ReadSize(buf[1..], slen)
    case Ok(size) => Fitting(buf, Header(kind, slen + 1, size))
    case Err(e) => Err(e)
    case Panic => Panic
  }

  function Fitting(buf: seq<byte>, h: Header): Outcome<Header> {
    if h.size > |buf| - h.tagSize then Err(ValueTooLarge) else Ok(h)
  }

  /** Headers never point outside the slice and always make progress. */
  lemma ReadKindBounds(buf: seq<byte>)
    requires ReadKind(buf).Ok?
    ensures 1 <= ReadKind(buf).value.tagSize + ReadKind(buf).value.size <= |buf|
    ensures ReadKind(buf).value.kind == ByteKind <==> ReadKind(buf).value.tagSize == 0
    ensures ReadKind(buf).value.kind == ByteKind ==> ReadKind(buf).value.size == 1 && buf[0] < 128
  {
  }

  /** The reader panics on one input only: the lone tag of a one-byte string. */
  lemma ReadKindPanics(buf: seq<byte>)
    ensures ReadKind(buf).Panic? <==> buf == [0x81]
  {
    if buf == [0x81] { assert buf[0] == 0x81; }
  }

  /** The header bytes alone: no test that the value fits, nor that a one-byte string needed its header. */
  function PlainHead(buf: seq<byte>): Outcome<Header> {
    if |buf| == 0 then Err(UnexpectedEOF)
    else
      var b := buf[0];
      if b < 0x80 then Ok(Header(ByteKind, 0, 1))
      else if b < 0xB8 then Ok(Header(StringKind, 1, b - 0x80))
      else if b < 0xC0 then PlainLong(buf, StringKind, b - 0xB7)
      else if b < 0xF8 then Ok(Header(ListKind, 1, b - 0xC0))
      else PlainLong(buf, ListKind, b - 0xF7)
  }

  function PlainLong(buf: seq<byte>, kind: Kind, slen: nat): Outcome<Header>
    requires |buf| > 0 && 1 <= slen <= 8
  {
    match ReadSize(buf[1..], slen)
    case Ok(size) => Ok(Header(kind, slen + 1, size))
    case Err(e) => Err(e)
    case Panic => Panic
  }

  /** The header of a value that fits. */
  function LooseKind(buf: seq<byte>): Outcome<Header> {
    match PlainHead(buf)
    case Ok(h) => Fitting(buf, h)
    case Err(e) => Err(e)
    case Panic => Panic
  }

  /** How many bytes reading the header consumes: a single byte is its own header. */
  function HeadLen(h: Header): nat {
    if h.kind == ByteKind then 1 else h.tagSize
  }

  predicate NeedlessHeader(w: seq<byte>, h: Header) {
    h.kind == StringKind && h.size == 1 && h.tagSize < |w| && w[h.tagSize] < 128
  }

  lemma LooseKindStrict(w: seq<byte>)
    ensures ReadKind(w).Ok? ==> LooseKind(w) == ReadKind(w) && !NeedlessHeader(w, ReadKind(w).value)
    ensures LooseKind(w).Ok? && !NeedlessHeader(w, LooseKind(w).value) ==> ReadKind(w) == LooseKind(w)
    ensures LooseKind(w).Ok? && LooseKind(w).value.kind != StringKind ==> ReadKind(w) == LooseKind(w)
  {
  }

  lemma LooseKindBounds(w: seq<byte>)
    requires LooseKind(w).Ok?
    ensures var h := LooseKind(w).value;
            && 1 <= h.tagSize + h.size <= |w|
            && (h.kind == ByteKind ==> h.tagSize == 0 && h.size == 1 && w[0] < 128)
            && (h.kind != ByteKind ==> 1 <= h.tagSize <= 9)
  {
  }

  function Split(b: seq<byte>): Outcome<Parts> {
    match ReadKind(b)
    case Err(e) => Err(e)
    case Panic => Panic
    case Ok(h) =>
      ReadKindBounds(b);
      Ok(Parts(h.kind, b[h.tagSize..h.tagSize + h.size], b[h.tagSize + h.size..]))
  }

  function SplitString(b: seq<byte>): Outcome<Cut> {
    match Split(b)
    case Err(e) => Err(e)
    case Panic => Panic
    case Ok(p) => if p.kind == ListKind then Err(ExpectedString) else Ok(Cut(p.content, p.rest))
  }

  function SplitList(b: seq<byte>): Outcome<Cut> {
    match Split(b)
    case Err(e) => Err(e)
    case Panic => Panic
    case Ok(p) => if p.kind != ListKind then Err(ExpectedList) else Ok(Cut(p.content, p.rest))
  }

  /** `SplitString` in terms of the header alone. */
  lemma SplitStringOf(w: seq<byte>)
    ensures LooseKind(w).Ok? ==>
              var h := LooseKind(w).value;
              var n := h.tagSize + h.size;
              && h.tagSize <= n <= |w|
              && (SplitString(w).Ok? <==> h.kind != ListKind && !NeedlessHeader(w, h))
              && (SplitString(w).Ok? ==> SplitString(w).value == Cut(w[h.tagSize..n], w[n..]))
    ensures !LooseKind(w).Ok? ==> !SplitString(w).Ok?
  {
    hide ReadKind, LooseKind;
    LooseKindStrict(w);
    if LooseKind(w).Ok? { LooseKindBounds(w); }
  }

  /** How many values `b` is made of. */
  function Count(b: seq<byte>): Outcome<nat>
    decreases |b|
  {
    if b == [] then Ok(0)
    else match ReadKind(b)
      case Err(e) => Err(e)
      case Panic => Panic
      case Ok(h) =>
        ReadKindBounds(b);
        match Count(b[h.tagSize + h.size..])
        case Ok(n) => Ok(n + 1)
        case Err(e) => Err(e)
        case Panic => Panic
  }

  function PlusCount(i: nat, r: Outcome<nat>): Outcome<nat> {
    if r.Ok? then Ok(i + r.value) else r
  }

  method CountValues(b0: seq<byte>) returns (r: Outcome<nat>)
    ensures r == Count(b0)
  {
    hide ReadKind;
    var b, i := b0, 0;
    while |b| > 0
      invariant Count(b0) == PlusCount(i, Count(b))
      decreases |b|
    {
      var h := ReadKind(b);
      if h.Err? { return Err(h.error); }
      if h.Panic? { return Panic; }
      ReadKindBounds(b);
      b, i := b[h.value.tagSize + h.value.size..], i + 1;
    }
    r := Ok(i);
  }

  /** One more byte at the end does not change a header whose value was there before. */
  lemma ReadKindSnoc(p: seq<byte>, x: byte)
    ensures ReadKind(p).Ok? ==> ReadKind(p + [x]) == ReadKind(p)
    ensures ReadKind(p + [x]).Ok? && ReadKind(p + [x]).value.tagSize + ReadKind(p + [x]).value.size <= |p| ==>
              ReadKind(p) == ReadKind(p + [x])
  {
    var b := p + [x];
    if p != [] {
      assert b[0] == p[0] && b[1..] == p[1..] + [x];
      forall k | 0 <= k < |p| ensures b[1..][..k] == (p[1..] + [x])[..k] {}
      if 0xB8 <= b[0] < 0xC0 { ReadSizeSnoc(p[1..], x, b[0] - 0xB7); }
      if 0xF8 <= b[0] { ReadSizeSnoc(p[1..], x, b[0] - 0xF7); }
    }
  }

  lemma ReadSizeSnoc(p: seq<byte>, x: byte, slen: nat)
    requires 1 <= slen <= 8
    ensures slen <= |p| ==> ReadSize(p + [x], slen) == ReadSize(p, slen)
  {
    if slen <= |p| { assert (p + [x])[..slen] == p[..slen]; }
  }

  /** The count goes on after the first value. */
  lemma CountStep(b: seq<byte>)
    ensures b == [] ==> Count(b) == Ok(0)
    ensures b != [] && !ReadKind(b).Ok? ==> !Count(b).Ok? && (Count(b).Panic? <==> ReadKind(b).Panic?)
    ensures b != [] && ReadKind(b).Ok? ==>
              var n := ReadKind(b).value.tagSize + ReadKind(b).value.size;
              1 <= n <= |b| && Count(b).Ok? == Count(b[n..]).Ok? && Count(b).Panic? == Count(b[n..]).Panic?
  {
    hide ReadKind;
    if ReadKind(b).Ok? { ReadKindBounds(b); }
  }

  /**
   * The count panics exactly when it comes to a lone tag of a one-byte string: a last byte 0x81
   * after bytes that count.
   */
  lemma {:induction false} CountPanics(b: seq<byte>)
    ensures Count(b).Panic? <==> b != [] && b[|b| - 1] == 0x81 && Count(b[..|b| - 1]).Ok?
    decreases |b|
  {
    hide ReadKind, Count;
    CountStep(b);
    if b != [] {
      var p, x := b[..|b| - 1], b[|b| - 1];
      assert b == p + [x];
      CountStep(p);
      ReadKindSnoc(p, x);
      ReadKindPanics(b);
      ReadKindPanics(p);
      if ReadKind(b).Ok? {
        var n := ReadKind(b).value.tagSize + ReadKind(b).value.size;
        CountPanics(b[n..]);
        CountRest(b, n);
        assert p == [] ==> b == [x];
      }
    }
  }

  lemma CountRest(b: seq<byte>, n: nat)
    requires 1 <= n <= |b|
    ensures n == |b| ==> b[n..] == [] && Count(b[n..]) == Ok(0)
    ensures n < |b| ==> b[n..] != [] && b[n..][|b[n..]| - 1] == b[|b| - 1]
                        && b[n..][..|b[n..]| - 1] == b[..|b| - 1][n..]
  {
  }

  /** Besides the lone tag itself, for instance this. */
  lemma CountPanicsOn()
    ensures Count([0x01, 0x81]).Panic? && !ReadKind([0x01, 0x81]).Panic?
  {
    var b: seq<byte> := [0x01, 0x81];
    assert b[..1] == [0x01];
    assert ReadKind(b[..1]) == Ok(Header(ByteKind, 0, 1)) && b[..1][1..] == [];
    CountPanics(b);
  }

  // ----- the reference decoder

  /** The item at the front of `w` and the number of bytes it takes. */
  function ParseItem(w: seq<byte>): (r: Option<(Item, nat)>)
    ensures r.Some? ==> 1 <= r.value.1 <= |w|
    decreases |w|, 1
  {
    match ReadKind(w)
    case Err(_) => None
    case Panic => None
    case Ok(h) =>
      ReadKindBounds(w);
      var content := w[h.tagSize..h.tagSize + h.size];
      if h.kind == ListKind then
        match ParseAll(content)
        case None => None
        case Some(xs) => Some((List(xs), h.tagSize + h.size))
      else Some((Str(content), h.tagSize + h.size))
  }

  /** The items `w` is the concatenation of. */
  function ParseAll(w: seq<byte>): Option<seq<Item>>
    decreases |w|, 2
  {
    if w == [] then Some([])
    else match ParseItem(w)
      case None => None
      case Some((x, n)) =>
        match ParseAll(w[n..])
        case None => None
        case Some(xs) => Some([x] + xs)
  }

  /** `ParseItem` in terms of the header alone. */
  lemma ParseItemOf(w: seq<byte>)
    ensures LooseKind(w).Ok? ==>
              var h := LooseKind(w).value;
              var n := h.tagSize + h.size;
              && h.tagSize <= n <= |w|
              && (h.kind == ListKind ==> (ParseItem(w).Some? <==> ParseAll(w[h.tagSize..n]).Some?))
              && (h.kind == ListKind && ParseItem(w).Some? ==>
                  ParseItem(w).value == (List(ParseAll(w[h.tagSize..n]).value), n))
              && (h.kind != ListKind ==> (ParseItem(w).Some? <==> SplitString(w).Ok?))
              && (h.kind != ListKind && ParseItem(w).Some? ==>
                  ParseItem(w).value == (Str(SplitString(w).value.content), n))
    ensures !LooseKind(w).Ok? ==> ParseItem(w).None?
  {
    hide ReadKind, LooseKind;
    LooseKindStrict(w);
    SplitStringOf(w);
    if LooseKind(w).Ok? { LooseKindBounds(w); }
  }

  // ----- against the encoding

  lemma ReadShortHead(list: bool, w: seq<byte>, n: nat)
    requires n < 56 && n < |w| && w[0] == (if list then 0xC0 else 0x80) + n
    requires !list && n == 1 ==> w[1] >= 128
    ensures ReadKind(w) == Ok(Header(if list then ListKind else StringKind, 1, n))
  {
  }

  lemma ReadLongHead(list: bool, w: seq<byte>, n: nat)
    requires 56 <= n < SIZE_LIMIT
    requires HeadSize(n) + n <= |w|
    requires |BigEndian(n)| <= 8
    requires w[0] == (if list then 0xF7 else 0xB7) + |BigEndian(n)| && w[1..1 + |BigEndian(n)|] == BigEndian(n)
    ensures ReadKind(w) == Ok(Header(if list then ListKind else StringKind, HeadSize(n), n))
  {
    var be := BigEndian(n);
    BigEndianValue(n);
    assert w[1..][..|be|] == be;
    assert w[1..][0] == be[0];
    assert ReadSize(w[1..], |be|) == Ok(n);
  }

  /** A header the encoder writes is read back, whatever follows the payload. */
  lemma ReadHead(list: bool, payload: seq<byte>, rest: seq<byte>)
    requires |payload| < SIZE_LIMIT
    requires !list && |payload| == 1 ==> payload[0] >= 128
    ensures var h := Head(if list then 0xC0 else 0x80, if list then 0xF7 else 0xB7, |payload|);
            ReadKind(h + payload + rest) == Ok(Header(if list then ListKind else StringKind, |h|, |payload|))
  {
    hide ReadKind;
    var n := |payload|;
    SizeBytes(n);
    var h := Head(if list then 0xC0 else 0x80, if list then 0xF7 else 0xB7, n);
    var w := h + payload + rest;
    assert w[0] == h[0];
    if n < 56 {
      assert n == 1 ==> w[1] == payload[0];
      ReadShortHead(list, w, n);
    } else {
      assert w[1..1 + |BigEndian(n)|] == BigEndian(n);
      ReadLongHead(list, w, n);
    }
  }

  lemma ReadByte(w: seq<byte>)
    requires |w| > 0 && w[0] < 0x80
    ensures ReadKind(w) == Ok(Header(ByteKind, 0, 1))
  {
  }

  lemma RoundTripStr(b: seq<byte>, rest: seq<byte>)
    requires SizeOf(Str(b)) < SIZE_LIMIT
    ensures ParseItem(Encode(Str(b)) + rest) == Some((Str(b), |Encode(Str(b))|))
  {
    hide ReadKind;
    var w := Encode(Str(b)) + rest;
    if |b| == 1 && b[0] <= 0x7F {
      assert w[0] == b[0];
      ReadByte(w);
      assert w[0..1] == b;
    } else {
      var h := Head(0x80, 0xB7, |b|);
      ReadHead(false, b, rest);
      assert w == h + b + rest;
      assert w[|h|..|h| + |b|] == b;
    }
  }

  lemma ParseFramed(p: seq<byte>, rest: seq<byte>, xs: seq<Item>)
    requires |p| < SIZE_LIMIT && ParseAll(p) == Some(xs)
    ensures var h := Head(0xC0, 0xF7, |p|); ParseItem(h + p + rest) == Some((List(xs), |h| + |p|))
  {
    hide ReadKind;
    var h := Head(0xC0, 0xF7, |p|);
    var w := h + p + rest;
    ReadHead(true, p, rest);
    assert w[|h|..|h| + |p|] == p;
  }

  /** Decoding undoes encoding, and reads no further than the encoded item. */
  lemma {:induction false} RoundTrip(i: Item, rest: seq<byte>)
    requires SizeOf(i) < SIZE_LIMIT
    ensures ParseItem(Encode(i) + rest) == Some((i, |Encode(i)|))
    decreases i, 1
  {
    hide ReadKind, ParseItem, Head, HeadSize;
    match i
    case Str(b) =>
      RoundTripStr(b, rest);
    case List(xs) =>
      RoundTripAll(xs);
      ParseFramed(EncodeAll(xs), rest, xs);
      assert Encode(i) == Head(0xC0, 0xF7, |EncodeAll(xs)|) + EncodeAll(xs);
  }

  lemma {:induction false} RoundTripAll(xs: seq<Item>)
    requires SizeOfAll(xs) < SIZE_LIMIT
    ensures ParseAll(EncodeAll(xs)) == Some(xs)
    decreases xs, 0
  {
    hide ReadKind, ParseItem;
    if xs != [] {
      var rest := EncodeAll(xs[1..]);
      RoundTrip(xs[0], rest);
      RoundTripAll(xs[1..]);
      assert (Encode(xs[0]) + rest)[|Encode(xs[0])|..] == rest;
      assert xs == [xs[0]] + xs[1..];
    }
  }

  lemma LongHeadCanonical(w: seq<byte>, kind: Kind, slen: nat)
    requires 0 < |w| < SIZE_LIMIT && 1 <= slen <= 8 && ReadLong(w, kind, slen).Ok?
    ensures var h := ReadLong(w, kind, slen).value;
            56 <= h.size < SIZE_LIMIT && h.tagSize == slen + 1 <= |w| && |BigEndian(h.size)| == slen
              && w[..slen + 1] == [w[0]] + BigEndian(h.size)
  {
    var s := w[1..][..slen];
    assert s[0] == w[1..][0];
    BigEndianUnique(s);
    assert w[..slen + 1] == [w[0]] + s;
  }

  /** An accepted header is the one the encoder would write. */
  lemma HeadCanonical(w: seq<byte>)
    requires |w| < SIZE_LIMIT && ReadKind(w).Ok? && ReadKind(w).value.kind != ByteKind
    ensures var h := ReadKind(w).value;
            && h.tagSize <= |w| && h.size < SIZE_LIMIT
            && w[..h.tagSize] == Head(if h.kind == ListKind then 0xC0 else 0x80,
                                      if h.kind == ListKind then 0xF7 else 0xB7, h.size)
            && (h.kind == StringKind && h.size == 1 ==> w[h.tagSize] >= 128)
  {
    if 0xB8 <= w[0] < 0xC0 {
      LongHeadCanonical(w, StringKind, w[0] - 0xB7);
    } else if w[0] >= 0xF8 {
      LongHeadCanonical(w, ListKind, w[0] - 0xF7);
    } else {
      assert w[..1] == [w[0]];
    }
  }

  /** What `ParseItem` makes of a header. */
  lemma ParseItemHeader(w: seq<byte>)
    requires ParseItem(w).Some?
    ensures ReadKind(w).Ok?
    ensures var h := ReadKind(w).value;
            var (i, n) := ParseItem(w).value;
            && n == h.tagSize + h.size <= |w|
            && (h.kind != ListKind ==> i == Str(w[h.tagSize..n]))
            && (h.kind == ListKind ==> ParseAll(w[h.tagSize..n]).Some? && i == List(ParseAll(w[h.tagSize..n]).value))
  {
  }

  lemma CanonicalStr(w: seq<byte>, h: Header)
    requires |w| < SIZE_LIMIT && ReadKind(w) == Ok(h) && h.kind != ListKind
    ensures h.tagSize + h.size <= |w|
    ensures var i := Str(w[h.tagSize..h.tagSize + h.size]);
            SizeOf(i) == h.tagSize + h.size && Encode(i) == w[..h.tagSize + h.size]
  {
    ReadKindBounds(w);
    var content := w[h.tagSize..h.tagSize + h.size];
    if h.kind == ByteKind {
      assert w[..1] == content;
    } else {
      HeadCanonical(w);
      assert w[..h.tagSize + h.size] == w[..h.tagSize] + content;
    }
  }

  /** What is accepted re-encodes to itself, so every item has one accepted encoding. */
  lemma {:induction false} Canonical(w: seq<byte>)
    requires |w| < SIZE_LIMIT && ParseItem(w).Some?
    ensures var (i, n) := ParseItem(w).value;
            n <= |w| && SizeOf(i) == n && Encode(i) == w[..n]
    decreases |w|, 1
  {
    hide ReadKind, ParseItem, ParseAll, Head, HeadSize;
    ParseItemHeader(w);
    var h := ReadKind(w).value;
    ReadKindBounds(w);
    if h.kind == ListKind {
      var content := w[h.tagSize..h.tagSize + h.size];
      HeadCanonical(w);
      CanonicalAll(content);
      assert w[..h.tagSize + h.size] == w[..h.tagSize] + content;
    } else {
      CanonicalStr(w, h);
    }
  }

  lemma {:induction false} CanonicalAll(w: seq<byte>)
    requires |w| < SIZE_LIMIT && ParseAll(w).Some?
    ensures SizeOfAll(ParseAll(w).value) == |w| && EncodeAll(ParseAll(w).value) == w
    decreases |w|, 2
  {
    hide ReadKind, ParseItem;
    if w != [] {
      var (x, n) := ParseItem(w).value;
      Canonical(w);
      CanonicalAll(w[n..]);
      var xs := ParseAll(w[n..]).value;
      assert ParseAll(w).value[1..] == xs;
      assert w == w[..n] + w[n..];
    }
  }

  /** No two items share an encoding. */
  lemma EncodeInjective(i: Item, j: Item)
    requires SizeOf(i) < SIZE_LIMIT && SizeOf(j) < SIZE_LIMIT && Encode(i) == Encode(j)
    ensures i == j
  {
    hide ParseItem;
    RoundTrip(i, []);
    RoundTrip(j, []);
  }

  /** `SplitList` on an encoded list returns its payload and everything after it. */
  lemma SplitListEncoded(xs: seq<Item>, rest: seq<byte>)
    requires SizeOf(List(xs)) < SIZE_LIMIT
    ensures SplitList(Encode(List(xs)) + rest) == Ok(Cut(EncodeAll(xs), rest))
    ensures |Encode(List(xs))| == ListSize(|EncodeAll(xs)|)
  {
    hide ReadKind;
    var p := EncodeAll(xs);
    var h := Head(0xC0, 0xF7, |p|);
    var w := Encode(List(xs)) + rest;
    ReadHead(true, p, rest);
    assert w == h + p + rest;
    assert w[|h|..|h| + |p|] == p && w[|h| + |p|..] == rest;
  }

  lemma SplitStringEncoded(b: seq<byte>, rest: seq<byte>)
    requires SizeOf(Str(b)) < SIZE_LIMIT
    ensures SplitString(Encode(Str(b)) + rest) == Ok(Cut(b, rest))
  {
    var w := Encode(Str(b)) + rest;
    RoundTripStr(b, rest);
    ParseItemHeader(w);
    assert w[|Encode(Str(b))|..] == rest;
  }

  /** Counting the payload of a list counts its elements. */
  lemma {:induction false} CountEncoded(xs: seq<Item>)
    requires SizeOfAll(xs) < SIZE_LIMIT
    ensures Count(EncodeAll(xs)) == Ok(|xs|)
    decreases xs
  {
    hide ReadKind, ParseItem;
    if xs != [] {
      var rest := EncodeAll(xs[1..]);
      var w := Encode(xs[0]) + rest;
      RoundTrip(xs[0], rest);
      ParseItemHeader(w);
      CountEncoded(xs[1..]);
      assert w[|Encode(xs[0])|..] == rest;
    }
  }

  // ----- splitting, in terms of the encoding alone

  /** A list with that payload, whatever the payload is, and what follows it. */
  ghost predicate FramedList(w: seq<byte>, payload: seq<byte>, rest: seq<byte>) {
    |payload| < SIZE_LIMIT && w == Head(0xC0, 0xF7, |payload|) + payload + rest
  }

  ghost predicate FramedString(w: seq<byte>, b: seq<byte>, rest: seq<byte>) {
    SizeOf(Str(b)) < SIZE_LIMIT && w == Encode(Str(b)) + rest
  }

  /** A single byte below 0x80 is its own encoding; every other string has a header. */
  ghost function KindOf(b: seq<byte>): Kind {
    if |b| == 1 && b[0] < 128 then ByteKind else StringKind
  }

  lemma SplitFramedList(payload: seq<byte>, rest: seq<byte>)
    requires |payload| < SIZE_LIMIT
    ensures Split(Head(0xC0, 0xF7, |payload|) + payload + rest) == Ok(Parts(ListKind, payload, rest))
  {
    hide ReadKind;
    var h := Head(0xC0, 0xF7, |payload|);
    var w := h + payload + rest;
    ReadHead(true, payload, rest);
    assert w[|h|..|h| + |payload|] == payload && w[|h| + |payload|..] == rest;
  }

  lemma SplitFramedString(b: seq<byte>, rest: seq<byte>)
    requires SizeOf(Str(b)) < SIZE_LIMIT
    ensures Split(Encode(Str(b)) + rest) == Ok(Parts(KindOf(b), b, rest))
  {
    hide ReadKind;
    var w := Encode(Str(b)) + rest;
    if KindOf(b) == ByteKind {
      assert w[0] == b[0];
      ReadByte(w);
      assert w[0..1] == b && w[1..] == rest;
    } else {
      var h := Head(0x80, 0xB7, |b|);
      ReadHead(false, b, rest);
      assert w == h + b + rest;
      assert w[|h|..|h| + |b|] == b && w[|h| + |b|..] == rest;
    }
  }

  /** A slice that can be split starts with an encoding of that kind, and is split after it. */
  lemma SplitFrom(w: seq<byte>)
    requires |w| < SIZE_LIMIT && Split(w).Ok?
    ensures var p := Split(w).value;
            if p.kind == ListKind then FramedList(w, p.content, p.rest)
            else FramedString(w, p.content, p.rest) && p.kind == KindOf(p.content)
  {
    hide ReadKind, Head, HeadSize;
    var h, p := ReadKind(w).value, Split(w).value;
    ReadKindBounds(w);
    assert w == w[..h.tagSize + h.size] + p.rest;
    if h.kind == ListKind {
      HeadCanonical(w);
      assert w[..h.tagSize + h.size] == w[..h.tagSize] + p.content;
    } else {
      CanonicalStr(w, h);
      if h.kind == StringKind { HeadCanonical(w); }
    }
  }

  /** A slice is split as a list exactly when it is a framed payload with something behind it. */
  lemma SplitListExactly(w: seq<byte>, payload: seq<byte>, rest: seq<byte>)
    requires |w| < SIZE_LIMIT
    ensures SplitList(w) == Ok(Cut(payload, rest)) <==> FramedList(w, payload, rest)
  {
    hide Split, Head;
    if Split(w).Ok? { SplitFrom(w); }
    if FramedList(w, payload, rest) { SplitFramedList(payload, rest); }
  }

  /** A slice is split as a string exactly when it is an encoded string with something behind it. */
  lemma SplitStringExactly(w: seq<byte>, b: seq<byte>, rest: seq<byte>)
    requires |w| < SIZE_LIMIT
    ensures SplitString(w) == Ok(Cut(b, rest)) <==> FramedString(w, b, rest)
  {
    hide Split, Head, Encode, SizeOf;
    if Split(w).Ok? { SplitFrom(w); }
    if FramedString(w, b, rest) { SplitFramedString(b, rest); }
  }

  /** The other kind is refused as such. */
  lemma SplitOtherKind(b: seq<byte>, payload: seq<byte>, rest: seq<byte>)
    ensures SizeOf(Str(b)) < SIZE_LIMIT ==> SplitList(Encode(Str(b)) + rest) == Err(ExpectedList)
    ensures |payload| < SIZE_LIMIT ==> SplitString(Head(0xC0, 0xF7, |payload|) + payload + rest) == Err(ExpectedString)
  {
    hide Split, Head, Encode, SizeOf;
    if SizeOf(Str(b)) < SIZE_LIMIT { SplitFramedString(b, rest); }
    if |payload| < SIZE_LIMIT { SplitFramedList(payload, rest); }
  }

  /** How many size bytes follow a tag. */
  ghost function SizeBytesOf(tag: byte): nat {
    if 0xB8 <= tag <= 0xBF then tag - 0xB7 else if tag >= 0xF8 then tag - 0xF7 else 0
  }

  /** The size a header announces: in the tag, or in the bytes behind it. */
  ghost function Announced(w: seq<byte>): nat
    requires w != [] && |w| > SizeBytesOf(w[0])
  {
    var n := SizeBytesOf(w[0]);
    if n > 0 then FromBigEndian(w[1..1 + n])
    else if w[0] < 0x80 then 0
    else if w[0] < 0xC0 then w[0] - 0x80
    else w[0] - 0xC0
  }

  /** Why a slice is refused: a header cut off, a size that is not the shortest form, or a value cut off. */
  lemma ReadKindErrors(w: seq<byte>)
    ensures ReadKind(w) == Err(UnexpectedEOF) <==> w == [] || |w| <= SizeBytesOf(w[0])
    ensures ReadKind(w) == Err(CanonSize) <==>
              && w != [] && |w| > SizeBytesOf(w[0])
              && (|| (w[0] == 0x81 && |w| > 1 && w[1] < 128)
                  || (SizeBytesOf(w[0]) > 0 && (w[1] == 0 || Announced(w) < 56)))
    ensures ReadKind(w) == Err(ValueTooLarge) <==>
              && w != [] && |w| > SizeBytesOf(w[0]) && w[0] != 0x81
              && (SizeBytesOf(w[0]) > 0 ==> w[1] != 0 && Announced(w) >= 56)
              && |w| < 1 + SizeBytesOf(w[0]) + Announced(w)
    ensures ReadKind(w).Err? ==> ReadKind(w).error in {UnexpectedEOF, CanonSize, ValueTooLarge}
  {
    if w != [] && |w| > SizeBytesOf(w[0]) > 0 {
      var n := SizeBytesOf(w[0]);
      assert w[1..][..n] == w[1..1 + n] && w[1..][0] == w[1];
    }
  }
}
