/**
 * Recursive Length Prefix as Appendix B of the Ethereum Yellow Paper defines it: an item is a
 * byte string or a list of items, and its encoding is given by recursion on the item.
 */
module RlpSpec {
  type byte = x: int | 0 <= x < 256

  /** Sizes are 64-bit. */
  const SIZE_LIMIT := 0x1_0000_0000_0000_0000

  datatype Item = Str(bytes: seq<byte>) | List(items: seq<Item>)

  datatype Kind = ByteKind | StringKind | ListKind

  datatype Error =
    | EOF
    | UnexpectedEOF
    | EOL
    | ExpectedString
    | ExpectedList
    | CanonInt
    | CanonSize
    | ElemTooLarge
    | ValueTooLarge
    | MoreThanOneValue
    | NotInList
    | NotAtEOL
    | UintOverflow
    /** No error value: the runtime panics because it cannot make a slice of that length. */
    | SlicePanic

  // ----- big-endian integers

  /** The shortest big-endian form; zero has none. */
  function BigEndian(n: nat): seq<byte> {
    if n == 0 then [] else BigEndian(n / 256) + [n % 256]
  }

  function FromBigEndian(s: seq<byte>): nat {
    if s == [] then 0 else FromBigEndian(s[..|s| - 1]) * 256 + s[|s| - 1]
  }

  function Pow256(k: nat): nat {
    if k == 0 then 1 else 256 * Pow256(k - 1)
  }

  lemma {:induction false} BigEndianValue(n: nat)
    ensures FromBigEndian(BigEndian(n)) == n
    ensures n > 0 ==> BigEndian(n) != [] && BigEndian(n)[0] != 0
  {
    if n > 0 {
      BigEndianValue(n / 256);
      var b := BigEndian(n);
      assert b[..|b| - 1] == BigEndian(n / 256);
      assert n / 256 == 0 ==> BigEndian(n / 256) == [];
    }
  }

  /** A form without leading zero is the shortest one. */
  lemma {:induction false} BigEndianUnique(s: seq<byte>)
    requires s == [] || s[0] != 0
    ensures BigEndian(FromBigEndian(s)) == s
    ensures s != [] ==> FromBigEndian(s) > 0
  {
    if s != [] {
      var front := s[..|s| - 1];
      BigEndianUnique(front);
      assert FromBigEndian(s) / 256 == FromBigEndian(front) && FromBigEndian(s) % 256 == s[|s| - 1];
      assert s == front + [s[|s| - 1]];
    }
  }

  lemma {:induction false} BigEndianLength(n: nat, k: nat)
    ensures |BigEndian(n)| <= k <==> n < Pow256(k)
    decreases k
  {
    if k > 0 {
      BigEndianLength(n / 256, k - 1);
    }
  }

  lemma {:induction false} FromBigEndianBound(s: seq<byte>)
    ensures FromBigEndian(s) < Pow256(|s|)
  {
    if s != [] { FromBigEndianBound(s[..|s| - 1]); }
  }

  lemma Pow256Values()
    ensures Pow256(0) == 1 && Pow256(1) == 0x100 && Pow256(2) == 0x1_0000 && Pow256(3) == 0x100_0000
    ensures Pow256(4) == 0x1_0000_0000 && Pow256(5) == 0x100_0000_0000 && Pow256(6) == 0x1_0000_0000_0000
    ensures Pow256(7) == 0x100_0000_0000_0000 && Pow256(8) == SIZE_LIMIT
  {
    assert Pow256(2) == 256 * Pow256(1);
    assert Pow256(4) == 256 * Pow256(3);
    assert Pow256(6) == 256 * Pow256(5);
    assert Pow256(8) == 256 * Pow256(7);
  }

  lemma SizeBytes(n: nat)
    requires n < SIZE_LIMIT
    ensures |BigEndian(n)| <= 8
  {
    Pow256Values();
    BigEndianLength(n, 8);
  }

  // ----- the encoding

  /** Length of the header in front of a payload of `n` bytes. */
  function HeadSize(n: nat): nat {
    if n < 56 then 1 else 1 + |BigEndian(n)|
  }

  /** The header in front of a payload of `n` bytes, under a short and a long tag. */
  function Head(small: byte, large: byte, n: nat): (h: seq<byte>)
    requires n < SIZE_LIMIT && small <= 200 && large <= 247
    ensures |h| == HeadSize(n)
  {
    SizeBytes(n);
    if n < 56 then [small + n] else [large + |BigEndian(n)|] + BigEndian(n)
  }

  function SizeOf(i: Item): nat
    decreases i, 1
  {
    match i
    case Str(b) => if |b| == 1 && b[0] <= 0x7F then 1 else HeadSize(|b|) + |b|
    case List(xs) => HeadSize(SizeOfAll(xs)) + SizeOfAll(xs)
  }

  function SizeOfAll(xs: seq<Item>): nat
    decreases xs, 0
  {
    if xs == [] then 0 else SizeOf(xs[0]) + SizeOfAll(xs[1..])
  }

  function Encode(i: Item): (e: seq<byte>)
    requires SizeOf(i) < SIZE_LIMIT
    ensures |e| == SizeOf(i)
    decreases i, 1
  {
    match i
    case Str(b) => if |b| == 1 && b[0] <= 0x7F then b else Head(0x80, 0xB7, |b|) + b
    case List(xs) => Head(0xC0, 0xF7, SizeOfAll(xs)) + EncodeAll(xs)
  }

  function EncodeAll(xs: seq<Item>): (e: seq<byte>)
    requires SizeOfAll(xs) < SIZE_LIMIT
    ensures |e| == SizeOfAll(xs)
    decreases xs, 0
  {
    if xs == [] then [] else Encode(xs[0]) + EncodeAll(xs[1..])
  }

  lemma {:induction false} SizeOfAllSnoc(xs: seq<Item>, x: Item)
    ensures SizeOfAll(xs + [x]) == SizeOfAll(xs) + SizeOf(x)
  {
    if xs == [] {
      assert (xs + [x])[1..] == [];
    } else {
      SizeOfAllSnoc(xs[1..], x);
      assert (xs + [x])[1..] == xs[1..] + [x];
    }
  }
}
