/** Fixed-width machine integers, their little-endian memory images and the
    byte swaps that htonl/ntohl/htons/ntohs perform on a little-endian host. */
module Words {

  type U8 = x: int | 0 <= x < 0x100
  type U16 = x: int | 0 <= x < 0x1_0000
  type U32 = x: int | 0 <= x < 0x1_0000_0000
  type U64 = x: int | 0 <= x < 0x1_0000_0000_0000_0000
  type I32 = x: int | -0x8000_0000 <= x < 0x8000_0000
  type I64 = x: int | -0x8000_0000_0000_0000 <= x < 0x8000_0000_0000_0000

  const TWO_32: int := 0x1_0000_0000
  const TWO_63: int := 0x8000_0000_0000_0000
  const TWO_64: int := 0x1_0000_0000_0000_0000

  /** 256^n, the number of values an n-byte unsigned integer can hold. */
  function Pow256(n: nat): (p: nat)
    ensures p >= 1
  {
    if n == 0 then 1 else 256 * Pow256(n - 1)
  }

  /** The n bytes a little-endian host stores for the unsigned value v. */
  function LittleEndian(v: nat, n: nat): (bs: seq<U8>)
    ensures |bs| == n
  {
    if n == 0 then [] else [v % 256] + LittleEndian(v / 256, n - 1)
  }

  /** The unsigned value whose little-endian image is bs. */
  function FromLittleEndian(bs: seq<U8>): (v: nat)
    ensures v < Pow256(|bs|)
  {
    if bs == [] then 0 else bs[0] + 256 * FromLittleEndian(bs[1..])
  }

  function Reverse<T>(s: seq<T>): (r: seq<T>)
    ensures |r| == |s|
    ensures forall i :: 0 <= i < |s| ==> r[i] == s[|s| - 1 - i]
  {
    if s == [] then [] else Reverse(s[1..]) + [s[0]]
  }

  lemma ReverseReverse<T>(s: seq<T>)
    ensures Reverse(Reverse(s)) == s
  {
    var r := Reverse(Reverse(s));
    assert forall i :: 0 <= i < |s| ==> r[i] == s[i];
  }

  /** The n bytes of v in network (big-endian) order. */
  function BigEndian(v: nat, n: nat): (bs: seq<U8>)
    ensures |bs| == n
  {
    Reverse(LittleEndian(v, n))
  }

  function FromBigEndian(bs: seq<U8>): (v: nat)
    ensures v < Pow256(|bs|)
  {
    FromLittleEndian(Reverse(bs))
  }

  lemma {:induction false} FromLittleEndianOfLittleEndian(v: nat, n: nat)
    requires v < Pow256(n)
    ensures FromLittleEndian(LittleEndian(v, n)) == v
  {
    if n > 0 {
      FromLittleEndianOfLittleEndian(v / 256, n - 1);
      assert LittleEndian(v, n)[1..] == LittleEndian(v / 256, n - 1);
    }
  }

  lemma {:induction false} LittleEndianOfFromLittleEndian(bs: seq<U8>)
    ensures LittleEndian(FromLittleEndian(bs), |bs|) == bs
  {
    if bs != [] {
      var w := FromLittleEndian(bs[1..]);
      var v := bs[0] + 256 * w;
      assert v % 256 == bs[0] && v / 256 == w;
      LittleEndianOfFromLittleEndian(bs[1..]);
      assert bs == [bs[0]] + bs[1..];
    }
  }

  /** Reading back what was written: big-endian decode inverts big-endian encode. */
  lemma BigEndianRoundTrip(v: nat, n: nat)
    requires v < Pow256(n)
    ensures FromBigEndian(BigEndian(v, n)) == v
  {
    ReverseReverse(LittleEndian(v, n));
    FromLittleEndianOfLittleEndian(v, n);
  }

  lemma Pow256Values()
    ensures Pow256(1) == 0x100 && Pow256(2) == 0x1_0000 && Pow256(4) == 0x1_0000_0000
  {
    assert Pow256(1) == 256;
    assert Pow256(2) == 256 * 256;
    assert Pow256(3) == 256 * 256 * 256;
  }

  /** The byte swap a little-endian host applies in htonl and ntohl. */
  function Swap32(v: U32): (r: U32)
  {
    Pow256Values();
    FromLittleEndian(Reverse(LittleEndian(v, 4)))
  }

  /** The byte swap a little-endian host applies in htons and ntohs. */
  function Swap16(v: U16): (r: U16)
  {
    Pow256Values();
    FromLittleEndian(Reverse(LittleEndian(v, 2)))
  }

  function Htonl(v: U32): U32 { Swap32(v) }
  function Ntohl(v: U32): U32 { Swap32(v) }
  function Htons(v: U16): U16 { Swap16(v) }
  function Ntohs(v: U16): U16 { Swap16(v) }

  /** A word stored in network order already has the big-endian bytes of its host value in memory. */
  lemma {:induction false} SwapImage32(h: U32)
    ensures LittleEndian(Swap32(h), 4) == BigEndian(h, 4)
  {
    LittleEndianOfFromLittleEndian(Reverse(LittleEndian(h, 4)));
  }

  lemma {:induction false} SwapImage16(h: U16)
    ensures LittleEndian(Swap16(h), 2) == BigEndian(h, 2)
  {
    LittleEndianOfFromLittleEndian(Reverse(LittleEndian(h, 2)));
  }

  lemma {:induction false} Swap32Involutive(v: U32)
    ensures Ntohl(Htonl(v)) == v && Htonl(Ntohl(v)) == v
  {
    Pow256Values();
    SwapImage32(v);
    ReverseReverse(LittleEndian(v, 4));
    FromLittleEndianOfLittleEndian(v, 4);
  }

  lemma {:induction false} Swap16Involutive(v: U16)
    ensures Ntohs(Htons(v)) == v && Htons(Ntohs(v)) == v
  {
    Pow256Values();
    SwapImage16(v);
    ReverseReverse(LittleEndian(v, 2));
    FromLittleEndianOfLittleEndian(v, 2);
  }

  /** Reduction of an arbitrary integer to uint64_t (C++ unsigned wrap-around). */
  function Wrap64(x: int): (r: U64)
    ensures (r - x) % TWO_64 == 0
  {
    x % TWO_64
  }

  /** Reduction of an arbitrary integer to uint32_t. */
  function Wrap32(x: int): (r: U32)
    ensures (r - x) % TWO_32 == 0
  {
    x % TWO_32
  }

  /** uint64_t subtraction. */
  function Sub64(a: U64, b: U64): (r: U64)
    ensures a >= b ==> r == a - b
    ensures a < b ==> r == a - b + TWO_64
  {
    Wrap64(a - b)
  }

  /** The two's-complement reinterpretation of a uint64_t as int64_t. */
  function ToInt64(u: U64): (r: I64)
    ensures r >= 0 <==> u < TWO_63
    ensures Wrap64(r) == u
  {
    if u < TWO_63 then u else u - TWO_64
  }

  /** An int64_t result whose exact value is x, wrapped to 64 bits. */
  function WrapI64(x: int): (r: I64)
    ensures Wrap64(r) == Wrap64(x)
    ensures -TWO_63 <= x < TWO_63 ==> r == x
  {
    ToInt64(Wrap64(x))
  }

  /** The two's-complement reinterpretation of a uint32_t as int32_t. */
  function ToInt32(u: U32): (r: I32)
    ensures r >= 0 <==> u < 0x8000_0000
    ensures Wrap32(r) == u
  {
    if u < 0x8000_0000 then u else u - TWO_32
  }

  lemma Wrap64Sum3(a: int, b: int, c: int)
    ensures Wrap64(Wrap64(a) + Wrap64(b) + Wrap64(c)) == Wrap64(a + b + c)
  {
  }

  /** Wrap64 picks the one representative in [0, 2^64) of x's residue class. */
  lemma Wrap64Of(x: int, k: int)
    requires 0 <= x + k * TWO_64 < TWO_64
    ensures Wrap64(x) == x + k * TWO_64
  {
  }

  /** Incrementing a wrapped uint32_t counter wraps the incremented count. */
  lemma Wrap32Successor(k: int)
    ensures Wrap32(Wrap32(k) + 1) == Wrap32(k + 1)
  {
  }

  /** A uint64_t difference cast to int64_t is the exact difference when that fits. */
  lemma ToInt64OfSub64(a: U64, b: U64)
    requires -TWO_63 <= a - b < TWO_63
    ensures ToInt64(Sub64(a, b)) == a - b
  {
  }
}
