/** Octets, the fixed-width integer ranges of the C++ sources, and the byte
    layouts `memcpy`, `htonl` and `ntohl` produce on a little- or big-endian
    host. */
module Bytes {

  type byte = x: int | 0 <= x < 256

  const TWO_32: nat := 0x1_0000_0000
  const TWO_63: nat := 0x8000_0000_0000_0000
  const TWO_64: nat := 0x1_0000_0000_0000_0000

  /** `size_t` and `uint64_t` on the 64-bit hosts the benchmarks run on. */
  type u64 = x: int | 0 <= x < TWO_64

  /** `long long`, the timestamp type of the blank ping-pong benchmark. */
  type i64 = x: int | -(TWO_63 as int) <= x < TWO_63

  /** The order in which the host lays out the bytes of an integer in memory. */
  datatype Endianness = LittleEndianHost | BigEndianHost

  function Pow256(n: nat): (r: nat)
    ensures r >= 1
  {
    if n == 0 then 1 else 256 * Pow256(n - 1)
  }

  lemma Pow256Widths()
    ensures Pow256(4) == TWO_32
    ensures Pow256(8) == TWO_64
  {
  }

  function Zeros(n: nat): (z: seq<byte>)
    ensures |z| == n
    ensures forall i :: 0 <= i < n ==> z[i] == 0
  {
    seq(n, _ => 0)
  }

  function Reverse<T>(s: seq<T>): (r: seq<T>)
    ensures |r| == |s|
    ensures forall i :: 0 <= i < |s| ==> r[i] == s[|s| - 1 - i]
  {
    if |s| == 0 then [] else Reverse(s[1..]) + [s[0]]
  }

  lemma ReverseReverse<T>(s: seq<T>)
    ensures Reverse(Reverse(s)) == s
  {
  }

  /** The `n` low-order bytes of `u`, least significant byte first. */
  function ToLittleEndian(u: nat, n: nat): (b: seq<byte>)
    ensures |b| == n
  {
    if n == 0 then [] else [u % 256] + ToLittleEndian(u / 256, n - 1)
  }

  function FromLittleEndian(b: seq<byte>): (u: nat)
    ensures u < Pow256(|b|)
  {
    if |b| == 0 then 0 else b[0] + 256 * FromLittleEndian(b[1..])
  }

  lemma {:induction false} FromToLittleEndian(u: nat, n: nat)
    requires u < Pow256(n)
    ensures FromLittleEndian(ToLittleEndian(u, n)) == u
  {
    if n > 0 {
      var b := ToLittleEndian(u, n);
      assert b[1..] == ToLittleEndian(u / 256, n - 1);
      FromToLittleEndian(u / 256, n - 1);
    }
  }

  lemma {:induction false} ToFromLittleEndian(b: seq<byte>)
    ensures ToLittleEndian(FromLittleEndian(b), |b|) == b
  {
    if |b| > 0 {
      var u := FromLittleEndian(b);
      assert u % 256 == b[0];
      assert u / 256 == FromLittleEndian(b[1..]);
      ToFromLittleEndian(b[1..]);
    }
  }

  /** The memory image `memcpy` sees of an `n`-byte unsigned integer. */
  function Store(u: nat, n: nat, host: Endianness): (b: seq<byte>)
    ensures |b| == n
  {
    match host
    case LittleEndianHost => ToLittleEndian(u, n)
    case BigEndianHost => Reverse(ToLittleEndian(u, n))
  }

  /** The unsigned integer whose memory image is `b`. */
  function Load(b: seq<byte>, host: Endianness): (u: nat)
    ensures u < Pow256(|b|)
  {
    match host
    case LittleEndianHost => FromLittleEndian(b)
    case BigEndianHost => FromLittleEndian(Reverse(b))
  }

  lemma LoadStore(u: nat, n: nat, host: Endianness)
    requires u < Pow256(n)
    ensures Load(Store(u, n, host), host) == u
  {
    FromToLittleEndian(u, n);
    if host == BigEndianHost {
      ReverseReverse(ToLittleEndian(u, n));
    }
  }

  lemma StoreLoad(b: seq<byte>, host: Endianness)
    ensures Store(Load(b, host), |b|, host) == b
  {
    match host
    case LittleEndianHost =>
      ToFromLittleEndian(b);
    case BigEndianHost =>
      ToFromLittleEndian(Reverse(b));
      ReverseReverse(b);
  }

  /** Two's complement reinterpretation between `long long` and 64 unsigned bits. */
  function ToUnsigned(t: i64): (u: u64)
  {
    if t < 0 then t + TWO_64 else t
  }

  function ToSigned(u: u64): (t: i64)
  {
    if u >= TWO_63 then u - TWO_64 else u
  }

  lemma SignedRoundTrip(t: i64)
    ensures ToSigned(ToUnsigned(t)) == t
  {
  }
}
