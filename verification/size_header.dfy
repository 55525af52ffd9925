/** The `send_size_t` / `read_size_t` header codec of the two raw-socket
    benchmarks. The sender passes a `size_t` through `htonl` and writes the
    8-byte memory image of the result in a single `write`; the receiver reads
    into a zeroed `size_t` in a single `read` and passes it through `ntohl`.
    Both conversions are defined on 32-bit integers (POSIX `<arpa/inet.h>`),
    so only the low 32 bits of the value survive the trip. */
module SizeHeader {
  import opened Bytes
  import opened Socket

  /** `sizeof(size_t)`: the number of bytes each header call transfers. */
  const SIZE_T_BYTES: nat := 8

  /** `htonl`: the argument is converted to `uint32_t` (its low 32 bits are
      kept), and the result is the 32-bit integer whose memory image on this
      host is the big-endian layout of that value. */
  function Htonl(x: nat, host: Endianness): (r: nat)
    ensures r < TWO_32
  {
    Pow256Widths();
    Load(Store(x % TWO_32, 4, BigEndianHost), host)
  }

  /** `ntohl`: reads the host memory image of the low 32 bits of `x` as a
      big-endian number. */
  function Ntohl(x: nat, host: Endianness): (r: nat)
    ensures r < TWO_32
  {
    Pow256Widths();
    Load(Store(x % TWO_32, 4, host), BigEndianHost)
  }

  lemma NtohlHtonl(x: nat, host: Endianness)
    ensures Ntohl(Htonl(x, host), host) == x % TWO_32
  {
    var y := x % TWO_32;
    var b := Store(y, 4, BigEndianHost);
    var h := Load(b, host);
    assert Htonl(x, host) == h;
    assert h % TWO_32 == h by {
      Pow256Widths();
    }
    assert Store(h, 4, host) == b by {
      StoreLoad(b, host);
    }
    assert Load(b, BigEndianHost) == y by {
      Pow256Widths();
      LoadStore(y, 4, BigEndianHost);
    }
  }

  /** The eight bytes `send_size_t` hands to `write`. */
  function HeaderImage(value: nat, host: Endianness): (b: seq<byte>)
    ensures |b| == SIZE_T_BYTES
  {
    Store(Htonl(value, host), SIZE_T_BYTES, host)
  }

  /** What `read_size_t` returns when the read filled the first `|data|`
      bytes of the zero-initialised `size_t`. */
  function HeaderValue(data: seq<byte>, host: Endianness): (v: nat)
    requires |data| <= SIZE_T_BYTES
    ensures v < TWO_32
  {
    Ntohl(Load(data + Zeros(SIZE_T_BYTES - |data|), host), host)
  }

  /** Only the low 32 bits of a header survive encoding and decoding, so
      every value below 2^32 comes back unchanged. */
  lemma {:induction false} HeaderRoundTrip(value: nat, host: Endianness)
    ensures HeaderValue(HeaderImage(value, host), host) == value % TWO_32
    ensures value < TWO_32 ==> HeaderValue(HeaderImage(value, host), host) == value
  {
    var h := Htonl(value, host);
    var image := HeaderImage(value, host);
    assert image + Zeros(0) == image;
    assert Load(image, host) == h by {
      Pow256Widths();
      LoadStore(h, SIZE_T_BYTES, host);
    }
    assert Ntohl(h, host) == value % TWO_32 by {
      NtohlHtonl(value, host);
    }
  }

  /** `send_size_t`: one `write` of the header image; a result of zero or
      less aborts, a short write is neither detected nor retried. */
  function SendSizeT(e: Endpoint, value: nat, host: Endianness): (r: Step<()>)
    ensures r.Stalled? <==> |e.writeResults| == 0
    ensures r.Abort? <==> |e.writeResults| > 0 && !(e.writeResults[0].Accept? && e.writeResults[0].limit > 0)
    ensures r.Abort? ==> r.exit == Exit("send_size_t failed")
    ensures r.Stalled? ==> r.rest == e
    ensures r.Abort? ==> r.rest == e.(writeResults := e.writeResults[1..])
    ensures r.Next? ==>
      var n := Sums.Smaller(e.writeResults[0].limit, SIZE_T_BYTES);
      && r.rest == e.(writeResults := e.writeResults[1..], sent := e.sent + HeaderImage(value, host)[..n])
  {
    if |e.writeResults| == 0 then Stalled(e)
    else
      var (res, e') := Write(e, HeaderImage(value, host));
      if res.ret <= 0 then Abort(Exit("send_size_t failed"), e') else Next((), e')
  }

  /** `read_size_t`: one `read` of up to eight bytes; a result of zero or less
      aborts, a short read leaves the missing bytes zero. */
  function ReadSizeT(e: Endpoint, host: Endianness): (r: Step<nat>)
    ensures r.Stalled? <==> |e.readResults| == 0
    ensures r.Abort? <==> |e.readResults| > 0 && !(e.readResults[0].Deliver? && e.readResults[0].limit > 0 && |e.pending| > 0)
    ensures r.Abort? ==> r.exit == Exit("read_size_t failed")
    ensures r.Stalled? ==> r.rest == e
    ensures r.Abort? ==> r.rest == e.(readResults := e.readResults[1..])
    ensures r.Next? ==>
      var n := Sums.Smaller(Sums.Smaller(e.readResults[0].limit, SIZE_T_BYTES), |e.pending|);
      && r.value == HeaderValue(e.pending[..n], host)
      && r.rest == e.(readResults := e.readResults[1..], pending := e.pending[n..])
  {
    if |e.readResults| == 0 then Stalled(e)
    else
      var out := Read(e, SIZE_T_BYTES);
      if out.res.ret <= 0 then Abort(Exit("read_size_t failed"), out.rest)
      else
        assert out.data == e.pending[..out.res.ret];
        Next(HeaderValue(out.data, host), out.rest)
  }

  /** A header that arrives whole in one `read` yields the low 32 bits of
      its value and consumes exactly its eight bytes. */
  lemma HeaderRead(value: nat, host: Endianness, r: Endpoint, later: seq<byte>)
    requires |r.readResults| > 0 && r.readResults[0].Deliver? && r.readResults[0].limit >= SIZE_T_BYTES
    requires r.pending == HeaderImage(value, host) + later
    ensures ReadSizeT(r, host) == Next(value % TWO_32, r.(readResults := r.readResults[1..], pending := later))
  {
    var image := HeaderImage(value, host);
    assert r.pending[..SIZE_T_BYTES] == image;
    assert r.pending[SIZE_T_BYTES..] == later;
    HeaderRoundTrip(value, host);
  }

  /** A header written in one full `write` and read in one full `read` carries
      the low 32 bits of the value and consumes exactly its eight bytes. */
  lemma HeaderTransfer(value: nat, host: Endianness, w: Endpoint, r: Endpoint, later: seq<byte>)
    requires |w.writeResults| > 0 && w.writeResults[0].Accept? && w.writeResults[0].limit >= SIZE_T_BYTES
    requires |r.readResults| > 0 && r.readResults[0].Deliver? && r.readResults[0].limit >= SIZE_T_BYTES
    requires SendSizeT(w, value, host).Next?
    requires r.pending == SendSizeT(w, value, host).rest.sent[|w.sent|..] + later
    ensures SendSizeT(w, value, host).rest.sent == w.sent + HeaderImage(value, host)
    ensures ReadSizeT(r, host) == Next(value % TWO_32, r.(readResults := r.readResults[1..], pending := later))
  {
    assert SendSizeT(w, value, host).rest.sent[|w.sent|..] == HeaderImage(value, host);
    HeaderRead(value, host, r, later);
  }

  /** The first header value above 32 bits comes back as zero. */
  lemma HeaderTruncates(host: Endianness)
    ensures HeaderValue(HeaderImage(TWO_32, host), host) == 0
  {
    HeaderRoundTrip(TWO_32, host);
  }

  /** The evidently intended header: all 64 bits in network byte order. */
  function WideHeaderImage(value: u64): (b: seq<byte>)
    ensures |b| == SIZE_T_BYTES
  {
    Store(value, SIZE_T_BYTES, BigEndianHost)
  }

  function WideHeaderValue(b: seq<byte>): (v: nat)
    requires |b| == SIZE_T_BYTES
    ensures v < TWO_64
  {
    Pow256Widths();
    Load(b, BigEndianHost)
  }

  lemma WideHeaderRoundTrip(value: u64)
    ensures WideHeaderValue(WideHeaderImage(value)) == value
  {
    Pow256Widths();
    LoadStore(value, SIZE_T_BYTES, BigEndianHost);
  }
}
