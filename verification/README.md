# caf-net-benchmarks: the sequential core in Dafny

The caf-net-benchmarks repository measures throughput and latency between
actors. It compares the classic `libcaf_io` middleman, the newer `libcaf_net`
backend and plain sockets. Most of each benchmark drives the actor framework,
and that part cannot be modelled. What the benchmarks add on top is a set of
small, sequential pieces. This project models those pieces and proves what
they promise:

- **The raw-socket transports** (`streaming_raw_tcp.cpp`, `pingpong_raw_tcp.cpp`).
  - The full-buffer `send` and `receive` loops, with their three outcomes:
    disconnected, temporary error (retried) and hard error.
  - The `send_size_t` / `read_size_t` header built on `htonl` / `ntohl`.
  - The client and server sessions.
- **The blank ping-pong** (`pingpong_tcp_blank.cpp`).
  - The 16-byte two-timestamp record with `serialize` / `deserialize`.
  - The `send` loop, which rewrites the first eight bytes, and the
    offset-advancing `receive` loop.
  - The echo server.
  - The client's round loop with its `t1` / `t2` / `t3` series and the
    latency report.
- **Payload chunking and byte-count termination** (`blank_streaming_tcp.cpp`,
  `blank_streaming_udp.cpp`, `blank_streaming_client_server.cpp`).
  - `fill_payloads`.
  - The unsigned countdown send loop.
  - The sinks' "received ≥ amount ⇒ done" rule.
- **The ping actor's timestamp series** (`pingpong_tcp_timing.cpp`) and the
  report printed from them.
- **The accumulators.**
  - The per-sender count lists with their running `max` and element-wise sum
    (`caf_streaming_tcp.cpp`, `caf_streaming_udp.cpp`).
  - The tick sink.
  - The begin/end mean accumulator (`accumulator.cpp`).
- **The `mode` option's `convert`** (`utility.cpp`).

## How the model is built

**Sockets.** A socket is an `Endpoint` holding four things:

- the results the next `write` calls will return;
- the bytes written so far;
- the results the next `read` calls will return;
- the bytes the peer has sent that are not read yet.

`Accept(limit)` and `Deliver(limit)` transfer at most `limit` bytes, and never
more than the call asks for. A limit of 0 is the zero return of a closed
connection. `WriteError(temporary)` and `ReadError(temporary)` are a failed
call. Their flag is the answer `last_socket_error_is_temporary()` would give.

A loop that is still running when the script runs out reports `Pending` or
`Stalled`. A real socket would still be waiting there.

**Aborts.** `exit(...)` is an `Abort` outcome carrying the message and the
error code.

**Parameters.** These are given to the model rather than computed:

- clock readings;
- the framework's serializer and deserializer;
- `detail::serialized_size`;
- the host byte order.

**Actor handlers** are pure functions on their `*_state` records.

**Layout.** There is one module per source file, plus four shared modules:

- `Sums`: sums, bounds and ceiling division;
- `Bytes`: byte images of integers in either byte order;
- `Socket`: the scripted socket;
- `LatencyReport`: the difference report both ping-pong programs print.

## Model

| member | source | states |
|---|---|---|
| Socket.Classify | src/pingpong_tcp_blank.cpp:42-46 | A call result becomes a byte count exactly when it is positive. Zero becomes `socket_disconnected`, and only zero does. |
| SizeHeader.NtohlHtonl | src/streaming_raw_tcp.cpp:54-65 | `ntohl(htonl(x))` gives back `x mod 2^32` on either byte order. |
| SizeHeader.HeaderRoundTrip | src/streaming_raw_tcp.cpp:53-66 | Decoding the 8-byte header image gives the low 32 bits of the value. Every value below 2^32 comes back unchanged. |
| SizeHeader.SendSizeT | src/streaming_raw_tcp.cpp:53-58 | Exactly one write. A result ≤ 0 aborts with "send_size_t failed". A short write is accepted, and only that prefix of the header goes out. |
| SizeHeader.ReadSizeT | src/streaming_raw_tcp.cpp:60-66 | Exactly one read of at most 8 bytes. A result ≤ 0 aborts with "read_size_t failed". Otherwise the value is decoded from the bytes read, with the missing ones left zero, and exactly those bytes are consumed. |
| SizeHeader.HeaderRead | src/pingpong_raw_tcp.cpp:60-66 | A header that arrives whole in one read yields `value mod 2^32` and consumes exactly its 8 bytes. |
| SizeHeader.HeaderTransfer | src/pingpong_raw_tcp.cpp:53-66 | A whole write followed by a whole read carries the low 32 bits of the value. The reader is left at the bytes after the header. |
| SizeHeader.HeaderTruncates | src/streaming_raw_tcp.cpp:54 | The header for 2^32 decodes to 0. |
| SizeHeader.WideHeaderRoundTrip | src/streaming_raw_tcp.cpp:53-66 | The corrected 64-bit network-order header returns every `size_t` value unchanged. |
| RawTransport.SendCode | src/streaming_raw_tcp.cpp:27-34 | The streaming `send` returns a positive code exactly on success. |
| RawTransport.Send | src/streaming_raw_tcp.cpp:24-35 | (1) Success holds iff the positive write results sum to exactly the payload length. (2) The bytes on the wire are the payload's prefix of that length. (3) Each write that took bytes is paired, in order, with its count, which is the smaller of its limit and the bytes still unsent, so it took the next consecutive subspan. (4) Disconnect is the first zero write; failure is the first non-temporary error. (5) Every earlier result wrote bytes or was a temporary error. |
| RawTransport.ReadSoFarStep | src/streaming_raw_tcp.cpp:42-44 | A positive read adds its bytes as one more piece off the front of the stream, painted over the buffer from offset 0. |
| RawTransport.KeptNotClosed | src/streaming_raw_tcp.cpp:43-46 | Reads that each returned bytes or a temporary error did not end at a zero return, so `receive` cannot report both. |
| RawTransport.Receive | src/streaming_raw_tcp.cpp:37-51 | (1) Every read asks for the whole buffer. A positive read takes exactly the smaller of its limit, the buffer size and the bytes left on the stream, painted from offset 0. (2) Success holds iff the running count reaches at least `buf.size()`. It may overshoot, but by less than the last read. (3) Disconnect holds exactly when the last read returned zero after reads that each handed over its piece, and those pieces are all the bytes the stream lost. A read that still delivers bytes never disconnects. (4) Failure is a non-temporary error. (5) On success or a stall every read used handed over its piece. |
| RawTransport.ReceiveOverwritesItsFirstBytes | src/streaming_raw_tcp.cpp:42 | Two 1-byte reads into a 2-byte buffer: the second byte lands on the first, and the last position is never written. |
| RawTransport.TwoFiveByteReads | src/streaming_raw_tcp.cpp:37-51 | Two reads that may each deliver 5 bytes, on a 10-byte stream, into an 8-byte buffer: `receive` succeeds with pieces of 5 and 5 bytes, and the buffer holds the second piece over the first. |
| RawTransport.ReceiveAdvancing | src/pingpong_raw_tcp.cpp:37-51 | Not a model of these lines but their corrected version. These lines are the same offset-0 `receive` as src/streaming_raw_tcp.cpp:37-51. In the corrected version each read asks only for the `size - received` missing bytes and stores them at offset `received`. (1) A positive read takes exactly the smaller of its limit, the missing bytes and the bytes left on the stream. (2) Success holds iff the pieces fill the buffer exactly, and then the buffer holds the first `size` bytes of the stream in order. (3) On success or a stall every read used either handed over its piece or failed temporarily. (4) Disconnect holds exactly when the last read returned zero after such reads; the pieces are then all the bytes the stream lost. (5) Failure means the last read was a non-temporary error. |
| RawTransport.AdvanceOneByteSuccess | src/streaming_raw_tcp.cpp:42 | Corrected `receive`, as many reads as buffer bytes, each allowing one byte, with enough bytes on the stream: it succeeds with one one-byte piece per read, and the buffer holds the first bytes of the stream in order. |
| RawTransport.AdvancingTwoOneByteReads | src/streaming_raw_tcp.cpp:42 | The input on which the code as written fails: two 1-byte reads into a 2-byte buffer. The corrected `receive` succeeds with pieces [1] and [2] and the buffer [1, 2]. |
| RawStreaming.SendHeaders | src/streaming_raw_tcp.cpp:92-93 | The amount header goes out first and the message-size header second. Either failed write aborts. With whole writes the wire holds the two images in that order. |
| RawStreaming.ReadHeaders | src/streaming_raw_tcp.cpp:69-70 | The server reads exactly two headers, with the same abort rule, and touches nothing else. The read that aborts takes no bytes: its zero return is judged against the bytes still unread. |
| RawStreaming.HeadersInOrder | src/streaming_raw_tcp.cpp:69-70 | Fed the client's two header images, the server learns the amount and then the message size, each mod 2^32, and leaves the rest unread. |
| RawStreaming.SendFrames | src/streaming_raw_tcp.cpp:97-106 | (1) The client sends ceil(amount / message_size) frames, zero when amount is 0, and the wire holds that many copies of the frame. (2) A serializer failure aborts with "serializing failed". (3) A failed send aborts with "write failed". |
| RawStreaming.AwaitAck | src/streaming_raw_tcp.cpp:107-111 | One-byte reads repeat until one returns exactly 1. A disconnect or an error keeps the loop spinning and never aborts. |
| RawStreaming.RunClient | src/streaming_raw_tcp.cpp:91-112 | The wire holds the two headers followed by ceil(amount / message_size) frames. The only aborts are the header, serializer and write failures. |
| RawStreaming.ReceiveFrames | src/streaming_raw_tcp.cpp:76-87 | (1) Each iteration began below the amount. A loop that was not left by a disconnect ended with the payload sizes at or above the amount. (2) The loop is left by a disconnect exactly when its last read returned zero after reads that each handed over a piece. (3) "deserializing failed" aborts exactly on a painted buffer that does not deserialize. (4) A hard read error aborts with "receive failed". (5) When whole frames covering the amount lie ahead, the loop reaches the amount with their sizes. |
| RawStreaming.ServerIterations | src/streaming_raw_tcp.cpp:76-86 | With every payload of `message_size` bytes, the server loop ran ceil(amount / message_size) times, the same count as the client's loop. |
| RawStreaming.RunServer | src/streaming_raw_tcp.cpp:68-89 | (1) The server reads the headers; "read_size_t failed" happens exactly when a header read aborts. (2) The loop runs over a buffer of the serialized size; a deserializer abort is that buffer failing to decode, and a disconnect is a last read that returned zero. (3) Afterwards it sends exactly one byte, the buffer's first, on both loop exits, and writes nothing else. |
| RawPingPong.ServerRound | src/pingpong_raw_tcp.cpp:75-91 | (1) A round writes exactly the server's own frame, whatever it received. (2) It ends the session, writing nothing, exactly when the receive's last read returned zero after reads that each handed over a piece; a read that still delivers bytes never ends it. (3) "deserializing failed" means the received buffer does not decode. |
| RawPingPong.ServeRounds | src/pingpong_raw_tcp.cpp:74-92 | After n replies the wire holds n copies of the server's frame. The loop ends cleanly exactly when a receive's last read returned zero after reads that each handed over a piece, and every other error aborts. A client that sends n answerable frames and hangs up gets exactly n replies. |
| RawPingPong.RunServer | src/pingpong_raw_tcp.cpp:68-93 | The server reads one header, `message_size`. Everything it writes is copies of the serialization of its own zeroed `message_size`-byte payload. It ends cleanly exactly when the header arrived and a later read returned zero after reads that each handed over a piece. |
| RawPingPong.ChainExtends | src/pingpong_raw_tcp.cpp:103-118 | A round that serializes the payload the chain has reached, and gets an answer that deserializes, extends the chain. |
| RawPingPong.ClientRound | src/pingpong_raw_tcp.cpp:104-116 | A round is one send of the serialized payload followed by one receive, whose answer must deserialize. Both failures abort with the source's "send failed" wording. |
| RawPingPong.ClientRounds | src/pingpong_raw_tcp.cpp:103-118 | (1) The do-while runs max(amount, 1) rounds. (2) Round k sends the serialization of what round k−1 deserialized, and the first round sends the zeroed payload. (3) The wire holds exactly the frames sent, in order. |
| RawPingPong.RunClient | src/pingpong_raw_tcp.cpp:95-119 | The client writes the size header, then max(amount, 1) chained rounds. Each receive buffer has the serialized size of a `message_size`-byte payload. A `socket_disconnected` exit follows a write that returned zero or a last read that returned zero after reads that each handed over a piece. |
| BlankPingPong.StampRoundTrip | src/pingpong_tcp_blank.cpp:26-37 | The `memcpy` of a `long long` out and back in returns the same stamp. |
| BlankPingPong.Serialize | src/pingpong_tcp_blank.cpp:26-29 | `serialize` writes the first 16 bytes and leaves the rest of the buffer untouched. |
| BlankPingPong.Deserialize | src/pingpong_tcp_blank.cpp:31-37 | `deserialize` aborts iff the buffer holds fewer than 16 bytes. |
| BlankPingPong.SerializeRoundTrip | src/pingpong_tcp_blank.cpp:26-37 | Deserializing what `serialize(buf, t1, t2)` wrote gives `(t1, t2)` for every buffer of at least 16 bytes. |
| BlankPingPong.WriteFaultClassifies | src/pingpong_tcp_blank.cpp:42-46 | A write that transfers nothing returns the error code its scripted result names. |
| BlankPingPong.ReadFaultClassifies | src/pingpong_tcp_blank.cpp:56-60 | A read that transfers nothing returns the error code its scripted result names. |
| BlankPingPong.WriteOnce | src/pingpong_tcp_blank.cpp:42-46 | A write of the first 8 bytes: a positive result is one more prefix copy on the wire, and anything else stops with that result's code. |
| BlankPingPong.Send | src/pingpong_tcp_blank.cpp:39-49 | (1) Every write sends a prefix of the same first 8 bytes. (2) `none` holds after at least one write, even for amount 0, once the count reaches the amount, and not a write earlier. (3) The first failed write's code is returned. |
| BlankPingPong.FillOnce | src/pingpong_tcp_blank.cpp:54-60 | A read asks only for the missing bytes, stores them at offset `received`, and never returns more than asked. |
| BlankPingPong.Receive | src/pingpong_tcp_blank.cpp:51-63 | (1) `received ≤ amount` always holds. (2) The buffer's first `received` bytes are the next bytes of the stream, and the rest is untouched. (3) `none` holds iff amount > 0 and exactly amount bytes arrived. (4) Each read that did not end the call is paired with its count: the smaller of its limit, the bytes still missing and the bytes left on the stream. (5) A failed call ends at a read that, asking for the missing bytes of the stream as it then stood, returned zero or less, and it returns that read's code. |
| BlankPingPong.WholeWrites | src/pingpong_tcp_blank.cpp:39-49 | When every write takes at least 8 bytes, `send` cannot fail and every write counts 8. |
| BlankPingPong.TwoWholeWrites | src/pingpong_tcp_blank.cpp:77 | Whole writes stop at 16 bytes after exactly two writes. |
| BlankPingPong.SendReply | src/pingpong_tcp_blank.cpp:74-77 | (1) Every write of the reply puts a prefix of the server's own 8-byte stamp image on the wire, as long as its limit allows, so no byte comes from the client. (2) It succeeds once the count reaches 16, and not a write earlier. (3) The first failed write's code is returned. (4) With whole writes the reply is the stamp twice, 16 bytes. |
| BlankPingPong.EchoRound | src/pingpong_tcp_blank.cpp:68-82 | One pass of the echo loop either ends the server the way `EchoServer` states, or uses at least one read and keeps the invariant: every call moved bytes and the replies so far are on the wire. |
| BlankPingPong.EchoServer | src/pingpong_tcp_blank.cpp:65-85 | (1) An abort never carries `socket_disconnected`, because a disconnect from either receive or send ends the loop cleanly. (2) With whole writes, the wire holds one reply per round, each stamped with that round's clock reading. |
| BlankPingPong.ReadsMatchReplies | src/pingpong_tcp_blank.cpp:115 | 16-byte frames read off a stream that begins with the server's replies are those replies, frame for frame. |
| BlankPingPong.SendPing | src/pingpong_tcp_blank.cpp:109-113 | The client's `send(buf, 8)` after `serialize(buf, ts)` puts exactly the stamp's 8 bytes on the wire when writes are whole. |
| BlankPingPong.AwaitReply | src/pingpong_tcp_blank.cpp:115-116 | On success the client's 16-byte buffer holds the next 16 bytes of the stream. Each read is paired with its count as in `Receive`. |
| BlankPingPong.PingStops | src/pingpong_tcp_blank.cpp:109-112 | A failed ping ends the round with its code before any reply is awaited. Nothing is recorded and the replies read so far stay as they were. |
| BlankPingPong.ReplyStops | src/pingpong_tcp_blank.cpp:113-116 | A reply that does not come in ends the round with the receive's code after `t1` gained the ping's stamp. |
| BlankPingPong.RecordPing | src/pingpong_tcp_blank.cpp:113 | Stamping a ping appends one `t1` entry. |
| BlankPingPong.RecordReply | src/pingpong_tcp_blank.cpp:118-122 | A reply appends one `t3` entry (the arrival) and one `t2` entry (the reply's first stamp). |
| BlankPingPong.RoundKeepsBetween | src/pingpong_tcp_blank.cpp:107-125 | A completed round keeps the series equally long, the replies read in stream order and the pings on the wire in order. |
| BlankPingPong.PingKeepsRecorded | src/pingpong_tcp_blank.cpp:111-113 | A round that stops after its ping went out leaves `t1` one entry ahead, with that ping on the wire. |
| BlankPingPong.ClientRound | src/pingpong_tcp_blank.cpp:107-125 | One loop iteration adds exactly one element to each of `t1`, `t2`, `t3`, or ends the loop with an `exit` on the error code. |
| BlankPingPong.PingClient | src/pingpong_tcp_blank.cpp:107-141 | (1) After `max` rounds (one for `max == 0`), `t1`, `t2` and `t3` all have that length. (2) The replies are the stream's prefix. (3) Every `.at` of the report is in range. |
| BlankPingPong.ClientRecordsServerStamps | src/pingpong_tcp_blank.cpp:119-122 | When the stream begins with the echo server's replies, the `t2` the client records are the server's stamps, in order. |
| LatencyReport.Differences | src/pingpong_tcp_timing.cpp:221-232 | (1) The report exists, with no `.at` out of range, iff `t1` and `t2` are at least as long as `t3`. (2) Row i holds `t2[i]−t1[i]` and `t3[i]−t2[i]`. (3) Request plus response is `t3[i]−t1[i]`. |
| PingTiming.Spawn | src/pingpong_tcp_timing.cpp:44-49 | A fresh ping actor has three empty series. |
| PingTiming.OnHello | src/pingpong_tcp_timing.cpp:79-82 | `hello` records the pong actor and leaves the series alone. |
| PingTiming.OnStart | src/pingpong_tcp_timing.cpp:83-86 | `start` sends one ping and appends exactly one `t1` entry. |
| PingTiming.OnPong | src/pingpong_tcp_timing.cpp:87-99 | (1) A pong appends to `t3` and `t2`. (2) `done` plus quit happens iff `t3` then has exactly `max_pongs` entries. (3) Otherwise exactly one new ping is stamped into `t1`. |
| PingTiming.StartOutstanding | src/pingpong_tcp_timing.cpp:83-86 | After `start`, one ping is in flight: `|t1| == |t3| + 1` and `|t2| == |t3|`. |
| PingTiming.PongsReplies | src/pingpong_tcp_timing.cpp:87-99 | Each pong gets one reply, and only the `max_pongs`-th is `done`. There is no pipelining. |
| PingTiming.PongsArrivals | src/pingpong_tcp_timing.cpp:87-88 | `t3` receives the arrival stamps of the handled pongs, in order. |
| PingTiming.PongsRemotes | src/pingpong_tcp_timing.cpp:87-89 | `t2` receives the pong actor's stamps of the handled pongs, in order. |
| PingTiming.PongsEnd | src/pingpong_tcp_timing.cpp:90-97 | At `done`, `|t1| == |t2| == |t3| == max_pongs` and the report is in range. Until then one ping is in flight. |
| PingTiming.PongsNeverFinish | src/pingpong_tcp_timing.cpp:90-98 | Once `t3` is past `max_pongs`, including `max_pongs == 0`, the equality test never fires and every reply is a ping. |
| Streaming.ChunksShape | src/blank_streaming_tcp.cpp:54-58 | The reference cut sums to the amount, has ceil(amount / m) pieces each in 1..m, and all but the last equal m. |
| Streaming.FillStep | src/blank_streaming_tcp.cpp:55-57 | One iteration appends a zeroed payload of `min(byte_amount, message_size)` bytes and subtracts that size. |
| Streaming.FillStepProgress | src/blank_streaming_tcp.cpp:54-58 | An iteration makes progress iff `message_size > 0`. With 0 it appends an empty payload forever. |
| Streaming.FillPayloads | src/blank_streaming_tcp.cpp:53-59 | Existing payloads stay a prefix. The appended ones are zeroed and their sizes are exactly the reference cut of `byte_amount`. |
| Streaming.FillPayloadsCounted | src/blank_streaming_udp.cpp:54-62 | The same for the UDP variant, and `allocated` ends equal to the original `byte_amount`. |
| Streaming.FilledShape | src/blank_streaming_udp.cpp:56-61 | The appended sizes sum to `byte_amount`. Each lies in 1..message_size and only the last may be smaller. There are ceil(byte_amount / message_size) of them, and none iff `byte_amount == 0`. |
| Streaming.SendPayloads | src/blank_streaming_tcp.cpp:71-75 | The send handler emits one message per payload, in index order. |
| Streaming.InitSink | src/blank_streaming_udp.cpp:95-99 | `init` sets `streaming_amount` and leaves `received_bytes` unchanged. |
| Streaming.OnPayload | src/blank_streaming_udp.cpp:100-104 | `received_bytes` grows by `p.size()`, and `done` is signalled iff the new total is ≥ `streaming_amount`. |
| Streaming.FeedRemainder | src/blank_streaming_tcp.cpp:97-101 | Fed the cut of the bytes still owed, the sink signals `done` on the last payload only. |
| Streaming.SinkDoneOnLast | src/blank_streaming_tcp.cpp:97-101 | Fed `fill_payloads`' output for a positive amount, the sink signals `done` exactly once, on the last payload. |
| ClientServer.Resize | src/blank_streaming_client_server.cpp:64 | `resize(n)` keeps the first bytes and zero-fills the new ones, to exactly n. |
| ClientServer.InitSource | src/blank_streaming_client_server.cpp:62-67 | `init` sets `streaming_amount` and resizes `p` to `payload_size`. |
| ClientServer.Sub64 | src/blank_streaming_client_server.cpp:72 | `-=` on `size_t` is subtraction modulo 2^64. |
| ClientServer.SendAsWritten | src/blank_streaming_client_server.cpp:69-74 | The loop as written sends `p` while the unsigned counter is non-zero. A loop that stops does so with the counter at 0. |
| ClientServer.DrainLinear | src/blank_streaming_client_server.cpp:70-72 | While k payloads fit in the counter, it goes down by exactly k·payload_size. |
| ClientServer.CountdownDivisible | src/blank_streaming_client_server.cpp:69-74 | When `payload_size` divides the amount, the loop sends exactly amount / payload_size payloads and stops at 0. |
| ClientServer.CountdownWraps | src/blank_streaming_client_server.cpp:70-72 | Otherwise the counter is positive through floor(amount / ps) + 1 sends and then reads 2^64 − (ps − amount mod ps). It wraps past 0 instead of stopping at it; it reaches 0 later only if gcd(ps, 2^64) divides the amount. |
| ClientServer.CountdownWrapsAt | src/blank_streaming_client_server.cpp:70-72 | The same wrap, stated with `/` and `%` of the amount. |
| ClientServer.CountdownStuck | src/blank_streaming_client_server.cpp:70-72 | With `payload_size == 0` the counter never moves. |
| ClientServer.CountdownThreeByTwo | src/blank_streaming_client_server.cpp:70-72 | Amount 3 with payloads of 2: after two sends the counter reads 2^64 − 1. |
| ClientServer.SendSaturating | src/blank_streaming_client_server.cpp:69-74 | The corrected countdown sends exactly ceil(amount / payload_size) copies of `p` and stops at 0. |
| ClientServer.SaturatingLoop | src/blank_streaming_client_server.cpp:70-73 | The corrected loop body runs once per `payload_size` bytes owed, the last possibly short. |
| ClientServer.InitLinked | src/blank_streaming_client_server.cpp:101-105 | The sink's `init` stores the source and the amount and keeps its byte count. |
| ClientServer.OnLinkedPayload | src/blank_streaming_client_server.cpp:106-110 | The sink adds `p.size()` and sends `done` to its source on every payload once the total is ≥ the amount. |
| CountAccumulator.Start | src/caf_streaming_tcp.cpp:42-46 | A fresh accumulator has no lists, `max == 0` and no dones. |
| CountAccumulator.PushTotal | src/caf_streaming_tcp.cpp:53 | `counts[whom].push_back(amount)` adds `amount` to the total of all reports. |
| CountAccumulator.PushFinds | src/caf_streaming_tcp.cpp:53 | The push keeps one entry per actor and finds `whom` where it put the report. |
| CountAccumulator.PushKeeps | src/caf_streaming_tcp.cpp:51-53 | Every other actor's list is unchanged. |
| CountAccumulator.PushLists | src/caf_streaming_udp.cpp:58-60 | `whom`'s list grows by exactly `amount` at its end, and no other list changes. |
| CountAccumulator.PushMax | src/caf_streaming_udp.cpp:61-62 | The longest list after the push is the longer of the old `max` and the list that grew. |
| CountAccumulator.OnAmount | src/caf_streaming_tcp.cpp:51-56 | The handler keeps `max` equal to the longest list length and adds `amount` to the total. It appends to `whom`'s list only. |
| CountAccumulator.PushValid | src/caf_streaming_tcp.cpp:54-55 | The invariant "`max` is the longest list length, one entry per actor" survives every amount message. |
| CountAccumulator.ColumnsTotal | src/caf_streaming_tcp.cpp:61-67 | When no list is longer than m, the m interval sums together contain every report exactly once. |
| CountAccumulator.Aggregate | src/caf_streaming_udp.cpp:68-74 | (1) `acc` has length `max`. (2) `acc[i]` is the sum of every list's i-th entry where defined, and every `.at` is in range. (3) The sum of `acc` is the total of all reports. |
| CountAccumulator.PrintedTotal | src/caf_streaming_tcp.cpp:61-69 | Under the invariant, the printed interval sums add up to every report received. |
| CountAccumulator.OnDone | src/caf_streaming_tcp.cpp:57-73 | (1) `done` increments `num_dones`. (2) Aggregation and quit happen iff `num_dones ≥ num_nodes`. (3) The printout then has `max` entries that add up to every report. |
| CountAccumulator.OnElement | src/caf_streaming_tcp.cpp:136 | The stream's processing step counts one element. |
| CountAccumulator.OnTick | src/caf_streaming_tcp.cpp:116-124 | A tick reports `count`, resets it to 0 and increments `tick_count`. `done` follows iff `tick_count ≥ iterations`. |
| CountAccumulator.TicksReport | src/caf_streaming_udp.cpp:127-134 | Each report is exactly the elements of its interval. The sink says `done` on the last tick it is owed and reports nothing after. |
| CountAccumulator.FreshSinkReports | src/caf_streaming_tcp.cpp:113-124 | A fresh sink makes max(iterations, 1) reports before it quits. |
| MeanAccumulator.Start | src/accumulator.cpp:12-13 | A fresh accumulator has no begins and no ends. |
| MeanAccumulator.Mean | src/accumulator.cpp:17-24 | `mean(x)` needs a non-empty `x`, and it lies between min(x) and max(x). |
| MeanAccumulator.MeanBetween | src/accumulator.cpp:23 | Integer division of a total between n·lo and n·hi by n lies between lo and hi. |
| MeanAccumulator.Elapsed | src/accumulator.cpp:29-31 | The printed duration is an unsigned 64-bit value. |
| MeanAccumulator.ElapsedIsDifference | src/accumulator.cpp:29-32 | When every `done` followed every `init`, the duration is mean(ends) − mean(begins). |
| MeanAccumulator.OnInit | src/accumulator.cpp:15 | Each `init` appends exactly one reading to `begins`. |
| MeanAccumulator.OnDone | src/accumulator.cpp:16-35 | (1) Each `done` appends exactly one reading to `ends`. (2) The duration is printed, and the actor quits, iff `ends` reaches the reserved `num_nodes`. |
| MeanAccumulator.RunReportsOnce | src/accumulator.cpp:25-34 | From a fresh start, exactly one duration is printed iff at least `num_nodes` `done`s arrive, and it is printed on the `num_nodes`-th. |
| BenchMode.Spelling | src/utility.cpp:18-27 | Only `invalid` has no option spelling. |
| BenchMode.Convert | src/utility.cpp:18-27 | "netBench", "ioBench" and "localBench" map to `net`, `io` and `local`, exactly. Every other string maps to `invalid`. |
| BenchMode.ConvertSpelling | src/utility.cpp:18-27 | Each real mode is reached from exactly one string, its spelling. |

## Left out

- Actor-system setup and the framework calls around the core: spawning, the middleman and backend wiring, `remote_actor`, stream sources and sinks. These are calls into the framework.
- Socket creation, `accept`, `connect`, `nodelay`, `shutdown` and socket guards. These are OS I/O; the model starts from a connected socket.
- Threads, `join`, `delayed_send` timers and the wall clock. Clock readings are parameters, such as the `clock` function and the `now` arguments.
- The framework's `binary_serializer`, `binary_deserializer` and `detail::serialized_size`. They are parameters `encode`, `decode` and `frameSize`.
- Serializer error codes: a serializer failure aborts with its message, and the model does not carry the code.
- RawStreaming.RunServer and RawPingPong.RunServer: both require a positive serialized size. The framework's serialization of a byte vector always carries a length prefix, so that size is never zero.
- RawStreaming.SendFrames and RawStreaming.RunClient: a serialized frame is assumed non-empty, for the same reason.
- RawStreaming.ServerIterations: the count is stated only for a deserializer that yields payloads of exactly `message_size` bytes, which is what the client sends.
- The two ends of a session are proved separately. That the client's and the server's sessions compose on one connection is stated only for the headers (`HeadersInOrder`), the chunk count (`ServerIterations`) and the blank ping-pong replies (`ClientRecordsServerStamps`).
- Fixed-width arithmetic is modelled where it matters. These places are modelled: `htonl`/`ntohl` keep 32 bits, the countdown's `size_t` subtraction wraps, and the mean accumulator's difference wraps. Elsewhere counts are unbounded: `sent += p.size()`, `received_bytes`, the accumulator's sums and the `int received` of the raw `receive`.
- Streaming.FillPayloads, Streaming.FillPayloadsCounted: both require `message_size > 0` unless `byte_amount == 0`. Otherwise the source loop does not terminate, which `FillStepProgress` states.
- ClientServer.SendAsWritten: observed for at most `limit` passes of the loop body, because the source loop may not terminate once the counter wraps. After a wrap it stops only if gcd(payload_size, 2^64) divides the amount. `CountdownWraps` and `CountdownStuck` state what happens.
- MeanAccumulator.OnDone: the reserved capacity is taken to be exactly `num_nodes`. `reserve` only promises at least that much, and for `num_nodes == 0` the capacity after the first `emplace_back` is implementation-defined.
- MeanAccumulator.OnDone: when no `init` came before the final `done`, the source's `mean` reads `x[0]` of an empty vector, which is undefined. The model prints 0 there and promises nothing about that case.
- `std::map`'s ordering by actor handle is replaced by an association list in order of first report. The element-wise sum does not depend on the order.
- A moved-from payload after `std::move` in the send handler is not modelled. The handler runs once per `init`.
- The CAF `read`/`write` overloads returning a byte count or an error code are not among the repository's files. Their classification is modelled as libcaf_net defines it: zero is `socket_disconnected`, a temporary error is `unavailable_or_would_block`, and any other failure is `socket_operation_failed`.
- Where a textbook transport would advance its cursor, never surface a temporary error and treat a short header read as fatal, the model follows the code instead. The raw `receive` does not advance. The blank `send`/`receive` return temporary error codes to the caller. `read_size_t` accepts any positive read and leaves the missing bytes zero.
- The error text, `std::cerr` progress lines and the CSV-style `std::cout` formatting are not modelled. The printed values are.

## Findings

| source | as written | input that shows it | evidently intended | confidence | as-written member | corrected member |
|---|---|---|---|---|---|---|
| src/streaming_raw_tcp.cpp:54 | `send_size_t` passes a `size_t` through `htonl` and `read_size_t` through `ntohl`, both 32-bit, so only the low 32 bits of the amount travel | amount = 2^32 arrives as 0, and the server then receives nothing | the full 64-bit value in network byte order | high; not executed | SizeHeader.HeaderTruncates | SizeHeader.WideHeaderRoundTrip |
| src/streaming_raw_tcp.cpp:42 | `receive` passes `make_span(data, size)` to every `read`, so each read lands at offset 0 and may read past the frame | two 1-byte reads into a 2-byte buffer leave it as [second byte, untouched] | read `size - received` bytes at `data + received` | high; not executed | RawTransport.ReceiveOverwritesItsFirstBytes | RawTransport.ReceiveAdvancing |
| src/blank_streaming_client_server.cpp:70-72 | the loop runs while the unsigned counter is non-zero and subtracts `payload_size`, which wraps past zero | amount 3, payload size 2: after two sends the counter is 2^64 − 1 and the loop goes on | stop once the amount is covered | high; not executed | ClientServer.CountdownThreeByTwo | ClientServer.SendSaturating |

The session models (`RawStreaming`, `RawPingPong`, and the source loop behind
`ClientServer.SendAsWritten`) use the transport and header exactly as written,
so that they describe the programs as they are. The corrected members stand
beside them with their intended properties proved.
