/** The unauthenticated TWAMP-Test packet layouts: the Session-Sender packet of
    section 4.1.2 of RFC 5357 and the Session-Reflector packet of section 4.2.1
    of RFC 5357 (with one extra Sender TOS byte after Sender TTL).
    A field holds exactly what the program stores in the struct member (a word
    the program passed through htonl holds the byte-swapped value); the encoding
    is the struct's memory image on a little-endian host, so a byte-swapped
    field appears on the wire in network byte order. */
module Packets {
  import opened Words

  const TST_PKT_SIZE: nat := 1472
  const REFLECTOR_HEADER_SIZE: nat := 42
  /** seq_number (4) + timestamp (8) + timestamp_error_estimate (2). */
  const CLIENT_HEADER_SIZE: nat := 14
  const TIMESTAMP_SIZE: nat := 8

  type ClientPadding = s: seq<U8> | |s| == TST_PKT_SIZE - CLIENT_HEADER_SIZE
    witness seq(TST_PKT_SIZE - CLIENT_HEADER_SIZE, i => 0)
  type ReflectorPadding = s: seq<U8> | |s| == TST_PKT_SIZE - REFLECTOR_HEADER_SIZE
    witness seq(TST_PKT_SIZE - REFLECTOR_HEADER_SIZE, i => 0)
  type Mbz = s: seq<U8> | |s| == 2 witness [0, 0]

  /** An NTP-format timestamp: seconds and a binary fraction of a second. */
  datatype Timestamp = Timestamp(integer: U32, fractional: U32)

  const ZeroTimestamp: Timestamp := Timestamp(0, 0)

  datatype ClientPacket = ClientPacket(
    seqNumber: U32,
    timestamp: Timestamp,
    errorEstimate: U16,
    padding: ClientPadding)

  datatype ReflectorPacket = ReflectorPacket(
    seqNumber: U32,
    timestamp: Timestamp,
    errorEstimate: U16,
    mbz1: Mbz,
    receiveTimestamp: Timestamp,
    senderSeqNumber: U32,
    senderTimestamp: Timestamp,
    senderErrorEstimate: U16,
    mbz2: Mbz,
    senderTtl: U8,
    senderTos: U8,
    padding: ReflectorPadding)

  function Zeros(n: nat): (z: seq<U8>)
    ensures |z| == n && forall i :: 0 <= i < n ==> z[i] == 0
  {
    seq(n, i => 0)
  }

  /** `ClientPacket packet{}`: every member value-initialised. */
  function DefaultClientPacket(): ClientPacket
  {
    ClientPacket(0, ZeroTimestamp, 0, Zeros(TST_PKT_SIZE - CLIENT_HEADER_SIZE))
  }

  /** `ReflectorPacket packet{}`: every member value-initialised. */
  function DefaultReflectorPacket(): ReflectorPacket
  {
    ReflectorPacket(0, ZeroTimestamp, 0, Zeros(2), ZeroTimestamp, 0, ZeroTimestamp, 0,
                    Zeros(2), 0, 0, Zeros(TST_PKT_SIZE - REFLECTOR_HEADER_SIZE))
  }

  // ---------------------------------------------------------------- encoding

  function EncodeU32(v: U32): (bs: seq<U8>)
    ensures |bs| == 4
  {
    LittleEndian(v, 4)
  }

  function EncodeU16(v: U16): (bs: seq<U8>)
    ensures |bs| == 2
  {
    LittleEndian(v, 2)
  }

  function EncodeTimestamp(t: Timestamp): (bs: seq<U8>)
    ensures |bs| == TIMESTAMP_SIZE
  {
    EncodeU32(t.integer) + EncodeU32(t.fractional)
  }

  function DecodeU32(bs: seq<U8>): U32
    requires |bs| == 4
  {
    Pow256Values();
    FromLittleEndian(bs)
  }

  function DecodeU16(bs: seq<U8>): U16
    requires |bs| == 2
  {
    Pow256Values();
    FromLittleEndian(bs)
  }

  function DecodeTimestamp(bs: seq<U8>): Timestamp
    requires |bs| == TIMESTAMP_SIZE
  {
    Timestamp(DecodeU32(bs[0..4]), DecodeU32(bs[4..8]))
  }

  lemma U32RoundTrip(v: U32)
    ensures DecodeU32(EncodeU32(v)) == v
  {
    Pow256Values();
    FromLittleEndianOfLittleEndian(v, 4);
  }

  lemma U16RoundTrip(v: U16)
    ensures DecodeU16(EncodeU16(v)) == v
  {
    Pow256Values();
    FromLittleEndianOfLittleEndian(v, 2);
  }

  lemma U32BytesRoundTrip(bs: seq<U8>)
    requires |bs| == 4
    ensures EncodeU32(DecodeU32(bs)) == bs
  {
    LittleEndianOfFromLittleEndian(bs);
  }

  lemma U16BytesRoundTrip(bs: seq<U8>)
    requires |bs| == 2
    ensures EncodeU16(DecodeU16(bs)) == bs
  {
    LittleEndianOfFromLittleEndian(bs);
  }

  /** A Timestamp is two 32-bit words in 8 bytes, and reading them back gives the same words. */
  lemma TimestampRoundTrip(t: Timestamp)
    ensures |EncodeTimestamp(t)| == 8
    ensures DecodeTimestamp(EncodeTimestamp(t)) == t
  {
    var bs := EncodeTimestamp(t);
    assert bs[0..4] == EncodeU32(t.integer);
    assert bs[4..8] == EncodeU32(t.fractional);
    U32RoundTrip(t.integer);
    U32RoundTrip(t.fractional);
  }

  lemma TimestampBytesRoundTrip(bs: seq<U8>)
    requires |bs| == TIMESTAMP_SIZE
    ensures EncodeTimestamp(DecodeTimestamp(bs)) == bs
  {
    U32BytesRoundTrip(bs[0..4]);
    U32BytesRoundTrip(bs[4..8]);
    assert bs == bs[0..4] + bs[4..8];
  }

  /** The sender packet header: seq at offset 0, timestamp at 4, error estimate at 12. */
  function ClientHeader(p: ClientPacket): (h: seq<U8>)
    ensures |h| == CLIENT_HEADER_SIZE
  {
    EncodeU32(p.seqNumber) + EncodeTimestamp(p.timestamp) + EncodeU16(p.errorEstimate)
  }

  /** The memory image of a ClientPacket (sizeof(ClientPacket) bytes). */
  function EncodeClient(p: ClientPacket): (bs: seq<U8>)
    ensures |bs| == TST_PKT_SIZE
  {
    ClientHeader(p) + p.padding
  }

  /** Reinterpreting a sizeof(ClientPacket) buffer as a ClientPacket. */
  function DecodeClient(bs: seq<U8>): ClientPacket
    requires |bs| == TST_PKT_SIZE
  {
    ClientPacket(DecodeU32(bs[0..4]), DecodeTimestamp(bs[4..12]), DecodeU16(bs[12..14]),
                 bs[CLIENT_HEADER_SIZE..])
  }

  /** The reflector packet header, 42 bytes: the eleven fields at offsets
      0, 4, 12, 14, 16, 24, 28, 36, 38, 40, 41. */
  function ReflectorHeader(p: ReflectorPacket): (h: seq<U8>)
    ensures |h| == REFLECTOR_HEADER_SIZE
  {
    EncodeU32(p.seqNumber) + EncodeTimestamp(p.timestamp) + EncodeU16(p.errorEstimate)
    + p.mbz1 + EncodeTimestamp(p.receiveTimestamp) + EncodeU32(p.senderSeqNumber)
    + EncodeTimestamp(p.senderTimestamp) + EncodeU16(p.senderErrorEstimate)
    + p.mbz2 + [p.senderTtl] + [p.senderTos]
  }

  /** The memory image of a ReflectorPacket (sizeof(ReflectorPacket) bytes). */
  function EncodeReflector(p: ReflectorPacket): (bs: seq<U8>)
    ensures |bs| == TST_PKT_SIZE
  {
    ReflectorHeader(p) + p.padding
  }

  /** Reinterpreting a sizeof(ReflectorPacket) buffer as a ReflectorPacket. */
  function DecodeReflector(bs: seq<U8>): ReflectorPacket
    requires |bs| == TST_PKT_SIZE
  {
    ReflectorPacket(
      DecodeU32(bs[0..4]), DecodeTimestamp(bs[4..12]), DecodeU16(bs[12..14]), bs[14..16],
      DecodeTimestamp(bs[16..24]), DecodeU32(bs[24..28]), DecodeTimestamp(bs[28..36]),
      DecodeU16(bs[36..38]), bs[38..40], bs[40], bs[41], bs[REFLECTOR_HEADER_SIZE..])
  }

  // ------------------------------------------------------------ properties

  /** Field offsets of the sender packet. */
  lemma ClientOffsets(p: ClientPacket)
    ensures EncodeClient(p)[0..4] == EncodeU32(p.seqNumber)
    ensures EncodeClient(p)[4..12] == EncodeTimestamp(p.timestamp)
    ensures EncodeClient(p)[12..14] == EncodeU16(p.errorEstimate)
    ensures EncodeClient(p)[14..] == p.padding
    ensures |p.padding| == 1458 && CLIENT_HEADER_SIZE + |p.padding| == TST_PKT_SIZE
  {
    var bs := EncodeClient(p);
    assert bs[0..4] == ClientHeader(p)[0..4];
    assert bs[4..12] == ClientHeader(p)[4..12];
    assert bs[12..14] == ClientHeader(p)[12..14];
  }

  lemma ClientRoundTrip(p: ClientPacket)
    ensures DecodeClient(EncodeClient(p)) == p
  {
    ClientOffsets(p);
    U32RoundTrip(p.seqNumber);
    TimestampRoundTrip(p.timestamp);
    U16RoundTrip(p.errorEstimate);
  }

  /** Every buffer is the image of the packet it is read as. */
  lemma ClientBytesRoundTrip(bs: seq<U8>)
    requires |bs| == TST_PKT_SIZE
    ensures EncodeClient(DecodeClient(bs)) == bs
  {
    U32BytesRoundTrip(bs[0..4]);
    TimestampBytesRoundTrip(bs[4..12]);
    U16BytesRoundTrip(bs[12..14]);
    assert bs == bs[0..4] + bs[4..12] + bs[12..14] + bs[14..];
  }

  /** Field offsets of the reflector packet. */
  lemma ReflectorOffsets(p: ReflectorPacket)
    ensures EncodeReflector(p)[0..4] == EncodeU32(p.seqNumber)
    ensures EncodeReflector(p)[4..12] == EncodeTimestamp(p.timestamp)
    ensures EncodeReflector(p)[12..14] == EncodeU16(p.errorEstimate)
    ensures EncodeReflector(p)[14..16] == p.mbz1
    ensures EncodeReflector(p)[16..24] == EncodeTimestamp(p.receiveTimestamp)
    ensures EncodeReflector(p)[24..28] == EncodeU32(p.senderSeqNumber)
    ensures EncodeReflector(p)[28..36] == EncodeTimestamp(p.senderTimestamp)
    ensures EncodeReflector(p)[36..38] == EncodeU16(p.senderErrorEstimate)
    ensures EncodeReflector(p)[38..40] == p.mbz2
    ensures EncodeReflector(p)[40] == p.senderTtl
    ensures EncodeReflector(p)[41] == p.senderTos
    ensures EncodeReflector(p)[42..] == p.padding
    ensures |p.padding| == 1430 && REFLECTOR_HEADER_SIZE + |p.padding| == TST_PKT_SIZE
  {
    var h := ReflectorHeader(p);
    var bs := EncodeReflector(p);
    assert bs[..42] == h;
    assert h[0..4] == EncodeU32(p.seqNumber);
    assert h[4..12] == EncodeTimestamp(p.timestamp);
    assert h[12..14] == EncodeU16(p.errorEstimate);
    assert h[14..16] == p.mbz1;
    assert h[16..24] == EncodeTimestamp(p.receiveTimestamp);
    assert h[24..28] == EncodeU32(p.senderSeqNumber);
    assert h[28..36] == EncodeTimestamp(p.senderTimestamp);
    assert h[36..38] == EncodeU16(p.senderErrorEstimate);
    assert h[38..40] == p.mbz2;
    assert bs[0..4] == h[0..4];
    assert bs[4..12] == h[4..12];
    assert bs[12..14] == h[12..14];
    assert bs[14..16] == h[14..16];
    assert bs[16..24] == h[16..24];
    assert bs[24..28] == h[24..28];
    assert bs[28..36] == h[28..36];
    assert bs[36..38] == h[36..38];
    assert bs[38..40] == h[38..40];
  }

  lemma ReflectorRoundTrip(p: ReflectorPacket)
    ensures DecodeReflector(EncodeReflector(p)) == p
  {
    ReflectorOffsets(p);
    U32RoundTrip(p.seqNumber);
    TimestampRoundTrip(p.timestamp);
    U16RoundTrip(p.errorEstimate);
    TimestampRoundTrip(p.receiveTimestamp);
    U32RoundTrip(p.senderSeqNumber);
    TimestampRoundTrip(p.senderTimestamp);
    U16RoundTrip(p.senderErrorEstimate);
  }

  lemma ReflectorBytesRoundTrip(bs: seq<U8>)
    requires |bs| == TST_PKT_SIZE
    ensures EncodeReflector(DecodeReflector(bs)) == bs
  {
    U32BytesRoundTrip(bs[0..4]);
    TimestampBytesRoundTrip(bs[4..12]);
    U16BytesRoundTrip(bs[12..14]);
    TimestampBytesRoundTrip(bs[16..24]);
    U32BytesRoundTrip(bs[24..28]);
    TimestampBytesRoundTrip(bs[28..36]);
    U16BytesRoundTrip(bs[36..38]);
    assert bs == bs[0..4] + bs[4..12] + bs[12..14] + bs[14..16] + bs[16..24] + bs[24..28]
                 + bs[28..36] + bs[36..38] + bs[38..40] + [bs[40]] + [bs[41]] + bs[42..];
  }

  /** Value-initialised packets are all zero bytes: fields, both MBZ pairs and padding. */
  lemma DefaultPacketsAreZero()
    ensures EncodeClient(DefaultClientPacket()) == Zeros(TST_PKT_SIZE)
    ensures EncodeReflector(DefaultReflectorPacket()) == Zeros(TST_PKT_SIZE)
    ensures DefaultReflectorPacket().mbz1 == [0, 0] && DefaultReflectorPacket().mbz2 == [0, 0]
  {
    assert LittleEndian(0, 4) == [0, 0, 0, 0];
    assert LittleEndian(0, 2) == [0, 0];
    assert EncodeClient(DefaultClientPacket()) == Zeros(TST_PKT_SIZE);
    assert EncodeReflector(DefaultReflectorPacket()) == Zeros(TST_PKT_SIZE);
  }

  /** A word stored as htonl(v) / htons(v) is laid out in network byte order. */
  lemma NetworkOrderOnWire(v: U32, w: U16)
    ensures EncodeU32(Htonl(v)) == BigEndian(v, 4)
    ensures EncodeU16(Htons(w)) == BigEndian(w, 2)
  {
    SwapImage32(v);
    SwapImage16(w);
  }

  // -------------------------------------------------------- error estimate

  /** The Error Estimate word of section 4.1.2 of RFC 4656: S (synchronised),
      Z (must be zero), a 6-bit Scale and an 8-bit Multiplier. */
  datatype ErrorEstimate = ErrorEstimate(s: bool, z: bool, scale: int, multiplier: U8)
  {
    predicate Valid() { 0 <= scale < 64 }
  }

  function EncodeErrorEstimate(e: ErrorEstimate): (w: U16)
    requires e.Valid()
  {
    (if e.s then 0x8000 else 0) + (if e.z then 0x4000 else 0) + e.scale * 256 + e.multiplier
  }

  function DecodeErrorEstimate(w: U16): (e: ErrorEstimate)
    ensures e.Valid()
  {
    ErrorEstimate(w / 0x8000 == 1, (w / 0x4000) % 2 == 1, (w / 256) % 64, w % 256)
  }

  lemma ErrorEstimateRoundTrip(e: ErrorEstimate)
    requires e.Valid()
    ensures DecodeErrorEstimate(EncodeErrorEstimate(e)) == e
  {
  }

  lemma ErrorEstimateWordRoundTrip(w: U16)
    ensures EncodeErrorEstimate(DecodeErrorEstimate(w)) == w
  {
  }

  /** The host value both endpoints put (through htons) in their error estimate. */
  const ERROR_ESTIMATE_SYNC: U16 := 0x8001

  /** 0x8001 is S = 1, Z = 0, Scale = 0, Multiplier = 1; on the wire it is 0x80 0x01. */
  lemma SyncErrorEstimate()
    ensures DecodeErrorEstimate(ERROR_ESTIMATE_SYNC) == ErrorEstimate(true, false, 0, 1)
    ensures EncodeU16(Htons(ERROR_ESTIMATE_SYNC)) == [0x80, 0x01]
  {
    NetworkOrderOnWire(0, ERROR_ESTIMATE_SYNC);
    assert LittleEndian(ERROR_ESTIMATE_SYNC, 2) == [0x01, 0x80];
  }

  // ---------------------------------------------------------- receive buffer

  /** What a receive into a zero-initialised sizeof(packet) buffer leaves there:
      the datagram's first bytes, zeros after them. A longer datagram is cut and
      flagged as truncated (MSG_TRUNC). */
  datatype Received = Received(buffer: seq<U8>, length: nat, truncated: bool)

  function Receive(datagram: seq<U8>): (r: Received)
    ensures |r.buffer| == TST_PKT_SIZE
    ensures r.length <= TST_PKT_SIZE && r.length <= |datagram|
    ensures r.truncated <==> |datagram| > TST_PKT_SIZE
    ensures !r.truncated ==> r.length == |datagram| && r.buffer[..|datagram|] == datagram
    ensures forall i :: r.length <= i < TST_PKT_SIZE ==> r.buffer[i] == 0
    ensures forall i :: 0 <= i < r.length ==> r.buffer[i] == datagram[i]
  {
    if |datagram| > TST_PKT_SIZE then
      Received(datagram[..TST_PKT_SIZE], TST_PKT_SIZE, true)
    else
      Received(datagram + Zeros(TST_PKT_SIZE - |datagram|), |datagram|, false)
  }

  /** A full-size datagram carrying the image of a packet is read back as that packet. */
  lemma ReceiveFullReflectorPacket(p: ReflectorPacket)
    ensures var r := Receive(EncodeReflector(p));
      !r.truncated && DecodeReflector(r.buffer) == p
  {
    var r := Receive(EncodeReflector(p));
    assert r.buffer == EncodeReflector(p);
    ReflectorRoundTrip(p);
  }

  lemma ReceiveFullClientPacket(p: ClientPacket)
    ensures var r := Receive(EncodeClient(p));
      !r.truncated && DecodeClient(r.buffer) == p
  {
    var r := Receive(EncodeClient(p));
    assert r.buffer == EncodeClient(p);
    ClientRoundTrip(p);
  }

  /** A datagram that is a prefix of a packet image whose remaining bytes are
      all zero lands in the zero-initialised buffer as the whole image. */
  lemma ReceivePrefixOfZeroTail(image: seq<U8>, len: nat)
    requires |image| == TST_PKT_SIZE && len <= TST_PKT_SIZE
    requires forall i :: len <= i < TST_PKT_SIZE ==> image[i] == 0
    ensures var r := Receive(image[..len]);
      !r.truncated && r.length == len && r.buffer == image
  {
    var r := Receive(image[..len]);
    assert forall i :: 0 <= i < TST_PKT_SIZE ==> r.buffer[i] == image[i];
  }
}
