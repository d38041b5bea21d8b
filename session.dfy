/** One exchange end to end: the datagram the client's sendPacket emits,
    received and reflected by handleTestPacket, and read back by the client's
    receive path. */
module Session {
  import opened Words
  import opened Optional
  import opened Packets
  import opened TimeUtils
  import opened ClientLogic
  import opened Reflector

  /** The reflector's reading of the request: a datagram that carries at least
      the 14-byte sender header is read as exactly the packet the client
      built, whatever its length, because the rest of the sender packet is
      zero padding. */
  lemma ReflectorReadsRequest(idx: U32, clock: Timestamp, payloadLen: nat)
    requires CLIENT_HEADER_SIZE <= payloadLen <= TST_PKT_SIZE
    ensures var r := Receive(SentDatagram(idx, clock, payloadLen));
      !r.truncated && r.length == payloadLen
      && DecodeClient(r.buffer) == CraftSenderPacket(idx, clock)
  {
    var p := CraftSenderPacket(idx, clock);
    var image := EncodeClient(p);
    ClientOffsets(p);
    assert forall i :: payloadLen <= i < TST_PKT_SIZE ==> image[i] == image[14..][i - 14];
    ReceivePrefixOfZeroTail(image, payloadLen);
    ClientRoundTrip(p);
  }

  /** The reflection of a request of `payloadLen` bytes, 42 to 1472: the
      reflector answers with a datagram of the same length, which the client
      reads as exactly the packet craftReflectorPacket built from the client's
      own packet. */
  lemma ExchangeRoundTrip(idx: U32, clock: Timestamp, payloadLen: nat, kernel: Timespec,
                          control: seq<ControlMessage>, receiveClock: Timestamp, sendClock: Timestamp,
                          sendSucceeds: bool)
    requires REFLECTOR_HEADER_SIZE <= payloadLen <= TST_PKT_SIZE
    ensures var e := RecvDatagram(SentDatagram(idx, clock, payloadLen), kernel, control, receiveClock, sendClock,
                                  sendSucceeds);
      var p := CraftReflectorPacket(CraftSenderPacket(idx, clock), kernel, receiveClock, IPHeaderOf(control), sendClock);
      Reflect(e).Some? && |Reflect(e).value| == payloadLen
      && !Receive(Reflect(e).value).truncated
      && DecodeReflector(Receive(Reflect(e).value).buffer) == p
  {
    var request := CraftSenderPacket(idx, clock);
    ReflectorReadsRequest(idx, clock, payloadLen);
    var p := CraftReflectorPacket(request, kernel, receiveClock, IPHeaderOf(control), sendClock);
    HandleTestPacketEffect(request, payloadLen, kernel, receiveClock, IPHeaderOf(control), sendClock);
    ReplyOwnFields(request, kernel, receiveClock, IPHeaderOf(control), sendClock);
    ReceiveReflectorPrefix(p, payloadLen);
  }

  /** A reflector packet with zero padding, cut to 42 bytes or more, is read
      back whole. */
  lemma ReceiveReflectorPrefix(p: ReflectorPacket, len: nat)
    requires REFLECTOR_HEADER_SIZE <= len <= TST_PKT_SIZE
    requires forall i :: 0 <= i < |p.padding| ==> p.padding[i] == 0
    ensures var r := Receive(EncodeReflector(p)[..len]);
      !r.truncated && r.length == len && DecodeReflector(r.buffer) == p
  {
    var image := EncodeReflector(p);
    ReflectorOffsets(p);
    assert forall i :: len <= i < TST_PKT_SIZE ==> image[i] == image[42..][i - 42];
    ReceivePrefixOfZeroTail(image, len);
    ReflectorRoundTrip(p);
  }

  /** What the client then finds in the reply: its own index in both sequence
      fields, its own send time in the sender timestamp, the reflector's two
      clock readings, and the synchronised error estimate on both sides. */
  lemma ClientReadsItsOwnPacketBack(idx: U32, clock: Timestamp, kernel: Timespec, control: seq<ControlMessage>,
                                    receiveClock: Timestamp, sendClock: Timestamp)
    ensures var p := CraftReflectorPacket(CraftSenderPacket(idx, clock), kernel, receiveClock, IPHeaderOf(control), sendClock);
      Ntohl(p.seqNumber) == idx && Ntohl(p.senderSeqNumber) == idx
      && Ntohts(p.senderTimestamp) == clock
      && Ntohts(p.receiveTimestamp) == ServerTimestamp(kernel, receiveClock)
      && Ntohts(p.timestamp) == sendClock
      && Ntohs(p.errorEstimate) == ERROR_ESTIMATE_SYNC && Ntohs(p.senderErrorEstimate) == ERROR_ESTIMATE_SYNC
  {
    var request := CraftSenderPacket(idx, clock);
    ReplyOwnFields(request, kernel, receiveClock, IPHeaderOf(control), sendClock);
    Swap32Involutive(idx);
    HtontsNtohtsInverse(clock);
    Swap16Involutive(ERROR_ESTIMATE_SYNC);
  }
}
