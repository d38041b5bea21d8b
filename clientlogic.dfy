/** The pure parts of src/client/Client.cpp: the client options, the sender
    packet, the observations one reply fans out into, the receive time, the
    sender and receiver loop conditions and the two small name maps. */
module ClientLogic {
  import opened Words
  import opened Optional
  import opened Packets
  import opened TimeUtils
  import opened PacketList
  import opened Correlation

  /** The client options that the modelled code reads (include/Client.h). */
  datatype Args = Args(
    remoteHosts: seq<string>,
    remotePorts: seq<U16>,
    ipVersion: U8,
    payloadLens: seq<int>,
    sndTos: U8,
    numSamples: U32,
    timeout: U8,
    seed: U32,
    runtime: U32,
    printDigest: bool,
    printLostPackets: bool,
    printFormat: string,
    jsonOutputFile: string)

  /** The defaults of include/Client.h for the options above, given the
      payload lengths (their PAYLOAD_LEN_* constants are defined elsewhere). */
  function DefaultArgs(payloadLens: seq<int>): (a: Args)
    ensures a.ipVersion == 4 && a.numSamples == 10 && a.timeout == 10
    ensures a.seed == 0 && a.runtime == 0 && a.sndTos == 0
    ensures a.printFormat == "legacy" && a.remoteHosts == [] && a.remotePorts == []
  {
    Args([], [], 4, payloadLens, 0, 10, 10, 0, 0, false, false, "legacy", "")
  }

  // ---------------------------------------------------------------------
  // The sender packet
  // ---------------------------------------------------------------------

  /** craftSenderPacket: a zeroed packet with the index as the sequence number,
      the error estimate 0x8001 and the clock reading, all in network order. */
  function CraftSenderPacket(idx: U32, clock: Timestamp): (p: ClientPacket)
    ensures p.padding == Zeros(TST_PKT_SIZE - CLIENT_HEADER_SIZE)
  {
    ClientPacket(Htonl(idx), Htonts(clock), Htons(ERROR_ESTIMATE_SYNC), Zeros(TST_PKT_SIZE - CLIENT_HEADER_SIZE))
  }

  /** On the wire, the sender packet starts with the index, the clock reading
      and the error estimate as big-endian fields (section 4.1.2 of RFC 5357),
      and the estimate reads S = 1, Z = 0, Scale = 0, Multiplier = 1. */
  lemma SenderPacketOnWire(idx: U32, clock: Timestamp)
    ensures var bs := EncodeClient(CraftSenderPacket(idx, clock));
      bs[0..4] == BigEndian(idx, 4)
      && bs[4..8] == BigEndian(clock.integer, 4)
      && bs[8..12] == BigEndian(clock.fractional, 4)
      && bs[12..14] == [0x80, 0x01]
      && bs[14..] == Zeros(TST_PKT_SIZE - CLIENT_HEADER_SIZE)
    ensures DecodeErrorEstimate(ERROR_ESTIMATE_SYNC) == ErrorEstimate(true, false, 0, 1)
  {
    var p := CraftSenderPacket(idx, clock);
    var bs := EncodeClient(p);
    ClientOffsets(p);
    NetworkOrderOnWire(idx, ERROR_ESTIMATE_SYNC);
    SyncErrorEstimate();
    var ts := bs[4..12];
    assert ts == BigEndian(clock.integer, 4) + BigEndian(clock.fractional, 4);
    assert bs[4..8] == ts[0..4] && bs[8..12] == ts[4..8];
  }

  /** What the reflector reads back from the sender packet's image: the index
      after ntohl and the clock reading after ntohts. */
  lemma SenderPacketDecodes(idx: U32, clock: Timestamp)
    ensures var p := DecodeClient(EncodeClient(CraftSenderPacket(idx, clock)));
      Ntohl(p.seqNumber) == idx && Ntohts(p.timestamp) == clock
  {
    ClientRoundTrip(CraftSenderPacket(idx, clock));
    Swap32Involutive(idx);
    HtontsNtohtsInverse(clock);
  }

  /** The bytes sendPacket hands to sendmsg: the first payload_len bytes of the
      packet's image. */
  function SentDatagram(idx: U32, clock: Timestamp, payloadLen: nat): (d: seq<U8>)
    requires payloadLen <= TST_PKT_SIZE
    ensures |d| == payloadLen
    ensures d == EncodeClient(CraftSenderPacket(idx, clock))[..payloadLen]
  {
    EncodeClient(CraftSenderPacket(idx, clock))[..payloadLen]
  }

  /** The number of hosts sendPacket reaches before the first failed sendmsg. */
  function LeadingSuccesses(outcomes: seq<bool>): (n: nat)
    ensures n <= |outcomes|
    ensures forall i :: 0 <= i < n ==> outcomes[i]
    ensures n < |outcomes| ==> !outcomes[n]
  {
    if |outcomes| == 0 || !outcomes[0] then 0 else 1 + LeadingSuccesses(outcomes[1..])
  }

  lemma LeadingSuccessesAll(outcomes: seq<bool>)
    ensures LeadingSuccesses(outcomes) == |outcomes| <==> forall i :: 0 <= i < |outcomes| ==> outcomes[i]
  {
  }

  // ---------------------------------------------------------------------
  // The reply
  // ---------------------------------------------------------------------

  /** The client receive time: the local clock when the kernel timestamp is
      {0, 0}, otherwise (uint64_t) sec * 10^9 + nsec. */
  function ClientReceiveTime(kernel: Timespec, clock: Timestamp): (ns: U64)
    ensures kernel.sec == 0 && kernel.nsec == 0 ==> ns == TimestampToNsec(Some(clock))
    ensures !(kernel.sec == 0 && kernel.nsec == 0) && 0 <= TimespecToNanos(kernel) < TWO_64
            ==> ns == TimespecToNanos(kernel)
  {
    if kernel.sec == 0 && kernel.nsec == 0 then TimestampToNsec(Some(clock))
    else Wrap64(Wrap64(kernel.sec) * NANOS_PER_SECOND + kernel.nsec)
  }

  /** The three observations handleReflectorPacket queues, in queue order:
      server send, server receive, client receive. */
  function ReplyObservations(p: ReflectorPacket, payloadLen: U16, clientReceive: U64): (obs: seq<QEDObservation>)
    ensures |obs| == 3
    ensures forall i :: 0 <= i < 3 ==> obs[i].packetId == Ntohl(p.seqNumber) && obs[i].payloadLen == payloadLen
    ensures obs[0].observationPoint == ServerSend
      && obs[0].epochNanoseconds == TimestampToNsec(Some(Ntohts(p.timestamp)))
    ensures obs[1].observationPoint == ServerReceive
      && obs[1].epochNanoseconds == TimestampToNsec(Some(Ntohts(p.receiveTimestamp)))
    ensures obs[2].observationPoint == ClientReceive && obs[2].epochNanoseconds == clientReceive
  {
    var id := Ntohl(p.seqNumber);
    [QEDObservation(ServerSend, TimestampToNsec(Some(Ntohts(p.timestamp))), id, payloadLen),
     QEDObservation(ServerReceive, TimestampToNsec(Some(Ntohts(p.receiveTimestamp))), id, payloadLen),
     QEDObservation(ClientReceive, clientReceive, id, payloadLen)]
  }

  /** None of a reply's observations is for the client send point. */
  lemma ReplyNeverClientSend(p: ReflectorPacket, payloadLen: U16, clientReceive: U64)
    ensures forall i :: 0 <= i < |ReplyObservations(p, payloadLen, clientReceive)| ==>
      ReplyObservations(p, payloadLen, clientReceive)[i].observationPoint != ClientSend
  {
    var obs := ReplyObservations(p, payloadLen, clientReceive);
    assert obs[0].observationPoint == ServerSend && obs[1].observationPoint == ServerReceive;
  }

  /** A record that holds the client send time, fed the three observations of
      its reply (all with non-zero times), becomes complete and carries the
      reply's payload length. */
  lemma ReplyCompletesRecord(records: seq<RawRecord>, p: ReflectorPacket, payloadLen: U16,
                             clientReceive: U64, nows: seq<U64>)
    requires UniqueIds(records) && |nows| == 3
    requires Lookup(records, Ntohl(p.seqNumber)).Some? && Lookup(records, Ntohl(p.seqNumber)).value.clientSend > 0
    requires clientReceive > 0
    requires TimestampToNsec(Some(Ntohts(p.timestamp))) > 0 && TimestampToNsec(Some(Ntohts(p.receiveTimestamp))) > 0
    ensures var r := Lookup(IngestAll(records, ReplyObservations(p, payloadLen, clientReceive), nows), Ntohl(p.seqNumber));
      r.Some? && Complete(r.value) && r.value.payloadLen == payloadLen
  {
    var id := Ntohl(p.seqNumber);
    var obs := ReplyObservations(p, payloadLen, clientReceive);
    ReplyCoversEveryPoint(records, p, payloadLen, clientReceive);
    CompleteInAnyOrder(records, obs, nows, id);
    LastObservationSetsPayloadLen(records, obs, nows, id);
  }

  /** Every point of the reply's record is either stamped already (the client
      send) or set by one of the reply's three observations. */
  lemma ReplyCoversEveryPoint(records: seq<RawRecord>, p: ReflectorPacket, payloadLen: U16, clientReceive: U64)
    requires Lookup(records, Ntohl(p.seqNumber)).Some? && Lookup(records, Ntohl(p.seqNumber)).value.clientSend > 0
    ensures var obs := ReplyObservations(p, payloadLen, clientReceive);
      forall q :: IsPoint(q) ==>
        (Stamped(records, Ntohl(p.seqNumber), q)
         || exists k :: 0 <= k < |obs| && obs[k].packetId == Ntohl(p.seqNumber) && obs[k].observationPoint == q)
  {
    var id := Ntohl(p.seqNumber);
    var obs := ReplyObservations(p, payloadLen, clientReceive);
    forall q | IsPoint(q)
      ensures Stamped(records, id, q)
        || exists k :: 0 <= k < |obs| && obs[k].packetId == id && obs[k].observationPoint == q
    {
      if q == ServerSend { assert obs[0].observationPoint == q; }
      else if q == ServerReceive { assert obs[1].observationPoint == q; }
      else if q == ClientReceive { assert obs[2].observationPoint == q; }
    }
  }

  // ---------------------------------------------------------------------
  // Loop conditions
  // ---------------------------------------------------------------------

  /** True when neither a sample count nor a run time bounds the run. */
  predicate Unlimited(args: Args) { args.numSamples == 0 && args.runtime == 0 }

  /** The condition of runSenderThread's loop at index `index` as written, with
      the wall clock in seconds; time(nullptr) - start_time is taken in
      uint64_t. A zero sample count means "unlimited" even when a run time is
      set. */
  predicate SenderContinuesAsWritten(args: Args, index: U32, nowSeconds: int, startTime: U64)
  {
    args.numSamples == 0 || index < args.numSamples
    || (args.runtime != 0 && Sub64(Wrap64(nowSeconds), startTime) < args.runtime)
  }

  /** The condition of runSenderThread's loop as the run-time option intends
      it: a zero sample count means "unlimited" only when no run time is set. */
  predicate SenderContinues(args: Args, index: U32, nowSeconds: int, startTime: U64)
  {
    Unlimited(args) || index < args.numSamples
    || (args.runtime != 0 && Sub64(Wrap64(nowSeconds), startTime) < args.runtime)
  }

  /** The condition of runReceiverThread's loop as written: run forever when
      the sample count is zero or the sender is still sending, then only while
      replies are missing and the timeout since the end of sending has not
      passed. */
  predicate ReceiverContinuesAsWritten(args: Args, sendingCompleted: U64, received: int, sent: int, nowSeconds: int)
  {
    args.numSamples == 0 || sendingCompleted == 0
    || (received < sent && Sub64(Wrap64(nowSeconds), sendingCompleted) < args.timeout)
  }

  /** The receiver's condition with "unlimited" read as in SenderContinues. */
  predicate ReceiverContinues(args: Args, sendingCompleted: U64, received: int, sent: int, nowSeconds: int)
  {
    Unlimited(args) || sendingCompleted == 0
    || (received < sent && Sub64(Wrap64(nowSeconds), sendingCompleted) < args.timeout)
  }

  /** Without a run time the corrected conditions are the written ones. */
  lemma CorrectedConditionsAgreeWithoutRuntime(args: Args, index: U32, nowSeconds: int, startTime: U64,
                                               sendingCompleted: U64, received: int, sent: int)
    requires args.runtime == 0
    ensures SenderContinues(args, index, nowSeconds, startTime) == SenderContinuesAsWritten(args, index, nowSeconds, startTime)
    ensures ReceiverContinues(args, sendingCompleted, received, sent, nowSeconds)
         == ReceiverContinuesAsWritten(args, sendingCompleted, received, sent, nowSeconds)
  {
  }

  /** The receiver's condition as written, once sending has completed on a
      run with a sample count: it stops as soon as every sent packet has been
      answered, or once `timeout` seconds have passed since sending completed;
      otherwise it keeps going. */
  lemma ReceiverStopsAsWritten(args: Args, sendingCompleted: U64, received: int, sent: int, nowSeconds: int)
    requires args.numSamples > 0 && sendingCompleted > 0
    requires nowSeconds >= sendingCompleted && nowSeconds < TWO_64
    ensures ReceiverContinuesAsWritten(args, sendingCompleted, received, sent, nowSeconds)
      <==> received < sent && nowSeconds - sendingCompleted < args.timeout
  {
  }

  /** The corrected receiver condition stops in the same way on every run
      bounded by a sample count or a run time, including a timed run whose
      sample count is 0. */
  lemma ReceiverStops(args: Args, sendingCompleted: U64, received: int, sent: int, nowSeconds: int)
    requires !Unlimited(args) && sendingCompleted > 0
    requires nowSeconds >= sendingCompleted && nowSeconds < TWO_64
    ensures ReceiverContinues(args, sendingCompleted, received, sent, nowSeconds)
      <==> received < sent && nowSeconds - sendingCompleted < args.timeout
  {
  }

  // ---------------------------------------------------------------------
  // Name maps
  // ---------------------------------------------------------------------

  /** decode_observation_point: the column name of an observation point. */
  function DecodeObservationPoint(p: ObservationPoint): string
  {
    match p
    case ClientSend => "client_send_time"
    case ServerReceive => "server_receive_time"
    case ServerSend => "server_send_time"
    case ClientReceive => "client_receive_time"
    case NumObservationPoints => "unknown"
  }

  /** The four points have four different names, none of them "unknown". */
  lemma DecodeObservationPointInjective(p: ObservationPoint, q: ObservationPoint)
    ensures IsPoint(p) ==> DecodeObservationPoint(p) != "unknown"
    ensures DecodeObservationPoint(p) == DecodeObservationPoint(q) ==> p == q
  {
  }

  const TOS_BE: U8 := 0x00
  const TOS_BK: U8 := 0x20
  const TOS_VI: U8 := 0x80
  const TOS_VO: U8 := 0xA0

  /** map_tos_to_traffic_class: the four WMM access-category TOS values. */
  function MapTosToTrafficClass(tos: U8): string
  {
    if tos == TOS_BE then "BE"
    else if tos == TOS_BK then "BK"
    else if tos == TOS_VI then "VI"
    else if tos == TOS_VO then "VO"
    else "Unknown"
  }

  /** The TOS value of a known traffic class, the inverse of the map above. */
  function TrafficClassTos(name: string): Option<U8>
  {
    if name == "BE" then Some(TOS_BE)
    else if name == "BK" then Some(TOS_BK)
    else if name == "VI" then Some(TOS_VI)
    else if name == "VO" then Some(TOS_VO)
    else None
  }

  /** The map is one-to-one on the four class values and "Unknown" elsewhere. */
  lemma TrafficClassRoundTrip(tos: U8, name: string)
    ensures MapTosToTrafficClass(tos) != "Unknown" <==> TrafficClassTos(MapTosToTrafficClass(tos)) == Some(tos)
    ensures TrafficClassTos(name).Some? ==> MapTosToTrafficClass(TrafficClassTos(name).value) == name
  {
  }
}
