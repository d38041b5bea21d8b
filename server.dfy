/** The reflector of src/server/Server.cpp: the reply it builds for a test
    packet, the delays it logs, and the receive loop of listen with its
    sample bound and return codes. The TTL/TOS scan of get_ip_header
    (src/utils.cpp) that feeds the reply is modelled here too, over the
    control messages as values. */
module Reflector {
  import opened Words
  import opened Optional
  import opened Packets
  import opened TimeUtils
  import opened Util

  /** The reflector options that the modelled code reads (include/Server.h). */
  datatype ServerArgs = ServerArgs(
    localHost: string,
    localPort: string,
    numSamples: U32,
    timeout: U8,
    sndTos: U8,
    ipVersion: U8,
    sep: char)

  const DefaultServerArgs: ServerArgs := ServerArgs("", "443", 0, 0, 0, 4, ',')

  // ---------------------------------------------------------------------
  // TTL and TOS from the control messages
  // ---------------------------------------------------------------------

  const DEFAULT_TTL: U8 := 255

  /** One control message of a received datagram, as get_ip_header tells
      them apart. */
  datatype ControlMessage =
    | IpTtl(ttl: U8)
    | IpTos(tos: U8)
    | Ipv6HopLimit(hopLimit: U8)
    | OtherIpMessage
    | OtherIpv6Message
    | OtherLevelMessage

  /** One turn of the scan: an IP_TTL or IPV6_HOPLIMIT message replaces the
      TTL, an IP_TOS message the TOS; anything else changes nothing. */
  function ScanMessage(h: IPHeader, m: ControlMessage): IPHeader
  {
    match m
    case IpTtl(v) => h.(ttl := v)
    case IpTos(v) => h.(tos := v)
    case Ipv6HopLimit(v) => h.(ttl := v)
    case _ => h
  }

  /** The header after scanning the messages in order, starting from the
      defaults TTL 255 and TOS 0. */
  function IPHeaderOf(msgs: seq<ControlMessage>): IPHeader
  {
    if |msgs| == 0 then IPHeader(DEFAULT_TTL, 0) else ScanMessage(IPHeaderOf(msgs[..|msgs| - 1]), msgs[|msgs| - 1])
  }

  /** get_ip_header: walk the control messages and keep the last TTL and TOS
      seen. */
  method GetIPHeader(msgs: seq<ControlMessage>) returns (h: IPHeader)
    ensures h == IPHeaderOf(msgs)
  {
    var ttl := DEFAULT_TTL;
    var tos: U8 := 0;
    for i := 0 to |msgs|
      invariant IPHeader(ttl, tos) == IPHeaderOf(msgs[..i])
    {
      assert msgs[..i + 1][..i] == msgs[..i];
      match msgs[i] {
        case IpTtl(v) => ttl := v;
        case IpTos(v) => tos := v;
        case Ipv6HopLimit(v) => ttl := v;
        case _ =>
      }
    }
    assert msgs[..|msgs|] == msgs;
    h := IPHeader(ttl, tos);
  }

  predicate SetsTtl(m: ControlMessage) { m.IpTtl? || m.Ipv6HopLimit? }

  function TtlOf(m: ControlMessage): U8
    requires SetsTtl(m)
  {
    if m.IpTtl? then m.ttl else m.hopLimit
  }

  /** Without a TTL message the TTL is 255, as section 4.2.1 of RFC 5357
      demands of a reflector that cannot read it; without a TOS message the
      TOS is 0. */
  lemma {:induction false} IPHeaderDefaults(msgs: seq<ControlMessage>)
    ensures (forall i :: 0 <= i < |msgs| ==> !SetsTtl(msgs[i])) ==> IPHeaderOf(msgs).ttl == DEFAULT_TTL
    ensures (forall i :: 0 <= i < |msgs| ==> !msgs[i].IpTos?) ==> IPHeaderOf(msgs).tos == 0
  {
    if |msgs| > 0 {
      IPHeaderDefaults(msgs[..|msgs| - 1]);
    }
  }

  /** The TTL is the one of the last TTL (or hop limit) message. */
  lemma {:induction false} LastTtlWins(msgs: seq<ControlMessage>, k: nat)
    requires k < |msgs| && SetsTtl(msgs[k])
    requires forall i :: k < i < |msgs| ==> !SetsTtl(msgs[i])
    ensures IPHeaderOf(msgs).ttl == TtlOf(msgs[k])
  {
    if k < |msgs| - 1 {
      LastTtlWins(msgs[..|msgs| - 1], k);
    }
  }

  // ---------------------------------------------------------------------
  // The reply
  // ---------------------------------------------------------------------

  /** The receive time of the reflector: the clock reading when the kernel
      timestamp is {0, 0}, otherwise the kernel timestamp converted to NTP. */
  function ServerTimestamp(kernel: Timespec, clock: Timestamp): (ts: Timestamp)
    ensures kernel.sec == 0 && kernel.nsec == 0 ==> ts == clock
    ensures !(kernel.sec == 0 && kernel.nsec == 0) ==>
      ts.integer == UnixToNtpSeconds(kernel.sec) && ts.fractional == NanosToFraction(kernel.nsec)
  {
    if kernel.sec == 0 && kernel.nsec == 0 then clock
    else TimespecToTimestamp(Some(kernel), Some(ZeroTimestamp)).value
  }

  /** craftReflectorPacket: a value-initialised packet filled field by field
      from the request, the receive time, the IP header and the send-time
      clock reading `sendClock`. */
  function CraftReflectorPacket(request: ClientPacket, kernel: Timespec, receiveClock: Timestamp,
                                ip: IPHeader, sendClock: Timestamp): ReflectorPacket
  {
    var packet := DefaultReflectorPacket();
    packet.(
      receiveTimestamp := Htonts(ServerTimestamp(kernel, receiveClock)),
      seqNumber := request.seqNumber,
      senderSeqNumber := request.seqNumber,
      senderErrorEstimate := request.errorEstimate,
      senderTtl := ip.ttl,
      senderTos := ip.tos,
      errorEstimate := Htons(ERROR_ESTIMATE_SYNC),
      senderTimestamp := request.timestamp,
      timestamp := Htonts(sendClock))
  }

  /** The reply echoes the request: its sequence number, unchanged, in both
      sequence fields, and its timestamp and error estimate verbatim (still in
      network order) in the sender fields. On the wire this means the request's
      bytes reappear at the reply's offsets. */
  lemma ReplyEchoesRequest(bs: seq<U8>, kernel: Timespec, receiveClock: Timestamp, ip: IPHeader, sendClock: Timestamp)
    requires |bs| == TST_PKT_SIZE
    ensures var request := DecodeClient(bs);
      var p := CraftReflectorPacket(request, kernel, receiveClock, ip, sendClock);
      var out := EncodeReflector(p);
      p.seqNumber == request.seqNumber && p.senderSeqNumber == request.seqNumber
      && p.senderTimestamp == request.timestamp && p.senderErrorEstimate == request.errorEstimate
      && out[0..4] == bs[0..4] && out[24..28] == bs[0..4]
      && out[28..36] == bs[4..12] && out[36..38] == bs[12..14]
  {
    var request := DecodeClient(bs);
    var p := CraftReflectorPacket(request, kernel, receiveClock, ip, sendClock);
    ClientBytesRoundTrip(bs);
    ClientOffsets(request);
    ReflectorOffsets(p);
  }

  /** The reflector's own fields: both of its timestamps in network order (the
      receive time and the send-time reading), the error estimate 0x8001 (S = 1,
      Multiplier = 1) in network order, the TTL and TOS of the IP header, and
      zero MBZ bytes and padding. */
  lemma ReplyOwnFields(request: ClientPacket, kernel: Timespec, receiveClock: Timestamp, ip: IPHeader, sendClock: Timestamp)
    ensures var p := CraftReflectorPacket(request, kernel, receiveClock, ip, sendClock);
      Ntohts(p.receiveTimestamp) == ServerTimestamp(kernel, receiveClock)
      && Ntohts(p.timestamp) == sendClock
      && DecodeErrorEstimate(Ntohs(p.errorEstimate)) == ErrorEstimate(true, false, 0, 1)
      && EncodeU16(p.errorEstimate) == [0x80, 0x01]
      && p.senderTtl == ip.ttl && p.senderTos == ip.tos
      && p.mbz1 == [0, 0] && p.mbz2 == [0, 0]
      && (forall i :: 0 <= i < |p.padding| ==> p.padding[i] == 0)
  {
    HtontsNtohtsInverse(ServerTimestamp(kernel, receiveClock));
    HtontsNtohtsInverse(sendClock);
    Swap16Involutive(ERROR_ESTIMATE_SYNC);
    SyncErrorEstimate();
  }

  /** With no TTL or TOS message, the reply carries TTL 255 and TOS 0. */
  lemma ReplyIPHeaderDefaults(request: ClientPacket, kernel: Timespec, receiveClock: Timestamp,
                              msgs: seq<ControlMessage>, sendClock: Timestamp)
    requires forall i :: 0 <= i < |msgs| ==> !SetsTtl(msgs[i]) && !msgs[i].IpTos?
    ensures var p := CraftReflectorPacket(request, kernel, receiveClock, IPHeaderOf(msgs), sendClock);
      p.senderTtl == 255 && p.senderTos == 0
  {
    IPHeaderDefaults(msgs);
  }

  /** What handleTestPacket logs (MetricData of include/Server.h, without the
      addresses and ports). */
  datatype MetricData = MetricData(
    payloadLength: U16,
    packet: ReflectorPacket,
    clientServerDelay: I64,
    internalDelay: I64,
    initialSendTime: U64)

  /** The outcome of handleTestPacket: the datagram sent back and the logged
      metrics. */
  datatype Handled = Handled(reply: seq<U8>, metrics: MetricData)

  /** handleTestPacket on a request of `payloadLen` bytes: reflect, log the
      two delays (uint64_t differences cast to int64_t), and send back the
      first payloadLen bytes of the reply. A failed sendmsg is only reported. */
  function HandleTestPacket(request: ClientPacket, payloadLen: nat, kernel: Timespec, receiveClock: Timestamp,
                            ip: IPHeader, sendClock: Timestamp): (h: Handled)
    requires payloadLen <= TST_PKT_SIZE
    ensures |h.reply| == payloadLen
  {
    var reflected := CraftReflectorPacket(request, kernel, receiveClock, ip, sendClock);
    var clientTimestamp := Ntohts(request.timestamp);
    var serverTimestamp := Ntohts(reflected.receiveTimestamp);
    var sendTimestamp := Ntohts(reflected.timestamp);
    var clientServer := ToInt64(Sub64(TimestampToNsec(Some(serverTimestamp)), TimestampToNsec(Some(clientTimestamp))));
    var serverReceive := TimestampToNsec(Some(serverTimestamp));
    var serverSend := TimestampToNsec(Some(sendTimestamp));
    var initialSend := TimestampToNsec(Some(clientTimestamp));
    var internal := ToInt64(Sub64(serverSend, serverReceive));
    Handled(EncodeReflector(reflected)[..payloadLen],
            MetricData(payloadLen, reflected, clientServer, internal, initialSend))
  }

  /** The reply is the first payload_len bytes, the request's length, of the
      reflected packet, and the logged delays are exact: every NTP timestamp
      lies within 2^32 seconds of the Unix epoch, so the unsigned differences
      cast to int64_t never wrap. */
  lemma HandleTestPacketEffect(request: ClientPacket, payloadLen: nat, kernel: Timespec, receiveClock: Timestamp,
                               ip: IPHeader, sendClock: Timestamp)
    requires payloadLen <= TST_PKT_SIZE
    ensures var h := HandleTestPacket(request, payloadLen, kernel, receiveClock, ip, sendClock);
      var p := CraftReflectorPacket(request, kernel, receiveClock, ip, sendClock);
      var sr := TimestampToNsec(Some(ServerTimestamp(kernel, receiveClock)));
      h.reply == EncodeReflector(p)[..payloadLen]
      && h.metrics.packet == p && h.metrics.payloadLength == payloadLen
      && h.metrics.initialSendTime == TimestampToNsec(Some(Ntohts(request.timestamp)))
      && h.metrics.clientServerDelay == sr - TimestampToNsec(Some(Ntohts(request.timestamp)))
      && h.metrics.internalDelay == TimestampToNsec(Some(sendClock)) - sr
  {
    var p := CraftReflectorPacket(request, kernel, receiveClock, ip, sendClock);
    ReplyOwnFields(request, kernel, receiveClock, ip, sendClock);
    var sr := TimestampToNsec(Some(ServerTimestamp(kernel, receiveClock)));
    var cs := TimestampToNsec(Some(Ntohts(request.timestamp)));
    var ss := TimestampToNsec(Some(sendClock));
    ToInt64OfSub64(sr, cs);
    ToInt64OfSub64(ss, sr);
  }

  // ---------------------------------------------------------------------
  // listen
  // ---------------------------------------------------------------------

  /** The outcome of one recvmsg: -1 with errno, or a datagram with its kernel
      timestamp and control messages, together with the two clock readings
      craftReflectorPacket takes and whether the sendmsg of its reply
      succeeds. */
  datatype ServerEvent =
    | RecvError(errno: int)
    | RecvDatagram(bytes: seq<U8>, kernel: Timespec, control: seq<ControlMessage>,
                   receiveClock: Timestamp, sendClock: Timestamp, sendSucceeds: bool)

  /** How listen ended: returned a code, or still waiting when the events ran
      out. */
  datatype ListenOutcome = Returned(code: int) | StillListening

  /** The reply built for one datagram, or None when the datagram did not fit
      the receive buffer and was only reported. */
  function Reflect(e: ServerEvent): (r: Option<seq<U8>>)
    requires e.RecvDatagram?
    ensures r.Some? <==> |e.bytes| <= TST_PKT_SIZE
    ensures r.Some? ==> |r.value| == |e.bytes|
  {
    var received := Receive(e.bytes);
    if received.truncated then None
    else Some(HandleTestPacket(DecodeClient(received.buffer), received.length, e.kernel, e.receiveClock,
                               IPHeaderOf(e.control), e.sendClock).reply)
  }

  /** The reply that leaves the reflector for one datagram: the reply built,
      unless its sendmsg fails, which handleTestPacket only reports. */
  function Sent(e: ServerEvent): (r: Option<seq<U8>>)
    requires e.RecvDatagram?
    ensures r.Some? <==> |e.bytes| <= TST_PKT_SIZE && e.sendSucceeds
    ensures r.Some? ==> r == Reflect(e)
  {
    if e.sendSucceeds then Reflect(e) else None
  }

  /** listen from the counter value `counter` over the remaining events: the
      outcome and the replies sent, in order. */
  function ListenFrom(numSamples: U32, events: seq<ServerEvent>, counter: U32): (ListenOutcome, seq<seq<U8>>)
    decreases |events|
  {
    var next := if numSamples != 0 then Wrap32(counter + 1) else counter;
    if numSamples != 0 && next > numSamples then (Returned(0), [])
    else if |events| == 0 then (StillListening, [])
    else match events[0]
      case RecvError(errno) => (Returned(if errno == 11 then 11 else 1), [])
      case RecvDatagram(_, _, _, _, _, _) =>
        var rest := ListenFrom(numSamples, events[1..], next);
        match Sent(events[0])
        case Some(reply) => (rest.0, [reply] + rest.1)
        case None => rest
  }

  lemma AppendAssociative<T>(a: seq<T>, b: seq<T>, c: seq<T>)
    ensures a + b + c == a + (b + c)
  {
  }

  /** One datagram turn of ListenFrom, unfolded. */
  lemma ListenFromDatagram(numSamples: U32, events: seq<ServerEvent>, counter: U32)
    requires |events| > 0 && events[0].RecvDatagram?
    requires numSamples == 0 || Wrap32(counter + 1) <= numSamples
    ensures var next := if numSamples != 0 then Wrap32(counter + 1) else counter;
      var rest := ListenFrom(numSamples, events[1..], next);
      ListenFrom(numSamples, events, counter)
        == (rest.0, (if Sent(events[0]).Some? then [Sent(events[0]).value] else []) + rest.1)
  {
    var next := if numSamples != 0 then Wrap32(counter + 1) else counter;
    assert [] + ListenFrom(numSamples, events[1..], next).1 == ListenFrom(numSamples, events[1..], next).1;
  }

  /** listen: count the iterations when a sample count is set and return 0
      past it; receive; return 11 on a timeout (errno 11) and 1 on any other
      error; reflect every datagram that fit the buffer, and keep listening
      when the reply's sendmsg fails. */
  method Listen(args: ServerArgs, events: seq<ServerEvent>) returns (outcome: ListenOutcome, replies: seq<seq<U8>>)
    ensures (outcome, replies) == ListenFrom(args.numSamples, events, 0)
  {
    var counter: U32 := 0;
    var k := 0;
    replies := [];
    while true
      invariant 0 <= k <= |events|
      invariant ListenFrom(args.numSamples, events, 0).0 == ListenFrom(args.numSamples, events[k..], counter).0
      invariant ListenFrom(args.numSamples, events, 0).1 == replies + ListenFrom(args.numSamples, events[k..], counter).1
      decreases |events| - k
    {
      ghost var before := counter;
      assert replies + [] == replies;
      if args.numSamples != 0 {
        counter := Wrap32(counter + 1);
        if counter > args.numSamples {
          assert ListenFrom(args.numSamples, events[k..], before) == (Returned(0), []);
          return Returned(0), replies;
        }
      }
      if k == |events| {
        return StillListening, replies;
      }
      var e := events[k];
      assert events[k..][0] == e && events[k..][1..] == events[k + 1..];
      if e.RecvError? {
        if e.errno == 11 {
          return Returned(11), replies;
        }
        return Returned(1), replies;
      }
      ListenFromDatagram(args.numSamples, events[k..], before);
      ghost var rest := ListenFrom(args.numSamples, events[k + 1..], counter);
      var received := Receive(e.bytes);
      if !received.truncated {
        var header := GetIPHeader(e.control);
        var handled := HandleTestPacket(DecodeClient(received.buffer), received.length, e.kernel, e.receiveClock,
                                        header, e.sendClock);
        if e.sendSucceeds {
          AppendAssociative(replies, [handled.reply], rest.1);
          replies := replies + [handled.reply];
        }
      }
      k := k + 1;
    }
  }

  /** With N > 0 samples (below the counter's maximum), listen sends at most N
      replies, and given N events it has returned. */
  lemma {:induction false} ListenServesAtMostNumSamples(numSamples: U32, events: seq<ServerEvent>, counter: U32)
    requires 0 < numSamples < TWO_32 - 1 && counter <= numSamples
    ensures var (outcome, replies) := ListenFrom(numSamples, events, counter);
      |replies| <= (numSamples - counter)
      && (|events| >= (numSamples - counter) ==> outcome.Returned?)
    decreases |events|
  {
    var next := Wrap32(counter + 1);
    assert next == counter + 1;
    if next <= numSamples && |events| > 0 && events[0].RecvDatagram? {
      ListenServesAtMostNumSamples(numSamples, events[1..], next);
    }
  }

  /** Given N datagrams that all fit and whose replies are all sent, listen
      reflects every one of them and then returns 0. */
  lemma {:induction false} ListenReflectsNumSamples(numSamples: U32, events: seq<ServerEvent>, counter: U32)
    requires 0 < numSamples < TWO_32 - 1 && counter <= numSamples
    requires |events| == (numSamples - counter)
    requires forall i :: 0 <= i < |events| ==>
      events[i].RecvDatagram? && |events[i].bytes| <= TST_PKT_SIZE && events[i].sendSucceeds
    ensures ListenFrom(numSamples, events, counter).0 == Returned(0)
    ensures |ListenFrom(numSamples, events, counter).1| == |events|
    decreases |events|
  {
    var next := Wrap32(counter + 1);
    assert next == counter + 1;
    if |events| > 0 {
      ListenReflectsNumSamples(numSamples, events[1..], next);
    }
  }

  /** Without a sample count listen never returns 0: it only leaves on a
      receive error. */
  lemma {:induction false} ListenUnlimited(events: seq<ServerEvent>, counter: U32)
    ensures var (outcome, _) := ListenFrom(0, events, counter);
      outcome == StillListening || outcome == Returned(11) || outcome == Returned(1)
    ensures ListenFrom(0, events, counter).0.Returned? <==> exists i :: 0 <= i < |events| && events[i].RecvError?
    decreases |events|
  {
    if |events| > 0 {
      ListenUnlimited(events[1..], counter);
      if events[0].RecvDatagram? {
        if exists i :: 0 <= i < |events[1..]| && events[1..][i].RecvError? {
          var i :| 0 <= i < |events[1..]| && events[1..][i].RecvError?;
          assert events[i + 1].RecvError?;
        }
        if exists i :: 0 <= i < |events| && events[i].RecvError? {
          var i :| 0 <= i < |events| && events[i].RecvError?;
          assert events[1..][i - 1].RecvError?;
        }
      }
    }
  }

  /** At N = 2^32 - 1 the uint32_t counter wraps from N to 0 instead of
      passing N, so listen goes on: the next datagram is still reflected. */
  lemma ListenCounterWrapsAtMaximum(events: seq<ServerEvent>)
    requires |events| > 0 && events[0].RecvDatagram? && |events[0].bytes| <= TST_PKT_SIZE
    requires events[0].sendSucceeds
    ensures |ListenFrom(TWO_32 - 1, events, TWO_32 - 1).1| > 0
  {
    assert Wrap32(TWO_32 - 1 + 1) == 0;
  }

  /** A datagram longer than the 1472-byte receive buffer gets no reply. */
  lemma OversizedDatagramNotReflected(e: ServerEvent)
    requires e.RecvDatagram? && |e.bytes| > TST_PKT_SIZE
    ensures Reflect(e).None? && Sent(e).None?
  {
  }

  /** A datagram whose reply fails to send still takes its turn of the sample
      count: listen goes on with the next event and one sample fewer, and the
      reply is not among those sent. */
  lemma FailedSendStillCounts(numSamples: U32, events: seq<ServerEvent>, counter: U32)
    requires |events| > 0 && events[0].RecvDatagram? && !events[0].sendSucceeds
    requires numSamples == 0 || Wrap32(counter + 1) <= numSamples
    ensures var next := if numSamples != 0 then Wrap32(counter + 1) else counter;
      ListenFrom(numSamples, events, counter) == ListenFrom(numSamples, events[1..], next)
  {
    ListenFromDatagram(numSamples, events, counter);
  }
}
