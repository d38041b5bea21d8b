/** The stateful client of src/client/Client.cpp: the RawData records it
    mutates through setters, and the Client object whose counters, queues and
    accumulators the sender, receiver and collator loops update. Each method is
    proved against the value-level functions of modules Correlation and
    ClientLogic. */
module TwampClient {
  import opened Words
  import opened Optional
  import opened Packets
  import opened TimeUtils
  import opened PacketList
  import opened Correlation
  import opened ClientLogic
  import opened Util

  /** One raw-data record; the id and the creation time never change after
      construction, the payload length and the four timestamps are set as the
      observations come in. */
  class RawData {
    const addedAt: U64
    const packetId: U32
    var payloadLen: U16
    var clientSend: U64
    var serverReceive: U64
    var serverSend: U64
    var clientReceive: U64

    /** The record's current fields as a value. */
    function Snapshot(): RawRecord
      reads this
    {
      RawRecord(addedAt, packetId, payloadLen, clientSend, serverReceive, serverSend, clientReceive)
    }

    constructor(addedAt: U64, packetId: U32)
      ensures Snapshot() == NewRecord(addedAt, packetId)
    {
      this.addedAt := addedAt;
      this.packetId := packetId;
      payloadLen := 0;
      clientSend := 0;
      serverReceive := 0;
      serverSend := 0;
      clientReceive := 0;
    }

    /** The update process_observation applies to the record it found or
        made: the payload length, then the time of the observation's point. */
    method Record(obs: QEDObservation)
      modifies this
      ensures Snapshot() == Stamp(old(Snapshot()), obs)
    {
      SetPayloadLen(obs.payloadLen);
      match obs.observationPoint {
        case ClientSend => SetClientSendEpochNanoseconds(obs.epochNanoseconds);
        case ServerReceive => SetServerReceiveEpochNanoseconds(obs.epochNanoseconds);
        case ServerSend => SetServerSendEpochNanoseconds(obs.epochNanoseconds);
        case ClientReceive => SetClientReceiveEpochNanoseconds(obs.epochNanoseconds);
        case NumObservationPoints =>
      }
    }

    method SetPayloadLen(v: U16)
      modifies this
      ensures Snapshot() == old(Snapshot()).(payloadLen := v)
    {
      payloadLen := v;
    }

    method SetClientSendEpochNanoseconds(v: U64)
      modifies this
      ensures Snapshot() == old(Snapshot()).(clientSend := v)
    {
      clientSend := v;
    }

    method SetServerReceiveEpochNanoseconds(v: U64)
      modifies this
      ensures Snapshot() == old(Snapshot()).(serverReceive := v)
    {
      serverReceive := v;
    }

    method SetServerSendEpochNanoseconds(v: U64)
      modifies this
      ensures Snapshot() == old(Snapshot()).(serverSend := v)
    {
      serverSend := v;
    }

    method SetClientReceiveEpochNanoseconds(v: U64)
      modifies this
      ensures Snapshot() == old(Snapshot()).(clientReceive := v)
    {
      clientReceive := v;
    }
  }

  /** The records a list of RawData objects currently holds. */
  ghost function Snapshots(l: seq<RawData>): (r: seq<RawRecord>)
    reads l
    ensures |r| == |l|
    ensures forall i :: 0 <= i < |l| ==> r[i] == l[i].Snapshot()
  {
    if |l| == 0 then [] else Snapshots(l[..|l| - 1]) + [l[|l| - 1].Snapshot()]
  }

  /** One turn of the sender loop: the wall clock read by the loop condition,
      the clock stamped into the packet, and the outcome of sendmsg per host. */
  datatype SendEvent = SendEvent(nowSeconds: int, clock: Timestamp, outcomes: seq<bool>)

  /** One turn of the receiver loop: the wall clock read by the loop
      condition, the datagram recvmsg returned (None for -1), the kernel
      timestamp and the clock reading for a reply without one. */
  datatype ReceiveEvent = ReceiveEvent(nowSeconds: int, datagram: Option<seq<U8>>, kernel: Timespec, clock: Timestamp)

  /** Whether awaitAndHandleResponse hands a received datagram on. */
  predicate Accepted(e: ReceiveEvent)
  {
    e.datagram.Some? && |e.datagram.value| <= TST_PKT_SIZE
  }

  function AcceptedCount(es: seq<ReceiveEvent>): (n: nat)
    ensures n <= |es|
  {
    if |es| == 0 then 0 else AcceptedCount(es[..|es| - 1]) + (if Accepted(es[|es| - 1]) then 1 else 0)
  }

  /** The number of host sends the sender performs over a sequence of turns. */
  function TotalSent(es: seq<SendEvent>): nat
  {
    if |es| == 0 then 0 else TotalSent(es[..|es| - 1]) + LeadingSuccesses(es[|es| - 1].outcomes)
  }

  /** Whether a turn's packet reached every host, so that sendPacket returned. */
  predicate SentToAll(e: SendEvent)
  {
    LeadingSuccesses(e.outcomes) == |e.outcomes|
  }

  /** The CLIENT_SEND observations the sender queues: one per turn whose packet
      reached every host, with that turn's index (the turn number as a
      uint32_t) and payload length. */
  function SendObservations(es: seq<SendEvent>, lens: seq<U16>): seq<QEDObservation>
    requires |lens| == |es|
  {
    if |es| == 0 then []
    else
      var n := |es| - 1;
      SendObservations(es[..n], lens[..n])
      + (if SentToAll(es[n]) then [QEDObservation(ClientSend, TimestampToNsec(Some(es[n].clock)), Wrap32(n), lens[n])] else [])
  }

  /** One more turn adds its sends to the count and, when it reached every
      host, its observation at the back. */
  lemma SenderTurnAppends(es: seq<SendEvent>, lens: seq<U16>, e: SendEvent, len: U16)
    requires |lens| == |es|
    ensures TotalSent(es + [e]) == TotalSent(es) + LeadingSuccesses(e.outcomes)
    ensures SendObservations(es + [e], lens + [len]) == SendObservations(es, lens)
      + (if SentToAll(e) then [QEDObservation(ClientSend, TimestampToNsec(Some(e.clock)), Wrap32(|es|), len)] else [])
  {
    assert (es + [e])[..|es|] == es && (lens + [len])[..|es|] == lens;
  }

  /** The sender loop's accounts after turn `turns`: the send count grows by
      the turn's sends and, with the collator running, the queue by the turn's
      observation. */
  lemma SenderAccounts(events: seq<SendEvent>, turns: nat, lens: seq<U16>, len: U16,
                       sent0: int, queued0: seq<QEDObservation>, sentBefore: int, sentAfter: int,
                       queuedBefore: seq<QEDObservation>, queuedAfter: seq<QEDObservation>, started: bool)
    requires turns < |events| && |lens| == turns
    requires sentBefore == sent0 + TotalSent(events[..turns])
    requires sentAfter == sentBefore + LeadingSuccesses(events[turns].outcomes)
    requires started ==> queuedBefore == queued0 + SendObservations(events[..turns], lens)
    requires started ==>
      (queuedAfter == queuedBefore
       + (if SentToAll(events[turns])
          then [QEDObservation(ClientSend, TimestampToNsec(Some(events[turns].clock)), Wrap32(turns), len)] else []))
    ensures sentAfter == sent0 + TotalSent(events[..turns + 1])
    ensures started ==> queuedAfter == queued0 + SendObservations(events[..turns + 1], lens + [len])
  {
    var e := events[turns];
    SenderTurnAppends(events[..turns], lens, e, len);
    assert events[..turns + 1] == events[..turns] + [e];
  }

  /** What a variable holds after a loop that overwrites it, on every turn
      `keep` selects, with that turn's `value`: the latest selected value, or
      `u0` when no turn was selected. */
  function Latest<T, U>(es: seq<T>, keep: T -> bool, value: T -> U, u0: U): U
  {
    if |es| == 0 then u0
    else if keep(es[|es| - 1]) then value(es[|es| - 1])
    else Latest(es[..|es| - 1], keep, value, u0)
  }

  /** Latest is the initial value when no turn is selected. */
  lemma {:induction false} LatestOfNoneSelected<T, U>(es: seq<T>, keep: T -> bool, value: T -> U, u0: U)
    requires forall j :: 0 <= j < |es| ==> !keep(es[j])
    ensures Latest(es, keep, value, u0) == u0
  {
    if |es| > 0 {
      var p := es[..|es| - 1];
      assert forall j :: 0 <= j < |p| ==> p[j] == es[j];
      LatestOfNoneSelected(p, keep, value, u0);
    }
  }

  /** Latest is the value of the last selected turn. */
  lemma {:induction false} LatestIsLastSelected<T, U>(es: seq<T>, keep: T -> bool, value: T -> U, u0: U, j: nat)
    requires j < |es| && keep(es[j])
    requires forall k :: j < k < |es| ==> !keep(es[k])
    ensures Latest(es, keep, value, u0) == value(es[j])
  {
    var n := |es| - 1;
    if j < n {
      var p := es[..n];
      assert p[j] == es[j];
      assert forall k :: j < k < |p| ==> p[k] == es[k];
      LatestIsLastSelected(p, keep, value, u0, j);
    }
  }

  /** The send time a turn that reached every host records. */
  function SendTime(e: SendEvent): U64
  {
    TimestampToNsec(Some(e.clock))
  }

  /** A turn that sets first_packet_sent_ns when it is still 0. */
  predicate StampsSendTime(e: SendEvent)
  {
    SentToAll(e) && SendTime(e) != 0
  }

  /** first_packet_sent_ns after a sequence of turns, from `first0`: the send
      time of the first turn that reached every host while it was still 0. */
  function FirstSentNs(es: seq<SendEvent>, first0: U64): U64
  {
    if |es| == 0 then first0
    else
      var f := FirstSentNs(es[..|es| - 1], first0);
      if SentToAll(es[|es| - 1]) && f == 0 then SendTime(es[|es| - 1]) else f
  }

  /** A non-zero first send time is kept. From 0, the first send time is that
      of the earliest turn that reached every host with a non-zero time, and
      stays 0 when there is none. */
  lemma {:induction false} FirstSentIsEarliest(es: seq<SendEvent>, first0: U64)
    ensures first0 != 0 ==> FirstSentNs(es, first0) == first0
    ensures first0 == 0 && (forall j :: 0 <= j < |es| ==> !StampsSendTime(es[j])) ==> FirstSentNs(es, first0) == 0
    ensures first0 == 0 ==>
      forall j :: 0 <= j < |es| && StampsSendTime(es[j]) && (forall k :: 0 <= k < j ==> !StampsSendTime(es[k]))
        ==> FirstSentNs(es, first0) == SendTime(es[j])
  {
    if |es| > 0 {
      var n := |es| - 1;
      var p := es[..n];
      FirstSentIsEarliest(p, first0);
      if first0 == 0 {
        forall j | 0 <= j < |es| && StampsSendTime(es[j]) && (forall k :: 0 <= k < j ==> !StampsSendTime(es[k]))
          ensures FirstSentNs(es, first0) == SendTime(es[j])
        {
          if j < n {
            assert p[j] == es[j];
            forall k | 0 <= k < j ensures !StampsSendTime(p[k]) { assert p[k] == es[k]; }
          } else {
            forall k | 0 <= k < |p| ensures !StampsSendTime(p[k]) { assert p[k] == es[k]; }
          }
        }
        if forall j :: 0 <= j < |es| ==> !StampsSendTime(es[j]) {
          forall j | 0 <= j < |p| ensures !StampsSendTime(p[j]) { assert p[j] == es[j]; }
        }
      }
    }
  }

  /** The reply an accepted receive turn hands on, read from the zeroed
      buffer, and its length. */
  function ReplyOf(e: ReceiveEvent): ReflectorPacket
    requires Accepted(e)
  {
    DecodeReflector(Receive(e.datagram.value).buffer)
  }

  function ReplyLength(e: ReceiveEvent): U16
    requires Accepted(e)
  {
    Receive(e.datagram.value).length
  }

  /** last_packet_received_ns as an accepted turn sets it. */
  function ReceiveTime(e: ReceiveEvent): U64
  {
    ClientReceiveTime(e.kernel, e.clock)
  }

  /** last_received_packet_id as an accepted turn sets it (-1 otherwise). */
  function ReplyId(e: ReceiveEvent): I32
  {
    if Accepted(e) then ToInt32(Ntohl(ReplyOf(e).seqNumber)) else -1
  }

  /** The observations one receive turn queues while the collator runs: the
      reply's three when it is accepted, none otherwise. */
  function TurnObservations(e: ReceiveEvent): (obs: seq<QEDObservation>)
    ensures |obs| == (if Accepted(e) then 3 else 0)
    ensures forall i :: 0 <= i < |obs| ==> obs[i].observationPoint != ClientSend
  {
    if Accepted(e) then
      ReplyNeverClientSend(ReplyOf(e), ReplyLength(e), ReceiveTime(e));
      ReplyObservations(ReplyOf(e), ReplyLength(e), ReceiveTime(e))
    else []
  }

  /** The observations the receiver queues over a sequence of turns while the
      collator runs, in order. */
  function ReceiveObservations(es: seq<ReceiveEvent>): seq<QEDObservation>
  {
    if |es| == 0 then [] else ReceiveObservations(es[..|es| - 1]) + TurnObservations(es[|es| - 1])
  }

  /** One more turn adds its observations at the back. */
  lemma ReceiveObservationsAppend(es: seq<ReceiveEvent>, e: ReceiveEvent)
    ensures ReceiveObservations(es + [e]) == ReceiveObservations(es) + TurnObservations(e)
    ensures AcceptedCount(es + [e]) == AcceptedCount(es) + (if Accepted(e) then 1 else 0)
  {
    assert (es + [e])[..|es|] == es;
  }

  /** The receiver queues three observations per accepted reply, and never
      one for the client send point. */
  lemma {:induction false} ReceiveObservationsCount(es: seq<ReceiveEvent>)
    ensures |ReceiveObservations(es)| == 3 * AcceptedCount(es)
    ensures forall i :: 0 <= i < |ReceiveObservations(es)| ==> ReceiveObservations(es)[i].observationPoint != ClientSend
  {
    if |es| > 0 {
      var p := es[..|es| - 1];
      ReceiveObservationsCount(p);
      var head := ReceiveObservations(p);
      var tail := TurnObservations(es[|es| - 1]);
      assert ReceiveObservations(es) == head + tail;
      assert forall i :: 0 <= i < |head + tail| ==> (head + tail)[i] == if i < |head| then head[i] else tail[i - |head|];
    }
  }

  /** One more turn: Latest takes its value when it is selected. */
  lemma LatestAppend<T, U>(es: seq<T>, e: T, keep: T -> bool, value: T -> U, u0: U)
    ensures Latest(es + [e], keep, value, u0) == if keep(e) then value(e) else Latest(es, keep, value, u0)
  {
    assert (es + [e])[..|es|] == es;
  }

  /** One more turn sets the first send time when it reaches every host and
      the time is still 0. */
  lemma FirstSentAppend(es: seq<SendEvent>, e: SendEvent, first0: U64)
    ensures FirstSentNs(es + [e], first0)
         == if SentToAll(e) && FirstSentNs(es, first0) == 0 then SendTime(e) else FirstSentNs(es, first0)
  {
    assert (es + [e])[..|es|] == es;
  }

  /** The seed the static generator runs on after a call of select_randomly
      with `requested`: the one it already had, or else the requested seed
      (the random device's for 0). */
  function SeedAfterSelect(initialised: bool, seed: U32, requested: U32, deviceSeed: U32): U32
  {
    if initialised then seed else if requested == 0 then deviceSeed else requested
  }

  /** The payload length that draw number k of a generator running on `seed`
      selects from `lens`. */
  function DrawnLength(lens: seq<int>, stream: (U32, nat) -> nat, seed: U32, k: nat): (len: int)
    requires |lens| > 0
    ensures len in lens
  {
    SelectRandomly(lens, stream(seed, k))
  }

  /** What awaitAndHandleResponse's contract says about one receive turn, in
      terms of the turn's event. */
  lemma ReceiverStepEffect(e: ReceiveEvent, handled: bool, received: int, queued: seq<QEDObservation>, ns: U64, id: I32,
                           received': int, queued': seq<QEDObservation>, ns': U64, id': I32, started: bool)
    requires handled <==> e.datagram.Some? && |e.datagram.value| <= TST_PKT_SIZE
    requires !handled ==> received' == received && queued' == queued && ns' == ns && id' == id
    requires handled ==>
      var r := Receive(e.datagram.value);
      var packet := DecodeReflector(r.buffer);
      received' == received + 1
      && ns' == ClientReceiveTime(e.kernel, e.clock)
      && id' == ToInt32(Ntohl(packet.seqNumber))
      && queued' == queued + (if started then ReplyObservations(packet, r.length, ClientReceiveTime(e.kernel, e.clock)) else [])
    ensures received' == received + (if Accepted(e) then 1 else 0)
    ensures queued' == queued + (if started then TurnObservations(e) else [])
    ensures ns' == (if Accepted(e) then ReceiveTime(e) else ns)
    ensures id' == (if Accepted(e) then ReplyId(e) else id)
  {
  }

  /** One turn of the collator loop unfolds RunCollator at position k. */
  lemma RunCollatorUnfolds(c: Collator, nows: seq<U64>, k: nat, timeout: U8, sendingCompleted: U64)
    requires k < |nows| && !c.finished
    ensures RunCollator(c, nows[k..], timeout, sendingCompleted)
         == RunCollator(CollatorStep(c, nows[k], timeout, sendingCompleted), nows[k + 1..], timeout, sendingCompleted)
  {
    assert nows[k..][0] == nows[k] && nows[k..][1..] == nows[k + 1..];
  }

  class Client {
    var sentPackets: int
    var receivedPackets: int
    var lastReceivedPacketId: I32
    var sendingCompleted: U64
    const startTime: U64
    var collatorStarted: bool
    var collatorFinished: bool
    const observationList: ObservationList<QEDObservation>
    const rawDataList: ObservationList<RawData>
    var stats: Stats
    var firstPacketSentNs: U64
    var lastPacketSentNs: U64
    var lastPacketReceivedNs: U64
    const args: Args
    /** The static generator of the seeded select_randomly. */
    const generator: StaticGenerator

    /** The correlation store as values, oldest first. */
    ghost function Records(): seq<RawRecord>
      reads this, rawDataList, rawDataList.observations
    {
      Snapshots(rawDataList.observations)
    }

    /** The record objects the store holds. */
    ghost function Entries(): set<RawData>
      reads this, rawDataList
    {
      set x | x in rawDataList.observations
    }

    /** What the collator owns, as a value. */
    ghost function State(): Collator
      reads this, observationList, rawDataList, rawDataList.observations
    {
      Collator(observationList.observations, Records(), stats, collatorFinished)
    }

    /** At most one record per packet id (which also makes the record objects
        distinct). */
    ghost predicate Valid()
      reads this, rawDataList, rawDataList.observations
    {
      UniqueIds(Records())
    }

    /** The client as constructed: counters at zero, no packet received yet
        (id -1), empty queue and store, and the start time read from the clock. */
    constructor(args: Args, startTime: U64, deviceSeed: U32, stream: (U32, nat) -> nat)
      ensures Valid()
      ensures this.args == args && this.startTime == startTime
      ensures sentPackets == 0 && receivedPackets == 0 && lastReceivedPacketId == -1
      ensures sendingCompleted == 0 && !collatorStarted && !collatorFinished
      ensures observationList.observations == [] && rawDataList.observations == [] && Records() == []
      ensures stats == EmptyStats
      ensures firstPacketSentNs == 0 && lastPacketSentNs == 0 && lastPacketReceivedNs == 0
      ensures !generator.initialised && generator.draws == 0
      ensures fresh(observationList) && fresh(rawDataList) && fresh(generator)
    {
      sentPackets := 0;
      receivedPackets := 0;
      lastReceivedPacketId := -1;
      sendingCompleted := 0;
      this.startTime := startTime;
      collatorStarted := false;
      collatorFinished := false;
      observationList := new ObservationList<QEDObservation>();
      rawDataList := new ObservationList<RawData>();
      stats := EmptyStats;
      firstPacketSentNs := 0;
      lastPacketSentNs := 0;
      lastPacketReceivedNs := 0;
      this.args := args;
      generator := new StaticGenerator(deviceSeed, stream);
    }

    method GetSentPackets() returns (n: int)
      ensures n == sentPackets
    {
      n := sentPackets;
    }

    // -------------------------------------------------------------------
    // Collator
    // -------------------------------------------------------------------

    /** process_observation, with `now` the clock reading (in nanoseconds) it
        takes when it has to create a record. */
    method ProcessObservation(obs: QEDObservation, now: U64)
      requires Valid()
      modifies rawDataList, rawDataList.observations
      ensures Valid()
      ensures Records() == Ingest(old(Records()), obs, now)
      ensures fresh(Entries() - old(Entries()))
    {
      ghost var recs := Records();
      var idx := FindEntry(obs.packetId);
      if idx.None? {
        AppendRecord(obs, now);
      } else {
        UpdateRecord(idx.value, obs);
      }
      IngestKeepsIdsUnique(recs, obs, now);
    }

    /** process_observation's scan of the store for the observation's id. */
    method FindEntry(id: U32) returns (idx: Option<nat>)
      ensures idx == IndexOf(Records(), id)
    {
      var l := rawDataList.observations;
      ghost var recs := Records();
      var i := 0;
      while i < |l|
        invariant 0 <= i <= |l|
        invariant forall j :: 0 <= j < i ==> recs[j].packetId != id
      {
        if l[i].packetId == id {
          assert recs[i].packetId == id;
          idx := Some(i);
          return;
        }
        i := i + 1;
      }
      idx := None;
    }

    /** A record for an unseen id: made with the clock reading, stamped with
        the observation, and appended at the back. */
    method AppendRecord(obs: QEDObservation, now: U64)
      modifies rawDataList
      ensures Records() == old(Records()) + [Stamp(NewRecord(now, obs.packetId), obs)]
      ensures fresh(Entries() - old(Entries()))
    {
      var entry := new RawData(now, obs.packetId);
      entry.Record(obs);
      rawDataList.AddObservation(entry);
      assert Records() == old(Records()) + [entry.Snapshot()];
    }

    /** The update of the record at position i where it stands. */
    method UpdateRecord(i: nat, obs: QEDObservation)
      requires Valid() && i < |rawDataList.observations|
      modifies rawDataList.observations[i]
      ensures rawDataList.observations == old(rawDataList.observations)
      ensures Records() == old(Records())[i := Stamp(old(Records())[i], obs)]
    {
      var l := rawDataList.observations;
      ghost var recs := Records();
      var entry := l[i];
      forall j | 0 <= j < |l| && j != i
        ensures l[j] != entry
      {
        assert recs[j].packetId != recs[i].packetId;
      }
      entry.Record(obs);
      assert Records() == recs[i := Stamp(recs[i], obs)];
    }

    /** aggregateRawData: the record's delays and losses go into the four
        accumulators. */
    method AggregateRawData(entry: RawData)
      modifies this`stats
      ensures stats == Aggregate(old(stats), entry.Snapshot())
    {
      var r := entry.Snapshot();
      var clientServer := 0;
      if entry.clientSend > 0 && entry.serverReceive > 0 {
        clientServer := TimespecToNanos(NanosecondsToTimespec(Sub64(entry.serverReceive, entry.clientSend)));
        stats := stats.(clientServer := AddSample(stats.clientServer, clientServer));
      }
      var serverClient := 0;
      if entry.serverSend > 0 && entry.clientReceive > 0 && entry.serverReceive > 0 && entry.clientSend > 0 {
        serverClient := TimespecToNanos(NanosecondsToTimespec(Sub64(entry.clientReceive, entry.serverSend)));
        stats := stats.(serverClient := AddSample(stats.serverClient, serverClient));
      } else {
        stats := Stats(CountLoss(stats.clientServer), CountLoss(stats.serverClient),
                       CountLoss(stats.internal), CountLoss(stats.rtt));
      }
      var internal := serverClient - clientServer;
      if MillisecondsNonZero(internal) {
        stats := stats.(internal := AddSample(stats.internal, internal));
      }
      var rtt := clientServer + serverClient;
      if MillisecondsNonZero(rtt) {
        stats := stats.(rtt := AddSample(stats.rtt, rtt));
      }
    }

    /** check_if_oldest_packet_should_be_processed, with `now` the clock
        reading in nanoseconds. */
    method CheckIfOldestPacketShouldBeProcessed(now: U64)
      requires Valid()
      modifies this`stats, this`collatorFinished, rawDataList
      ensures Valid()
      ensures State() == CheckOldest(old(State()), now, args.timeout, sendingCompleted)
      ensures Entries() <= old(Entries())
    {
      var oldest := rawDataList.GetOldestEntry();
      var complete := false;
      if oldest.Some? && oldest.value.clientSend > 0 && oldest.value.serverReceive > 0
         && oldest.value.serverSend > 0 && oldest.value.clientReceive > 0 {
        complete := true;
      }
      if oldest.Some? && (complete || Sub64(now, oldest.value.addedAt) > args.timeout * NANOS_PER_SECOND) {
        assert oldest.value.Snapshot() == Records()[0];
        EvictOldest(oldest.value);
      }
      if oldest.None? && sendingCompleted > 0 {
        collatorFinished := true;
      }
    }

    /** The eviction arm: the oldest record's delays go into the
        accumulators and the record leaves the front of the store. */
    method EvictOldest(oldest: RawData)
      requires Valid() && |rawDataList.observations| > 0 && oldest == rawDataList.observations[0]
      modifies this`stats, rawDataList
      ensures Valid()
      ensures Records() == old(Records())[1..]
      ensures stats == Aggregate(old(stats), old(Records())[0])
      ensures Entries() <= old(Entries())
    {
      ghost var recs := Records();
      AggregateRawData(oldest);
      var _ := rawDataList.PopObservation();
      assert Records() == recs[1..];
    }

    /** One turn of runCollatorThread's loop. */
    method CollatorTurn(now: U64)
      requires Valid()
      modifies this`stats, this`collatorFinished, observationList, rawDataList, rawDataList.observations
      ensures Valid()
      ensures State() == CollatorStep(old(State()), now, args.timeout, sendingCompleted)
      ensures fresh(Entries() - old(Entries()))
    {
      var empty := observationList.IsEmpty();
      if !empty {
        IngestNextObservation(now);
      } else {
        CheckIfOldestPacketShouldBeProcessed(now);
      }
    }

    /** The collator turn with a non-empty queue: pop the front observation
        and process it. */
    method IngestNextObservation(now: U64)
      requires Valid() && |observationList.observations| > 0
      modifies observationList, rawDataList, rawDataList.observations
      ensures Valid()
      ensures State() == old(State()).(queue := old(State()).queue[1..],
                                       records := Ingest(old(Records()), old(observationList.observations)[0], now))
      ensures fresh(Entries() - old(Entries()))
    {
      ghost var recs := Records();
      var obs := observationList.PopObservation();
      assert Records() == recs;
      ghost var queue := observationList.observations;
      ProcessObservation(obs, now);
      assert observationList.observations == queue;
    }

    /** runCollatorThread: mark the collator started, then take turns until
        the finished flag is raised; `nows` are the clock readings of the
        successive turns. */
    method RunCollatorThread(nows: seq<U64>)
      requires Valid()
      modifies this`collatorStarted, this`stats, this`collatorFinished
      modifies observationList, rawDataList, rawDataList.observations
      ensures Valid() && collatorStarted
      ensures State() == RunCollator(old(State()), nows, args.timeout, sendingCompleted)
    {
      collatorStarted := true;
      var k := 0;
      while k < |nows| && !collatorFinished
        invariant 0 <= k <= |nows|
        invariant Valid() && collatorStarted
        invariant RunCollator(State(), nows[k..], args.timeout, sendingCompleted)
               == RunCollator(old(State()), nows, args.timeout, sendingCompleted)
        invariant fresh(Entries() - old(Entries()))
      {
        CollatorLoopTurn(nows, k, old(State()));
        k := k + 1;
      }
    }

    /** One turn of runCollatorThread's loop at reading k, keeping what is
        left of the run equal to the whole run from `start`. */
    method CollatorLoopTurn(nows: seq<U64>, k: nat, ghost start: Collator)
      requires k < |nows| && !collatorFinished && Valid() && collatorStarted
      requires RunCollator(State(), nows[k..], args.timeout, sendingCompleted)
            == RunCollator(start, nows, args.timeout, sendingCompleted)
      modifies this`stats, this`collatorFinished, observationList, rawDataList, rawDataList.observations
      ensures Valid() && collatorStarted
      ensures RunCollator(State(), nows[k + 1..], args.timeout, sendingCompleted)
           == RunCollator(start, nows, args.timeout, sendingCompleted)
      ensures fresh(Entries() - old(Entries()))
    {
      ghost var before := State();
      RunCollatorUnfolds(before, nows, k, args.timeout, sendingCompleted);
      CollatorTurn(nows[k]);
    }

    // -------------------------------------------------------------------
    // Receiver
    // -------------------------------------------------------------------

    /** handleReflectorPacket on a reply of `payloadLen` bytes: record the
        receive time and the id, count the reply, and, when the collator runs,
        queue its three observations. */
    method HandleReflectorPacket(packet: ReflectorPacket, payloadLen: U16, kernel: Timespec, clock: Timestamp)
      modifies this`lastPacketReceivedNs, this`lastReceivedPacketId, this`receivedPackets, observationList
      ensures lastPacketReceivedNs == ClientReceiveTime(kernel, clock)
      ensures lastReceivedPacketId == ToInt32(Ntohl(packet.seqNumber))
      ensures receivedPackets == old(receivedPackets) + 1
      ensures observationList.observations == old(observationList.observations)
        + (if collatorStarted then ReplyObservations(packet, payloadLen, ClientReceiveTime(kernel, clock)) else [])
    {
      var incoming: U64;
      if kernel.sec == 0 && kernel.nsec == 0 {
        incoming := TimestampToNsec(Some(clock));
      } else {
        incoming := Wrap64(Wrap64(kernel.sec) * NANOS_PER_SECOND + kernel.nsec);
      }
      lastPacketReceivedNs := incoming;
      var serverReceive := Ntohts(packet.receiveTimestamp);
      var serverSend := Ntohts(packet.timestamp);
      var packetId := Ntohl(packet.seqNumber);
      lastReceivedPacketId := ToInt32(packetId);
      receivedPackets := receivedPackets + 1;
      if collatorStarted {
        var obs1 := QEDObservation(ClientReceive, incoming, packetId, payloadLen);
        var obs2 := QEDObservation(ServerReceive, TimestampToNsec(Some(serverReceive)), packetId, payloadLen);
        var obs3 := QEDObservation(ServerSend, TimestampToNsec(Some(serverSend)), packetId, payloadLen);
        observationList.AddObservation(obs3);
        observationList.AddObservation(obs2);
        observationList.AddObservation(obs1);
      }
    }

    /** awaitAndHandleResponse on the outcome of one recvmsg: an error or a
        datagram longer than a ReflectorPacket is dropped; anything else is
        read from the zeroed buffer as a ReflectorPacket and handled. */
    method AwaitAndHandleResponse(datagram: Option<seq<U8>>, kernel: Timespec, clock: Timestamp)
      returns (handled: bool)
      modifies this`lastPacketReceivedNs, this`lastReceivedPacketId, this`receivedPackets, observationList
      ensures handled <==> datagram.Some? && |datagram.value| <= TST_PKT_SIZE
      ensures !handled ==>
        (receivedPackets == old(receivedPackets)
         && observationList.observations == old(observationList.observations)
         && lastPacketReceivedNs == old(lastPacketReceivedNs) && lastReceivedPacketId == old(lastReceivedPacketId))
      ensures handled ==>
        var r := Receive(datagram.value);
        var packet := DecodeReflector(r.buffer);
        receivedPackets == old(receivedPackets) + 1
        && lastPacketReceivedNs == ClientReceiveTime(kernel, clock)
        && lastReceivedPacketId == ToInt32(Ntohl(packet.seqNumber))
        && observationList.observations == old(observationList.observations)
           + (if collatorStarted then ReplyObservations(packet, r.length, ClientReceiveTime(kernel, clock)) else [])
    {
      if datagram.None? {
        return false;
      }
      var r := Receive(datagram.value);
      if r.truncated {
        return false;
      }
      var packet := DecodeReflector(r.buffer);
      HandleReflectorPacket(packet, r.length, kernel, clock);
      return true;
    }

    /** runReceiverThread over successive turns, under the loop condition as
        written; returns how many turns ran. */
    method RunReceiverThread(events: seq<ReceiveEvent>) returns (turns: nat)
      modifies this`lastPacketReceivedNs, this`lastReceivedPacketId, this`receivedPackets, observationList
      ensures turns <= |events|
      ensures turns < |events| ==>
        !ReceiverContinuesAsWritten(args, sendingCompleted, receivedPackets, sentPackets, events[turns].nowSeconds)
      ensures receivedPackets == old(receivedPackets) + AcceptedCount(events[..turns])
      ensures observationList.observations == old(observationList.observations)
        + (if collatorStarted then ReceiveObservations(events[..turns]) else [])
      ensures lastPacketReceivedNs == Latest(events[..turns], Accepted, ReceiveTime, old(lastPacketReceivedNs))
      ensures lastReceivedPacketId == Latest(events[..turns], Accepted, ReplyId, old(lastReceivedPacketId))
    {
      turns := 0;
      while turns < |events|
            && ReceiverContinuesAsWritten(args, sendingCompleted, receivedPackets, sentPackets, events[turns].nowSeconds)
        invariant turns <= |events|
        invariant receivedPackets == old(receivedPackets) + AcceptedCount(events[..turns])
        invariant observationList.observations == old(observationList.observations)
          + (if collatorStarted then ReceiveObservations(events[..turns]) else [])
        invariant lastPacketReceivedNs == Latest(events[..turns], Accepted, ReceiveTime, old(lastPacketReceivedNs))
        invariant lastReceivedPacketId == Latest(events[..turns], Accepted, ReplyId, old(lastReceivedPacketId))
      {
        ReceiverLoopTurn(events[..turns], events[turns], old(receivedPackets), old(observationList.observations),
                         old(lastPacketReceivedNs), old(lastReceivedPacketId));
        assert events[..turns + 1] == events[..turns] + [events[turns]];
        turns := turns + 1;
      }
    }

    /** One turn of runReceiverThread's loop on event `e` after the turns
        `done`, carrying the loop's accounts from the values it started with. */
    method ReceiverLoopTurn(done: seq<ReceiveEvent>, e: ReceiveEvent, ghost received0: int,
                            ghost queued0: seq<QEDObservation>, ghost ns0: U64, ghost id0: I32)
      requires receivedPackets == received0 + AcceptedCount(done)
      requires observationList.observations == queued0 + (if collatorStarted then ReceiveObservations(done) else [])
      requires lastPacketReceivedNs == Latest(done, Accepted, ReceiveTime, ns0)
      requires lastReceivedPacketId == Latest(done, Accepted, ReplyId, id0)
      modifies this`lastPacketReceivedNs, this`lastReceivedPacketId, this`receivedPackets, observationList
      ensures receivedPackets == received0 + AcceptedCount(done + [e])
      ensures observationList.observations == queued0 + (if collatorStarted then ReceiveObservations(done + [e]) else [])
      ensures lastPacketReceivedNs == Latest(done + [e], Accepted, ReceiveTime, ns0)
      ensures lastReceivedPacketId == Latest(done + [e], Accepted, ReplyId, id0)
    {
      ghost var received := receivedPackets;
      ghost var queued := observationList.observations;
      ghost var ns := lastPacketReceivedNs;
      ghost var id := lastReceivedPacketId;
      var handled := AwaitAndHandleResponse(e.datagram, e.kernel, e.clock);
      ReceiverStepEffect(e, handled, received, queued, ns, id, receivedPackets, observationList.observations,
                         lastPacketReceivedNs, lastReceivedPacketId, collatorStarted);
      ReceiveObservationsAppend(done, e);
      LatestAppend(done, e, Accepted, ReceiveTime, ns0);
      LatestAppend(done, e, Accepted, ReplyId, id0);
    }

    // -------------------------------------------------------------------
    // Sender
    // -------------------------------------------------------------------

    /** sendPacket: send the first payloadLen bytes of a fresh sender packet to
        every host in turn, counting each success; the first failure throws
        (None). On success it returns the clock reading the packet carries. */
    method SendPacket(idx: U32, payloadLen: nat, clock: Timestamp, outcomes: seq<bool>)
      returns (sent: Option<Timestamp>, datagram: seq<U8>)
      requires payloadLen <= TST_PKT_SIZE && |outcomes| == |args.remoteHosts|
      modifies this`sentPackets
      ensures sentPackets == old(sentPackets) + LeadingSuccesses(outcomes)
      ensures sent.Some? <==> LeadingSuccesses(outcomes) == |outcomes|
      ensures sent.Some? ==> sent.value == clock
      ensures datagram == SentDatagram(idx, clock, payloadLen)
    {
      var packet := CraftSenderPacket(idx, clock);
      datagram := EncodeClient(packet)[..payloadLen];
      var h := 0;
      while h < |outcomes|
        invariant 0 <= h <= |outcomes|
        invariant sentPackets == old(sentPackets) + h
        invariant forall j :: 0 <= j < h ==> outcomes[j]
      {
        if !outcomes[h] {
          assert LeadingSuccesses(outcomes) == h;
          return None, datagram;
        }
        sentPackets := sentPackets + 1;
        h := h + 1;
      }
      LeadingSuccessesAll(outcomes);
      HtontsNtohtsInverse(clock);
      sent := Some(Ntohts(packet.timestamp));
    }

    /** The body of runSenderThread's loop for index `index`: draw a payload
        length, send, and on success record the send time and queue the
        CLIENT_SEND observation when the collator runs. A failed send is only
        reported. */
    method SenderTurn(index: U32, e: SendEvent) returns (payloadLen: U16)
      requires |args.payloadLens| > 0
      requires forall j :: 0 <= j < |args.payloadLens| ==> 0 <= args.payloadLens[j] <= TST_PKT_SIZE
      requires |e.outcomes| == |args.remoteHosts|
      modifies this`sentPackets, this`firstPacketSentNs, this`lastPacketSentNs, observationList, generator
      ensures generator.initialised && generator.draws == old(generator.draws) + 1
      ensures generator.seed
           == SeedAfterSelect(old(generator.initialised), old(generator.seed), args.seed, generator.deviceSeed)
      ensures payloadLen == DrawnLength(args.payloadLens, generator.stream, generator.seed, old(generator.draws))
      ensures sentPackets == old(sentPackets) + LeadingSuccesses(e.outcomes)
      ensures SentToAll(e) ==>
        (lastPacketSentNs == TimestampToNsec(Some(e.clock))
         && firstPacketSentNs == (if old(firstPacketSentNs) == 0 then lastPacketSentNs else old(firstPacketSentNs)))
      ensures !SentToAll(e) ==> lastPacketSentNs == old(lastPacketSentNs) && firstPacketSentNs == old(firstPacketSentNs)
      ensures !collatorStarted ==> observationList.observations == old(observationList.observations)
      ensures collatorStarted ==>
        observationList.observations == old(observationList.observations)
          + (if SentToAll(e) then [QEDObservation(ClientSend, TimestampToNsec(Some(e.clock)), index, payloadLen)] else [])
    {
      var choice := generator.Select(|args.payloadLens|, args.seed);
      payloadLen := args.payloadLens[choice];
      var sent, _ := SendPacket(index, payloadLen, e.clock, e.outcomes);
      if sent.Some? {
        var ns := TimestampToNsec(Some(sent.value));
        if firstPacketSentNs == 0 {
          firstPacketSentNs := ns;
        }
        lastPacketSentNs := ns;
        if collatorStarted {
          observationList.AddObservation(QEDObservation(ClientSend, ns, index, payloadLen));
        }
      }
    }

    /** The generator after `turns` turns of the sender loop that started from
        a generator with flag `init0`, seed `seed0` and `draws0` draws. */
    ghost predicate GeneratorAfter(turns: nat, init0: bool, seed0: U32, draws0: nat)
      reads generator
    {
      && generator.draws == draws0 + turns
      && (turns == 0 ==> generator.initialised == init0 && generator.seed == seed0)
      && (turns > 0 ==>
            generator.initialised && generator.seed == SeedAfterSelect(init0, seed0, args.seed, generator.deviceSeed))
    }

    /** The sender loop's accounts after `turns` turns over `events`, with the
        lengths `lens` drawn, from the counts, queue, send times and generator
        state the loop started with. */
    ghost predicate SenderAccountsAfter(events: seq<SendEvent>, turns: nat, lens: seq<U16>,
                                        sent0: int, queued0: seq<QEDObservation>, first0: U64, last0: U64,
                                        init0: bool, seed0: U32, draws0: nat)
      reads this, observationList, generator
      requires turns <= |events| && |lens| == turns && |args.payloadLens| > 0
    {
      && sentPackets == sent0 + TotalSent(events[..turns])
      && (!collatorStarted ==> observationList.observations == queued0)
      && (collatorStarted ==> observationList.observations == queued0 + SendObservations(events[..turns], lens))
      && firstPacketSentNs == FirstSentNs(events[..turns], first0)
      && lastPacketSentNs == Latest(events[..turns], SentToAll, SendTime, last0)
      && GeneratorAfter(turns, init0, seed0, draws0)
      && (forall j :: 0 <= j < turns ==>
            lens[j] == DrawnLength(args.payloadLens, generator.stream, generator.seed, draws0 + j))
    }

    /** One turn of runSenderThread's loop, turn number `turns`, carrying the
        loop's accounts from the counts, queue, send times and generator state
        it started with. */
    method SenderLoopTurn(index: U32, events: seq<SendEvent>, turns: nat, lens: seq<U16>,
                          ghost sent0: int, ghost queued0: seq<QEDObservation>, ghost first0: U64, ghost last0: U64,
                          ghost init0: bool, ghost seed0: U32, ghost draws0: nat)
      returns (lens': seq<U16>)
      requires |args.payloadLens| > 0
      requires forall j :: 0 <= j < |args.payloadLens| ==> 0 <= args.payloadLens[j] <= TST_PKT_SIZE
      requires turns < |events| && |events[turns].outcomes| == |args.remoteHosts|
      requires |lens| == turns && index == Wrap32(turns)
      requires SenderAccountsAfter(events, turns, lens, sent0, queued0, first0, last0, init0, seed0, draws0)
      modifies this`sentPackets, this`firstPacketSentNs, this`lastPacketSentNs, observationList, generator
      ensures |lens'| == turns + 1 && lens'[..turns] == lens
      ensures SenderAccountsAfter(events, turns + 1, lens', sent0, queued0, first0, last0, init0, seed0, draws0)
    {
      var e := events[turns];
      ghost var sentBefore := sentPackets;
      ghost var queued := observationList.observations;
      var payloadLen := SenderTurn(index, e);
      SenderAccounts(events, turns, lens, payloadLen, sent0, queued0, sentBefore, sentPackets,
                     queued, observationList.observations, collatorStarted);
      assert events[..turns + 1] == events[..turns] + [e];
      FirstSentAppend(events[..turns], e, first0);
      LatestAppend(events[..turns], e, SentToAll, SendTime, last0);
      lens' := lens + [payloadLen];
      assert lens'[..turns] == lens;
    }

    /** runSenderThread over successive turns, under the loop condition as
        written, ending with the wall clock reading `endSeconds` stored as the
        completion time. Each turn draws a payload length from the static
        generator, sends, and advances the index whether or not the send
        succeeded. Returns the number of turns and the lengths drawn. */
    method RunSenderThread(events: seq<SendEvent>, endSeconds: int) returns (turns: nat, lens: seq<U16>)
      requires |args.payloadLens| > 0
      requires forall j :: 0 <= j < |args.payloadLens| ==> 0 <= args.payloadLens[j] <= TST_PKT_SIZE
      requires forall j :: 0 <= j < |events| ==> |events[j].outcomes| == |args.remoteHosts|
      modifies this`sentPackets, this`firstPacketSentNs, this`lastPacketSentNs, this`sendingCompleted
      modifies observationList, generator
      ensures turns == SenderTurns(args, events, startTime, 0) && |lens| == turns
      ensures sentPackets == old(sentPackets) + TotalSent(events[..turns])
      ensures observationList.observations == old(observationList.observations)
        + (if collatorStarted then SendObservations(events[..turns], lens) else [])
      ensures firstPacketSentNs == FirstSentNs(events[..turns], old(firstPacketSentNs))
      ensures lastPacketSentNs == Latest(events[..turns], SentToAll, SendTime, old(lastPacketSentNs))
      ensures GeneratorAfter(turns, old(generator.initialised), old(generator.seed), old(generator.draws))
      ensures forall j :: 0 <= j < turns ==>
        lens[j] == DrawnLength(args.payloadLens, generator.stream, generator.seed, old(generator.draws) + j)
      ensures sendingCompleted == Wrap64(endSeconds)
    {
      var index: U32 := 0;
      turns := 0;
      lens := [];
      while turns < |events| && SenderContinuesAsWritten(args, index, events[turns].nowSeconds, startTime)
        invariant turns <= |events| && |lens| == turns && index == Wrap32(turns)
        invariant SenderAccountsAfter(events, turns, lens, old(sentPackets), old(observationList.observations),
                                      old(firstPacketSentNs), old(lastPacketSentNs),
                                      old(generator.initialised), old(generator.seed), old(generator.draws))
        invariant SenderTurns(args, events, startTime, turns) == SenderTurns(args, events, startTime, 0)
        decreases |events| - turns
      {
        lens := SenderLoopTurn(index, events, turns, lens, old(sentPackets), old(observationList.observations),
                               old(firstPacketSentNs), old(lastPacketSentNs),
                               old(generator.initialised), old(generator.seed), old(generator.draws));
        Wrap32Successor(turns);
        index := Wrap32(index + 1);
        turns := turns + 1;
      }
      sendingCompleted := Wrap64(endSeconds);
    }
  }

  /** The number of turns runSenderThread takes over `events`, counting from
      turn k: it stops at the first turn whose loop condition fails, or when
      the events run out. */
  function SenderTurns(args: Args, events: seq<SendEvent>, startTime: U64, k: nat): (n: nat)
    requires k <= |events|
    ensures k <= n <= |events|
    ensures n < |events| ==> !SenderContinuesAsWritten(args, Wrap32(n), events[n].nowSeconds, startTime)
    decreases |events| - k
  {
    if k < |events| && SenderContinuesAsWritten(args, Wrap32(k), events[k].nowSeconds, startTime)
    then SenderTurns(args, events, startTime, k + 1)
    else k
  }

  /** With N samples requested and no runtime limit, the loop condition holds
      exactly for the indices 0 .. N-1. */
  lemma SenderContinuesWithSampleCount(args: Args, k: nat, nowSeconds: int, startTime: U64)
    requires args.numSamples > 0 && args.runtime == 0 && k <= args.numSamples
    ensures SenderContinuesAsWritten(args, Wrap32(k), nowSeconds, startTime) <==> k < args.numSamples
  {
  }

  /** With N samples requested and no runtime limit, the sender takes N turns
      (or as many as the events offer, if fewer), whatever the sends return. */
  lemma {:induction false} SenderTakesNumSamplesTurns(args: Args, events: seq<SendEvent>, startTime: U64, k: nat)
    requires args.numSamples > 0 && args.runtime == 0
    requires k <= |events| && k <= args.numSamples
    ensures SenderTurns(args, events, startTime, k)
         == (if |events| < args.numSamples then |events| else args.numSamples as int)
    decreases |events| - k
  {
    if k < |events| {
      SenderContinuesWithSampleCount(args, k, events[k].nowSeconds, startTime);
      if k < args.numSamples {
        SenderTakesNumSamplesTurns(args, events, startTime, k + 1);
      }
    }
  }
}
