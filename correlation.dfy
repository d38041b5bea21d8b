/** The client's correlation store as values (src/client/Client.cpp): one record
    per packet id that collects the four observation times, the eviction rule
    for the oldest record, the delay aggregation into four statistics
    accumulators, and the per-reply delay arithmetic with its sync flag. The
    Client class in module TwampClient is proved against these functions. */
module Correlation {
  import opened Words
  import opened Optional
  import opened Packets
  import opened TimeUtils
  import opened PacketList

  // ---------------------------------------------------------------------
  // Records
  // ---------------------------------------------------------------------

  /** The fields of one raw-data record; a timestamp of 0 means "not seen". */
  datatype RawRecord = RawRecord(
    addedAt: U64,
    packetId: U32,
    payloadLen: U16,
    clientSend: U64,
    serverReceive: U64,
    serverSend: U64,
    clientReceive: U64)

  /** A record made for a packet id seen for the first time, stamped with the
      clock: every timestamp and the payload length start at 0. */
  function NewRecord(addedAt: U64, packetId: U32): (r: RawRecord)
    ensures r.addedAt == addedAt && r.packetId == packetId && r.payloadLen == 0
    ensures forall p :: PointTime(r, p) == 0
  {
    RawRecord(addedAt, packetId, 0, 0, 0, 0, 0)
  }

  /** The timestamp a record holds for an observation point (0 for the
      enum's count member, which names no field). */
  function PointTime(r: RawRecord, p: ObservationPoint): U64
  {
    match p
    case ClientSend => r.clientSend
    case ServerReceive => r.serverReceive
    case ServerSend => r.serverSend
    case ClientReceive => r.clientReceive
    case NumObservationPoints => 0
  }

  predicate IsPoint(p: ObservationPoint)
  {
    p != NumObservationPoints
  }

  /** A record is complete when all four timestamps are non-zero. */
  predicate Complete(r: RawRecord)
  {
    r.clientSend > 0 && r.serverReceive > 0 && r.serverSend > 0 && r.clientReceive > 0
  }

  lemma CompleteMeansEveryPoint(r: RawRecord)
    ensures Complete(r) <==> forall p :: IsPoint(p) ==> PointTime(r, p) > 0
  {
    if !Complete(r) {
      if r.clientSend == 0 { assert PointTime(r, ClientSend) == 0; }
      else if r.serverReceive == 0 { assert PointTime(r, ServerReceive) == 0; }
      else if r.serverSend == 0 { assert PointTime(r, ServerSend) == 0; }
      else { assert PointTime(r, ClientReceive) == 0; }
    }
  }

  /** The switch of process_observation: the payload length and the one
      timestamp of the observation's point are set; an observation of the
      count member sets only the payload length. */
  function Stamp(r: RawRecord, obs: QEDObservation): (r': RawRecord)
    ensures r'.addedAt == r.addedAt && r'.packetId == r.packetId
    ensures r'.payloadLen == obs.payloadLen
    ensures forall p :: IsPoint(p) ==>
      PointTime(r', p) == (if p == obs.observationPoint then obs.epochNanoseconds else PointTime(r, p))
  {
    var r1 := r.(payloadLen := obs.payloadLen);
    match obs.observationPoint
    case ClientSend => r1.(clientSend := obs.epochNanoseconds)
    case ServerReceive => r1.(serverReceive := obs.epochNanoseconds)
    case ServerSend => r1.(serverSend := obs.epochNanoseconds)
    case ClientReceive => r1.(clientReceive := obs.epochNanoseconds)
    case NumObservationPoints => r1
  }

  /** The packet ids of the records, oldest first. */
  function Ids(records: seq<RawRecord>): (ids: seq<U32>)
    ensures |ids| == |records|
    ensures forall i :: 0 <= i < |records| ==> ids[i] == records[i].packetId
  {
    if |records| == 0 then [] else Ids(records[..|records| - 1]) + [records[|records| - 1].packetId]
  }

  predicate UniqueIds(records: seq<RawRecord>)
  {
    forall i, j :: 0 <= i < j < |records| ==> records[i].packetId != records[j].packetId
  }

  /** The scan of process_observation: the position of the first record with
      the id, or None when no record has it. */
  function IndexOf(records: seq<RawRecord>, id: U32): (r: Option<nat>)
    ensures r.Some? ==> r.value < |records| && records[r.value].packetId == id
    ensures r.Some? ==> forall j :: 0 <= j < r.value ==> records[j].packetId != id
    ensures r.None? <==> forall j :: 0 <= j < |records| ==> records[j].packetId != id
  {
    if |records| == 0 then None
    else if records[0].packetId == id then Some(0)
    else match IndexOf(records[1..], id)
      case None => None
      case Some(i) => Some(i + 1)
  }

  /** process_observation on values: the record with the observation's id is
      updated where it stands; otherwise a record stamped with `now` is made,
      updated, and appended at the back. */
  function Ingest(records: seq<RawRecord>, obs: QEDObservation, now: U64): seq<RawRecord>
  {
    match IndexOf(records, obs.packetId)
    case Some(i) => records[i := Stamp(records[i], obs)]
    case None => records + [Stamp(NewRecord(now, obs.packetId), obs)]
  }

  /** Only the record with the observation's id changes, and only in its payload
      length and the one timestamp; a new record appears only for an unseen id,
      at the back, so the ids stay in first-seen order and stay unique. */
  lemma IngestEffect(records: seq<RawRecord>, obs: QEDObservation, now: U64)
    requires UniqueIds(records)
    ensures var r' := Ingest(records, obs, now);
      UniqueIds(r')
      && (obs.packetId in Ids(records) ==> Ids(r') == Ids(records))
      && (obs.packetId !in Ids(records) ==>
            Ids(r') == Ids(records) + [obs.packetId] && r'[|records|] == Stamp(NewRecord(now, obs.packetId), obs))
      && (forall j :: 0 <= j < |records| && records[j].packetId != obs.packetId ==> r'[j] == records[j])
      && (forall j :: 0 <= j < |records| && records[j].packetId == obs.packetId ==> r'[j] == Stamp(records[j], obs))
  {
    var r' := Ingest(records, obs, now);
    match IndexOf(records, obs.packetId)
    case Some(i) =>
      assert Ids(r') == Ids(records);
    case None =>
      assert Ids(r') == Ids(records) + [obs.packetId];
  }

  /** Ingesting keeps at most one record per id. */
  lemma IngestKeepsIdsUnique(records: seq<RawRecord>, obs: QEDObservation, now: U64)
    requires UniqueIds(records)
    ensures UniqueIds(Ingest(records, obs, now))
  {
    IngestEffect(records, obs, now);
  }

  /** The record held for an id, if any. */
  function Lookup(records: seq<RawRecord>, id: U32): (r: Option<RawRecord>)
    ensures r.Some? <==> id in Ids(records)
    ensures r.Some? ==> r.value.packetId == id
  {
    match IndexOf(records, id)
    case Some(i) => Some(records[i])
    case None => None
  }

  /** Ingesting one observation, seen from one id: that id's record is stamped
      (made first if missing); every other id's record is untouched. */
  lemma LookupAfterIngest(records: seq<RawRecord>, obs: QEDObservation, now: U64, id: U32)
    requires UniqueIds(records)
    ensures id == obs.packetId ==>
      Lookup(Ingest(records, obs, now), id)
        == Some(Stamp(match Lookup(records, id) case Some(r) => r case None => NewRecord(now, id), obs))
    ensures id != obs.packetId ==> Lookup(Ingest(records, obs, now), id) == Lookup(records, id)
  {
    var r' := Ingest(records, obs, now);
    IngestEffect(records, obs, now);
  }

  /** process_observation applied to each observation in turn, with the clock
      reading taken at each step. */
  function IngestAll(records: seq<RawRecord>, xs: seq<QEDObservation>, nows: seq<U64>): seq<RawRecord>
    requires |nows| == |xs|
  {
    if |xs| == 0 then records
    else Ingest(IngestAll(records, xs[..|xs| - 1], nows[..|xs| - 1]), xs[|xs| - 1], nows[|xs| - 1])
  }

  lemma {:induction false} IngestAllUnique(records: seq<RawRecord>, xs: seq<QEDObservation>, nows: seq<U64>)
    requires |nows| == |xs| && UniqueIds(records)
    ensures UniqueIds(IngestAll(records, xs, nows))
  {
    if |xs| > 0 {
      IngestAllUnique(records, xs[..|xs| - 1], nows[..|xs| - 1]);
      IngestEffect(IngestAll(records, xs[..|xs| - 1], nows[..|xs| - 1]), xs[|xs| - 1], nows[|xs| - 1]);
    }
  }

  /** Whether the record for `id` has a non-zero time for point p. */
  predicate Stamped(records: seq<RawRecord>, id: U32, p: ObservationPoint)
  {
    Lookup(records, id).Some? && PointTime(Lookup(records, id).value, p) > 0
  }

  /** One ingest keeps a stamped point stamped, unless it brings a zero time
      for that id. */
  lemma StampedStep(records: seq<RawRecord>, obs: QEDObservation, now: U64, id: U32, p: ObservationPoint)
    requires UniqueIds(records) && IsPoint(p) && Stamped(records, id, p)
    requires obs.packetId == id ==> obs.epochNanoseconds > 0
    ensures Stamped(Ingest(records, obs, now), id, p)
  {
    LookupAfterIngest(records, obs, now, id);
  }

  /** When every observation for `id` carries a non-zero time, a point of that
      record, once stamped, stays stamped through later ingests. */
  lemma {:induction false} StampedPersists(records: seq<RawRecord>, xs: seq<QEDObservation>, nows: seq<U64>,
                                           id: U32, p: ObservationPoint, k: nat)
    requires |nows| == |xs| && UniqueIds(records) && k <= |xs| && IsPoint(p)
    requires forall j :: 0 <= j < |xs| && xs[j].packetId == id ==> xs[j].epochNanoseconds > 0
    requires Stamped(IngestAll(records, xs[..k], nows[..k]), id, p)
    ensures Stamped(IngestAll(records, xs, nows), id, p)
    decreases |xs| - k
  {
    if k < |xs| {
      assert xs[..k + 1][..k] == xs[..k] && nows[..k + 1][..k] == nows[..k];
      IngestAllUnique(records, xs[..k], nows[..k]);
      StampedStep(IngestAll(records, xs[..k], nows[..k]), xs[k], nows[k], id, p);
      StampedPersists(records, xs, nows, id, p, k + 1);
    } else {
      assert xs[..k] == xs && nows[..k] == nows;
    }
  }

  /** An observation with a non-zero time stamps its point of its record. */
  lemma StampedBy(records: seq<RawRecord>, xs: seq<QEDObservation>, nows: seq<U64>, k: nat)
    requires |nows| == |xs| && UniqueIds(records) && k < |xs|
    requires xs[k].epochNanoseconds > 0 && IsPoint(xs[k].observationPoint)
    ensures Stamped(IngestAll(records, xs[..k + 1], nows[..k + 1]), xs[k].packetId, xs[k].observationPoint)
  {
    assert xs[..k + 1][..k] == xs[..k] && nows[..k + 1][..k] == nows[..k];
    IngestAllUnique(records, xs[..k], nows[..k]);
    LookupAfterIngest(IngestAll(records, xs[..k], nows[..k]), xs[k], nows[k], xs[k].packetId);
  }

  /** Whatever the order the four observations of a packet arrive in, and
      whatever else is interleaved with them, its record ends complete, as long
      as each of its observations carries a non-zero time. A point already
      stamped before the sequence counts as arrived. */
  lemma CompleteInAnyOrder(records: seq<RawRecord>, xs: seq<QEDObservation>, nows: seq<U64>, id: U32)
    requires |nows| == |xs| && UniqueIds(records)
    requires forall j :: 0 <= j < |xs| && xs[j].packetId == id ==> xs[j].epochNanoseconds > 0
    requires forall p :: IsPoint(p) ==>
      (Stamped(records, id, p) || exists k :: 0 <= k < |xs| && xs[k].packetId == id && xs[k].observationPoint == p)
    ensures Lookup(IngestAll(records, xs, nows), id).Some?
    ensures Complete(Lookup(IngestAll(records, xs, nows), id).value)
  {
    forall p | IsPoint(p)
      ensures Stamped(IngestAll(records, xs, nows), id, p)
    {
      if Stamped(records, id, p) {
        assert xs[..0] == [] && nows[..0] == [];
        StampedPersists(records, xs, nows, id, p, 0);
      } else {
        var k :| 0 <= k < |xs| && xs[k].packetId == id && xs[k].observationPoint == p;
        StampedBy(records, xs, nows, k);
        StampedPersists(records, xs, nows, id, p, k + 1);
      }
    }
    assert Stamped(IngestAll(records, xs, nows), id, ClientSend);
    CompleteMeansEveryPoint(Lookup(IngestAll(records, xs, nows), id).value);
  }

  /** The record an id ends up with carries the payload length of the last
      observation, when that observation is for the id. */
  lemma LastObservationSetsPayloadLen(records: seq<RawRecord>, xs: seq<QEDObservation>, nows: seq<U64>, id: U32)
    requires |nows| == |xs| && |xs| > 0 && UniqueIds(records) && xs[|xs| - 1].packetId == id
    ensures Lookup(IngestAll(records, xs, nows), id).Some?
    ensures Lookup(IngestAll(records, xs, nows), id).value.payloadLen == xs[|xs| - 1].payloadLen
  {
    var n := |xs| - 1;
    IngestAllUnique(records, xs[..n], nows[..n]);
    LookupAfterIngest(IngestAll(records, xs[..n], nows[..n]), xs[n], nows[n], id);
  }

  // ---------------------------------------------------------------------
  // Aggregation
  // ---------------------------------------------------------------------

  /** One statistics accumulator, reduced to what the client feeds it: the
      samples added (in nanoseconds, in order) and the losses counted. */
  datatype Accumulator = Accumulator(samples: seq<int>, losses: nat)

  const EmptyAccumulator: Accumulator := Accumulator([], 0)

  function AddSample(a: Accumulator, ns: int): (a': Accumulator)
    ensures a'.samples == a.samples + [ns] && a'.losses == a.losses
  {
    a.(samples := a.samples + [ns])
  }

  function CountLoss(a: Accumulator): (a': Accumulator)
    ensures a'.samples == a.samples && a'.losses == a.losses + 1
  {
    a.(losses := a.losses + 1)
  }

  /** The client's four accumulators. */
  datatype Stats = Stats(clientServer: Accumulator, serverClient: Accumulator,
                         internal: Accumulator, rtt: Accumulator)

  const EmptyStats: Stats := Stats(EmptyAccumulator, EmptyAccumulator, EmptyAccumulator, EmptyAccumulator)

  /** tspecmsec(d) != 0 on a delay of `ns` nanoseconds held as a normalised
      timespec: the whole milliseconds, rounded down, are not 0. Every
      negative delay passes; a non-negative one needs a whole millisecond. */
  predicate MillisecondsNonZero(ns: int)
  {
    ns / 1_000_000 != 0
  }

  /** On a normalised timespec (0 <= nsec < 10^9), sec * 1000 + nsec / 10^6
      is the count of nanoseconds divided by 10^6 and rounded down; it is 0
      exactly for the delays in [0, 1 ms). */
  lemma MillisecondsOfNormalisedTimespec(sec: int, nsec: int)
    requires 0 <= nsec < NANOS_PER_SECOND
    ensures sec * 1000 + nsec / 1_000_000 == (sec * NANOS_PER_SECOND + nsec) / 1_000_000
    ensures MillisecondsNonZero(sec * NANOS_PER_SECOND + nsec)
        <==> sec * NANOS_PER_SECOND + nsec < 0 || sec * NANOS_PER_SECOND + nsec >= 1_000_000
  {
    var q := nsec / 1_000_000;
    var r := nsec % 1_000_000;
    assert nsec == q * 1_000_000 + r && 0 <= r < 1_000_000;
    assert sec * NANOS_PER_SECOND + nsec == (sec * 1000 + q) * 1_000_000 + r;
  }

  /** The forward delay as aggregated: SR - CS in uint64_t through
      nanosecondsToTimespec, or zero when either time is missing. */
  function ForwardDelay(r: RawRecord): (ns: int)
    ensures ns >= 0
    ensures r.clientSend > 0 && r.serverReceive > 0 ==> Wrap64(ns) == Wrap64(r.serverReceive - r.clientSend)
  {
    if r.clientSend > 0 && r.serverReceive > 0
    then TimespecToNanos(NanosecondsToTimespec(Sub64(r.serverReceive, r.clientSend)))
    else 0
  }

  /** The backward delay as aggregated: CR - SS in uint64_t, or zero unless the
      record is complete. */
  function BackwardDelay(r: RawRecord): (ns: int)
    ensures ns >= 0
    ensures Complete(r) ==> Wrap64(ns) == Wrap64(r.clientReceive - r.serverSend)
  {
    if Complete(r)
    then TimespecToNanos(NanosecondsToTimespec(Sub64(r.clientReceive, r.serverSend)))
    else 0
  }

  /** aggregateRawData: the forward sample when CS and SR are set; the backward
      sample when the record is complete, otherwise one loss in each of the
      four accumulators; then internal = backward - forward and rtt = forward +
      backward, each only when non-zero at millisecond granularity. */
  function Aggregate(s: Stats, r: RawRecord): Stats
  {
    var fwd := ForwardDelay(r);
    var bwd := BackwardDelay(r);
    var cs := if r.clientSend > 0 && r.serverReceive > 0 then AddSample(s.clientServer, fwd) else s.clientServer;
    var lost := !Complete(r);
    var cs1 := if lost then CountLoss(cs) else cs;
    var sc1 := if lost then CountLoss(s.serverClient) else AddSample(s.serverClient, bwd);
    var in0 := if lost then CountLoss(s.internal) else s.internal;
    var rt0 := if lost then CountLoss(s.rtt) else s.rtt;
    var in1 := if MillisecondsNonZero(bwd - fwd) then AddSample(in0, bwd - fwd) else in0;
    var rt1 := if MillisecondsNonZero(fwd + bwd) then AddSample(rt0, fwd + bwd) else rt0;
    Stats(cs1, sc1, in1, rt1)
  }

  /** Every accumulator's loss count grows by one exactly when the record is
      incomplete, and is unchanged otherwise. */
  lemma AggregateLosses(s: Stats, r: RawRecord)
    ensures var s' := Aggregate(s, r); var d := if Complete(r) then 0 else 1;
      s'.clientServer.losses == s.clientServer.losses + d
      && s'.serverClient.losses == s.serverClient.losses + d
      && s'.internal.losses == s.internal.losses + d
      && s'.rtt.losses == s.rtt.losses + d
  {
  }

  /** The forward leg is sampled exactly when client send and server receive
      are both set, and the sample is SR - CS modulo 2^64. */
  lemma AggregateForwardLeg(s: Stats, r: RawRecord)
    ensures var s' := Aggregate(s, r);
      (r.clientSend > 0 && r.serverReceive > 0 ==>
         exists x :: s'.clientServer.samples == s.clientServer.samples + [x]
                     && Wrap64(x) == Wrap64(r.serverReceive - r.clientSend))
      && (!(r.clientSend > 0 && r.serverReceive > 0) ==> s'.clientServer.samples == s.clientServer.samples)
  {
    var s' := Aggregate(s, r);
    if r.clientSend > 0 && r.serverReceive > 0 {
      assert s'.clientServer.samples == s.clientServer.samples + [ForwardDelay(r)];
    }
  }

  /** The backward leg is sampled exactly when the record is complete, and the
      sample is CR - SS modulo 2^64. */
  lemma AggregateBackwardLeg(s: Stats, r: RawRecord)
    ensures var s' := Aggregate(s, r);
      (Complete(r) ==>
         exists x :: s'.serverClient.samples == s.serverClient.samples + [x]
                     && Wrap64(x) == Wrap64(r.clientReceive - r.serverSend))
      && (!Complete(r) ==> s'.serverClient.samples == s.serverClient.samples)
  {
    var s' := Aggregate(s, r);
    if Complete(r) {
      assert s'.serverClient.samples == s.serverClient.samples + [BackwardDelay(r)];
    }
  }

  /** For a complete record with no clock skew the round-trip sample is the
      sum of the two legs, and the internal sample their difference; each is
      recorded when at least a millisecond long. */
  lemma AggregateCompleteRecord(s: Stats, r: RawRecord)
    requires Complete(r) && r.serverReceive >= r.clientSend && r.clientReceive >= r.serverSend
    ensures var s' := Aggregate(s, r);
      var fwd := r.serverReceive - r.clientSend;
      var bwd := r.clientReceive - r.serverSend;
      s'.clientServer.samples == s.clientServer.samples + [fwd]
      && s'.serverClient.samples == s.serverClient.samples + [bwd]
      && s'.rtt.samples == (if fwd + bwd >= 1_000_000 then s.rtt.samples + [fwd + bwd] else s.rtt.samples)
      && s'.internal.samples ==
           (if bwd < fwd || bwd - fwd >= 1_000_000 then s.internal.samples + [bwd - fwd] else s.internal.samples)
  {
  }

  /** A record lost on the way back but seen by the reflector still adds
      samples: besides the losses, the internal accumulator receives the
      negated forward delay whenever that delay is positive, and the
      round-trip accumulator the forward delay alone when it is at least a
      millisecond. */
  lemma AggregateLostRecordStillSamples(s: Stats, r: RawRecord)
    requires r.clientSend > 0 && r.serverReceive > r.clientSend && r.clientReceive == 0
    ensures var s' := Aggregate(s, r);
      var fwd := r.serverReceive - r.clientSend;
      s'.rtt.samples == (if fwd >= 1_000_000 then s.rtt.samples + [fwd] else s.rtt.samples)
      && s'.rtt.losses == s.rtt.losses + 1
      && s'.internal.samples == s.internal.samples + [-fwd] && s'.internal.losses == s.internal.losses + 1
  {
  }

  // ---------------------------------------------------------------------
  // Eviction and the collator
  // ---------------------------------------------------------------------

  /** The eviction test on the oldest record: complete, or older than the
      timeout, measured as a uint64_t difference of nanosecond counts. */
  predicate ShouldEvict(r: RawRecord, now: U64, timeout: U8)
  {
    Complete(r) || Sub64(now, r.addedAt) > timeout * NANOS_PER_SECOND
  }

  /** What the collator owns: the observation queue, the records, the four
      accumulators and the finished flag. */
  datatype Collator = Collator(queue: seq<QEDObservation>, records: seq<RawRecord>,
                               stats: Stats, finished: bool)

  /** check_if_oldest_packet_should_be_processed with the clock reading `now`
      and the sender's completion time. */
  function CheckOldest(c: Collator, now: U64, timeout: U8, sendingCompleted: U64): Collator
  {
    if |c.records| > 0 && ShouldEvict(c.records[0], now, timeout) then
      c.(records := c.records[1..], stats := Aggregate(c.stats, c.records[0]))
    else if |c.records| == 0 && sendingCompleted > 0 then
      c.(finished := true)
    else c
  }

  /** At most the oldest record leaves, only when it is due, and its delays go
      into the accumulators; otherwise the records and accumulators stay. The
      finished flag is raised only on an empty store once sending is done. */
  lemma CheckOldestEffect(c: Collator, now: U64, timeout: U8, sendingCompleted: U64)
    ensures var c' := CheckOldest(c, now, timeout, sendingCompleted);
      c'.queue == c.queue
      && (c'.records == c.records || (|c.records| > 0 && c'.records == c.records[1..]))
      && (|c.records| > 0 && ShouldEvict(c.records[0], now, timeout) <==> |c'.records| < |c.records|)
      && (|c'.records| < |c.records| ==> c'.stats == Aggregate(c.stats, c.records[0]))
      && (|c'.records| == |c.records| ==> c'.stats == c.stats)
      && (c'.finished <==> c.finished || (|c.records| == 0 && sendingCompleted > 0))
  {
  }

  /** One turn of runCollatorThread's loop: ingest the front observation if
      the queue has one, else run the eviction check. */
  function CollatorStep(c: Collator, now: U64, timeout: U8, sendingCompleted: U64): Collator
  {
    if |c.queue| > 0 then
      c.(queue := c.queue[1..], records := Ingest(c.records, c.queue[0], now))
    else CheckOldest(c, now, timeout, sendingCompleted)
  }

  /** The loop of runCollatorThread over successive clock readings, stopping
      once the finished flag is up or the readings run out. */
  function RunCollator(c: Collator, nows: seq<U64>, timeout: U8, sendingCompleted: U64): Collator
    decreases |nows|
  {
    if c.finished || |nows| == 0 then c
    else RunCollator(CollatorStep(c, nows[0], timeout, sendingCompleted), nows[1..], timeout, sendingCompleted)
  }

  /** The collator keeps at most one record per packet id. */
  lemma {:induction false} RunCollatorKeepsIdsUnique(c: Collator, nows: seq<U64>, timeout: U8, sendingCompleted: U64)
    requires UniqueIds(c.records)
    ensures UniqueIds(RunCollator(c, nows, timeout, sendingCompleted).records)
    decreases |nows|
  {
    if !c.finished && |nows| > 0 {
      var c' := CollatorStep(c, nows[0], timeout, sendingCompleted);
      if |c.queue| > 0 {
        IngestEffect(c.records, c.queue[0], nows[0]);
      }
      RunCollatorKeepsIdsUnique(c', nows[1..], timeout, sendingCompleted);
    }
  }

  /** The collator stops only with an empty store and an empty queue, and only
      after sending has completed. */
  lemma {:induction false} RunCollatorFinishes(c: Collator, nows: seq<U64>, timeout: U8, sendingCompleted: U64)
    requires !c.finished
    ensures var c' := RunCollator(c, nows, timeout, sendingCompleted);
      c'.finished ==> |c'.queue| == 0 && |c'.records| == 0 && sendingCompleted > 0
    decreases |nows|
  {
    if |nows| > 0 {
      var c' := CollatorStep(c, nows[0], timeout, sendingCompleted);
      if !c'.finished {
        RunCollatorFinishes(c', nows[1..], timeout, sendingCompleted);
      }
    }
  }

  // ---------------------------------------------------------------------
  // Per-reply delays and the sync flag
  // ---------------------------------------------------------------------

  /** The delays of one reply, as computeTimeData returns them. */
  datatype TimeData = TimeData(
    internalDelay: I64,
    serverClientDelay: I64,
    clientServerDelay: I64,
    rtt: U64,
    clientSendTime: U64,
    serverReceiveTime: U64,
    serverSendTime: U64)

  /** computeTimeData: the three reflector timestamps (sender, receive and send,
      all converted from network order at the reply's struct fields) as
      nanosecond counts, their signed differences, and the unsigned round trip.
      The client receive time may exceed INT64_MAX; its cast to int64_t wraps,
      and so may the signed difference after it. */
  function ComputeTimeData(clientReceiveTime: U64, p: ReflectorPacket): (t: TimeData)
    ensures t.clientSendTime == TimestampToNsec(Some(Ntohts(p.senderTimestamp)))
    ensures t.serverReceiveTime == TimestampToNsec(Some(Ntohts(p.receiveTimestamp)))
    ensures t.serverSendTime == TimestampToNsec(Some(Ntohts(p.timestamp)))
    ensures t.clientSendTime < TWO_63 && t.serverReceiveTime < TWO_63 && t.serverSendTime < TWO_63
    ensures t.internalDelay == t.serverSendTime - t.serverReceiveTime
    ensures t.clientServerDelay == t.serverReceiveTime - t.clientSendTime
    ensures clientReceiveTime < TWO_63 ==> t.serverClientDelay == clientReceiveTime - t.serverSendTime
    ensures clientReceiveTime >= t.clientSendTime ==> t.rtt == clientReceiveTime - t.clientSendTime
  {
    var cs := TimestampToNsec(Some(Ntohts(p.senderTimestamp)));
    var sr := TimestampToNsec(Some(Ntohts(p.receiveTimestamp)));
    var ss := TimestampToNsec(Some(Ntohts(p.timestamp)));
    TimeData(ss - sr, WrapI64(ToInt64(clientReceiveTime) - ss), sr - cs,
             Sub64(clientReceiveTime, cs), cs, sr, ss)
  }

  /** The arithmetic behind the sum of the legs: on counts below 2^63 and any
      uint64_t receive time, the signed legs add up to the unsigned round trip
      modulo 2^64. */
  lemma LegsSumArithmetic(cr: U64, cs: nat, sr: nat, ss: nat)
    requires cs < TWO_63 && sr < TWO_63 && ss < TWO_63
    ensures Wrap64((sr - cs) + (ss - sr) + WrapI64(ToInt64(cr) - ss)) == Sub64(cr, cs)
  {
    var sc := WrapI64(ToInt64(cr) - ss);
    // The signed client-side leg is the exact difference, or that minus 2^64
    // when the receive time's cast to int64_t wrapped.
    assert sc == cr - ss || (cr >= TWO_63 && sc == cr - ss - TWO_64);
    var sum := (sr - cs) + (ss - sr) + sc;
    if cr >= cs {
      if sum == cr - cs { Wrap64Of(sum, 0); } else { Wrap64Of(sum, 1); }
    } else {
      Wrap64Of(sum, 1);
    }
    Wrap64Of(cr - cs, if cr >= cs then 0 else 1);
  }

  /** The three legs add up to the round trip, modulo 2^64. */
  lemma LegsSumToRoundTrip(clientReceiveTime: U64, p: ReflectorPacket)
    ensures var t := ComputeTimeData(clientReceiveTime, p);
      Wrap64(t.clientServerDelay + t.internalDelay + t.serverClientDelay) == t.rtt
  {
    var t := ComputeTimeData(clientReceiveTime, p);
    assert t.serverClientDelay == WrapI64(ToInt64(clientReceiveTime) - t.serverSendTime);
    assert t.rtt == Sub64(clientReceiveTime, t.clientSendTime);
    LegsSumArithmetic(clientReceiveTime, t.clientSendTime, t.serverReceiveTime, t.serverSendTime);
  }

  /** isWithinEpsilon over exact real numbers. */
  predicate WithinEpsilon(a: real, b: real, percentEpsilon: real)
  {
    var diff := if a >= b then a - b else b - a;
    var absA := if a >= 0.0 then a else -a;
    var absB := if b >= 0.0 then b else -b;
    diff <= (if absA >= absB then absA else absB) * percentEpsilon
  }

  const SYNC_DELAY_EPSILON_THRESHOLD: real := 0.01

  /** The sync column of printMetrics: 'Y' when the round trip, stored in the
      int64_t rtt field of MetricData, agrees with the sum of the three legs
      (taken as uint64_t) to within 1%, then forced to 'N' when either one-way
      delay is negative. */
  function SyncFlag(t: TimeData): char
  {
    var estimated := Wrap64(t.clientServerDelay + t.serverClientDelay + t.internalDelay);
    var sync := if WithinEpsilon(ToInt64(t.rtt) as real * 0.000001, estimated as real * 0.000001,
                                 SYNC_DELAY_EPSILON_THRESHOLD) then 'Y' else 'N';
    if t.clientServerDelay < 0 || t.serverClientDelay < 0 then 'N' else sync
  }

  /** When the legs add up to the round trip modulo 2^64, the estimate is the
      round trip itself. Below 2^63 the epsilon test then passes, and only the
      signs of the one-way delays decide; from 2^63 on the int64_t copy of the
      round trip is negative while the estimate is not, and the flag is 'N'. */
  lemma SyncFlagOfConsistentLegs(t: TimeData)
    requires Wrap64(t.clientServerDelay + t.serverClientDelay + t.internalDelay) == t.rtt
    ensures SyncFlag(t) == 'Y' <==> t.clientServerDelay >= 0 && t.serverClientDelay >= 0 && t.rtt < TWO_63
  {
    var b := t.rtt as real * 0.000001;
    if t.rtt < TWO_63 {
      assert WithinEpsilon(b, b, SYNC_DELAY_EPSILON_THRESHOLD);
    } else {
      var a := ToInt64(t.rtt) as real * 0.000001;
      assert a < 0.0 && b > 0.0 && b - a > b && b - a > -a;
      assert !WithinEpsilon(a, b, SYNC_DELAY_EPSILON_THRESHOLD);
    }
  }

  /** The flag of every reply is 'Y' exactly when both one-way delays are
      non-negative and the round trip is below 2^63 (so that its int64_t copy
      is not negative). */
  lemma SyncIffOneWayDelaysNonNegative(clientReceiveTime: U64, p: ReflectorPacket)
    ensures var t := ComputeTimeData(clientReceiveTime, p);
      SyncFlag(t) == 'Y' <==> t.clientServerDelay >= 0 && t.serverClientDelay >= 0 && t.rtt < TWO_63
  {
    var t := ComputeTimeData(clientReceiveTime, p);
    LegsSumToRoundTrip(clientReceiveTime, p);
    assert t.clientServerDelay + t.serverClientDelay + t.internalDelay
        == t.clientServerDelay + t.internalDelay + t.serverClientDelay;
    SyncFlagOfConsistentLegs(t);
  }

  /** A reply received at 7 ns for a packet sent at 10 ns (a clock stepped
      back; the reflector stamped 20 and 5) gets 'N', although both one-way
      delays are non-negative: the round trip wraps past 2^63. */
  lemma SyncFlagOfBackwardClock()
    ensures var t := TimeData(-15, 2, 10, Sub64(7, 10), 10, 20, 5);
      t.clientServerDelay >= 0 && t.serverClientDelay >= 0
      && Wrap64(t.clientServerDelay + t.serverClientDelay + t.internalDelay) == t.rtt
      && SyncFlag(t) == 'N'
  {
    var t := TimeData(-15, 2, 10, Sub64(7, 10), 10, 20, 5);
    assert t.rtt == TWO_64 - 3;
    SyncFlagOfConsistentLegs(t);
  }
}
