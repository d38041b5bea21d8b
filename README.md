# TWAMP-Light sender, reflector and collator in Dafny

This project models getCUJO/twamp-light, a TWAMP-Light measurement tool. A
client (the Session-Sender) sends numbered test packets to one or more
reflectors (Session-Reflectors). A reflector stamps the receive and send times
into its reply. The client then correlates its own send and receive times with
the reflector's two timestamps, per packet id, and aggregates the delays.

The model covers these parts:

- **Wire format** (`packets.dfy`, `words.dfy`). The unauthenticated test
  packets of section 4.1.2 (sender) and section 4.2.1 (reflector) of RFC 5357.
  The reflector packet has one extra Sender TOS byte. The 16-bit Error
  Estimate follows section 4.1.2 of RFC 4656. Each packet is a datatype whose
  encoding is the struct's memory image on a little-endian host, so a field
  that passed through `htonl`/`htons` shows up on the wire in network order.
- **Time conversions** (`timeutils.dfy`). NTP seconds and fractions versus
  Unix `timeval`/`timespec`, `ntohts`/`htonts`, and counting in nanoseconds or
  microseconds.
- **Address parsing** (`address.dfy`). `strtol` and `c_str`, plus
  `parseIPPort` (first colon) and `parseIPv6Port` (last colon).
- **Template helpers** (`util.dfy`). `vectorToString`, including the
  one-character cut left by its `ostream_iterator`, and `select_randomly` with
  its static generator, which is seeded once.
- **Observation queue** (`packetlist.dfy`). `ObservationList` as a class over a
  `seq`, with FIFO order.
- **Correlation store and statistics** (`correlation.dfy`). The store is the
  `seq` of raw records that `process_observation` updates. The rule in
  `check_if_oldest_packet_should_be_processed` decides when the oldest record
  is evicted, and `aggregateRawData` turns it into four sample/loss
  accumulators. `computeTimeData` computes the delays. The sync flag is
  proved to be 'Y' exactly when both one-way delays are non-negative and the
  `uint64_t` round trip is below 2^63.
- **Client** (`clientlogic.dfy`, `client.dfy`). The `Client` class with the
  sender, receiver and collator thread loops as methods over event sequences.
  Each method is proved against the pure functions above. `RawData` is a class
  with fields.
- **Reflector** (`server.dfy`). `craftReflectorPacket`, `handleTestPacket`,
  `get_ip_header` and the `listen` loop with its `uint32_t` sample counter.
- **Exchange** (`session.dfy`). The full round trip: what the client sends is
  what the reflector reads, and the reply decodes to the packet the reflector
  crafted.
- **Front end** (`mainclient.dfy`). `main_client.cpp`: the TOS normalisation,
  the address validator, the runtime override, the output gates and the
  payload-length range.

Clocks, kernel timestamps, socket results and random draws are parameters or
event sequences. A method returns, or leaves in its object, what the C++ code
computes from them, within the limits listed under "## Left out". The client's
sender and receiver loops run under their loop conditions as written, including
the run-time defect recorded under "## Findings"; the corrected conditions
appear only as the corrected side of that finding.

The server source names the timestamp fields `send_time_data`,
`server_time_data` and `client_time_data`, and the error estimate
`error_estimate`. `include/packets.h` names them `timestamp`,
`receive_timestamp`, `sender_timestamp` and `timestamp_error_estimate`. The
model follows `include/packets.h` and matches the two sets of names by their
position and meaning.

The code calls `setPayloadLen`, `getAddedAtEpochNanoseconds` and the other
accessors of `RawData`, which `include/Client.h` does not define. The model
reads them as plain setters and getters of that struct's fields.

In the same way, `src/client/Client.cpp` and `src/server/Server.cpp` write
`MetricData` fields named `client_server_delay_nanoseconds`,
`internal_delay_nanoseconds`, `server_client_delay_nanoseconds` and
`rtt_delay_nanoseconds`. `include/Client.h` declares them as
`client_server_delay`, `internal_delay`, `server_client_delay` and
`rtt_delay`, all `int64_t`. The model matches the two sets of names by
position and meaning, and takes the widths from the header. In particular,
`Correlation.SyncFlag` reads the round trip as `int64_t` because of that
header.

Two different quantities share the names "internal delay" and "round trip".
`computeTimeData` (src/client/Client.cpp:543-552) uses them for SS - SR and
CR - CS, and `handleTestPacket` (src/server/Server.cpp:146) uses "internal
delay" for SS - SR too.
`aggregateRawData` (src/client/Client.cpp:403-412) uses them for bwd - fwd and
fwd + bwd, where fwd = SR - CS and bwd = CR - SS. The model keeps both
computations as written: `Correlation.ComputeTimeData` for the first pair and
`Correlation.Aggregate` for the second.

## Model

| member | source | states |
|---|---|---|
| Words.BigEndianRoundTrip | src/utils.cpp:288-301 | decoding the n big-endian bytes of any value below 256^n returns that value |
| Words.SwapImage32 | src/utils.cpp:288-301 | on a little-endian host, the memory image of `htonl(h)` is the big-endian byte sequence of h |
| Words.SwapImage16 | src/server/Server.cpp:194-195 | on a little-endian host, the memory image of `htons(h)` is the big-endian byte sequence of h |
| Words.Swap32Involutive | src/utils.cpp:288-301 | `ntohl` undoes `htonl` and `htonl` undoes `ntohl` |
| Words.Swap16Involutive | src/server/Server.cpp:194-195 | `ntohs` undoes `htons` and `htons` undoes `ntohs` |
| Words.Sub64 | src/client/Client.cpp:184-186 | `uint64_t` subtraction is the exact difference, or the difference plus 2^64 when the subtrahend is larger |
| Words.ToInt64 | src/client/Client.cpp:543-551 | the `int64_t` cast of a `uint64_t` is non-negative exactly below 2^63 and wraps back to the same `uint64_t` |
| Words.ToInt64OfSub64 | src/client/Client.cpp:543-552 | a `uint64_t` difference cast to `int64_t` is the exact difference whenever that fits in 64 signed bits |
| Packets.TimestampRoundTrip | include/packets.h:13-16 | a timestamp occupies 8 bytes, and decoding its image returns it |
| Packets.TimestampBytesRoundTrip | include/packets.h:13-16 | every 8-byte sequence is the image of the timestamp decoded from it |
| Packets.ClientOffsets | include/packets.h:19-24 | the sender packet's image holds the sequence number at bytes 0-3, the timestamp at 4-11, the error estimate at 12-13 and 1458 padding bytes from 14 |
| Packets.EncodeClient | include/packets.h:19-24 | the memory image of a sender packet is 1472 bytes; `Packets.ClientOffsets` gives its layout |
| Packets.ClientRoundTrip | include/packets.h:19-24 | decoding the 1472-byte image of a sender packet returns the packet |
| Packets.ClientBytesRoundTrip | include/packets.h:19-24 | every 1472-byte buffer is the image of the sender packet decoded from it |
| Packets.DecodeClient | include/packets.h:19-24 | reading a 1472-byte buffer as a sender packet; `Packets.ClientRoundTrip` and `Packets.ClientBytesRoundTrip` make it the inverse of `EncodeClient` |
| Packets.ReflectorOffsets | include/packets.h:27-40 | the reflector packet's image has the layout of section 4.2.1 of RFC 5357: fields at offsets 0, 4, 12, 14, 16, 24, 28, 36 and 38, Sender TTL at 40, Sender TOS at 41, and 1430 padding bytes from 42 |
| Packets.EncodeReflector | include/packets.h:27-40 | the memory image of a reflector packet is 1472 bytes; `Packets.ReflectorOffsets` gives its layout |
| Packets.ReflectorRoundTrip | include/packets.h:27-40 | decoding the 1472-byte image of a reflector packet returns the packet |
| Packets.ReflectorBytesRoundTrip | include/packets.h:27-40 | every 1472-byte buffer is the image of the reflector packet decoded from it |
| Packets.DecodeReflector | include/packets.h:27-40 | reading a 1472-byte buffer as a reflector packet; `Packets.ReflectorRoundTrip` and `Packets.ReflectorBytesRoundTrip` make it the inverse of `EncodeReflector` |
| Packets.DefaultPacketsAreZero | include/packets.h:13-40 | default-initialised sender and reflector packets are 1472 zero bytes, and both MBZ fields are zero |
| Packets.NetworkOrderOnWire | src/client/Client.cpp:450-452 | a word stored after `htonl` or `htons` appears on the wire as its big-endian bytes |
| Packets.ErrorEstimateRoundTrip | src/client/Client.cpp:447-452 | the S, Z, Scale and Multiplier fields of section 4.1.2 of RFC 4656 survive encoding and decoding |
| Packets.ErrorEstimateWordRoundTrip | src/client/Client.cpp:447-452 | every 16-bit error-estimate word is the encoding of the fields decoded from it |
| Packets.SyncErrorEstimate | src/server/Server.cpp:15-16 | 0x8001 means synchronised, Z clear, scale 0 and multiplier 1, and is sent as the bytes 0x80 0x01 |
| Packets.Receive | src/server/Server.cpp:77-116 | receiving into a zeroed 1472-byte buffer reports truncation exactly when the datagram is longer; otherwise the buffer starts with the whole datagram, and every byte past the received length stays zero |
| Packets.ReceiveFullReflectorPacket | src/client/Client.cpp:458-496 | a full-size reflector datagram is received untruncated and decodes to the packet that was sent |
| Packets.ReceiveFullClientPacket | src/server/Server.cpp:77-116 | a full-size sender datagram is received untruncated and decodes to the packet that was sent |
| Packets.ReceivePrefixOfZeroTail | src/server/Server.cpp:158-162 | receiving a prefix of an image whose remaining bytes are zero rebuilds the whole image in the buffer |
| TimeUtils.Ntohts | src/utils.cpp:288-294 | the stored timestamp's image is the big-endian bytes of the returned host-order seconds and fraction |
| TimeUtils.Htonts | src/utils.cpp:295-301 | the returned timestamp's image is the big-endian bytes of the host-order seconds and fraction |
| TimeUtils.HtontsNtohtsInverse | src/utils.cpp:288-301 | `ntohts` and `htonts` are inverse to each other |
| TimeUtils.HtontsFixedPoints | src/utils.cpp:288-301 | the all-zero and all-ones timestamps do not change under `htonts` |
| TimeUtils.UnixToNtpSeconds | src/utils.cpp:49 | NTP seconds are the Unix seconds plus 2208988800, modulo 2^32 |
| TimeUtils.NtpToUnixSeconds | src/utils.cpp:72 | Unix seconds are the NTP seconds minus 2208988800, wrapped into `uint32_t` for pre-1970 values |
| TimeUtils.SecondsRoundTrip | src/utils.cpp:44-89 | Unix to NTP to Unix returns the seconds modulo 2^32, and exactly for every value in 32-bit range |
| TimeUtils.NtpSecondsRoundTrip | src/utils.cpp:44-89 | NTP to Unix to NTP returns every NTP seconds value |
| TimeUtils.NanosToFraction | src/utils.cpp:60 | the fraction is the floor of nsec * 2^32 / 10^9 |
| TimeUtils.FractionToNanos | src/utils.cpp:88 | the nanoseconds are the floor of fraction * 10^9 / 2^32 |
| TimeUtils.MicrosToFraction | src/utils.cpp:50 | the fraction is the floor of usec * 2^32 / 10^6 |
| TimeUtils.FractionToMicros | src/utils.cpp:73 | the microseconds are the floor of fraction * 10^6 / 2^32 |
| TimeUtils.NanosFractionRoundTrip | src/utils.cpp:53-89 | nanoseconds to fraction and back loses at most one nanosecond |
| TimeUtils.MicrosFractionRoundTrip | src/utils.cpp:44-74 | microseconds to fraction and back loses at most one microsecond |
| TimeUtils.TimevalToTimestamp | src/utils.cpp:44-51 | a null argument leaves the output untouched; otherwise the output holds the NTP seconds and fraction of the timeval |
| TimeUtils.TimespecToTimestamp | src/utils.cpp:53-61 | a null argument leaves the output untouched; otherwise the output holds the NTP seconds and fraction of the timespec |
| TimeUtils.TimestampToTimeval | src/utils.cpp:63-74 | a null argument leaves the output untouched; otherwise the output holds the Unix seconds and microseconds of the timestamp |
| TimeUtils.TimestampToTimespec | src/utils.cpp:76-89 | a null argument leaves the output untouched; otherwise the output holds the Unix seconds and nanoseconds of the timestamp |
| TimeUtils.TimespecTimestampRoundTrip | src/utils.cpp:53-89 | timespec to timestamp to timespec keeps the seconds and loses at most one nanosecond |
| TimeUtils.TimevalTimestampRoundTrip | src/utils.cpp:44-74 | timeval to timestamp to timeval keeps the seconds and loses at most one microsecond |
| TimeUtils.TimestampToNsec | src/utils.cpp:107-112 | the nanosecond count is Unix seconds * 10^9 plus the fraction's nanoseconds, is 0 for a null pointer, and fits in `uint64_t` |
| TimeUtils.TimestampToUsec | src/utils.cpp:100-105 | the microsecond count is Unix seconds * 10^6 plus the fraction's microseconds, is 0 for a null pointer, and fits in `uint64_t` |
| TimeUtils.WholeSecondCounts | src/utils.cpp:100-112 | a timestamp with zero fraction counts whole seconds since 1970 in both units |
| TimeUtils.NanosecondsToTimespec | src/utils.cpp:114-119 | returns a timespec with non-negative seconds whose total nanoseconds equal the input |
| TimeUtils.NanosecondsToTimespecInverse | src/utils.cpp:114-119 | every normalised timespec whose count fits in `uint64_t` is rebuilt from that count |
| TimeUtils.NsecAgreesWithTimespec | src/utils.cpp:107-119 | splitting a timestamp's nanosecond count gives the same timespec as converting the timestamp directly |
| Address.Strtol | src/utils.cpp:313-314 | base-10 `strtol` stops within the string, clamps to the range of `long`, and yields 0 when nothing was converted |
| Address.StrtolEndsAfterDigits | src/utils.cpp:313-314 | after a conversion, the end pointer sits just past the last digit of a maximal digit run |
| Address.StrtolDecimal | src/utils.cpp:313-315 | `strtol` of the decimal text of n returns n and consumes the whole text |
| Address.CString | src/utils.cpp:314 | `c_str` sees the prefix up to the first NUL character |
| Address.FirstColon | src/utils.cpp:306 | `find(':')` is the position of the first colon, or none when there is none |
| Address.LastColon | src/utils.cpp:324 | `rfind(':')` is the position of the last colon, or none when there is none |
| Address.SplitAt | src/utils.cpp:310-319 | the host part is written before the port is checked; the result is true exactly when the port text is a whole number in 1..65535; the port is written only then |
| Address.ParseIPPort | src/utils.cpp:304-320 | without a colon nothing is written and the result is false; otherwise the input splits at its first colon |
| Address.ParseIPv6Port | src/utils.cpp:322-340 | without a colon nothing is written and the result is false; otherwise the input splits at its last colon |
| Address.DecimalPortAccepted | src/utils.cpp:313-318 | the decimal text of every port in 1..65535 is accepted, with that value |
| Address.ParseIPPortRoundTrip | src/utils.cpp:304-320 | for a host without a colon, parsing host:port returns that host and port |
| Address.ParseIPv6PortRoundTrip | src/utils.cpp:322-340 | for any host, including one full of colons, parsing host:port returns that host and port |
| Address.ParseIPPortSplits | src/utils.cpp:304-320 | a successful parse returns a host without a colon, and the input is that host, a colon and an accepted port text of the returned value |
| Address.PortWrittenOnlyOnSuccess | src/utils.cpp:304-340 | both parsers leave the caller's port untouched when they fail |
| Address.RejectsZero | src/utils.cpp:315 | port 0 is rejected |
| Address.RejectsTooHigh | src/utils.cpp:315 | port 65536 is rejected |
| Address.RejectsNegative | src/utils.cpp:315 | port -1 is rejected |
| Address.RejectsLetters | src/utils.cpp:313-315 | a port text with no digits, or an empty one, is rejected |
| Address.StrtolStopsAfterDigits | src/utils.cpp:313-314 | `strtol` stops exactly at the first non-digit after a run of digits |
| Address.RejectsTrailingText | src/utils.cpp:315 | a port text with characters after its digits is rejected |
| Address.EmptyHostAccepted | src/utils.cpp:304-320 | ":port" is accepted with an empty host |
| Address.SampleIPv6Address | src/utils.cpp:322-337 | "::1" splits into host ":" and port 1 |
| Address.SampleRejections | src/utils.cpp:304-340 | an address without a port, a lone colon and the empty string are rejected |
| Util.DropLast | include/utils.hpp:53 | `substr(0, size() - 1)` removes the last character, and of the empty string leaves the empty string |
| Util.VectorToString | include/utils.hpp:46-54 | the streaming loop produces the elements each followed by the C-string delimiter, minus the final character |
| Util.StreamedIsJoin | include/utils.hpp:50-52 | streaming a non-empty vector gives the elements joined by the delimiter, followed by one more delimiter |
| Util.EmptyVector | include/utils.hpp:46-54 | an empty vector gives the empty string |
| Util.OneCharacterSeparator | include/utils.hpp:46-54 | with a one-character separator the result is the elements joined by it |
| Util.LongSeparator | include/utils.hpp:46-54 | with a longer separator the result keeps all but the last character of the trailing separator |
| Util.EmptySeparator | include/utils.hpp:46-54 | with an empty separator the last character of the last element is lost |
| Util.SelectIndex | include/utils.hpp:58 | the uniform draw over 0..n-1 lies in that range |
| Util.SelectRandomly | include/utils.hpp:55-61 | the selected element belongs to the range |
| Util.StaticGenerator.constructor | include/utils.hpp:66-67 | the static generator starts unseeded, with no draws taken |
| Util.StaticGenerator.Select | include/utils.hpp:63-69 | the first call seeds the generator with the requested seed, or the device seed when that is 0, and later calls keep that seed; every call takes one draw and returns an index below n |
| PacketList.ObservationList.constructor | include/packetlist.h:49 | a new list is empty |
| PacketList.ObservationList.AddObservation | include/packetlist.h:65-69 | pushing appends at the back |
| PacketList.ObservationList.PopObservation | include/packetlist.h:71-77 | popping a non-empty list returns the front and leaves the rest in order |
| PacketList.ObservationList.GetOldestEntry | include/packetlist.h:78-85 | returns null exactly for an empty list, and otherwise the front, without removing it |
| PacketList.ObservationList.GetSize | include/packetlist.h:86-90 | returns the number of queued items |
| PacketList.ObservationList.IsEmpty | include/packetlist.h:61-64 | true exactly when nothing is queued |
| Correlation.NewRecord | src/client/Client.cpp:253-258 | a fresh record carries its creation time and packet id, with every timestamp and the payload length at 0 |
| Correlation.Stamp | src/client/Client.cpp:261-281 | an observation overwrites the payload length and exactly the timestamp of its own observation point; the id and creation time stay |
| Correlation.CompleteMeansEveryPoint | src/client/Client.cpp:296-303 | a record is complete exactly when all four observation points have a non-zero time |
| Correlation.IndexOf | src/client/Client.cpp:243-252 | the scan finds the first record with the packet id, or reports none when no record has it |
| Correlation.Ingest | src/client/Client.cpp:240-287 | process_observation on the store as a value; `Correlation.IngestEffect` and `Correlation.LookupAfterIngest` state its effect |
| Correlation.IngestEffect | src/client/Client.cpp:240-287 | ingesting keeps ids unique; a known id stamps its record in place; an unknown id appends one new stamped record; every other record is unchanged |
| Correlation.IngestKeepsIdsUnique | src/client/Client.cpp:240-287 | the store never holds two records with the same packet id |
| Correlation.Lookup | src/client/Client.cpp:243-252 | a record is found exactly for the ids in the store, and carries that id |
| Correlation.LookupAfterIngest | src/client/Client.cpp:240-287 | after an observation, its id maps to the old record (or a new one) stamped by it, and every other id maps to what it did before |
| Correlation.IngestAllUnique | src/client/Client.cpp:344-352 | ingesting any sequence of observations keeps ids unique |
| Correlation.StampedPersists | src/client/Client.cpp:240-287 | once a point of a packet has a non-zero time, later observations with non-zero times keep it non-zero |
| Correlation.StampedBy | src/client/Client.cpp:261-281 | an observation with a non-zero time stamps its point on its packet's record |
| Correlation.CompleteInAnyOrder | src/client/Client.cpp:240-287 | if every point of a packet is either already stamped or observed, the record is complete, whatever the arrival order |
| Correlation.LastObservationSetsPayloadLen | src/client/Client.cpp:261 | a record's payload length is the one carried by the last observation of its packet |
| Correlation.ForwardDelay | src/client/Client.cpp:376-383 | the client-to-server sample is the `uint64_t` difference of server receive and client send |
| Correlation.BackwardDelay | src/client/Client.cpp:384-393 | for a complete record the server-to-client sample is the `uint64_t` difference of client receive and server send |
| Correlation.MillisecondsOfNormalisedTimespec | src/client/Client.cpp:402-411 | `tspecmsec` of a normalised timespec, sec * 1000 + nsec / 10^6, is the delay in nanoseconds divided by 10^6 and rounded down, so it is non-zero exactly for negative delays and delays of at least 1 ms |
| Correlation.Aggregate | src/client/Client.cpp:372-413 | aggregateRawData on the four accumulators as values; the four `Aggregate*` lemmas below state its effect |
| Correlation.AggregateLosses | src/client/Client.cpp:384-400 | an incomplete record counts one loss in each of the four accumulators, and a complete record counts none |
| Correlation.AggregateForwardLeg | src/client/Client.cpp:376-383 | one client-to-server sample is added exactly when both forward timestamps are known |
| Correlation.AggregateBackwardLeg | src/client/Client.cpp:384-393 | one server-to-client sample is added exactly when the record is complete |
| Correlation.AggregateCompleteRecord | src/client/Client.cpp:372-413 | for a complete record with SR >= CS and CR >= SS, and with fwd = SR - CS and bwd = CR - SS: fwd goes to `stats_client_server` and bwd to `stats_server_client`. The code then puts bwd - fwd into `stats_internal` when that is negative or at least 1 ms (Client.cpp:403-406), and fwd + bwd into `stats_RTT` when that is at least 1 ms (Client.cpp:409-412) |
| Correlation.AggregateLostRecordStillSamples | src/client/Client.cpp:394-412 | a record missing its reply but with a positive forward delay counts a loss in each accumulator, still adds minus that delay as an internal sample, and adds the delay as a round-trip sample when it is at least 1 ms |
| Correlation.ShouldEvict | src/client/Client.cpp:296-307 | the oldest record is due when complete or older than the timeout, compared as a `uint64_t` difference of nanoseconds; used by `Correlation.CheckOldestEffect` |
| Correlation.CheckOldest | src/client/Client.cpp:289-336 | check_if_oldest_packet_should_be_processed on the collator state as a value; `Correlation.CheckOldestEffect` states its effect |
| Correlation.CollatorStep | src/client/Client.cpp:345-356 | one collator turn: ingest the front observation when the queue is not empty, and check the oldest record otherwise |
| Correlation.RunCollator | src/client/Client.cpp:339-358 | the collator loop over clock readings, until finished; `Correlation.RunCollatorKeepsIdsUnique` and `Correlation.RunCollatorFinishes` state what it keeps and when it ends |
| Correlation.CheckOldestEffect | src/client/Client.cpp:289-336 | at most the oldest record leaves, exactly when it is complete or older than the timeout, and its delays are aggregated; the finished flag rises only on an empty store after sending completed |
| Correlation.RunCollatorKeepsIdsUnique | src/client/Client.cpp:339-358 | the collator loop keeps one record per packet id |
| Correlation.RunCollatorFinishes | src/client/Client.cpp:331-358 | the collator finishes only with an empty queue and an empty store, after sending completed |
| Correlation.ComputeTimeData | src/client/Client.cpp:508-555 | the three reply timestamps are converted to nanoseconds; the one-way and internal delays are their signed differences; the round trip is the `uint64_t` difference of client receive and client send |
| Correlation.LegsSumToRoundTrip | src/client/Client.cpp:543-552 | the two one-way delays plus the internal delay add up, modulo 2^64, to the round trip |
| Correlation.SyncFlag | src/client/Client.cpp:732-749 | the sync column of printMetrics, with the round trip read through its `int64_t` copy (src/client/Client.cpp:577); the two lemmas below characterise it |
| Correlation.SyncFlagOfConsistentLegs | src/client/Client.cpp:732-749 | when the legs add up to the round trip, the sync flag is 'Y' exactly when both one-way delays are non-negative and the round trip, copied into the `int64_t` field, is not negative |
| Correlation.SyncIffOneWayDelaysNonNegative | src/client/Client.cpp:732-749 | for every reply the sync flag is 'Y' exactly when both one-way delays are non-negative and the round trip is below 2^63 |
| Correlation.SyncFlagOfBackwardClock | src/client/Client.cpp:543-552 | a reply received before its send time, with both one-way delays non-negative, gets 'N' because the `uint64_t` round trip wraps past 2^63 |
| ClientLogic.DefaultArgs | include/Client.h:21-49 | the client defaults: IPv4, 10 samples, a 10 s timeout, seed 0, no runtime, TOS 0, the legacy format and no addresses |
| ClientLogic.CraftSenderPacket | src/client/Client.cpp:445-456 | the sender packet's padding is zero |
| ClientLogic.SenderPacketOnWire | src/client/Client.cpp:445-456 | the sender packet carries the index and the clock in network order, the error estimate bytes 0x80 0x01 and zero padding |
| ClientLogic.SenderPacketDecodes | src/client/Client.cpp:442-456 | the receiver of a sender packet reads back the index and the send clock |
| ClientLogic.SentDatagram | src/client/Client.cpp:424-426 | the datagram is the first payload-length bytes of the sender packet's image |
| ClientLogic.LeadingSuccesses | src/client/Client.cpp:427-441 | the per-host send loop counts the successes before the first failure, which stops it |
| ClientLogic.ClientReceiveTime | src/client/Client.cpp:592-607 | without a kernel timestamp the wall clock's nanoseconds are used, and otherwise the kernel timespec's nanoseconds |
| ClientLogic.ReplyObservations | src/client/Client.cpp:618-642 | a reply queues server-send, server-receive and client-receive observations, in that order, for its packet id and length |
| ClientLogic.ReplyCoversEveryPoint | src/client/Client.cpp:618-642 | for a packet whose send was recorded, the reply's observations cover every remaining point |
| ClientLogic.ReplyCompletesRecord | src/client/Client.cpp:618-642 | collating a reply for a packet whose send was recorded makes its record complete, with the reply's payload length |
| ClientLogic.CorrectedConditionsAgreeWithoutRuntime | src/client/Client.cpp:171-238 | without a runtime, the corrected loop conditions of the sender and receiver agree with the written ones |
| ClientLogic.SenderContinuesAsWritten | src/client/Client.cpp:184-186 | the sender loop condition as written: a zero sample count is unlimited even when a runtime is set |
| ClientLogic.ReceiverContinuesAsWritten | src/client/Client.cpp:233-235 | the receiver loop condition as written: unlimited with a zero sample count or while sending goes on |
| ClientLogic.ReceiverStopsAsWritten | src/client/Client.cpp:229-238 | with a sample count, after sending completed, the receiver goes on exactly while replies are missing and the timeout has not passed |
| ClientLogic.SenderContinues | src/client/main_client.cpp:120-125 | the corrected sender condition of the runtime finding: a zero sample count is unlimited only without a runtime |
| ClientLogic.ReceiverContinues | src/client/main_client.cpp:120-125 | the corrected receiver condition of the runtime finding |
| ClientLogic.ReceiverStops | src/client/main_client.cpp:120-125 | the corrected receiver condition of the runtime finding: on every run bounded by a sample count or a runtime, after sending completed, the receiver goes on exactly while replies are missing and the timeout has not passed |
| ClientLogic.DecodeObservationPointInjective | src/client/Client.cpp:152-168 | the four observation points have distinct names, none of them "unknown" |
| ClientLogic.DecodeObservationPoint | src/client/Client.cpp:152-168 | the column name of each observation point; `ClientLogic.DecodeObservationPointInjective` states that the names are distinct |
| ClientLogic.MapTosToTrafficClass | src/client/Client.cpp:918-932 | the traffic class of the four WMM TOS values, and "Unknown" otherwise; `ClientLogic.TrafficClassRoundTrip` states its inverse |
| ClientLogic.TrafficClassRoundTrip | src/client/Client.cpp:918-932 | a TOS value maps to a named traffic class exactly when that name maps back to it, and every named class maps back to its TOS |
| TwampClient.RawData.constructor | src/client/Client.cpp:256-257 | a new raw-data entry holds the fresh record of its packet id |
| TwampClient.RawData.Record | src/client/Client.cpp:261-281 | the entry becomes its old record stamped by the observation |
| TwampClient.RawData.SetPayloadLen | src/client/Client.cpp:261 | only the payload length changes |
| TwampClient.RawData.SetClientSendEpochNanoseconds | src/client/Client.cpp:263-266 | only the client send time changes |
| TwampClient.RawData.SetServerReceiveEpochNanoseconds | src/client/Client.cpp:267-270 | only the server receive time changes |
| TwampClient.RawData.SetServerSendEpochNanoseconds | src/client/Client.cpp:271-274 | only the server send time changes |
| TwampClient.RawData.SetClientReceiveEpochNanoseconds | src/client/Client.cpp:275-278 | only the client receive time changes |
| TwampClient.SenderTurnAppends | src/client/Client.cpp:187-222 | one sender turn adds its successful sends to the count, and queues one client-send observation exactly when every host was reached |
| TwampClient.SenderAccounts | src/client/Client.cpp:187-222 | the send count and the queued observations after turn k+1 match the totals over the first k+1 events |
| TwampClient.SenderTurns | src/client/Client.cpp:184-186 | under the loop condition as written, the sender loop ends at the first turn where the condition is false, or when the events run out |
| TwampClient.SenderContinuesWithSampleCount | src/client/Client.cpp:184-186 | with a sample count and no runtime, the written condition continues exactly while the index is below the count |
| TwampClient.SenderTakesNumSamplesTurns | src/client/Client.cpp:171-224 | with a sample count and no runtime, the sender takes exactly that many turns, or all of them when there are fewer events |
| TwampClient.LatestOfNoneSelected | src/client/Client.cpp:203-208 | a variable overwritten only on selected turns keeps its value when no turn is selected |
| TwampClient.LatestIsLastSelected | src/client/Client.cpp:203-208 | such a variable holds the value of the last selected turn |
| TwampClient.LatestAppend | src/client/Client.cpp:203-208 | one more turn sets it exactly when that turn is selected |
| TwampClient.FirstSentIsEarliest | src/client/Client.cpp:203-206 | first_packet_sent_epoch_nanoseconds keeps a non-zero value; from 0 it takes the send time of the earliest fully sent packet with a non-zero time, and stays 0 when there is none |
| TwampClient.FirstSentAppend | src/client/Client.cpp:203-206 | one more turn sets the first send time exactly when it reached every host and the time is still 0 |
| TwampClient.DrawnLength | include/utils.hpp:63-69 | a drawn payload length is one of the configured lengths |
| TwampClient.TurnObservations | src/client/Client.cpp:621-642 | an accepted reply queues three observations, none for the client send point, and any other receive turn none |
| TwampClient.ReceiveObservationsAppend | src/client/Client.cpp:621-642 | one more receive turn appends its observations and adds one to the accepted count exactly when it is accepted |
| TwampClient.ReceiveObservationsCount | src/client/Client.cpp:618-642 | the receiver queues three observations per accepted reply, and never one for the client send point |
| TwampClient.ReceiverStepEffect | src/client/Client.cpp:458-496 | the outcome of awaitAndHandleResponse in terms of its receive event: count, queue, last receive time and last id change exactly for an accepted datagram |
| TwampClient.Client.constructor | src/client/Client.cpp:33-134 | a new client has zeroed counters, empty queues and store, empty statistics, and an unseeded generator |
| TwampClient.Client.GetSentPackets | src/client/Client.cpp:415-418 | returns the send counter |
| TwampClient.Client.FindEntry | src/client/Client.cpp:243-252 | the scan returns the index of the first record with the id, or none |
| TwampClient.Client.AppendRecord | src/client/Client.cpp:253-286 | a new record, stamped by the observation, is appended at the back of the store |
| TwampClient.Client.UpdateRecord | src/client/Client.cpp:261-281 | the found entry is stamped in place, and the list of entries is unchanged |
| TwampClient.Client.ProcessObservation | src/client/Client.cpp:240-287 | the store becomes `Ingest` of the old store, so ids stay unique and the observation lands on its packet's record |
| TwampClient.Client.AggregateRawData | src/client/Client.cpp:372-413 | the statistics become the old ones aggregated with the entry's record |
| TwampClient.Client.EvictOldest | src/client/Client.cpp:304-330 | the oldest entry is aggregated and removed from the front |
| TwampClient.Client.CheckIfOldestPacketShouldBeProcessed | src/client/Client.cpp:289-336 | the client's state becomes `CheckOldest` of its old state |
| TwampClient.Client.IngestNextObservation | src/client/Client.cpp:347-352 | the front observation leaves the queue and is ingested into the store |
| TwampClient.Client.CollatorTurn | src/client/Client.cpp:345-356 | the client's state becomes `CollatorStep` of its old state |
| TwampClient.Client.CollatorLoopTurn | src/client/Client.cpp:344-357 | one loop turn preserves the invariant that running the rest of the clock readings reaches `RunCollator` of the starting state |
| TwampClient.Client.RunCollatorThread | src/client/Client.cpp:339-358 | the collator thread marks itself started, and leaves the client in `RunCollator` of its starting state |
| TwampClient.Client.HandleReflectorPacket | src/client/Client.cpp:587-650 | the reply updates the receive time, the last id and the receive count, and queues its three observations only when the collator runs |
| TwampClient.Client.AwaitAndHandleResponse | src/client/Client.cpp:458-496 | a receive error or a truncated datagram changes nothing and returns false; otherwise the decoded reply is handled with its received length |
| TwampClient.Client.RunReceiverThread | src/client/Client.cpp:229-238 | under the loop condition as written, the receiver stops at the first event where the condition fails; it counts the accepted datagrams, queues their three observations each when the collator runs, and leaves the receive time and the id of the last accepted reply |
| TwampClient.Client.ReceiverLoopTurn | src/client/Client.cpp:233-237 | one receive turn extends the count, the queue, the last receive time and the last id to the totals over one more event |
| TwampClient.Client.SendPacket | src/client/Client.cpp:420-443 | each reached host counts one send; the send clock is returned only when every host was reached; the datagram is the packet's prefix |
| TwampClient.Client.SenderTurn | src/client/Client.cpp:187-222 | one turn takes the payload length of the next draw from the static generator (seeded on its first call), counts its sends, updates the first and last send times and queues a client-send observation when every host was reached and the collator runs |
| TwampClient.Client.SenderLoopTurn | src/client/Client.cpp:184-223 | one loop turn keeps the send count, the queue, the first and last send times, the generator's state and the drawn lengths equal to the totals over the events taken so far |
| TwampClient.Client.RunSenderThread | src/client/Client.cpp:171-225 | under the loop condition as written, the sender takes `SenderTurns` turns; the lengths are the generator's successive draws; it counts all sends, queues one observation per fully sent packet when the collator runs, leaves the first and last send times of the fully sent packets, and records the completion time |
| Reflector.GetIPHeader | src/utils.cpp:135-178 | the loop over control messages computes the TTL and TOS of the specification function `IPHeaderOf` |
| Reflector.IPHeaderOf | src/utils.cpp:135-178 | the TTL and TOS the control messages give; `Reflector.IPHeaderDefaults` and `Reflector.LastTtlWins` characterise it |
| Reflector.IPHeaderDefaults | src/utils.cpp:138-139 | with no TTL or hop-limit message the TTL is 255, and with no TOS message the TOS is 0 |
| Reflector.LastTtlWins | src/utils.cpp:143-171 | the last IP_TTL or IPV6_HOPLIMIT message decides the TTL |
| Reflector.ServerTimestamp | src/server/Server.cpp:178-185 | the kernel timestamp is used when one is present, and the wall clock otherwise |
| Reflector.CraftReflectorPacket | src/server/Server.cpp:173-201 | the reply built from a request; `Reflector.ReplyEchoesRequest`, `Reflector.ReplyOwnFields` and `Reflector.ReplyIPHeaderDefaults` state its fields |
| Reflector.ReplyEchoesRequest | src/server/Server.cpp:186-201 | the reply's sequence numbers, sender timestamp and sender error estimate equal the request's, byte for byte on the wire |
| Reflector.ReplyOwnFields | src/server/Server.cpp:186-201 | the reply carries the receive and send clocks in network order, the error estimate 0x8001, the request's TTL and TOS, and zero MBZ and padding |
| Reflector.ReplyIPHeaderDefaults | src/server/Server.cpp:191-193 | without TTL and TOS control messages the reply reports TTL 255 and TOS 0 |
| Reflector.HandleTestPacket | src/server/Server.cpp:121-171 | the reply sent back is exactly as long as the request |
| Reflector.HandleTestPacketEffect | src/server/Server.cpp:136-163 | the reply is the first payload-length bytes of the crafted packet; the metrics hold the client-to-server and internal delays, computed from the converted timestamps |
| Reflector.Reflect | src/server/Server.cpp:95-116 | a reply is built for a datagram exactly when it fits the buffer, with the same length |
| Reflector.Sent | src/server/Server.cpp:160-170 | a reply leaves the reflector exactly when the datagram fits and its `sendmsg` succeeds, and it is then the reply built |
| Reflector.ListenFromDatagram | src/server/Server.cpp:69-116 | one received datagram advances the sample counter and adds its reply before the rest of the loop |
| Reflector.ListenFrom | src/server/Server.cpp:66-119 | the listen loop over receive events, as a value; the `Listen*` lemmas below state its bounds and return codes |
| Reflector.Listen | src/server/Server.cpp:66-119 | the listen loop returns the outcome and the replies of the specification function `ListenFrom` |
| Reflector.ListenServesAtMostNumSamples | src/server/Server.cpp:69-76 | with a sample limit, at most the remaining number of datagrams is served, and the loop returns once that many events occurred |
| Reflector.ListenReflectsNumSamples | src/server/Server.cpp:69-116 | with a sample limit, and enough datagrams that all fit and whose replies all send, each one is reflected and the loop returns 0 |
| Reflector.ListenUnlimited | src/server/Server.cpp:95-105 | without a limit the loop returns only on a receive error, with 11 or 1 |
| Reflector.ListenCounterWrapsAtMaximum | src/server/Server.cpp:71-75 | with the largest `uint32_t` limit, the counter wraps to 0 and the next fitting datagram is served again when its reply sends |
| Reflector.OversizedDatagramNotReflected | src/server/Server.cpp:106-108 | a datagram longer than the buffer gets no reply, built or sent |
| Reflector.FailedSendStillCounts | src/server/Server.cpp:167-170 | a datagram whose reply fails to send uses up one sample, adds no reply, and listen goes on with the next event |
| Session.ReflectorReadsRequest | src/server/Server.cpp:77-116 | a datagram of at least 14 bytes reaches the reflector untruncated and decodes to the client's packet |
| Session.ExchangeRoundTrip | src/server/Server.cpp:95-170 | a request of at least 42 bytes is reflected at the same length, and the client decodes the crafted reply in full |
| Session.ReceiveReflectorPrefix | src/client/Client.cpp:458-496 | a reply prefix of at least 42 bytes decodes to the whole reflector packet, because its padding is zero |
| Session.ClientReadsItsOwnPacketBack | src/client/Client.cpp:609-618 | the client reads its own index, its send clock and its error estimate back from the reply, together with the reflector's two clocks |
| ClientMain.NormalizeTos | src/client/main_client.cpp:110-112 | the TOS keeps its DSCP bits and loses bit 0 exactly when both ECN bits are set |
| ClientMain.NormalizeTosIdempotent | src/client/main_client.cpp:110-112 | normalising twice is normalising once |
| ClientMain.ApplyTosOption | src/client/main_client.cpp:63-112 | the TOS option, when given, sets the normalised send TOS and nothing else |
| ClientMain.CheckAddress | src/client/main_client.cpp:71-86 | the validator either appends one host and one port, or returns the format error and changes nothing |
| ClientMain.CheckAddresses | src/client/main_client.cpp:69-86 | the validator over every address in turn; `ClientMain.CheckAddressesKeepListsAligned` states its effect |
| ClientMain.CheckAddressesKeepListsAligned | src/client/main_client.cpp:69-86 | the host and port lists stay equally long, extend the old lists, and grow by one per address when all are valid |
| ClientMain.CheckAddressAcceptsIPv4 | src/client/main_client.cpp:78-85 | under IPv4, host:port with a colon-free host appends that host and port |
| ClientMain.CheckAddressAcceptsIPv6 | src/client/main_client.cpp:74-85 | under IPv6, host:port appends that host and port |
| ClientMain.CheckAddressRejectsNoColon | src/client/main_client.cpp:74-82 | an address without a colon is rejected under IPv4 and IPv6 |
| ClientMain.CheckAddressOtherVersion | src/client/main_client.cpp:74-85 | under any other IP version every address is accepted, with an empty host and port 0 |
| ClientMain.ResolveRunMode | src/client/main_client.cpp:120-125 | a runtime clears the sample count, so both are never set at once; nothing else changes |
| ClientMain.GatesNeedCollator | src/client/main_client.cpp:130-141 | the statistics and the JSON output are produced only when the collator ran; in the legacy format without lost-packet counting none of the three runs |
| ClientMain.RunsCollator | src/client/main_client.cpp:130 | the collator runs unless the format is legacy without lost-packet counting |
| ClientMain.PrintsStats | src/client/main_client.cpp:136 | the statistics are printed with the digest option outside the legacy format |
| ClientMain.WritesJson | src/client/main_client.cpp:139 | the JSON log is written when a file is named, outside the legacy format |
| ClientMain.TimedRunNeverStopsAsWritten | src/client/main_client.cpp:120-125 | as written, a runtime makes both the sender and the receiver loop conditions always true |
| ClientMain.TimedSenderTakesEveryTurn | src/client/main_client.cpp:120-125 | as written, a timed run's sender takes every turn its events offer, so `RunSenderThread` never stops by itself |
| ClientMain.ResolvedRunStops | src/client/main_client.cpp:120-125 | with the corrected conditions, a timed sender stops when the runtime has elapsed, a counted one after the count, and the receiver after the timeout |
| ClientMain.AsWrittenRangeAdmitsUnreflectedLength | src/client/main_client.cpp:26-33 | the accepted range includes 1473, and a 1473-byte datagram is never reflected |
| ClientMain.CorrectedRangeDropsOnlyOversize | src/client/main_client.cpp:26-33 | the corrected range is the written one without 1473 |
| ClientMain.CorrectedRangeIsReflected | src/client/main_client.cpp:26-33 | every length in the corrected range is reflected at that length and decodes to the crafted reply |

## Left out

- Sockets. `socket`, `bind`, `getaddrinfo`, `sendmsg`, `recvmsg` and the socket options are results or event sequences given to the model. A failed client send is an `outcomes` entry. A receive is a `ServerEvent` or a `ReceiveEvent`, and the `sendSucceeds` field of a `ServerEvent` says whether the reflector's `sendmsg` of its reply succeeds.
- Threads. Threads, the observation queue's mutex and `usleep` run sequentially: the collator runs over a sequence of clock readings, and the sender and receiver over event sequences. Interleaving between the threads is not modelled.
- Clocks. `time(nullptr)`, `get_timestamp` and `clock_gettime` are parameters. `get_kernel_timestamp` is not modelled; the kernel timespec is a parameter.
- `get_ip_header` reads a modelled list of control messages, not a `msghdr`. Unexpected messages are skipped without the warning.
- Floating point. The `double` scaling of fractions is an exact integer floor. `isWithinEpsilon` is evaluated over exact reals.
- The exponential inter-packet delay and `std::mt19937` are not modelled. A draw is a parameter, and `uniform_int_distribution` is modelled as the draw modulo n.
- sqa_stats and the t-digest are foreign code. An accumulator is a sequence of samples plus a loss count, and `tspecminus` and `tspecplus` work on exact nanosecond counts.
- Correlation.MillisecondsNonZero: `tspecmsec` is not part of this model. It is taken to be sec * 1000 + nsec / 10^6 on a normalised timespec (0 <= nsec < 10^9), which is the delay in nanoseconds divided by 10^6 and rounded down. Every negative delay then counts as non-zero, so `Correlation.Aggregate` samples every negative internal delay, however small. A `tspecmsec` that truncates toward zero would skip the delays in (-1 ms, 0).
- Output is not modelled: printing, the legacy and raw formats, `printStats`, `JsonLog` and `printMetrics` except its sync decision.
- Command-line parsing by CLI11 is not modelled beyond the validator, the TOS rule, the range check and the runtime override. `src/server/main_server.cpp` is not part of this model.
- The host is taken to be little-endian. The values of `PAYLOAD_LEN_*` and `DEFAULT_MEAN_INTER_PACKET_DELAY` come from a header that is not part of this model, so the default payload lengths are a parameter of `ClientLogic.DefaultArgs`.
- TwampClient.Client.SendPacket: requires a payload length of at most 1472, as do `TwampClient.Client.SenderTurn` and `ClientLogic.SentDatagram`. A 1473-byte send reads one byte past the 1472-byte sender struct, and that byte has no defined value. `ClientMain.AsWrittenRangeAdmitsUnreflectedLength` models that datagram as the struct's image plus an arbitrary byte.
- ReflectorPacket fields the code never sets keep their zero defaults. The reflector's `MetricData` fields `sending_port` and peer address come from the socket and are left out. Its `receiving_port` is `std::stoi(args.local_port)` (src/server/Server.cpp:153) and is also left out, along with the exception `std::stoi` throws for a service name or an out-of-range port.
- Integer widths are explicit for the packet fields, timestamps and delays. The sum of the three legs is wrapped modulo 2^64 before the sync test. Each `int64_t` leg wraps where the code casts (`WrapI64`, `ToInt64`), and so does the round trip when it is copied into the `int64_t` field of `MetricData`. `time(nullptr)` differences are `uint64_t` subtractions.
- TwampClient.Client: `sent_packets` and `received_packets` are `int` in include/Client.h but unbounded in the model, so their overflow past 2^31 - 1 is not modelled.
- Address: a `std::string` is a sequence of bytes, but the model reads it as a sequence of Dafny `char`s, which are Unicode scalar values. The parsers only inspect `':'`, the digits, `'-'`, `'+'`, white space and NUL, so no result depends on this.
- Reflector.ListenServesAtMostNumSamples: stated only for limits below 2^32 - 1. At the maximum limit the counter wraps to 0 and the loop serves forever, which `Reflector.ListenCounterWrapsAtMaximum` shows.
- Reflector.ListenReflectsNumSamples: stated only for limits below 2^32 - 1, for the same reason.

## Findings

| source | as written | input that shows it | evidently intended | confidence | as-written member | corrected member |
|---|---|---|---|---|---|---|
| src/client/main_client.cpp:26-33 | payload lengths are accepted in the inclusive range 42..1473 | `-l 1473`: the client sends 1473 bytes, the reflector's 1472-byte buffer truncates the datagram, and no reply ever comes | accept 42..1472, the lengths that a packet holds and that the reflector reflects | not executed | ClientMain.AsWrittenRangeAdmitsUnreflectedLength | ClientMain.CorrectedRangeIsReflected |
| src/client/main_client.cpp:120-125 | with `--runtime` set, `num_samples` becomes 0, which the sender and receiver loop conditions (src/client/Client.cpp:184-186 and :233-235) read as "unlimited" | `--runtime 5 -n 10`, or `--runtime 5` alone: both loops continue at every step, so the client never stops; `TwampClient.Client.RunSenderThread` runs that condition, and `ClientMain.TimedSenderTakesEveryTurn` shows it takes every turn offered | the sender stops once the runtime has elapsed, and the receiver after the timeout ("limited to the sum of the runtime and timeout parameters") | not executed | ClientMain.TimedRunNeverStopsAsWritten | ClientMain.ResolvedRunStops |
