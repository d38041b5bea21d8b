/** The option rules of src/client/main_client.cpp: the TOS/ECN normalisation,
    the address check that fills the host and port lists, the override of
    the sample count by a run time, the gates that decide which of the
    collator, the statistics and the JSON log run, and the accepted range of
    payload lengths. */
module ClientMain {
  import opened Words
  import opened Optional
  import opened Packets
  import opened TimeUtils
  import opened Util
  import opened Address
  import opened ClientLogic
  import opened Reflector
  import opened Session
  import opened TwampClient

  // ---------------------------------------------------------------------
  // TOS
  // ---------------------------------------------------------------------

  /** The TOS byte with its two ECN bits 11 turned into 10 (ECT(0) from CE):
      tos minus the AND of its two low bits. The six DSCP bits are kept, the
      value never grows, only the value with low bits 11 changes, and that
      by one. */
  function NormalizeTos(tos: U8): (t: U8)
    ensures t / 4 == tos / 4
    ensures t % 4 != 3
    ensures t <= tos
    ensures tos % 4 != 3 ==> t == tos
    ensures tos % 4 == 3 ==> t == tos - 1 && t % 4 == 2
  {
    tos - ((tos / 2) % 2) * (tos % 2)
  }

  /** Normalising twice changes nothing more. */
  lemma NormalizeTosIdempotent(tos: U8)
    ensures NormalizeTos(NormalizeTos(tos)) == NormalizeTos(tos)
  {
    var t := NormalizeTos(tos);
    assert t % 4 != 3;
  }

  /** The -T option: when given, the normalised value becomes the send TOS;
      otherwise the default stays. */
  function ApplyTosOption(args: Args, tos: Option<U8>): (a: Args)
    ensures tos.None? ==> a == args
    ensures tos.Some? ==> a == args.(sndTos := NormalizeTos(tos.value))
  {
    if tos.Some? then args.(sndTos := NormalizeTos(tos.value)) else args
  }

  // ---------------------------------------------------------------------
  // Addresses
  // ---------------------------------------------------------------------

  const ADDRESS_FORMAT_ERROR: string := "Address must be in the format IP:Port"

  /** The check run on each address argument: parse it by the IP version
      (IPv6 at the last colon, IPv4 at the first), and on success append the
      host and the port to the lists. A rejected address appends nothing and
      yields the error text; for any other IP version "" and port 0 are
      appended unchecked. */
  function CheckAddress(args: Args, text: string): (result: (Args, string))
    ensures var (a, err) := result;
      a.(remoteHosts := args.remoteHosts, remotePorts := args.remotePorts) == args
      && (err == "" ==>
            (|a.remoteHosts| == |args.remoteHosts| + 1 && a.remoteHosts[..|args.remoteHosts|] == args.remoteHosts
             && |a.remotePorts| == |args.remotePorts| + 1 && a.remotePorts[..|args.remotePorts|] == args.remotePorts))
      && (err != "" ==> err == ADDRESS_FORMAT_ERROR && a == args)
  {
    var parsed :=
      if args.ipVersion == IPV6 then ParseIPv6Port(text, "", 0)
      else if args.ipVersion == IPV4 then ParseIPPort(text, "", 0)
      else Parsed(true, "", 0);
    if !parsed.ok then (args, ADDRESS_FORMAT_ERROR)
    else (args.(remoteHosts := args.remoteHosts + [parsed.ip], remotePorts := args.remotePorts + [parsed.port]), "")
  }

  /** The check over the address arguments in order; CLI11 stops at the first
      rejection (the program then exits). Returns the options and the error,
      "" when every address passed. */
  function CheckAddresses(args: Args, texts: seq<string>): (result: (Args, string))
    decreases |texts|
  {
    if |texts| == 0 then (args, "")
    else
      var (a, err) := CheckAddress(args, texts[0]);
      if err != "" then (a, err) else CheckAddresses(a, texts[1..])
  }

  /** Every accepted address adds one host and one port, so the host and port
      lists keep equal lengths; when all addresses pass, each one added an
      entry. */
  lemma {:induction false} CheckAddressesKeepListsAligned(args: Args, texts: seq<string>)
    requires |args.remoteHosts| == |args.remotePorts|
    ensures var (a, err) := CheckAddresses(args, texts);
      |a.remoteHosts| == |a.remotePorts| && |args.remoteHosts| <= |a.remoteHosts|
      && a.remoteHosts[..|args.remoteHosts|] == args.remoteHosts
      && a.remotePorts[..|args.remotePorts|] == args.remotePorts
      && (err == "" ==> |a.remoteHosts| == |args.remoteHosts| + |texts|)
    decreases |texts|
  {
    if |texts| > 0 {
      var (a, err) := CheckAddress(args, texts[0]);
      if err == "" {
        CheckAddressesKeepListsAligned(a, texts[1..]);
        var (b, _) := CheckAddresses(a, texts[1..]);
        assert b.remoteHosts[..|args.remoteHosts|] == b.remoteHosts[..|a.remoteHosts|][..|args.remoteHosts|];
        assert b.remotePorts[..|args.remotePorts|] == b.remotePorts[..|a.remotePorts|][..|args.remotePorts|];
      }
    }
  }

  /** A well-formed IPv4 argument "host:port" appends exactly that host and port. */
  lemma CheckAddressAcceptsIPv4(args: Args, host: string, p: nat)
    requires args.ipVersion == IPV4 && ':' !in host && 0 < p < PORT_LIMIT
    ensures CheckAddress(args, host + ":" + Decimal(p))
         == (args.(remoteHosts := args.remoteHosts + [host], remotePorts := args.remotePorts + [p]), "")
  {
    ParseIPPortRoundTrip(host, p, "", 0);
  }

  /** A well-formed IPv6 argument "host:port" appends exactly that host and port. */
  lemma CheckAddressAcceptsIPv6(args: Args, host: string, p: nat)
    requires args.ipVersion == IPV6 && 0 < p < PORT_LIMIT
    ensures CheckAddress(args, host + ":" + Decimal(p))
         == (args.(remoteHosts := args.remoteHosts + [host], remotePorts := args.remotePorts + [p]), "")
  {
    ParseIPv6PortRoundTrip(host, p, "", 0);
  }

  /** An argument without a colon is rejected under IPv4 and IPv6. */
  lemma CheckAddressRejectsNoColon(args: Args, text: string)
    requires (args.ipVersion == IPV4 || args.ipVersion == IPV6) && ':' !in text
    ensures CheckAddress(args, text) == (args, ADDRESS_FORMAT_ERROR)
  {
  }

  /** Under any other IP version the check accepts anything, appending "" and 0. */
  lemma CheckAddressOtherVersion(args: Args, text: string)
    requires args.ipVersion != IPV4 && args.ipVersion != IPV6
    ensures CheckAddress(args, text)
         == (args.(remoteHosts := args.remoteHosts + [""], remotePorts := args.remotePorts + [0]), "")
  {
  }

  // ---------------------------------------------------------------------
  // Run mode
  // ---------------------------------------------------------------------

  /** A run time given together with a sample count wins: the count is reset
      to 0. */
  function ResolveRunMode(args: Args): (a: Args)
    ensures !(a.runtime > 0 && a.numSamples > 0)
    ensures a.runtime == args.runtime
    ensures args.runtime == 0 || args.numSamples == 0 ==> a == args
    ensures a == args.(numSamples := a.numSamples)
  {
    if args.runtime > 0 && args.numSamples > 0 then args.(numSamples := 0) else args
  }

  /** As written, the override defeats the run time: with the count reset to
      0, both thread loops read the run as unlimited, so the sender goes on
      past its run time and the receiver never stops, whatever the clock. */
  lemma TimedRunNeverStopsAsWritten(args: Args, index: U32, nowSeconds: int, startTime: U64,
                                    sendingCompleted: U64, received: int, sent: int)
    requires args.runtime > 0
    ensures SenderContinuesAsWritten(ResolveRunMode(args), index, nowSeconds, startTime)
    ensures ReceiverContinuesAsWritten(ResolveRunMode(args), sendingCompleted, received, sent, nowSeconds)
  {
  }

  /** As written, the sender of a timed run takes every turn its
      environment offers, so RunSenderThread never stops by itself however
      long ago its run time ran out. */
  lemma {:induction false} TimedSenderTakesEveryTurn(args: Args, events: seq<SendEvent>, startTime: U64, k: nat)
    requires args.runtime > 0 && k <= |events|
    ensures SenderTurns(ResolveRunMode(args), events, startTime, k) == |events|
    decreases |events| - k
  {
    if k < |events| {
      TimedRunNeverStopsAsWritten(args, Wrap32(k), events[k].nowSeconds, startTime, 0, 0, 0);
      TimedSenderTakesEveryTurn(args, events, startTime, k + 1);
    }
  }

  /** With the corrected loop conditions a timed run sends for as long as its
      run time lasts, whatever index it has reached, and the receiver then
      stops once every packet is answered or the timeout has passed; a counted
      run without run time sends exactly the indices below the count. */
  lemma ResolvedRunStops(args: Args, index: U32, nowSeconds: int, startTime: U64,
                         sendingCompleted: U64, received: int, sent: int)
    ensures var a := ResolveRunMode(args);
      (args.runtime > 0 ==>
        (SenderContinues(a, index, nowSeconds, startTime) <==> Sub64(Wrap64(nowSeconds), startTime) < args.runtime))
      && (args.runtime == 0 && args.numSamples > 0 ==>
        (SenderContinues(a, index, nowSeconds, startTime) <==> index < args.numSamples))
      && (args.runtime > 0 && sendingCompleted > 0 && sendingCompleted <= nowSeconds < TWO_64 ==>
        (ReceiverContinues(a, sendingCompleted, received, sent, nowSeconds)
         <==> received < sent && nowSeconds - sendingCompleted < args.timeout))
  {
    var a := ResolveRunMode(args);
    if args.runtime > 0 && sendingCompleted > 0 && sendingCompleted <= nowSeconds < TWO_64 {
      ReceiverStops(a, sendingCompleted, received, sent, nowSeconds);
    }
  }

  // ---------------------------------------------------------------------
  // Gates
  // ---------------------------------------------------------------------

  predicate RunsCollator(args: Args) { args.printFormat != "legacy" || args.printLostPackets }

  predicate PrintsStats(args: Args) { args.printDigest && args.printFormat != "legacy" }

  predicate WritesJson(args: Args) { |args.jsonOutputFile| > 0 && args.printFormat != "legacy" }

  /** The two outputs built from the collated statistics are only ever
      produced when the collator ran; in the legacy format without lost-packet
      counting none of the three runs. */
  lemma GatesNeedCollator(args: Args)
    ensures PrintsStats(args) ==> RunsCollator(args)
    ensures WritesJson(args) ==> RunsCollator(args)
    ensures args.printFormat == "legacy" && !args.printLostPackets ==>
      !RunsCollator(args) && !PrintsStats(args) && !WritesJson(args)
    ensures args.printFormat != "legacy" ==>
      RunsCollator(args) && (PrintsStats(args) <==> args.printDigest) && (WritesJson(args) <==> |args.jsonOutputFile| > 0)
  {
  }

  // ---------------------------------------------------------------------
  // Payload lengths
  // ---------------------------------------------------------------------

  const MIN_PAYLOAD_LEN: nat := 42
  const MAX_PAYLOAD_LEN: nat := 1473

  /** The range the -l option accepts as written: CLI::Range(42, 1473),
      both ends included. */
  predicate PayloadLenAcceptedAsWritten(len: int) { MIN_PAYLOAD_LEN <= len <= MAX_PAYLOAD_LEN }

  /** The range as written lets 1473 through, one byte more than a packet and
      than the reflector's receive buffer: such a datagram arrives truncated
      and is never reflected, whatever its last byte. */
  lemma AsWrittenRangeAdmitsUnreflectedLength(image: seq<U8>, extra: U8, kernel: Timespec,
                                              control: seq<ControlMessage>, receiveClock: Timestamp,
                                              sendClock: Timestamp, sendSucceeds: bool)
    requires |image| == TST_PKT_SIZE
    ensures PayloadLenAcceptedAsWritten(|image + [extra]|)
    ensures Reflect(RecvDatagram(image + [extra], kernel, control, receiveClock, sendClock, sendSucceeds)).None?
  {
  }

  /** The intended range: from the 42-byte reflector header up to the
      1472-byte packet. */
  predicate PayloadLenAccepted(len: int) { REFLECTOR_HEADER_SIZE <= len <= TST_PKT_SIZE }

  /** The corrected range differs from the written one only by 1473. */
  lemma CorrectedRangeDropsOnlyOversize(len: int)
    ensures PayloadLenAccepted(len) <==> PayloadLenAcceptedAsWritten(len) && len != MAX_PAYLOAD_LEN
  {
  }

  /** Every length in the corrected range meets the sender's bound, and its
      test packet is reflected at full length and read back by the client as
      exactly the packet the reflector built from it. */
  lemma CorrectedRangeIsReflected(idx: U32, clock: Timestamp, len: int, kernel: Timespec,
                                  control: seq<ControlMessage>, receiveClock: Timestamp, sendClock: Timestamp,
                                  sendSucceeds: bool)
    requires PayloadLenAccepted(len)
    ensures 0 <= len <= TST_PKT_SIZE
    ensures var e := RecvDatagram(SentDatagram(idx, clock, len), kernel, control, receiveClock, sendClock, sendSucceeds);
      var p := CraftReflectorPacket(CraftSenderPacket(idx, clock), kernel, receiveClock, IPHeaderOf(control), sendClock);
      Reflect(e).Some? && |Reflect(e).value| == len
      && DecodeReflector(Receive(Reflect(e).value).buffer) == p
  {
    ExchangeRoundTrip(idx, clock, len, kernel, control, receiveClock, sendClock, sendSucceeds);
  }
}
