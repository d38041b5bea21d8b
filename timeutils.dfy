/** The time, byte-order and address helpers of src/utils.cpp.
    A `Timestamp*`/`timeval*`/`timespec*` argument is an `Option`: `None` is
    a null pointer, and a conversion returns what its target holds afterwards. */
module TimeUtils {
  import opened Words
  import opened Optional
  import opened Packets

  /** Seconds from 1900-01-01 (NTP era 0) to 1970-01-01 (Unix epoch). */
  const NTP_EPOCH_OFFSET: U32 := 2208988800
  const NANOS_PER_SECOND: nat := 1_000_000_000
  const MICROS_PER_SECOND: nat := 1_000_000

  type Nanos = x: int | 0 <= x < 1_000_000_000
  type Micros = x: int | 0 <= x < 1_000_000

  /** `struct timespec` with a normalised `tv_nsec`. */
  datatype Timespec = Timespec(sec: I64, nsec: Nanos)
  /** `struct timeval` with a normalised `tv_usec`. */
  datatype Timeval = Timeval(sec: I64, usec: Micros)

  // ------------------------------------------------------------ byte order

  /** ntohts: both words from network to host order. */
  function Ntohts(ts: Timestamp): (r: Timestamp)
    ensures EncodeTimestamp(ts) == BigEndian(r.integer, 4) + BigEndian(r.fractional, 4)
  {
    Swap32Involutive(ts.integer);
    Swap32Involutive(ts.fractional);
    SwapImage32(Ntohl(ts.integer));
    SwapImage32(Ntohl(ts.fractional));
    Timestamp(Ntohl(ts.integer), Ntohl(ts.fractional))
  }

  /** htonts: both words from host to network order, so the stored image is
      the two words in big-endian order. */
  function Htonts(ts: Timestamp): (r: Timestamp)
    ensures EncodeTimestamp(r) == BigEndian(ts.integer, 4) + BigEndian(ts.fractional, 4)
  {
    SwapImage32(ts.integer);
    SwapImage32(ts.fractional);
    Timestamp(Htonl(ts.integer), Htonl(ts.fractional))
  }

  lemma HtontsNtohtsInverse(ts: Timestamp)
    ensures Ntohts(Htonts(ts)) == ts
    ensures Htonts(Ntohts(ts)) == ts
  {
    Swap32Involutive(ts.integer);
    Swap32Involutive(ts.fractional);
  }

  /** All-zero and all-one words are their own byte swap. */
  lemma HtontsFixedPoints()
    ensures Htonts(Timestamp(0, 0)) == Timestamp(0, 0)
    ensures Htonts(Timestamp(0xFFFF_FFFF, 0xFFFF_FFFF)) == Timestamp(0xFFFF_FFFF, 0xFFFF_FFFF)
  {
    SwapZero();
    SwapOnes();
  }

  lemma SwapZero()
    ensures Htonl(0) == 0
  {
    var zero: seq<U8> := [0, 0, 0, 0];
    assert LittleEndian(0, 4) == zero;
    assert Reverse(zero) == zero;
    FromLittleEndianOfLittleEndian(0, 4);
  }

  lemma SwapOnes()
    ensures Htonl(0xFFFF_FFFF) == 0xFFFF_FFFF
  {
    var ones: seq<U8> := [0xFF, 0xFF, 0xFF, 0xFF];
    assert LittleEndian(0xFFFF_FFFF, 4) == ones;
    assert Reverse(ones) == ones;
    Pow256Values();
    FromLittleEndianOfLittleEndian(0xFFFF_FFFF, 4);
  }

  // ------------------------------------------------------- seconds (epoch)

  /** `(uint32_t) tv_sec + NTP_EPOCH_OFFSET`, in uint32_t arithmetic. */
  function UnixToNtpSeconds(sec: int): (r: U32)
    ensures (r - sec - NTP_EPOCH_OFFSET) % TWO_32 == 0
  {
    Wrap32(Wrap32(sec) + NTP_EPOCH_OFFSET)
  }

  /** `integer - NTP_EPOCH_OFFSET`, in uint32_t arithmetic. */
  function NtpToUnixSeconds(integer: U32): (r: U32)
    ensures integer >= NTP_EPOCH_OFFSET ==> r == integer - NTP_EPOCH_OFFSET
    ensures integer < NTP_EPOCH_OFFSET ==> r == integer - NTP_EPOCH_OFFSET + TWO_32
  {
    Wrap32(integer - NTP_EPOCH_OFFSET)
  }

  /** Seconds survive Unix to NTP to Unix exactly, modulo 2^32. */
  lemma SecondsRoundTrip(sec: int)
    ensures NtpToUnixSeconds(UnixToNtpSeconds(sec)) == Wrap32(sec)
    ensures 0 <= sec < TWO_32 ==> NtpToUnixSeconds(UnixToNtpSeconds(sec)) == sec
  {
  }

  lemma NtpSecondsRoundTrip(integer: U32)
    ensures UnixToNtpSeconds(NtpToUnixSeconds(integer)) == integer
  {
  }

  // ------------------------------------------------------ sub-second parts

  /** The NTP fraction of a nanosecond count: floor(nsec * 2^32 / 10^9). */
  function NanosToFraction(nsec: Nanos): (f: U32)
    ensures f * NANOS_PER_SECOND <= nsec * TWO_32 < (f + 1) * NANOS_PER_SECOND
  {
    nsec * TWO_32 / NANOS_PER_SECOND
  }

  /** The nanoseconds of an NTP fraction: floor(f * 10^9 / 2^32). */
  function FractionToNanos(f: U32): (nsec: Nanos)
    ensures nsec * TWO_32 <= f * NANOS_PER_SECOND < (nsec + 1) * TWO_32
  {
    f * NANOS_PER_SECOND / TWO_32
  }

  function MicrosToFraction(usec: Micros): (f: U32)
    ensures f * MICROS_PER_SECOND <= usec * TWO_32 < (f + 1) * MICROS_PER_SECOND
  {
    usec * TWO_32 / MICROS_PER_SECOND
  }

  function FractionToMicros(f: U32): (usec: Micros)
    ensures usec * TWO_32 <= f * MICROS_PER_SECOND < (usec + 1) * TWO_32
  {
    f * MICROS_PER_SECOND / TWO_32
  }

  /** The sub-second part loses less than one nanosecond on the way through NTP. */
  lemma NanosFractionRoundTrip(nsec: Nanos)
    ensures FractionToNanos(NanosToFraction(nsec)) == nsec
         || FractionToNanos(NanosToFraction(nsec)) == nsec - 1
  {
    var f := NanosToFraction(nsec);
    var back := FractionToNanos(f);
    // back <= nsec: back * 2^32 <= f * 10^9 <= nsec * 2^32.
    assert back * TWO_32 <= nsec * TWO_32;
    // back >= nsec - 1: (nsec - 1) * 2^32 < f * 10^9 because 2^32 > 10^9.
    assert (nsec - 1) * TWO_32 * NANOS_PER_SECOND < (f + 1 - 1) * NANOS_PER_SECOND * TWO_32 + NANOS_PER_SECOND * TWO_32 - NANOS_PER_SECOND * NANOS_PER_SECOND;
    assert (nsec - 1) * TWO_32 < (back + 1) * TWO_32;
  }

  /** Likewise for microseconds, within one microsecond. */
  lemma MicrosFractionRoundTrip(usec: Micros)
    ensures FractionToMicros(MicrosToFraction(usec)) == usec
         || FractionToMicros(MicrosToFraction(usec)) == usec - 1
  {
    var f := MicrosToFraction(usec);
    var back := FractionToMicros(f);
    assert back * TWO_32 <= usec * TWO_32;
    assert (usec - 1) * TWO_32 < (back + 1) * TWO_32;
  }

  // ------------------------------------------------------------ conversions

  /** timeval_to_timestamp(tv, ts): returns what *ts holds afterwards. */
  function TimevalToTimestamp(tv: Option<Timeval>, ts: Option<Timestamp>): (r: Option<Timestamp>)
    ensures (tv.None? || ts.None?) ==> r == ts
    ensures tv.Some? && ts.Some? ==>
      r.Some? && r.value.integer == UnixToNtpSeconds(tv.value.sec)
      && r.value.fractional == MicrosToFraction(tv.value.usec)
  {
    if tv.None? || ts.None? then ts
    else Some(Timestamp(UnixToNtpSeconds(tv.value.sec), MicrosToFraction(tv.value.usec)))
  }

  /** timespec_to_timestamp(tv, ts): returns what *ts holds afterwards. */
  function TimespecToTimestamp(tv: Option<Timespec>, ts: Option<Timestamp>): (r: Option<Timestamp>)
    ensures (tv.None? || ts.None?) ==> r == ts
    ensures tv.Some? && ts.Some? ==>
      r.Some? && r.value.integer == UnixToNtpSeconds(tv.value.sec)
      && r.value.fractional == NanosToFraction(tv.value.nsec)
  {
    if tv.None? || ts.None? then ts
    else Some(Timestamp(UnixToNtpSeconds(tv.value.sec), NanosToFraction(tv.value.nsec)))
  }

  /** timestamp_to_timeval(ts, tv): returns what *tv holds afterwards. */
  function TimestampToTimeval(ts: Option<Timestamp>, tv: Option<Timeval>): (r: Option<Timeval>)
    ensures (tv.None? || ts.None?) ==> r == tv
    ensures tv.Some? && ts.Some? ==>
      r.Some? && r.value.sec == NtpToUnixSeconds(ts.value.integer)
      && r.value.usec == FractionToMicros(ts.value.fractional)
  {
    if tv.None? || ts.None? then tv
    else Some(Timeval(NtpToUnixSeconds(ts.value.integer), FractionToMicros(ts.value.fractional)))
  }

  /** timestamp_to_timespec(ts, tv): returns what *tv holds afterwards. */
  function TimestampToTimespec(ts: Option<Timestamp>, tv: Option<Timespec>): (r: Option<Timespec>)
    ensures (tv.None? || ts.None?) ==> r == tv
    ensures tv.Some? && ts.Some? ==>
      r.Some? && r.value.sec == NtpToUnixSeconds(ts.value.integer)
      && r.value.nsec == FractionToNanos(ts.value.fractional)
  {
    if tv.None? || ts.None? then tv
    else Some(Timespec(NtpToUnixSeconds(ts.value.integer), FractionToNanos(ts.value.fractional)))
  }

  /** A Unix time inside NTP era 0's 32-bit window comes back from NTP with the
      same seconds and at most one unit less below the second. */
  lemma TimespecTimestampRoundTrip(tv: Timespec, ts0: Timestamp, tv0: Timespec)
    requires 0 <= tv.sec < TWO_32
    ensures var ts := TimespecToTimestamp(Some(tv), Some(ts0));
      var back := TimestampToTimespec(ts, Some(tv0));
      back.Some? && back.value.sec == tv.sec
      && (back.value.nsec == tv.nsec || back.value.nsec == tv.nsec - 1)
  {
    SecondsRoundTrip(tv.sec);
    NanosFractionRoundTrip(tv.nsec);
  }

  lemma TimevalTimestampRoundTrip(tv: Timeval, ts0: Timestamp, tv0: Timeval)
    requires 0 <= tv.sec < TWO_32
    ensures var ts := TimevalToTimestamp(Some(tv), Some(ts0));
      var back := TimestampToTimeval(ts, Some(tv0));
      back.Some? && back.value.sec == tv.sec
      && (back.value.usec == tv.usec || back.value.usec == tv.usec - 1)
  {
    SecondsRoundTrip(tv.sec);
    MicrosFractionRoundTrip(tv.usec);
  }

  /** The seconds of a timespec as a nanosecond count, `(uint64_t) sec * 10^9 + nsec`. */
  function TimespecToNanos(tv: Timespec): int
  {
    tv.sec * NANOS_PER_SECOND + tv.nsec
  }

  /** timestamp_to_nsec: nanoseconds since the Unix epoch; a null pointer gives 0
      (the zero-initialised timespec is left untouched). */
  function TimestampToNsec(ts: Option<Timestamp>): (r: U64)
    ensures ts.None? ==> r == 0
    ensures ts.Some? ==>
      r == NtpToUnixSeconds(ts.value.integer) * NANOS_PER_SECOND + FractionToNanos(ts.value.fractional)
    ensures r < TWO_32 * NANOS_PER_SECOND
  {
    var tv := TimestampToTimespec(ts, Some(Timespec(0, 0)));
    TimespecToNanos(tv.value)
  }

  /** timestamp_to_usec: microseconds since the Unix epoch; a null pointer gives 0. */
  function TimestampToUsec(ts: Option<Timestamp>): (r: U64)
    ensures ts.None? ==> r == 0
    ensures ts.Some? ==>
      r == NtpToUnixSeconds(ts.value.integer) * MICROS_PER_SECOND + FractionToMicros(ts.value.fractional)
    ensures r < TWO_32 * MICROS_PER_SECOND
  {
    var tv := TimestampToTimeval(ts, Some(Timeval(0, 0)));
    tv.value.sec * MICROS_PER_SECOND + tv.value.usec
  }

  /** With a zero fraction, the counts are whole seconds after the Unix epoch. */
  lemma WholeSecondCounts(integer: U32)
    requires integer >= NTP_EPOCH_OFFSET
    ensures TimestampToNsec(Some(Timestamp(integer, 0))) == (integer - NTP_EPOCH_OFFSET) * NANOS_PER_SECOND
    ensures TimestampToUsec(Some(Timestamp(integer, 0))) == (integer - NTP_EPOCH_OFFSET) * MICROS_PER_SECOND
  {
  }

  /** nanosecondsToTimespec: whole seconds and the remaining nanoseconds. */
  function NanosecondsToTimespec(n: U64): (tv: Timespec)
    ensures tv.sec >= 0 && TimespecToNanos(tv) == n
  {
    Timespec(n / NANOS_PER_SECOND, n % NANOS_PER_SECOND)
  }

  /** nanosecondsToTimespec inverts the nanosecond count of any non-negative timespec. */
  lemma NanosecondsToTimespecInverse(tv: Timespec)
    requires tv.sec >= 0 && TimespecToNanos(tv) < TWO_64
    ensures NanosecondsToTimespec(TimespecToNanos(tv)) == tv
  {
  }

  /** The nanosecond count of an NTP timestamp round-trips through nanosecondsToTimespec
      to the timespec timestamp_to_timespec would have produced. */
  lemma NsecAgreesWithTimespec(ts: Timestamp)
    ensures NanosecondsToTimespec(TimestampToNsec(Some(ts)))
         == TimestampToTimespec(Some(ts), Some(Timespec(0, 0))).value
  {
    NanosecondsToTimespecInverse(TimestampToTimespec(Some(ts), Some(Timespec(0, 0))).value);
  }
}
