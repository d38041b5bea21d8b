/** The `IP:port` parsers of src/utils.cpp (parseIPPort, parseIPv6Port) and the
    C library's strtol that they rely on, in the "C" locale and base 10. */
module Address {
  import opened Words
  import opened Optional

  const PORT_LIMIT: int := 65536
  const LONG_MIN: int := -0x8000_0000_0000_0000
  const LONG_MAX: int := 0x7FFF_FFFF_FFFF_FFFF

  // --------------------------------------------------------- characters

  /** isspace in the "C" locale: space, \t, \n, \v, \f, \r. */
  predicate IsSpace(c: char)
  {
    c == ' ' || ('\t' <= c <= '\r')
  }

  predicate IsDigit(c: char)
  {
    '0' <= c <= '9'
  }

  /** The value of a decimal digit (0 for any other character). */
  function DigitValue(c: char): (d: nat)
    ensures d < 10
  {
    if IsDigit(c) then (c as int) - ('0' as int) else 0
  }

  function DigitChar(d: nat): (c: char)
    requires d < 10
    ensures IsDigit(c) && DigitValue(c) == d
  {
    (('0' as int) + d) as char
  }

  /** The number of leading characters of s that are white space. */
  function SpaceRun(s: string): (n: nat)
    ensures n <= |s|
  {
    if s == [] || !IsSpace(s[0]) then 0 else 1 + SpaceRun(s[1..])
  }

  /** The number of leading characters of s that are decimal digits. */
  function DigitRun(s: string): (n: nat)
    ensures n <= |s|
  {
    if s == [] || !IsDigit(s[0]) then 0 else 1 + DigitRun(s[1..])
  }

  /** The value of a string of decimal digits, most significant first. */
  function DigitsValue(s: string): nat
  {
    if s == [] then 0 else 10 * DigitsValue(s[..|s| - 1]) + DigitValue(s[|s| - 1])
  }

  /** The decimal spelling of n, without leading zeros. */
  function Decimal(n: nat): (s: string)
    ensures |s| > 0 && forall i :: 0 <= i < |s| ==> IsDigit(s[i])
  {
    if n < 10 then [DigitChar(n)] else Decimal(n / 10) + [DigitChar(n % 10)]
  }

  lemma {:induction false} DecimalValue(n: nat)
    ensures DigitsValue(Decimal(n)) == n
  {
    if n >= 10 {
      var s := Decimal(n);
      assert s[..|s| - 1] == Decimal(n / 10);
      DecimalValue(n / 10);
    }
  }

  // -------------------------------------------------------------- strtol

  /** `strtol(s, &end, 10)`: the converted value and the offset end points at. */
  datatype Conversion = Conversion(value: int, end: nat)

  function ClampLong(v: int): (r: int)
    ensures LONG_MIN <= r <= LONG_MAX
    ensures LONG_MIN <= v <= LONG_MAX ==> r == v
  {
    if v < LONG_MIN then LONG_MIN else if v > LONG_MAX then LONG_MAX else v
  }

  /** strtol on a NUL-free string: skip white space, take an optional sign, then
      the longest run of digits. With no digit the value is 0 and end is the start
      of the string; an out-of-range value saturates to LONG_MIN or LONG_MAX. */
  function Strtol(s: string): (r: Conversion)
    ensures r.end <= |s|
    ensures LONG_MIN <= r.value <= LONG_MAX
    ensures r.end == 0 ==> r.value == 0
  {
    var w := SpaceRun(s);
    var rest := s[w..];
    var signed := |rest| > 0 && (rest[0] == '+' || rest[0] == '-');
    var k := if signed then 1 else 0;
    var d := DigitRun(rest[k..]);
    if d == 0 then Conversion(0, 0)
    else
      var magnitude: int := DigitsValue(rest[k..k + d]);
      Conversion(ClampLong(if signed && rest[0] == '-' then -magnitude else magnitude), w + k + d)
  }

  /** The digit run is a run of digits that ends at a non-digit or at the end. */
  lemma {:induction false} DigitRunIsMaximal(s: string)
    ensures forall i :: 0 <= i < DigitRun(s) ==> IsDigit(s[i])
    ensures DigitRun(s) < |s| ==> !IsDigit(s[DigitRun(s)])
  {
    if s != [] && IsDigit(s[0]) {
      DigitRunIsMaximal(s[1..]);
      assert forall i :: 1 <= i < DigitRun(s) ==> s[i] == s[1..][i - 1];
    }
  }

  /** strtol's end pointer stops just past the digits it read. */
  lemma StrtolEndsAfterDigits(s: string)
    ensures var r := Strtol(s);
      r.end > 0 ==> IsDigit(s[r.end - 1]) && (r.end == |s| || !IsDigit(s[r.end]))
  {
    var w := SpaceRun(s);
    var rest := s[w..];
    var k := if |rest| > 0 && (rest[0] == '+' || rest[0] == '-') then 1 else 0;
    DigitRunIsMaximal(rest[k..]);
    var d := DigitRun(rest[k..]);
    if d > 0 {
      assert s[w + k + d - 1] == rest[k..][d - 1];
      if w + k + d < |s| {
        assert s[w + k + d] == rest[k..][d];
      }
    }
  }

  /** What `c_str()` presents to a C function: the text up to the first NUL. */
  function CString(s: string): (c: string)
    ensures c <= s && '\0' !in c
    ensures |c| < |s| ==> s[|c|] == '\0'
  {
    if s == [] || s[0] == '\0' then [] else [s[0]] + CString(s[1..])
  }

  /** The port text is accepted iff strtol consumes all of it and yields 1..65535. */
  predicate PortAccepted(text: string)
  {
    var c := CString(text);
    var r := Strtol(c);
    r.end == |c| && 0 < r.value < PORT_LIMIT
  }

  function PortValue(text: string): (p: U16)
    requires PortAccepted(text)
  {
    Strtol(CString(text)).value
  }

  // -------------------------------------------------------- colon search

  /** std::string::find(':'). */
  function FirstColon(s: string): (r: Option<nat>)
    ensures r.None? <==> ':' !in s
    ensures r.Some? ==> r.value < |s| && s[r.value] == ':' && ':' !in s[..r.value]
  {
    if s == [] then None
    else if s[0] == ':' then Some(0)
    else match FirstColon(s[1..])
      case None => None
      case Some(i) => assert s[1..][..i] == s[1..i + 1]; Some(i + 1)
  }

  /** std::string::rfind(':'). */
  function LastColon(s: string): (r: Option<nat>)
    ensures r.None? <==> ':' !in s
    ensures r.Some? ==> r.value < |s| && s[r.value] == ':' && ':' !in s[r.value + 1..]
  {
    if s == [] then None
    else if s[|s| - 1] == ':' then Some(|s| - 1)
    else
      var r := LastColon(s[..|s| - 1]);
      if r.Some? then assert s[r.value + 1..] == s[..|s| - 1][r.value + 1..] + [s[|s| - 1]]; r
      else r
  }

  // --------------------------------------------------------------- parse

  /** The returned flag together with what the `ip` and `port` references hold afterwards. */
  datatype Parsed = Parsed(ok: bool, ip: string, port: U16)

  /** Split at the colon i and check the port text; `ip` is written before the check. */
  function SplitAt(input: string, i: nat, port: U16): (r: Parsed)
    requires i < |input|
    ensures r.ip == input[..i] && (r.ok <==> PortAccepted(input[i + 1..]))
    ensures r.port == (if r.ok then PortValue(input[i + 1..]) else port)
  {
    var portText := input[i + 1..];
    if PortAccepted(portText) then Parsed(true, input[..i], PortValue(portText))
    else Parsed(false, input[..i], port)
  }

  /** parseIPPort(input, ip, port): split at the first ':' (SplitAt states
      what the split writes); without a colon nothing is written and the
      result is false. */
  function ParseIPPort(input: string, ip: string, port: U16): (r: Parsed)
    ensures FirstColon(input).None? ==> r == Parsed(false, ip, port)
    ensures FirstColon(input).Some? ==> r == SplitAt(input, FirstColon(input).value, port)
  {
    match FirstColon(input)
    case None => Parsed(false, ip, port)
    case Some(i) => SplitAt(input, i, port)
  }

  /** parseIPv6Port(input, ip, port): split at the last ':'; without a colon
      nothing is written and the result is false. */
  function ParseIPv6Port(input: string, ip: string, port: U16): (r: Parsed)
    ensures LastColon(input).None? ==> r == Parsed(false, ip, port)
    ensures LastColon(input).Some? ==> r == SplitAt(input, LastColon(input).value, port)
  {
    match LastColon(input)
    case None => Parsed(false, ip, port)
    case Some(i) => SplitAt(input, i, port)
  }

  // ------------------------------------------------------------ properties

  /** strtol reads back the decimal spelling of any number a long can hold. */
  lemma StrtolDecimal(n: nat)
    requires n <= LONG_MAX
    ensures Strtol(Decimal(n)) == Conversion(n, |Decimal(n)|)
  {
    var s := Decimal(n);
    assert SpaceRun(s) == 0 by { assert !IsSpace(s[0]); }
    assert s[0..] == s;
    DigitRunOfDigitsThen(s, []);
    assert s + [] == s;
    assert s[0..|s|] == s;
    DecimalValue(n);
  }

  lemma CStringOfNulFree(s: string)
    requires forall i :: 0 <= i < |s| ==> s[i] != '\0'
    ensures CString(s) == s
  {
  }

  /** A decimal spelling has no NUL, so c_str() presents all of it. */
  lemma CStringOfDecimal(n: nat)
    ensures CString(Decimal(n)) == Decimal(n)
  {
    var s := Decimal(n);
    assert forall i :: 0 <= i < |s| ==> s[i] != '\0' by {
      forall i | 0 <= i < |s| ensures s[i] != '\0' { assert IsDigit(s[i]); }
    }
    CStringOfNulFree(s);
  }

  /** Every port 1..65535 written in decimal is accepted with its own value. */
  lemma DecimalPortAccepted(p: nat)
    requires 0 < p < PORT_LIMIT
    ensures PortAccepted(Decimal(p)) && PortValue(Decimal(p)) == p
  {
    CStringOfDecimal(p);
    StrtolDecimal(p);
  }

  lemma {:induction false} FirstColonAfterHost(host: string, t: string)
    requires ':' !in host
    ensures FirstColon(host + ":" + t) == Some(|host|)
  {
    if host != [] {
      assert (host + ":" + t)[1..] == host[1..] + ":" + t;
      FirstColonAfterHost(host[1..], t);
    }
  }

  lemma {:induction false} LastColonBeforePort(host: string, t: string)
    requires ':' !in t
    ensures LastColon(host + ":" + t) == Some(|host|)
  {
    var input := host + ":" + t;
    if t != [] {
      assert input[..|input| - 1] == host + ":" + t[..|t| - 1];
      assert input[|input| - 1] == t[|t| - 1];
      LastColonBeforePort(host, t[..|t| - 1]);
    }
  }

  /** Formatting then parsing: host ":" port with a colon-free host gives back both. */
  lemma ParseIPPortRoundTrip(host: string, p: nat, ip: string, port: U16)
    requires ':' !in host && 0 < p < PORT_LIMIT
    ensures ParseIPPort(host + ":" + Decimal(p), ip, port) == Parsed(true, host, p)
  {
    var input := host + ":" + Decimal(p);
    FirstColonAfterHost(host, Decimal(p));
    assert input[|host| + 1..] == Decimal(p);
    assert input[..|host|] == host;
    DecimalPortAccepted(p);
  }

  /** For IPv6 any host text works, colons included, since the split is at the last colon. */
  lemma ParseIPv6PortRoundTrip(host: string, p: nat, ip: string, port: U16)
    requires 0 < p < PORT_LIMIT
    ensures ParseIPv6Port(host + ":" + Decimal(p), ip, port) == Parsed(true, host, p)
  {
    var input := host + ":" + Decimal(p);
    var d := Decimal(p);
    assert ':' !in d by {
      forall k | 0 <= k < |d| ensures d[k] != ':' { assert IsDigit(d[k]); }
    }
    LastColonBeforePort(host, d);
    assert input[|host| + 1..] == d;
    assert input[..|host|] == host;
    DecimalPortAccepted(p);
  }

  /** Whatever parseIPPort accepts is a host, a colon and a port text, and nothing is lost. */
  lemma ParseIPPortSplits(input: string, ip: string, port: U16)
    ensures var r := ParseIPPort(input, ip, port);
      r.ok ==> ':' !in r.ip && exists t :: input == r.ip + ":" + t && PortAccepted(t) && r.port == PortValue(t)
  {
    var r := ParseIPPort(input, ip, port);
    if r.ok {
      var i := FirstColon(input).value;
      var t := input[i + 1..];
      assert r == SplitAt(input, i, port);
      assert r.ip == input[..i];
      assert input == input[..i] + [input[i]] + t;
      assert input == r.ip + ":" + t;
      assert PortAccepted(t) && r.port == PortValue(t);
    }
  }

  /** The port reference is written only on success. */
  lemma PortWrittenOnlyOnSuccess(input: string, ip: string, port: U16)
    ensures !ParseIPPort(input, ip, port).ok ==> ParseIPPort(input, ip, port).port == port
    ensures !ParseIPv6Port(input, ip, port).ok ==> ParseIPv6Port(input, ip, port).port == port
  {
  }

  lemma RejectsZero()
    ensures !PortAccepted("0")
  {
    assert CString("0") == "0";
    assert DigitsValue("0") == 0;
  }

  lemma RejectsTooHigh()
    ensures !PortAccepted("65536")
  {
    Decimal65536();
    CStringOfDecimal(65536);
    StrtolDecimal(65536);
  }

  lemma Decimal65536()
    ensures Decimal(65536) == "65536"
  {
    assert Decimal(6) == "6";
    assert Decimal(65) == Decimal(6) + "5";
    assert Decimal(655) == Decimal(65) + "5";
    assert Decimal(6553) == Decimal(655) + "3";
    assert Decimal(65536) == Decimal(6553) + "6";
  }

  lemma RejectsNegative()
    ensures !PortAccepted("-1")
  {
    CStringOfMinusOne();
    StrtolOfMinusOne();
  }

  lemma CStringOfMinusOne()
    ensures CString("-1") == "-1"
  {
    assert CString("-1"[1..]) == "1";
  }

  lemma StrtolOfMinusOne()
    ensures Strtol("-1").value == -1
  {
    var s := "-1";
    assert !IsSpace(s[0]);
    assert SpaceRun(s) == 0;
    assert s[0..][1..] == "1";
    assert DigitRun("1") == 1;
    assert DigitsValue("1") == 1;
  }

  lemma RejectsLetters()
    ensures !PortAccepted("abc") && !PortAccepted("")
  {
    CStringOfAbc();
    StrtolOfAbc();
  }

  lemma CStringOfAbc()
    ensures CString("abc") == "abc"
  {
    assert CString("c") == "c";
    assert CString("bc") == "bc";
  }

  lemma StrtolOfAbc()
    ensures Strtol("abc").end == 0
  {
    var s := "abc";
    assert !IsSpace(s[0]);
    assert SpaceRun(s) == 0;
    assert !IsDigit(s[0]);
    assert DigitRun(s[0..][0..]) == 0;
  }

  /** The digit run of a digit string followed by more text. */
  lemma {:induction false} DigitRunOfDigitsThen(digits: string, tail: string)
    requires forall i :: 0 <= i < |digits| ==> IsDigit(digits[i])
    ensures DigitRun(digits + tail) == |digits| + DigitRun(tail)
  {
    if digits != [] {
      assert (digits + tail)[0] == digits[0];
      assert (digits + tail)[1..] == digits[1..] + tail;
      DigitRunOfDigitsThen(digits[1..], tail);
    } else {
      assert digits + tail == tail;
    }
  }

  /** strtol stops at the first character after the leading digits. */
  lemma StrtolStopsAfterDigits(digits: string, tail: string)
    requires |digits| > 0 && forall i :: 0 <= i < |digits| ==> IsDigit(digits[i])
    requires |tail| > 0 && !IsDigit(tail[0])
    ensures Strtol(digits + tail).end == |digits|
  {
    var s := digits + tail;
    assert !IsSpace(s[0]) && s[0] != '+' && s[0] != '-';
    assert s[0..] == s;
    DigitRunOfDigitsThen(digits, tail);
  }

  lemma RejectsTrailingText()
    ensures !PortAccepted("80abc")
  {
    StrtolOf80abc();
    CStringOf80abc();
  }

  lemma StrtolOf80abc()
    ensures Strtol("80abc").end == 2
  {
    assert "80abc" == "80" + "abc";
    StrtolStopsAfterDigits("80", "abc");
  }

  lemma CStringOf80abc()
    ensures CString("80abc") == "80abc"
  {
    var s := "80abc";
    assert forall i :: 0 <= i < |s| ==> s[i] != '\0';
    CStringOfNulFree(s);
  }

  /** An empty host is accepted: ":port" splits into "" and the port. */
  lemma EmptyHostAccepted(p: nat, ip: string, port: U16)
    requires 0 < p < PORT_LIMIT
    ensures ParseIPPort(":" + Decimal(p), ip, port) == Parsed(true, "", p)
  {
    ParseIPPortRoundTrip("", p, ip, port);
    assert "" + ":" + Decimal(p) == ":" + Decimal(p);
  }

  /** The test vector "::1": read as host ":" and port 1. */
  lemma SampleIPv6Address(ip: string, port: U16)
    ensures ParseIPv6Port("::1", ip, port) == Parsed(true, ":", 1)
  {
    assert Decimal(1) == "1";
    ParseIPv6PortRoundTrip(":", 1, ip, port);
    assert ":" + ":" + "1" == "::1";
  }

  lemma SampleRejections(ip: string, port: U16)
    ensures !ParseIPPort("192.168.1.1", ip, port).ok
    ensures !ParseIPPort(":", ip, port).ok && !ParseIPv6Port("", ip, port).ok
  {
    assert ':' !in "192.168.1.1";
    var r := ParseIPPort(":", ip, port);
    assert FirstColon(":") == Some(0);
    assert ":"[1..] == "";
    RejectsLetters();
  }
}
