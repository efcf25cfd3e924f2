/** The telnet target: `Connection::parse` splits `host[:port]` and the host is
    then either read as an IP literal or handed to the resolver (src/usr/telnet.rs). */
module TelnetTarget {
  import opened RustCore

  const DEFAULT_PORT: nat := 23

  /** `str::find(':')`: the index of the first colon. */
  function FindColon(s: string): (r: Option<nat>)
    ensures r.Some? ==> r.value < |s| && s[r.value] == ':' && ':' !in s[..r.value]
    ensures r.None? ==> ':' !in s
  {
    if |s| == 0 then None
    else if s[0] == ':' then Some(0)
    else
      match FindColon(s[1..])
      case Some(i) => assert s[..i + 1] == [s[0]] + s[1..][..i]; Some(i + 1)
      case None => assert s == [s[0]] + s[1..]; None
  }

  /** `port.parse::<u16>().unwrap_or(23)` */
  function PortOrDefault(text: string): (p: nat)
    ensures p <= U16_MAX
    ensures FromStrRadix(text, 10, U16_MAX).None? ==> p == DEFAULT_PORT
  {
    match FromStrRadix(text, 10, U16_MAX)
    case Some(v) => v
    case None => DEFAULT_PORT
  }

  /** `Connection::parse(url)`: without a colon the whole text is the host and the
      port is 23; otherwise the host is the text before the first colon and the
      port is what follows it, read as a `u16`, or 23 when that text does not parse. */
  function ParseTarget(url: string): (r: (string, nat))
    ensures r.1 <= U16_MAX
    ensures ':' !in url ==> r == (url, DEFAULT_PORT)
    ensures ':' in url ==>
      |r.0| < |url| && url[..|r.0|] == r.0 && url[|r.0|] == ':' && ':' !in r.0
      && r.1 == PortOrDefault(url[|r.0| + 1..])
  {
    match FindColon(url)
    case Some(i) => (url[..i], PortOrDefault(url[i + 1..]))
    case None => (url, DEFAULT_PORT) // the source pairs the whole text with ":23", read as 23
  }

  /** A colon with no colon before it is the one `find` reports. */
  lemma FindColonAt(s: string, i: nat)
    requires i < |s| && s[i] == ':' && ':' !in s[..i]
    ensures FindColon(s) == Some(i)
  {
    var r := FindColon(s);
    assert s[i] in s;
    assert forall k :: 0 <= k < i ==> s[..i][k] == s[k];
    assert forall k :: 0 <= k < r.value ==> s[..r.value][k] == s[k];
  }

  /** The target `host:text` splits into the host and the port read from the text. */
  lemma ParseTargetSplit(host: string, text: string)
    requires ':' !in host
    ensures ParseTarget(host + ":" + text) == (host, PortOrDefault(text))
  {
    var url := host + ":" + text;
    assert url[..|host|] == host;
    FindColonAt(url, |host|);
    assert url[|host| + 1..] == text;
  }

  /** Writing a host and a port as `host:port` and parsing it back gives them again. */
  lemma ParseTargetRoundTrip(host: string, port: nat)
    requires ':' !in host && port <= U16_MAX
    ensures ParseTarget(host + ":" + Decimal(port)) == (host, port)
  {
    ParseTargetSplit(host, Decimal(port));
    DecimalRoundTrip(port, U16_MAX);
  }

  /** A port text that is not a `u16` numeral falls back to port 23; it never fails. */
  lemma BadPortFallsBack(host: string, text: string)
    requires ':' !in host && FromStrRadix(text, 10, U16_MAX).None?
    ensures ParseTarget(host + ":" + text) == (host, DEFAULT_PORT)
  {
    ParseTargetSplit(host, text);
  }

  /** Only the first colon splits: later colons stay in the port text, which then
      does not parse, so `h:1:2` goes to port 23. */
  lemma SecondColonDefaultsPort()
    ensures ParseTarget("h:1:2") == ("h", DEFAULT_PORT)
  {
    FromStrRadixRejects("1:2", 10, U16_MAX, 1);
    BadPortFallsBack("h", "1:2");
    assert "h" + ":" + "1:2" == "h:1:2";
  }

  /** A port above 65535 does not fit a `u16` and falls back to 23. */
  lemma PortTooLarge()
    ensures ParseTarget("h:65536").1 == DEFAULT_PORT
  {
    DigitsValueSnoc([], '6', 10, 0, 6);
    assert [] + ['6'] == "6";
    DigitsValueSnoc("6", '5', 10, 6, 5);
    assert "6" + ['5'] == "65";
    DigitsValueSnoc("65", '5', 10, 65, 5);
    assert "65" + ['5'] == "655";
    DigitsValueSnoc("655", '3', 10, 655, 3);
    assert "655" + ['3'] == "6553";
    DigitsValueSnoc("6553", '6', 10, 6553, 6);
    assert "6553" + ['6'] == "65536";
    BadPortFallsBack("h", "65536");
    assert "h" + ":" + "65536" == "h:65536";
  }

  /** Every port number above 65535 does not fit a `u16` and falls back to 23. */
  lemma PortAboveMaxFallsBack(host: string, n: nat)
    requires ':' !in host && U16_MAX < n
    ensures ParseTarget(host + ":" + Decimal(n)) == (host, DEFAULT_PORT)
  {
    FromStrRadixTooLarge(n, 10, U16_MAX);
    BadPortFallsBack(host, Decimal(n));
  }

  /** 65535 is the largest port that fits. */
  lemma PortMaxFits()
    ensures ParseTarget("h:65535").1 == 65535
  {
    assert Decimal(65535) == "65535";
    ParseTargetRoundTrip("h", 65535);
    assert "h" + ":" + "65535" == "h:65535";
  }

  datatype Address = Address(octets: seq<byte>)

  /** How the host text is turned into an address: an IP literal when its last
      character is a digit, a name for the resolver otherwise. */
  datatype Resolved = Resolved(addr: Address) | InvalidAddressFormat | ResolutionFailure

  /** `host.ends_with(char::is_numeric)` */
  predicate IsLiteral(host: string) {
    |host| > 0 && IsAsciiDigit(host[|host| - 1])
  }

  /** Lines 85-101: the host is read as a literal by `parseLiteral` (IpAddress::from_str)
      or looked up by `resolve` (usr::host::resolve); each failure has its own outcome. */
  function ResolveHost(host: string, parseLiteral: string -> Option<Address>,
                       resolve: string -> Option<Address>): (r: Resolved)
    ensures IsLiteral(host) ==>
              && r != ResolutionFailure
              && (r == InvalidAddressFormat <==> parseLiteral(host).None?)
              && (parseLiteral(host).Some? ==> r == Resolved(parseLiteral(host).value))
    ensures !IsLiteral(host) ==>
              && r != InvalidAddressFormat
              && (r == ResolutionFailure <==> resolve(host).None?)
              && (resolve(host).Some? ==> r == Resolved(resolve(host).value))
  {
    if IsLiteral(host) then
      match parseLiteral(host)
      case Some(a) => Resolved(a)
      case None => InvalidAddressFormat
    else
      match resolve(host)
      case Some(a) => Resolved(a)
      case None => ResolutionFailure
  }
}
