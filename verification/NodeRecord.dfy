/** The `enode://` text of a node record with an IPv4 address, printed and read back. */
module NodeRecord {
  import opened Prelude
  import opened Text

  type PeerId = b: Bytes | |b| == 64 witness seq(64, _ => 0)

  datatype Ipv4 = Ipv4(a: byte, b: byte, c: byte, d: byte)

  datatype NodeRecord = NodeRecord(address: Ipv4, tcpPort: u16, udpPort: u16, id: PeerId)

  datatype ParseError = InvalidUrl | InvalidId | Discport

  // ---------------------------------------------------------------------------------------------
  // Printing

  const SCHEME := "enode://"

  const DISCPORT := "discport"

  function PrintAddress(ip: Ipv4): string {
    Decimal(ip.a) + "." + (Decimal(ip.b) + "." + (Decimal(ip.c) + "." + Decimal(ip.d)))
  }

  function PrintQuery(r: NodeRecord): string {
    if r.tcpPort != r.udpPort then "?" + (DISCPORT + "=" + Decimal(r.udpPort)) else ""
  }

  function Print(r: NodeRecord): string {
    SCHEME + (Hex(r.id) + "@" + (PrintAddress(r.address) + ":" + Decimal(r.tcpPort)) + PrintQuery(r))
  }

  // ---------------------------------------------------------------------------------------------
  // Reading

  /** Where the first of some characters stands, or the end. */
  function Cut(s: string, stop: set<char>): (k: nat)
    ensures k <= |s|
    ensures forall i :: 0 <= i < k ==> s[i] !in stop
    ensures k < |s| ==> s[k] in stop
  {
    if s == [] || s[0] in stop then 0 else 1 + Cut(s[1..], stop)
  }

  function Before(s: string, stop: set<char>): string {
    s[..Cut(s, stop)]
  }

  /** What follows the first stop character; nothing when there is none. */
  function After(s: string, stop: set<char>): Option<string> {
    var k := Cut(s, stop);
    if k < |s| then Some(s[k + 1..]) else None
  }

  /** Where the last of a character stands. */
  function LastIndex(s: string, c: char): (k: Option<nat>)
    ensures k.Some? ==> k.value < |s| && s[k.value] == c && forall i :: k.value < i < |s| ==> s[i] != c
    ensures k.None? ==> forall i :: 0 <= i < |s| ==> s[i] != c
  {
    if s == [] then None
    else if Last(s) == c then Some(|s| - 1)
    else LastIndex(DropLast(s), c)
  }

  datatype Url = Url(username: string, host: string, port: Option<u16>, query: string)

  /** Everything between the scheme and the path; the last `@` ends the user part. */
  function SplitAuthority(authority: string, query: string): Option<Url> {
    var at := LastIndex(authority, '@');
    var user := if at.Some? then authority[..at.value] else "";
    var server := if at.Some? then authority[at.value + 1..] else authority;
    var username, host := Before(user, {':'}), Before(server, {':'});
    match After(server, {':'})
    case None => Some(Url(username, host, None, query))
    case Some("") => Some(Url(username, host, None, query))
    case Some(digits) =>
      match ParseDecimal(digits, 0xFFFF)
      case None => None
      case Some(port) => if port <= 0xFFFF then Some(Url(username, host, Some(port), query)) else None
  }

  function SplitUrl(s: string): Option<Url> {
    if !(SCHEME <= s) then None
    else
      var body := Before(s[|SCHEME|..], {'#'});
      var query := match After(body, {'?'}) case Some(q) => q case None => "";
      SplitAuthority(Before(body, {'/', '?'}), query)
  }

  /** One to three digits, no leading zero, at most 255. */
  function ParseOctet(s: string): Option<byte> {
    if |s| > 3 || (|s| > 1 && s[0] == '0') then None
    else
      match ParseDecimal(s, 0xFF)
      case None => None
      case Some(n) => if n <= 0xFF then Some(n) else None
  }

  /** Exactly `n` octets with a point between each two. */
  function ParseOctets(s: string, n: nat): Option<Bytes>
    requires n > 0
    decreases n
  {
    if n == 1 then
      match ParseOctet(s)
      case None => None
      case Some(v) => Some([v])
    else
      match (ParseOctet(Before(s, {'.'})), After(s, {'.'}))
      case (Some(v), Some(rest)) =>
        (match ParseOctets(rest, n - 1)
         case None => None
         case Some(vs) => Some([v] + vs))
      case _ => None
  }

  function ParseAddress(s: string): Option<Ipv4> {
    match ParseOctets(s, 4)
    case None => None
    case Some(v) => if |v| == 4 then Some(Ipv4(v[0], v[1], v[2], v[3])) else None
  }

  /** The value of the first `discport` pair of the query. */
  function FindDiscport(query: string): Option<string>
    decreases |query|
  {
    var pair := Before(query, {'&'});
    if Before(pair, {'='}) == DISCPORT then
      Some(match After(pair, {'='}) case Some(v) => v case None => "")
    else
      match After(query, {'&'})
      case None => None
      case Some(rest) => FindDiscport(rest)
  }

  /** The discovery port is the TCP port unless the query names another. */
  function UdpPort(query: string, tcp: u16): Result<u16, ParseError> {
    match FindDiscport(query)
    case None => Ok(tcp)
    case Some(text) =>
      match ParseDecimal(text, 0xFFFF)
      case None => Err(Discport)
      case Some(udp) => if udp <= 0xFFFF then Ok(udp) else Err(Discport)
  }

  function ReadUrl(url: Url): Result<NodeRecord, ParseError> {
    match (ParseAddress(url.host), url.port)
    case (Some(address), Some(tcp)) =>
      (match UdpPort(url.query, tcp)
       case Err(e) => Err(e)
       case Ok(udp) =>
         match ParseHex(url.username, 64)
         case None => Err(InvalidId)
         case Some(id) => if |id| == 64 then Ok(NodeRecord(address, tcp, udp, id)) else Err(InvalidId))
    case _ => Err(InvalidUrl)
  }

  function Parse(s: string): Result<NodeRecord, ParseError> {
    match SplitUrl(s)
    case None => Err(InvalidUrl)
    case Some(url) => ReadUrl(url)
  }

  // ---------------------------------------------------------------------------------------------
  // Round trip

  /** A cut falls at the first stop character after text that has none. */
  lemma CutAt(a: string, b: string, stop: set<char>)
    requires forall i :: 0 <= i < |a| ==> a[i] !in stop
    requires b == [] || b[0] in stop
    ensures Cut(a + b, stop) == |a|
    ensures Before(a + b, stop) == a
    ensures After(a + b, stop) == if b == [] then None else Some(b[1..])
  {
    var s := a + b;
    assert forall i :: 0 <= i < |a| ==> s[i] == a[i];
    assert b != [] ==> s[|a|] == b[0] && s[|a| + 1..] == b[1..];
    assert s[..|a|] == a;
  }

  lemma {:induction false} LastIndexAt(a: string, c: char, b: string)
    requires forall i :: 0 <= i < |b| ==> b[i] != c
    ensures LastIndex(a + [c] + b, c) == Some(|a|)
    decreases |b|
  {
    if b != [] {
      LastIndexAt(a, c, DropLast(b));
      assert DropLast(a + [c] + b) == a + [c] + DropLast(b);
    }
  }

  lemma OctetRoundTrip(v: byte)
    ensures ParseOctet(Decimal(v)) == Some(v)
    ensures forall i :: 0 <= i < |Decimal(v)| ==> IsDigit(Decimal(v)[i])
  {
    DecimalRoundTrip(v);
    DecimalShape(v);
  }

  lemma OctetsStep(v: byte, rest: string, n: nat)
    requires n > 0
    ensures ParseOctets(Decimal(v) + "." + rest, n + 1) ==
            match ParseOctets(rest, n) case None => None case Some(vs) => Some([v] + vs)
  {
    OctetRoundTrip(v);
    var d := Decimal(v);
    CutAt(d, "." + rest, {'.'});
    assert d + "." + rest == d + ("." + rest);
    assert ("." + rest)[1..] == rest;
  }

  lemma AddressRoundTrip(ip: Ipv4)
    ensures ParseAddress(PrintAddress(ip)) == Some(ip)
  {
    var d := Decimal(ip.d);
    var c := Decimal(ip.c) + "." + d;
    var b := Decimal(ip.b) + "." + c;
    OctetRoundTrip(ip.d);
    assert ParseOctets(d, 1) == Some([ip.d]);
    OctetsStep(ip.c, d, 1);
    OctetsStep(ip.b, c, 2);
    OctetsStep(ip.a, b, 3);
    assert PrintAddress(ip) == Decimal(ip.a) + "." + b;
  }

  predicate AddressChar(c: char) {
    IsDigit(c) || c == '.'
  }

  lemma AddressChars(ip: Ipv4)
    ensures forall i :: 0 <= i < |PrintAddress(ip)| ==> AddressChar(PrintAddress(ip)[i])
  {
    OctetRoundTrip(ip.a);
    OctetRoundTrip(ip.b);
    OctetRoundTrip(ip.c);
    OctetRoundTrip(ip.d);
  }

  lemma QueryRoundTrip(udp: u16)
    ensures FindDiscport(DISCPORT + "=" + Decimal(udp)) == Some(Decimal(udp))
  {
    var d := Decimal(udp);
    DecimalRoundTrip(udp);
    var q := DISCPORT + "=" + d;
    CutAt(q, "", {'&'});
    assert q + "" == q;
    CutAt(DISCPORT, "=" + d, {'='});
    assert q == DISCPORT + ("=" + d);
    assert ("=" + d)[1..] == d;
  }

  lemma UdpPortRoundTrip(r: NodeRecord)
    ensures var query := QueryText(r);
            UdpPort(if query.Some? then query.value else "", r.tcpPort) == Ok(r.udpPort)
  {
    assert FindDiscport("") == None by {
      assert Before("", {'&'}) == "" && Before("", {'='}) == "";
    }
    QueryRoundTrip(r.udpPort);
    ParseDecimalRoundTrip(r.udpPort, 0xFFFF);
    hide FindDiscport, ParseDecimal, Decimal;
  }

  lemma AuthoritySplits(user: string, host: string, port: u16, query: string)
    requires forall i :: 0 <= i < |user| ==> IsHex(user[i])
    requires forall i :: 0 <= i < |host| ==> AddressChar(host[i])
    ensures SplitAuthority(user + "@" + (host + ":" + Decimal(port)), query) ==
            Some(Url(user, host, Some(port), query))
  {
    ParseDecimalRoundTrip(port, 0xFFFF);
    DecimalRoundTrip(port);
    hide Decimal, ParseDecimal, SplitAuthority;
    assert user + "" == user;
    AuthorityParts(user, "", host, Decimal(port), query);
  }

  /** The authority ends where the query begins, and the query reaches to the end. */
  lemma BodySplits(authority: string, query: Option<string>)
    requires forall i :: 0 <= i < |authority| ==> authority[i] !in {'#', '/', '?'}
    requires query.Some? ==> forall i :: 0 <= i < |query.value| ==> query.value[i] != '#'
    ensures var tail := if query.Some? then "?" + query.value else "";
            SplitUrl(SCHEME + (authority + tail)) ==
            SplitAuthority(authority, if query.Some? then query.value else "")
  {
    hide SplitAuthority, SplitUrl;
    var tail := if query.Some? then "?" + query.value else "";
    assert authority + "" + tail + "" == authority + tail;
    assert query.Some? ==> tail[1..] == query.value;
    UrlParts(authority, "", tail, "");
  }

  predicate AuthorityChar(c: char) {
    IsHex(c) || AddressChar(c) || c == '@' || c == ':'
  }

  lemma AuthorityChars(user: string, host: string, port: u16)
    requires forall i :: 0 <= i < |user| ==> IsHex(user[i])
    requires forall i :: 0 <= i < |host| ==> AddressChar(host[i])
    ensures var authority := user + "@" + (host + ":" + Decimal(port));
            forall i :: 0 <= i < |authority| ==> authority[i] !in {'#', '/', '?'}
  {
    DecimalRoundTrip(port);
    var authority := user + "@" + (host + ":" + Decimal(port));
    hide Decimal;
    assert forall i :: 0 <= i < |authority| ==> AuthorityChar(authority[i]);
  }

  /** The text after the question mark, when there is one. */
  function QueryText(r: NodeRecord): Option<string> {
    if r.tcpPort != r.udpPort then Some(DISCPORT + "=" + Decimal(r.udpPort)) else None
  }

  lemma PrintedSplits(r: NodeRecord)
    ensures var query := QueryText(r);
            SplitUrl(Print(r)) == Some(Url(Hex(r.id), PrintAddress(r.address), Some(r.tcpPort),
                                           if query.Some? then query.value else ""))
  {
    var user, host, query := Hex(r.id), PrintAddress(r.address), QueryText(r);
    HexRoundTrip(r.id);
    AddressChars(r.address);
    DecimalRoundTrip(r.udpPort);
    hide Decimal, PrintAddress, Hex, SplitUrl, SplitAuthority;
    AuthorityChars(user, host, r.tcpPort);
    AuthoritySplits(user, host, r.tcpPort, if query.Some? then query.value else "");
    BodySplits(user + "@" + (host + ":" + Decimal(r.tcpPort)), query);
  }

  /** Every record prints to text that reads back as the same record. */
  lemma RoundTrip(r: NodeRecord)
    ensures Parse(Print(r)) == Ok(r)
  {
    hide PrintAddress, ParseAddress, Hex, ParseHex, SplitUrl, Print, UdpPort, QueryText;
    PrintedSplits(r);
    ParseHexRoundTrip(r.id);
    AddressRoundTrip(r.address);
    UdpPortRoundTrip(r);
  }

  /** Different records never print alike. */
  lemma PrintInjective(r: NodeRecord, t: NodeRecord)
    requires Print(r) == Print(t)
    ensures r == t
  {
    RoundTrip(r);
    RoundTrip(t);
  }

  /** The discovery port is in the text exactly when it differs from the TCP port. */
  lemma DiscportPrintedIff(r: NodeRecord)
    ensures '?' in Print(r) <==> r.tcpPort != r.udpPort
  {
    HexRoundTrip(r.id);
    AddressChars(r.address);
    DecimalRoundTrip(r.tcpPort);
    hide Decimal, PrintAddress, Hex;
    var head := SCHEME + (Hex(r.id) + "@" + (PrintAddress(r.address) + ":" + Decimal(r.tcpPort)));
    assert Print(r) == head + PrintQuery(r);
    assert '?' !in head;
    if r.tcpPort != r.udpPort {
      assert PrintQuery(r)[0] == '?';
    }
  }

  // ---------------------------------------------------------------------------------------------
  // What is printed, and what else is read

  /** The fixed parts of the text, and where each field stands. */
  lemma PrintedText(r: NodeRecord)
    ensures Print(r) == "enode://" + Hex(r.id) + "@" + PrintAddress(r.address) + ":" + Decimal(r.tcpPort)
                        + (if r.tcpPort != r.udpPort then "?discport=" + Decimal(r.udpPort) else "")
    ensures PrintAddress(r.address)
         == Decimal(r.address.a) + "." + Decimal(r.address.b) + "." + Decimal(r.address.c) + "." + Decimal(r.address.d)
  {
    hide Decimal, Hex;
    var a, b, c, d := Decimal(r.address.a), Decimal(r.address.b), Decimal(r.address.c), Decimal(r.address.d);
    assert a + "." + (b + "." + (c + "." + d)) == a + "." + b + "." + c + "." + d;
    assert "?" + (DISCPORT + "=" + Decimal(r.udpPort)) == "?discport=" + Decimal(r.udpPort);
    hide PrintAddress;
    var head := "enode://" + Hex(r.id) + "@" + PrintAddress(r.address) + ":" + Decimal(r.tcpPort);
    assert SCHEME + (Hex(r.id) + "@" + (PrintAddress(r.address) + ":" + Decimal(r.tcpPort)) + PrintQuery(r))
        == head + PrintQuery(r);
  }

  /** An octet is read exactly from its own plain decimal text: no sign, no leading zero, nothing above 255. */
  lemma OctetIff(s: string, v: byte)
    ensures ParseOctet(s) == Some(v) <==> s == Decimal(v)
  {
    OctetRoundTrip(v);
    if ParseOctet(s) == Some(v) {
      PlainDecimal(s);
    }
  }

  lemma DecimalSnoc(m: nat, c: char)
    requires m > 0 && IsDigit(c)
    ensures Decimal(m * 10 + (c - '0') as nat) == Decimal(m) + [c]
  {
    var d := (c - '0') as nat;
    assert (m * 10 + d) / 10 == m && (m * 10 + d) % 10 == d;
    assert Digit(d) == c;
  }

  /** Digits without a leading zero are the plain decimal text of their value. */
  lemma {:induction false} PlainDecimal(s: string)
    requires s != [] && AllDigits(s) && (|s| > 1 ==> s[0] != '0')
    ensures Decimal(DecimalValue(s)) == s
    ensures s[0] != '0' ==> DecimalValue(s) > 0
    decreases |s|
  {
    var front, c := DropLast(s), Last(s);
    assert s == front + [c];
    if |s| > 1 {
      PlainDecimal(front);
      DecimalSnoc(DecimalValue(front), c);
    } else {
      assert front == [] && DecimalValue(s) == (c - '0') as nat;
      assert Digit((c - '0') as nat) == c;
    }
  }

  /** `n` octets in plain decimal with a point between each two. */
  function Dotted(v: Bytes): string {
    if v == [] then "" else if |v| == 1 then Decimal(v[0]) else Decimal(v[0]) + "." + Dotted(v[1..])
  }

  lemma OctetsUnfold(s: string, n: nat)
    requires n > 1 && ParseOctets(s, n).Some?
    ensures var k, v := Cut(s, {'.'}), ParseOctets(s, n).value;
            && k < |s| && s == s[..k] + "." + s[k + 1..]
            && v != [] && ParseOctet(s[..k]) == Some(v[0])
            && ParseOctets(s[k + 1..], n - 1) == Some(v[1..])
  {
    hide ParseOctet;
  }

  /** Octets are read only from their own plain decimal texts with points between. */
  lemma {:induction false} OctetsRead(s: string, n: nat)
    requires n > 0 && ParseOctets(s, n).Some?
    ensures |ParseOctets(s, n).value| == n && s == Dotted(ParseOctets(s, n).value)
    decreases n
  {
    var v := ParseOctets(s, n).value;
    hide ParseOctet, Decimal;
    if n == 1 {
      OctetIff(s, v[0]);
    } else {
      OctetsUnfold(s, n);
      hide ParseOctets, Cut;
      var k := Cut(s, {'.'});
      OctetsRead(s[k + 1..], n - 1);
      OctetIff(s[..k], v[0]);
    }
  }

  lemma DottedFour(ip: Ipv4)
    ensures Dotted([ip.a, ip.b, ip.c, ip.d]) == PrintAddress(ip)
  {
    hide Decimal;
    var b, c, d := [ip.b, ip.c, ip.d], [ip.c, ip.d], [ip.d];
    assert [ip.a, ip.b, ip.c, ip.d][1..] == b && b[1..] == c && c[1..] == d;
    assert Dotted(d) == Decimal(ip.d);
    assert Dotted(c) == Decimal(ip.c) + "." + Dotted(d);
    assert Dotted(b) == Decimal(ip.b) + "." + Dotted(c);
  }

  /** An address is read exactly from its own printed text. */
  lemma AddressIff(s: string, ip: Ipv4)
    ensures ParseAddress(s) == Some(ip) <==> s == PrintAddress(ip)
  {
    AddressRoundTrip(ip);
    DottedFour(ip);
    hide Dotted, PrintAddress, ParseOctets;
    if ParseAddress(s) == Some(ip) {
      OctetsRead(s, 4);
      assert ParseOctets(s, 4).value == [ip.a, ip.b, ip.c, ip.d];
    }
  }

  /** The first pair of a query decides if its key is `discport`, and is passed over otherwise. */
  lemma FirstPair(key: string, value: string, rest: string)
    requires forall i :: 0 <= i < |key| ==> key[i] !in {'&', '='}
    requires forall i :: 0 <= i < |value| ==> value[i] != '&'
    ensures FindDiscport(key + "=" + value + "&" + rest)
         == if key == "discport" then Some(value) else FindDiscport(rest)
  {
    var pair := key + "=" + value;
    CutAt(pair, "&" + rest, {'&'});
    CutAt(key, "=" + value, {'='});
    hide Cut, Before, After;
    assert key + "=" + value + "&" + rest == pair + ("&" + rest) && ("&" + rest)[1..] == rest;
    assert pair == key + ("=" + value) && ("=" + value)[1..] == value;
  }

  /** The port of a record is the discovery port unless the query names one, which must be a 16-bit number. */
  lemma UdpPortIff(query: string, tcp: u16, udp: u16)
    ensures UdpPort(query, tcp) == Ok(udp)
       <==> match FindDiscport(query)
            case None => udp == tcp
            case Some(text) => text != "" && AllDigits(text) && DecimalValue(text) == udp
    ensures UdpPort(query, tcp).Err? ==> UdpPort(query, tcp).error == Discport
  {
    hide FindDiscport, DecimalValue;
  }

  /** What a URL must hold to be read as a record, and which part is to blame when it is not. */
  lemma ReadUrlIff(url: Url, r: NodeRecord)
    ensures ReadUrl(url) == Ok(r)
       <==> (&& url.host == PrintAddress(r.address) && url.port == Some(r.tcpPort)
             && UdpPort(url.query, r.tcpPort) == Ok(r.udpPort)
             && ParseHex(url.username, 64) == Some(r.id))
    ensures ReadUrl(url) == Err(InvalidUrl) <==> ParseAddress(url.host).None? || url.port.None?
    ensures ReadUrl(url) == Err(Discport)
       <==> ParseAddress(url.host).Some? && url.port.Some? && UdpPort(url.query, url.port.value).Err?
  {
    AddressIff(url.host, r.address);
    if url.port.Some? {
      UdpPortIff(url.query, url.port.value, 0);
    }
    hide ParseAddress, PrintAddress, UdpPort, ParseHex;
  }

  // ---------------------------------------------------------------------------------------------
  // URLs in general

  predicate Free(s: string, stop: set<char>) {
    forall i :: 0 <= i < |s| ==> s[i] !in stop
  }

  /** Nothing, or text that begins with the mark. */
  predicate Marked(s: string, mark: char) {
    s == "" || s[0] == mark
  }

  lemma FreeJoin(a: string, b: string, stop: set<char>)
    requires Free(a, stop) && Free(b, stop)
    ensures Free(a + b, stop)
  {
  }

  lemma ServerParts(host: string, digits: string)
    requires Free(host, {':'})
    ensures Before(host + ":" + digits, {':'}) == host && After(host + ":" + digits, {':'}) == Some(digits)
  {
    CutAt(host, ":" + digits, {':'});
    assert host + ":" + digits == host + (":" + digits) && (":" + digits)[1..] == digits;
  }

  /** The host ends at the colon, and the port is what follows it. */
  lemma AuthorityParts(user: string, password: string, host: string, digits: string, query: string)
    requires Free(user, {':'}) && Marked(password, ':') && Free(host, {':', '@'}) && Free(digits, {'@'})
    ensures SplitAuthority(user + password + "@" + (host + ":" + digits), query)
         == if digits == "" then Some(Url(user, host, None, query))
            else match ParseDecimal(digits, 0xFFFF)
                 case None => None
                 case Some(port) => if port <= 0xFFFF then Some(Url(user, host, Some(port), query)) else None
  {
    var all, server := user + password, host + ":" + digits;
    LastIndexAt(all, '@', server);
    ServerParts(host, digits);
    CutAt(user, password, {':'});
    hide LastIndex, Before, After, ParseDecimal, Cut;
    var authority := all + ['@'] + server;
    assert authority[..|all|] == all && authority[|all| + 1..] == server;
  }

  /** Without a colon there is no port. */
  lemma AuthorityWithoutPort(user: string, host: string, query: string)
    requires Free(user, {':'}) && Free(host, {':', '@'})
    ensures SplitAuthority(user + "@" + host, query) == Some(Url(user, host, None, query))
  {
    LastIndexAt(user, '@', host);
    var authority := user + ['@'] + host;
    assert authority[..|user|] == user && authority[|user| + 1..] == host;
    CutAt(user, "", {':'});
    CutAt(host, "", {':'});
    assert user + "" == user && host + "" == host;
    hide LastIndex, Before, After;
  }

  /** A path and a fragment are passed over, and the query is what stands between them. */
  lemma UrlParts(authority: string, path: string, query: string, fragment: string)
    requires Free(authority, {'#', '/', '?'}) && Free(path, {'#', '?'}) && Free(query, {'#'})
    requires Marked(path, '/') && Marked(query, '?') && Marked(fragment, '#')
    ensures SplitUrl("enode://" + (authority + path + query + fragment))
         == SplitAuthority(authority, if query == "" then "" else query[1..])
  {
    hide SplitAuthority;
    var body := authority + path + query;
    assert ("enode://" + (body + fragment))[8..] == body + fragment;
    FreeJoin(authority + path, query, {'#'});
    CutAt(body, fragment, {'#'});
    CutAt(authority + path, query, {'?'});
    assert body == authority + (path + query);
    CutAt(authority, path + query, {'/', '?'});
    hide Before, After;
  }

  /** A query pair without a value counts as the empty value, which is no port. */
  lemma BareDiscport(tcp: u16)
    ensures UdpPort("discport", tcp) == Err(Discport)
  {
    CutAt("discport", "", {'&'});
    CutAt("discport", "", {'='});
    assert "discport" + "" == "discport";
    assert FindDiscport("discport") == Some("");
    hide FindDiscport;
  }
}
