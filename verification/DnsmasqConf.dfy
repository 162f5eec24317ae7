/**
 The dnsmasq configuration of one switch: a text file that carries the DHCP range
 and the static leases. It is the only place where the leases are kept, so the
 text has to stand for a partial bijection between MAC and IP addresses.
 */
module DnsmasqConfs {
  import opened Text

  datatype Host = Host(mac: string, ip: string)

  datatype File = Missing | Text(text: string)

  predicate MacChar(c: char) {
    '0' <= c <= '9' || 'a' <= c <= 'f' || 'A' <= c <= 'F' || c == ':'
  }

  predicate IsMac(m: string) {
    |m| == 17 && forall c | c in m :: MacChar(c)
  }

  /** Dotted IPv4 text. */
  predicate IsIp(a: string) {
    a != "" && forall c | c in a :: '0' <= c <= '9' || c == '.'
  }

  // ----- the text -------------------------------------------------------------

  function GatewayGuess(start: string): string {
    var parts := Split(start, '.');
    if |parts| != 4 then start else parts[0] + "." + parts[1] + "." + parts[2] + ".1"
  }

  function RangeText(start: string, end: string): string {
    "dhcp-range=" + start + "," + end + ",12h"
  }

  function RouterText(start: string): string {
    "dhcp-option=option:router," + GatewayGuess(start)
  }

  /** The lines of every configuration after the interface line. */
  function Settings(start: string, end: string): seq<string> {
    ["bind-dynamic", "port=0", RangeText(start, end), RouterText(start),
     "no-hosts", "no-resolv", "log-facility=/dev/null"]
  }

  function HeadLines(bridge: string, start: string, end: string): seq<string> {
    ["interface=" + bridge] + Settings(start, end)
  }

  function RenderDnsmasqConf(bridge: string, start: string, end: string, hosts: seq<string>): string {
    Unlines(HeadLines(bridge, start, end) + Nonblank(hosts))
  }

  function HostLine(h: Host): string {
    "dhcp-host=" + h.mac + "," + h.ip
  }

  function HostLinesOf(hosts: seq<Host>): seq<string> {
    seq(|hosts|, i requires 0 <= i < |hosts| => HostLine(hosts[i]))
  }

  function FilterHostLines(lines: seq<string>): seq<string> {
    if lines == [] then []
    else
      FilterHostLines(lines[..|lines| - 1]) +
      (if HasPrefix(lines[|lines| - 1], "dhcp-host=") then [lines[|lines| - 1]] else [])
  }

  function ParseDHCPRange(line: string): (string, string) {
    var v := if HasPrefix(line, "dhcp-range=") then line[11..] else line;
    var parts := Split(v, ',');
    if |parts| < 2 then ("", "") else (parts[0], parts[1])
  }

  function DhcpRangeOf(lines: seq<string>): (string, string) {
    if lines == [] then ("", "")
    else if HasPrefix(lines[0], "dhcp-range=") then ParseDHCPRange(lines[0])
    else DhcpRangeOf(lines[1..])
  }

  // ----- leases ---------------------------------------------------------------

  predicate WellFormed(hosts: seq<Host>) {
    forall h | h in hosts :: IsMac(h.mac) && ToLower(h.mac) == h.mac && IsIp(h.ip)
  }

  /** No MAC and no IP twice. */
  predicate Bijective(hosts: seq<Host>) {
    forall i, j | 0 <= i < j < |hosts| :: hosts[i].mac != hosts[j].mac && hosts[i].ip != hosts[j].ip
  }

  /** The leases that name neither this MAC nor this IP. */
  function Others(hosts: seq<Host>, mac: string, ip: string): seq<Host> {
    if hosts == [] then []
    else
      var h := hosts[|hosts| - 1];
      Others(hosts[..|hosts| - 1], mac, ip) + (if h.mac != mac && h.ip != ip then [h] else [])
  }

  /** No lease has the empty address, so Unbound keeps every other MAC. */
  function Unbound(hosts: seq<Host>, mac: string): seq<Host> {
    Others(hosts, mac, "")
  }

  function Bound(hosts: seq<Host>, mac: string, ip: string): seq<Host> {
    Others(hosts, mac, ip) + [Host(mac, ip)]
  }

  lemma {:induction false} OthersAre(hosts: seq<Host>, mac: string, ip: string)
    ensures forall h :: h in Others(hosts, mac, ip) <==> h in hosts && h.mac != mac && h.ip != ip
  {
    if hosts != [] {
      var front, last := hosts[..|hosts| - 1], hosts[|hosts| - 1];
      OthersAre(front, mac, ip);
      assert hosts == front + [last];
    }
  }

  lemma {:induction false} OthersAreDistinct(hosts: seq<Host>, mac: string, ip: string)
    requires Bijective(hosts)
    ensures Bijective(Others(hosts, mac, ip))
  {
    if hosts != [] {
      var front, last := hosts[..|hosts| - 1], hosts[|hosts| - 1];
      OthersAreDistinct(front, mac, ip);
      OthersAre(front, mac, ip);
      assert hosts == front + [last];
      OthersUnlikeLast(front, last, Others(front, mac, ip));
      OneMoreHost(Others(front, mac, ip), last);
    }
  }

  lemma OneMoreHost(kept: seq<Host>, last: Host)
    requires Bijective(kept) && forall h | h in kept :: h.mac != last.mac && h.ip != last.ip
    ensures Bijective(kept + [last])
  {
  }

  lemma OthersMembers(hosts: seq<Host>, mac: string, ip: string)
    ensures forall h :: h in Others(hosts, mac, ip) <==> h in hosts && h.mac != mac && h.ip != ip
    ensures Bijective(hosts) ==> Bijective(Others(hosts, mac, ip))
    ensures WellFormed(hosts) ==> WellFormed(Others(hosts, mac, ip))
  {
    OthersAre(hosts, mac, ip);
    if Bijective(hosts) {
      OthersAreDistinct(hosts, mac, ip);
    }
  }

  lemma OthersUnlikeLast(front: seq<Host>, last: Host, kept: seq<Host>)
    requires Bijective(front + [last]) && forall h | h in kept :: h in front
    ensures forall h | h in kept :: h.mac != last.mac && h.ip != last.ip
  {
    forall h | h in kept ensures h.mac != last.mac && h.ip != last.ip {
      var k :| 0 <= k < |front| && front[k] == h;
      assert (front + [last])[k] == h && (front + [last])[|front|] == last;
    }
  }

  /** What binding does to the leases, and that it keeps them a bijection. */
  lemma BindingReplaces(hosts: seq<Host>, mac: string, ip: string)
    requires Bijective(hosts)
    ensures Bijective(Bound(hosts, mac, ip)) && Host(mac, ip) in Bound(hosts, mac, ip)
    ensures forall h :: h in Bound(hosts, mac, ip) <==> h == Host(mac, ip) || (h in hosts && h.mac != mac && h.ip != ip)
  {
    OthersMembers(hosts, mac, ip);
    var kept := Others(hosts, mac, ip);
    forall i | 0 <= i < |kept| ensures kept[i].mac != mac && kept[i].ip != ip {
      assert kept[i] in kept;
    }
  }

  lemma UnbindingRemoves(hosts: seq<Host>, mac: string)
    requires Bijective(hosts) && WellFormed(hosts)
    ensures Bijective(Unbound(hosts, mac)) && WellFormed(Unbound(hosts, mac))
    ensures forall h :: h in Unbound(hosts, mac) <==> h in hosts && h.mac != mac
  {
    OthersMembers(hosts, mac, "");
  }

  datatype Op = Bind(mac: string, ip: string) | Unbind(mac: string)

  function RunLeases(hosts: seq<Host>, ops: seq<Op>): seq<Host> {
    if ops == [] then hosts
    else
      var before := RunLeases(hosts, ops[..|ops| - 1]);
      match ops[|ops| - 1]
      case Bind(mac, ip) => Bound(before, mac, ip)
      case Unbind(mac) => Unbound(before, mac)
  }

  predicate Touches(op: Op, mac: string, ip: string) {
    match op
    case Bind(m, i) => m == mac || i == ip
    case Unbind(m) => m == mac
  }

  /** Over any run the leases stay a bijection, and a lease stays until its MAC or its IP is named again. */
  lemma {:induction false} LeasesOverARun(hosts: seq<Host>, ops: seq<Op>, mac: string, ip: string, last: nat)
    requires Bijective(hosts) && ip != ""
    requires last < |ops| && ops[last] == Bind(mac, ip)
    requires forall k | last < k < |ops| :: !Touches(ops[k], mac, ip)
    ensures Bijective(RunLeases(hosts, ops)) && Host(mac, ip) in RunLeases(hosts, ops)
  {
    var front, op := ops[..|ops| - 1], ops[|ops| - 1];
    RunStaysBijective(hosts, front);
    RunStaysBijective(hosts, ops);
    if last == |ops| - 1 {
      BindingReplaces(RunLeases(hosts, front), mac, ip);
    } else {
      LeasesOverARun(hosts, front, mac, ip, last);
      match op {
        case Bind(m, i) => BindingReplaces(RunLeases(hosts, front), m, i);
        case Unbind(m) => OthersMembers(RunLeases(hosts, front), m, "");
      }
    }
  }

  lemma {:induction false} RunStaysBijective(hosts: seq<Host>, ops: seq<Op>)
    requires Bijective(hosts)
    ensures Bijective(RunLeases(hosts, ops))
  {
    if ops != [] {
      var before := RunLeases(hosts, ops[..|ops| - 1]);
      RunStaysBijective(hosts, ops[..|ops| - 1]);
      match ops[|ops| - 1] {
        case Bind(mac, ip) => BindingReplaces(before, mac, ip);
        case Unbind(mac) => OthersMembers(before, mac, "");
      }
    }
  }

  // ----- the matching of lines --------------------------------------------------

  /** A lease line is made of lower-case text around a single comma. */
  lemma LeaseLine(h: Host)
    requires IsMac(h.mac) && ToLower(h.mac) == h.mac && IsIp(h.ip)
    ensures var line := HostLine(h);
            |line| == 28 + |h.ip| && line[..10] == "dhcp-host=" && line[10..27] == h.mac && line[28..] == h.ip &&
            (forall i | 0 <= i < |line| :: line[i] == ',' <==> i == 27) && ToLower(line) == line
  {
    var line := HostLine(h);
    forall i | 0 <= i < |line| ensures (line[i] == ',' <==> i == 27) && LowerChar(line[i]) == line[i] {
      if 10 <= i < 27 {
        assert line[i] == h.mac[i - 10] && h.mac[i - 10] in h.mac && ToLower(h.mac)[i - 10] == h.mac[i - 10];
      } else if 28 <= i {
        assert line[i] == h.ip[i - 28] && h.ip[i - 28] in h.ip;
      } else if i < 10 {
        assert line[i] == "dhcp-host="[i];
      }
    }
  }

  lemma MacMatches(line: string, m: string, mac: string)
    requires |line| >= 28 && line[10..27] == m && IsMac(mac)
    requires forall i | 0 <= i < |line| :: line[i] == ',' <==> i == 27
    ensures Contains(line, mac + ",") <==> m == mac
  {
    var key := mac + ",";
    assert line[10..28] == line[10..27] + [line[27]];
    assert |key| == 18 && key[17] == ',';
    if k :| 0 <= k <= |line| && At(line, key, k) {
      AtChars(line, key, k);
      assert line[k + 17] == key[17];
      assert k == 10;
      assert key[..17] == mac && line[10..28][..17] == m;
    }
    if m == mac {
      assert At(line, key, 10);
    }
  }

  lemma IpMatches(line: string, i: string, ip: string)
    requires |line| >= 28 && line[28..] == i && IsIp(ip)
    requires forall k | 0 <= k < |line| :: line[k] == ',' <==> k == 27
    ensures HasSuffix(line, "," + ip) <==> i == ip
  {
    assert line[27..] == [line[27]] + line[28..];
    if HasSuffix(line, "," + ip) {
      var k := |line| - |ip| - 1;
      assert line[k..][0] == ',';
      assert line[27..][1..] == i && ("," + ip)[1..] == ip;
    }
  }

  /** The line of a lease mentions a MAC, or ends in an IP, exactly when the lease has it. */
  lemma LineMatches(h: Host, mac: string, ip: string)
    requires IsMac(h.mac) && ToLower(h.mac) == h.mac && IsIp(h.ip) && IsMac(mac)
    ensures Contains(ToLower(HostLine(h)), mac + ",") <==> h.mac == mac
    ensures IsIp(ip) ==> (HasSuffix(HostLine(h), "," + ip) <==> h.ip == ip)
  {
    LeaseLine(h);
    MacMatches(HostLine(h), h.mac, mac);
    if IsIp(ip) {
      IpMatches(HostLine(h), h.ip, ip);
    }
  }

  lemma {:induction false} FilterConcat(a: seq<string>, b: seq<string>)
    ensures FilterHostLines(a + b) == FilterHostLines(a) + FilterHostLines(b)
    decreases |b|
  {
    if b == [] {
      assert a + b == a;
    } else {
      var front := b[..|b| - 1];
      FilterConcat(a, front);
      assert (a + b)[..|a + b| - 1] == a + front;
    }
  }

  lemma HostLineTrimmed(h: Host)
    requires IsMac(h.mac) && IsIp(h.ip)
    ensures Trim(HostLine(h)) == HostLine(h) && HostLine(h) != "" && '\n' !in HostLine(h)
    ensures HasPrefix(HostLine(h), "dhcp-host=") && !HasPrefix(HostLine(h), "dhcp-range=")
  {
    var line := HostLine(h);
    assert line[|line| - 1] == h.ip[|h.ip| - 1] && h.ip[|h.ip| - 1] in h.ip;
    TrimIdentity(line);
    assert line[5] == 'h' && "dhcp-range="[5] == 'r';
    forall i | 0 <= i < |line| ensures line[i] != '\n' {
      if 10 <= i < 27 {
        assert line[i] == h.mac[i - 10] && h.mac[i - 10] in h.mac;
      } else if 28 <= i {
        assert line[i] == h.ip[i - 28] && h.ip[i - 28] in h.ip;
      }
    }
  }

  /** Lines that trimming and filtering leave as they are. */
  predicate CleanLines(lines: seq<string>) {
    Nonblank(lines) == lines && FilterHostLines(lines) == lines && forall l | l in lines :: '\n' !in l
  }

  lemma {:induction false} HostLinesAreClean(hosts: seq<Host>)
    requires WellFormed(hosts)
    ensures CleanLines(HostLinesOf(hosts))
  {
    if hosts != [] {
      var front, last := hosts[..|hosts| - 1], hosts[|hosts| - 1];
      HostLinesAreClean(front);
      OneHostMore(hosts, front, last);
      OneCleanHost(HostLinesOf(hosts), HostLinesOf(front), last);
    }
  }

  lemma OneHostMore(hosts: seq<Host>, front: seq<Host>, last: Host)
    requires hosts == front + [last]
    ensures HostLinesOf(hosts) == HostLinesOf(front) + [HostLine(last)]
  {
  }

  lemma OneCleanHost(lines: seq<string>, front: seq<string>, last: Host)
    requires lines == front + [HostLine(last)] && CleanLines(front) && IsMac(last.mac) && IsIp(last.ip)
    ensures CleanLines(lines)
  {
    HostLineTrimmed(last);
    OneCleanLine(lines, front, HostLine(last));
  }

  lemma OneCleanLine(lines: seq<string>, front: seq<string>, last: string)
    requires lines == front + [last] && CleanLines(front)
    requires Trim(last) == last && last != "" && HasPrefix(last, "dhcp-host=") && '\n' !in last
    ensures CleanLines(lines)
  {
    assert lines[..|lines| - 1] == front;
  }

  // ----- reading back what was written ------------------------------------------

  /** The text of a configuration with this range and these leases. */
  ghost predicate Represents(text: string, bridge: string, start: string, end: string, hosts: seq<Host>) {
    text == RenderDnsmasqConf(bridge, start, end, HostLinesOf(hosts)) &&
    '\n' !in bridge && IsIp(start) && IsIp(end) && WellFormed(hosts)
  }

  lemma GatewayTrimmed(start: string)
    requires IsIp(start)
    ensures var g := GatewayGuess(start); g != "" && !IsSpace(g[|g| - 1]) && '\n' !in g
  {
    assert start[|start| - 1] in start;
    SplitChars(start, '.');
  }

  lemma {:induction false} SplitChars(s: string, sep: char)
    ensures forall p, c | p in Split(s, sep) && c in p :: c in s
  {
    if s != "" {
      SplitChars(s[1..], sep);
      var rest := Split(s[1..], sep);
      assert rest[0] in rest;
      assert forall p | p in rest[1..] :: p in rest;
    }
  }

  /** By its looks: a line that is stored as it is read, and is no lease. */
  predicate PlainLine(l: string) {
    |l| > 5 && !IsSpace(l[0]) && !IsSpace(l[|l| - 1]) && l[5] != 'h' && '\n' !in l
  }

  lemma PlainMeans(l: string)
    requires PlainLine(l)
    ensures Trim(l) == l && l != "" && !HasPrefix(l, "dhcp-host=")
  {
    var h := "dhcp-host=";
    assert l[5] != h[5];
    TrimIdentity(l);
  }

  lemma NoRange(l: string)
    requires |l| > 5 && l[5] != 'r'
    ensures !HasPrefix(l, "dhcp-range=")
  {
    var h := "dhcp-range=";
    assert h[5] == 'r';
  }

  lemma RangeLine(start: string, end: string)
    requires IsIp(start) && IsIp(end)
    ensures PlainLine(RangeText(start, end)) && HasPrefix(RangeText(start, end), "dhcp-range=")
    ensures ParseDHCPRange(RangeText(start, end)) == (start, end)
  {
    var line := RangeText(start, end);
    assert '\n' !in start && '\n' !in end;
    assert line[5] == 'r';
    assert line[11..] == start + [','] + (end + [','] + "12h");
    SplitRange(start, end, "12h");
  }

  lemma SplitRange(start: string, end: string, lease: string)
    requires ',' !in start && ',' !in end
    ensures var parts := Split(start + [','] + (end + [','] + lease), ','); |parts| >= 2 && parts[0] == start && parts[1] == end
  {
    SplitFirst(start, ',', end + [','] + lease);
    SplitFirst(end, ',', lease);
  }

  lemma RouterLine(start: string)
    requires IsIp(start)
    ensures PlainNoRange(RouterText(start))
  {
    GatewayTrimmed(start);
    var head := "dhcp-option=option:router,";
    assert '\n' !in head && RouterText(start) == head + GatewayGuess(start);
    assert RouterText(start)[5] == head[5] == 'o';
  }

  /** Every setting is a plain line, and the third one is the range. */
  lemma SettingsArePlain(start: string, end: string)
    requires IsIp(start) && IsIp(end)
    ensures var lines := Settings(start, end);
            |lines| == 7 && (forall k | 0 <= k < 7 :: PlainLine(lines[k])) &&
            lines[2] == RangeText(start, end) && (forall k | 0 <= k < 7 && k != 2 :: lines[k][5] != 'r')
  {
    RangeLine(start, end);
    RouterLine(start);
    OtherSettingsArePlain();
    SevenPlain(Settings(start, end));
  }

  predicate PlainNoRange(l: string) {
    PlainLine(l) && l[5] != 'r'
  }

  lemma OtherSettingsArePlain()
    ensures PlainNoRange("bind-dynamic") && PlainNoRange("port=0") && PlainNoRange("no-hosts")
    ensures PlainNoRange("no-resolv") && PlainNoRange("log-facility=/dev/null")
  {
  }

  lemma SevenPlain(lines: seq<string>)
    requires |lines| == 7 && PlainNoRange(lines[0]) && PlainNoRange(lines[1]) && PlainLine(lines[2])
    requires PlainNoRange(lines[3]) && PlainNoRange(lines[4]) && PlainNoRange(lines[5]) && PlainNoRange(lines[6])
    ensures forall k | 0 <= k < 7 :: PlainLine(lines[k])
    ensures forall k | 0 <= k < 7 && k != 2 :: lines[k][5] != 'r'
  {
  }

  lemma HeadReads(bridge: string, start: string, end: string)
    requires '\n' !in bridge && IsIp(start) && IsIp(end)
    ensures FilterHostLines(Nonblank(HeadLines(bridge, start, end))) == []
    ensures forall l | l in HeadLines(bridge, start, end) :: '\n' !in l
    ensures forall tail :: DhcpRangeOf(Nonblank(HeadLines(bridge, start, end)) + tail) == (start, end)
  {
    var first, rest := "interface=" + bridge, Settings(start, end);
    SettingsArePlain(start, end);
    InterfaceLine(bridge);
    HeadIsClean(first, rest);
    RangeLine(start, end);
    NoRange(rest[0]);
    NoRange(rest[1]);
    forall tail ensures DhcpRangeOf(Nonblank(HeadLines(bridge, start, end)) + tail) == (start, end) {
      RangeAtThree([Trim(first)] + rest + tail, start, end);
    }
  }

  lemma HeadIsClean(first: string, rest: seq<string>)
    requires '\n' !in first && Trim(first) != "" && !HasPrefix(Trim(first), "dhcp-host=")
    requires forall k | 0 <= k < |rest| :: PlainLine(rest[k])
    ensures Nonblank([first] + rest) == [Trim(first)] + rest
    ensures FilterHostLines([Trim(first)] + rest) == []
    ensures forall l | l in [first] + rest :: '\n' !in l
  {
    NonblankOne(first);
    NonblankConcat([first], rest);
    RestIsClean(rest);
    FilterConcat([Trim(first)], rest);
    FilterOne(Trim(first));
    RestIsOneLineEach(rest);
  }

  lemma RestIsOneLineEach(rest: seq<string>)
    requires forall k | 0 <= k < |rest| :: PlainLine(rest[k])
    ensures forall l | l in rest :: '\n' !in l
  {
    forall k | 0 <= k < |rest| ensures '\n' !in rest[k] {
      PlainMeans(rest[k]);
    }
  }

  lemma FilterOne(l: string)
    ensures FilterHostLines([l]) == if HasPrefix(l, "dhcp-host=") then [l] else []
  {
    assert [l][..0] == [];
  }

  lemma RestIsClean(rest: seq<string>)
    requires forall k | 0 <= k < |rest| :: PlainLine(rest[k])
    ensures Nonblank(rest) == rest && FilterHostLines(rest) == []
  {
    forall k | 0 <= k < |rest| ensures Trim(rest[k]) == rest[k] && rest[k] != "" && !HasPrefix(rest[k], "dhcp-host=") {
      PlainMeans(rest[k]);
    }
    NonblankTrimmed(rest);
    NoHostLine(rest);
  }

  lemma InterfaceLine(bridge: string)
    requires '\n' !in bridge
    ensures var l := "interface=" + bridge;
            '\n' !in l && Trim(l) != "" && !HasPrefix(Trim(l), "dhcp-host=") && !HasPrefix(Trim(l), "dhcp-range=")
  {
    var l := "interface=" + bridge;
    assert l[0] == 'i' && "dhcp-host="[0] == 'd';
    TrimRightEnds(l);
  }

  lemma NonblankOne(l: string)
    requires Trim(l) != ""
    ensures Nonblank([l]) == [Trim(l)]
  {
    assert [l][..0] == [];
  }

  lemma {:induction false} NonblankTrimmed(lines: seq<string>)
    requires forall k | 0 <= k < |lines| :: Trim(lines[k]) == lines[k] && lines[k] != ""
    ensures Nonblank(lines) == lines
  {
    if lines != [] {
      NonblankTrimmed(lines[..|lines| - 1]);
      assert lines == lines[..|lines| - 1] + [lines[|lines| - 1]];
    }
  }

  lemma {:induction false} NoHostLine(lines: seq<string>)
    requires forall k | 0 <= k < |lines| :: !HasPrefix(lines[k], "dhcp-host=")
    ensures FilterHostLines(lines) == []
  {
    if lines != [] {
      NoHostLine(lines[..|lines| - 1]);
    }
  }

  lemma RangeAtThree(lines: seq<string>, start: string, end: string)
    requires |lines| >= 4 && lines[3] == RangeText(start, end) && IsIp(start) && IsIp(end)
    requires forall k | 0 <= k < 3 :: !HasPrefix(lines[k], "dhcp-range=")
    ensures DhcpRangeOf(lines) == (start, end)
  {
    RangeLine(start, end);
    assert lines[1..][1..] == lines[2..] && lines[2..][1..] == lines[3..];
    assert DhcpRangeOf(lines) == DhcpRangeOf(lines[1..]) == DhcpRangeOf(lines[2..]) == DhcpRangeOf(lines[3..]);
  }

  /** Reading a rendered configuration gives back its range and its leases, line by line. */
  lemma RenderedReadsBack(text: string, bridge: string, start: string, end: string, hosts: seq<Host>)
    requires Represents(text, bridge, start, end, hosts)
    ensures Nonblank(Split(text, '\n')) == Nonblank(HeadLines(bridge, start, end)) + HostLinesOf(hosts)
    ensures FilterHostLines(Nonblank(Split(text, '\n'))) == HostLinesOf(hosts)
    ensures DhcpRangeOf(Nonblank(Split(text, '\n'))) == (start, end)
  {
    var head := HeadLines(bridge, start, end);
    HeadReads(bridge, start, end);
    HostLinesAreClean(hosts);
    SplitUnlines(head + HostLinesOf(hosts));
    NonblankConcat(head + HostLinesOf(hosts), [""]);
    assert Nonblank([""]) == [] by {
      assert [""][..0] == [];
    }
    NonblankConcat(head, HostLinesOf(hosts));
    FilterConcat(Nonblank(head), HostLinesOf(hosts));
  }

  /** A part of a dotted address. */
  predicate Octet(a: string) {
    '.' !in a
  }

  function Dotted(a: string, b: string, c: string, d: string): string {
    a + "." + b + "." + c + "." + d
  }

  /** The router of a four-part address is number 1 of its network; any other text is taken as it is. */
  lemma RouterOfAddress(a: string, b: string, c: string, d: string)
    requires Octet(a) && Octet(b) && Octet(c) && Octet(d)
    ensures GatewayGuess(Dotted(a, b, c, d)) == Dotted(a, b, c, "1")
  {
    var start := Dotted(a, b, c, d);
    assert start == a + ['.'] + (b + ['.'] + (c + ['.'] + d));
    SplitFirst(a, '.', b + ['.'] + (c + ['.'] + d));
    SplitFirst(b, '.', c + ['.'] + d);
    SplitFirst(c, '.', d);
    SplitNone(d, '.');
    assert Split(start, '.') == [a, b, c, d];
    assert a + "." + b + "." + c + ".1" == Dotted(a, b, c, "1");
  }

  /** The router line for the first address of a range. */
  ghost predicate SaysRouter(line: string, start: string) {
    forall a, b, c, d | start == Dotted(a, b, c, d) && Octet(a) && Octet(b) && Octet(c) && Octet(d) ::
      line == "dhcp-option=option:router," + Dotted(a, b, c, "1")
  }

  lemma RouterIsSaid(start: string)
    ensures SaysRouter(RouterText(start), start)
  {
    forall a, b, c, d | start == Dotted(a, b, c, d) && Octet(a) && Octet(b) && Octet(c) && Octet(d)
      ensures RouterText(start) == "dhcp-option=option:router," + Dotted(a, b, c, "1")
    {
      RouterOfAddress(a, b, c, d);
    }
  }

  /**
   Every file serves addresses on its own bridge only and no names: line by line the
   bridge, the DNS port 0, the range from start to end, the network's first address as
   router, and the leases.
   */
  lemma FileSaysSettings(text: string, bridge: string, start: string, end: string, hosts: seq<Host>)
    requires Represents(text, bridge, start, end, hosts)
    ensures var lines := Split(text, '\n');
            |lines| == 9 + |hosts| && lines[0] == "interface=" + bridge && lines[1] == "bind-dynamic" &&
            lines[2] == "port=0" && lines[3] == "dhcp-range=" + start + "," + end + ",12h" &&
            SaysRouter(lines[4], start) && lines[5] == "no-hosts" && lines[6] == "no-resolv" &&
            lines[7] == "log-facility=/dev/null" && lines[8 + |hosts|] == "" &&
            forall k | 0 <= k < |hosts| :: lines[8 + k] == "dhcp-host=" + hosts[k].mac + "," + hosts[k].ip
  {
    HeadReads(bridge, start, end);
    HostLinesAreClean(hosts);
    SplitUnlines(HeadLines(bridge, start, end) + HostLinesOf(hosts));
    HeadSays(HeadLines(bridge, start, end), bridge, start, end);
    LinesInOrder(Split(text, '\n'), HeadLines(bridge, start, end), hosts);
  }

  lemma HeadSays(head: seq<string>, bridge: string, start: string, end: string)
    requires head == HeadLines(bridge, start, end)
    ensures |head| == 8 && head[0] == "interface=" + bridge && head[1] == "bind-dynamic" && head[2] == "port=0"
    ensures head[3] == "dhcp-range=" + start + "," + end + ",12h" && SaysRouter(head[4], start)
    ensures head[5] == "no-hosts" && head[6] == "no-resolv" && head[7] == "log-facility=/dev/null"
  {
    RouterIsSaid(start);
  }

  lemma LinesInOrder(lines: seq<string>, head: seq<string>, hosts: seq<Host>)
    requires lines == head + HostLinesOf(hosts) + [""] && |head| == 8
    ensures |lines| == 9 + |hosts| && (forall k | 0 <= k < 8 :: lines[k] == head[k]) && lines[8 + |hosts|] == ""
    ensures forall k | 0 <= k < |hosts| :: lines[8 + k] == "dhcp-host=" + hosts[k].mac + "," + hosts[k].ip
  {
    forall k | 0 <= k < |hosts|
      ensures lines[8 + k] == HostLine(hosts[k])
    {
      assert lines[8 + k] == HostLinesOf(hosts)[k];
    }
  }

  // ----- editing line by line -----------------------------------------------------

  /** The lines the agent drops: leases that mention the MAC or, when binding, end in the IP. */
  predicate Dropped(line: string, mac: string, byIp: bool, ip: string) {
    HasPrefix(line, "dhcp-host=") && (Contains(ToLower(line), mac + ",") || (byIp && HasSuffix(line, "," + ip)))
  }

  function Surviving(lines: seq<string>, mac: string, byIp: bool, ip: string): seq<string> {
    if lines == [] then []
    else
      var last := lines[|lines| - 1];
      Surviving(lines[..|lines| - 1], mac, byIp, ip) + (if Dropped(last, mac, byIp, ip) then [] else [last])
  }

  lemma {:induction false} SurvivingConcat(a: seq<string>, b: seq<string>, mac: string, byIp: bool, ip: string)
    ensures Surviving(a + b, mac, byIp, ip) == Surviving(a, mac, byIp, ip) + Surviving(b, mac, byIp, ip)
    decreases |b|
  {
    if b == [] {
      assert a + b == a;
    } else {
      var front := b[..|b| - 1];
      SurvivingConcat(a, front, mac, byIp, ip);
      assert (a + b)[..|a + b| - 1] == a + front;
    }
  }

  lemma {:induction false} NonLeasesSurvive(lines: seq<string>, mac: string, byIp: bool, ip: string)
    requires FilterHostLines(lines) == []
    ensures Surviving(lines, mac, byIp, ip) == lines
  {
    if lines != [] {
      var front, last := lines[..|lines| - 1], lines[|lines| - 1];
      OneLineLess(lines, front, last);
      NonLeasesSurvive(front, mac, byIp, ip);
    }
  }

  lemma OneLineLess(lines: seq<string>, front: seq<string>, last: string)
    requires lines != [] && front == lines[..|lines| - 1] && last == lines[|lines| - 1] && FilterHostLines(lines) == []
    ensures lines == front + [last] && FilterHostLines(front) == [] && !HasPrefix(last, "dhcp-host=")
  {
  }

  /** On lease lines, dropping by text is dropping by MAC and IP. */
  lemma {:induction false} LeasesSurvive(hosts: seq<Host>, mac: string, byIp: bool, ip: string)
    requires WellFormed(hosts) && IsMac(mac) && (byIp ==> IsIp(ip))
    ensures Surviving(HostLinesOf(hosts), mac, byIp, ip) == HostLinesOf(Others(hosts, mac, if byIp then ip else ""))
  {
    if hosts != [] {
      var front, last := hosts[..|hosts| - 1], hosts[|hosts| - 1];
      LeasesSurvive(front, mac, byIp, ip);
      OneLineMore(front, last);
      OneLineMore(Others(front, mac, if byIp then ip else ""), last);
      assert hosts == front + [last];
      LeaseDropped(last, mac, byIp, ip);
    }
  }

  lemma OneLineMore(front: seq<Host>, last: Host)
    ensures HostLinesOf(front + [last]) == HostLinesOf(front) + [HostLine(last)]
  {
  }

  lemma LeaseDropped(h: Host, mac: string, byIp: bool, ip: string)
    requires IsMac(h.mac) && ToLower(h.mac) == h.mac && IsIp(h.ip) && IsMac(mac) && (byIp ==> IsIp(ip))
    ensures Dropped(HostLine(h), mac, byIp, ip) <==> !(h.mac != mac && h.ip != if byIp then ip else "")
  {
    LineMatches(h, mac, ip);
    HostLineTrimmed(h);
  }

  /** One more line of the file: it is skipped when blank, and otherwise kept or dropped. */
  lemma SurviveOne(all: seq<string>, i: nat, mac: string, byIp: bool, ip: string)
    requires i < |all|
    ensures var before, after := Nonblank(all[..i]), Nonblank(all[..i + 1]);
            var line := Trim(all[i]);
            (line == "" ==> after == before) &&
            (line != "" ==> Surviving(after, mac, byIp, ip) ==
                              Surviving(before, mac, byIp, ip) + (if Dropped(line, mac, byIp, ip) then [] else [line])) &&
            FilterHostLines(after) == FilterHostLines(before) + (if HasPrefix(line, "dhcp-host=") then [line] else [])
  {
    var before, after := Nonblank(all[..i]), Nonblank(all[..i + 1]);
    var line := Trim(all[i]);
    assert all[..i + 1][..i] == all[..i];
    if line == "" {
      assert after == before + [] == before;
      assert FilterHostLines(before) + [] == FilterHostLines(before);
    } else {
      assert after == before + [line];
      assert after[..|after| - 1] == before;
    }
  }

  /** What the edit loops have in hand after the last line. */
  lemma EditedLines(text: string, bridge: string, start: string, end: string, hosts: seq<Host>,
                    mac: string, byIp: bool, ip: string)
    requires Represents(text, bridge, start, end, hosts) && IsMac(mac) && (byIp ==> IsIp(ip))
    ensures var lines := Surviving(Nonblank(Split(text, '\n')), mac, byIp, ip);
            lines == Nonblank(HeadLines(bridge, start, end)) + HostLinesOf(Others(hosts, mac, if byIp then ip else "")) &&
            FilterHostLines(lines) == HostLinesOf(Others(hosts, mac, if byIp then ip else ""))
  {
    var head := Nonblank(HeadLines(bridge, start, end));
    var kept := Others(hosts, mac, if byIp then ip else "");
    RenderedReadsBack(text, bridge, start, end, hosts);
    HeadReads(bridge, start, end);
    SurvivingConcat(head, HostLinesOf(hosts), mac, byIp, ip);
    NonLeasesSurvive(head, mac, byIp, ip);
    LeasesSurvive(hosts, mac, byIp, ip);
    OthersMembers(hosts, mac, if byIp then ip else "");
    HostLinesAreClean(kept);
    FilterConcat(head, HostLinesOf(kept));
  }

  /** Appending the new lease line gives the lines of the new leases, range first. */
  lemma BoundLines(bridge: string, start: string, end: string, kept: seq<Host>, h: Host)
    requires '\n' !in bridge && IsIp(start) && IsIp(end) && WellFormed(kept + [h])
    ensures var lines := Nonblank(HeadLines(bridge, start, end)) + HostLinesOf(kept) + [HostLine(h)];
            DhcpRangeOf(lines) == (start, end) && FilterHostLines(lines) == HostLinesOf(kept + [h])
  {
    HeadReads(bridge, start, end);
    LeasesBehindHead(Nonblank(HeadLines(bridge, start, end)), kept, h);
  }

  lemma LeasesBehindHead(head: seq<string>, kept: seq<Host>, h: Host)
    requires FilterHostLines(head) == [] && WellFormed(kept + [h])
    ensures head + HostLinesOf(kept) + [HostLine(h)] == head + HostLinesOf(kept + [h])
    ensures FilterHostLines(head + HostLinesOf(kept + [h])) == HostLinesOf(kept + [h])
  {
    HostLinesAreClean(kept + [h]);
    FilterConcat(head, HostLinesOf(kept + [h]));
  }

  lemma BoundIsWellFormed(hosts: seq<Host>, mac: string, ip: string)
    requires WellFormed(hosts) && IsMac(mac) && ToLower(mac) == mac && IsIp(ip)
    ensures WellFormed(Others(hosts, mac, ip) + [Host(mac, ip)])
  {
    OthersMembers(hosts, mac, ip);
  }

  lemma LoweredMac(mac: string)
    requires IsMac(mac)
    ensures IsMac(ToLower(mac)) && ToLower(ToLower(mac)) == ToLower(mac)
  {
    forall c | c in ToLower(mac) ensures MacChar(c) {
      var i :| 0 <= i < 17 && ToLower(mac)[i] == c;
      assert mac[i] in mac;
    }
  }

  /** The range of the last range line; there is only one. */
  function LastRange(lines: seq<string>): (string, string) {
    if lines == [] then ("", "")
    else if HasPrefix(lines[|lines| - 1], "dhcp-range=") then ParseDHCPRange(lines[|lines| - 1])
    else LastRange(lines[..|lines| - 1])
  }

  lemma {:induction false} LastRangeSkips(a: seq<string>, b: seq<string>)
    requires forall k | 0 <= k < |b| :: !HasPrefix(b[k], "dhcp-range=")
    ensures LastRange(a + b) == LastRange(a)
    decreases |b|
  {
    if b == [] {
      assert a + b == a;
    } else {
      LastRangeSkips(a, b[..|b| - 1]);
      assert (a + b)[..|a + b| - 1] == a + b[..|b| - 1];
    }
  }

  lemma LastRangeReads(text: string, bridge: string, start: string, end: string, hosts: seq<Host>)
    requires Represents(text, bridge, start, end, hosts)
    ensures LastRange(Nonblank(Split(text, '\n'))) == (start, end)
  {
    var first, rest := "interface=" + bridge, Settings(start, end);
    var tail := HostLinesOf(hosts);
    RenderedReadsBack(text, bridge, start, end, hosts);
    SettingsArePlain(start, end);
    InterfaceLine(bridge);
    HeadIsClean(first, rest);
    RangeLine(start, end);
    forall k | 0 <= k < |tail| ensures !HasPrefix(tail[k], "dhcp-range=") {
      assert hosts[k] in hosts;
      HostLineTrimmed(hosts[k]);
    }
    forall k | 3 <= k < 7 ensures !HasPrefix(rest[k], "dhcp-range=") {
      NoRange(rest[k]);
    }
    LastRangeAtThree(Trim(first), rest, tail);
  }

  lemma LastRangeAtThree(first: string, rest: seq<string>, tail: seq<string>)
    requires |rest| == 7 && HasPrefix(rest[2], "dhcp-range=")
    requires forall k | 3 <= k < 7 :: !HasPrefix(rest[k], "dhcp-range=")
    requires forall k | 0 <= k < |tail| :: !HasPrefix(tail[k], "dhcp-range=")
    ensures LastRange([first] + rest + tail) == ParseDHCPRange(rest[2])
  {
    var front, behind := [first] + rest[..2] + [rest[2]], rest[3..] + tail;
    Regroup([first], rest, tail);
    forall k | 0 <= k < |behind| ensures !HasPrefix(behind[k], "dhcp-range=") {
      assert behind[k] == if k < 4 then rest[k + 3] else tail[k - 4];
    }
    LastRangeSkips(front, behind);
    LastRangeLast([first] + rest[..2], rest[2]);
  }

  lemma Regroup(a: seq<string>, b: seq<string>, c: seq<string>)
    requires |b| >= 3
    ensures a + b + c == a + b[..2] + [b[2]] + (b[3..] + c)
  {
  }

  lemma LastRangeLast(a: seq<string>, l: string)
    requires HasPrefix(l, "dhcp-range=")
    ensures LastRange(a + [l]) == ParseDHCPRange(l)
  {
  }

  /** What binding reads from the file, and what the new file will stand for. */
  lemma NewBinding(text: string, bridge: string, start: string, end: string, hosts: seq<Host>, mac: string, ip: string)
    requires Represents(text, bridge, start, end, hosts) && Bijective(hosts)
    requires IsMac(mac) && ToLower(mac) == mac && IsIp(ip)
    ensures var lines := Surviving(Nonblank(Split(text, '\n')), mac, true, ip) + ["dhcp-host=" + mac + "," + ip];
            DhcpRangeOf(lines) == (start, end) &&
            Represents(RenderDnsmasqConf(bridge, start, end, FilterHostLines(lines)), bridge, start, end, Bound(hosts, mac, ip))
    ensures start != "" && end != "" && Bijective(Bound(hosts, mac, ip))
  {
    EditedLines(text, bridge, start, end, hosts, mac, true, ip);
    BoundIsWellFormed(hosts, mac, ip);
    BoundLines(bridge, start, end, Others(hosts, mac, ip), Host(mac, ip));
    BindingReplaces(hosts, mac, ip);
  }

  /** What releasing a MAC reads from the file, and what the new file will stand for. */
  lemma Released(text: string, bridge: string, start: string, end: string, hosts: seq<Host>, mac: string)
    requires Represents(text, bridge, start, end, hosts) && Bijective(hosts) && IsMac(mac)
    ensures var lines := Nonblank(Split(text, '\n'));
            LastRange(lines) == (start, end) &&
            Represents(RenderDnsmasqConf(bridge, start, end, FilterHostLines(Surviving(lines, mac, false, ""))),
                       bridge, start, end, Unbound(hosts, mac))
    ensures start != "" && end != "" && Bijective(Unbound(hosts, mac))
  {
    LastRangeReads(text, bridge, start, end, hosts);
    EditedLines(text, bridge, start, end, hosts, mac, false, "");
    UnbindingRemoves(hosts, mac);
  }

  lemma LastRangeOne(all: seq<string>, i: nat)
    requires i < |all|
    ensures var line := Trim(all[i]);
            LastRange(Nonblank(all[..i + 1])) ==
              if HasPrefix(line, "dhcp-range=") then ParseDHCPRange(line) else LastRange(Nonblank(all[..i]))
  {
    var before, line := Nonblank(all[..i]), Trim(all[i]);
    assert all[..i + 1][..i] == all[..i];
    if line == "" {
      assert before + [] == before;
    } else {
      assert (before + [line])[..|before|] == before;
    }
  }

  // ----- the agent's code ---------------------------------------------------------

  class DnsmasqConf {
    const bridge: string
    var conf: File
    ghost var rangeStart: string
    ghost var rangeEnd: string
    ghost var hosts: seq<Host>

    /** The file, if there is one, stands for the ghost range and leases; they are a bijection. */
    ghost predicate Valid()
      reads this
    {
      Bijective(hosts) &&
      match conf
      case Missing => hosts == []
      case Text(text) => Represents(text, bridge, rangeStart, rangeEnd, hosts)
    }

    constructor (bridge: string)
      ensures Valid() && conf == Missing && this.bridge == bridge
    {
      this.bridge := bridge;
      conf := Missing;
      hosts := [];
    }

    method WriteDnsmasqConf(start: string, end: string, lines: seq<string>)
      modifies this`conf
      ensures conf == Text(RenderDnsmasqConf(bridge, start, end, lines))
    {
      conf := Text(RenderDnsmasqConf(bridge, start, end, lines));
    }

    method ReadDnsmasqHosts() returns (out: seq<string>)
      requires Valid()
      ensures out == HostLinesOf(hosts)
    {
      out := [];
      if conf.Missing? {
        return;
      }
      var lines := Split(conf.text, '\n');
      for i := 0 to |lines|
        invariant out == FilterHostLines(Nonblank(lines[..i]))
      {
        var line := Trim(lines[i]);
        SurviveOne(lines, i, "", false, "");
        if HasPrefix(line, "dhcp-host=") {
          out := out + [line];
        }
      }
      assert lines[..|lines|] == lines;
      RenderedReadsBack(conf.text, bridge, rangeStart, rangeEnd, hosts);
    }

    /** Configuring the switch again keeps the leases. */
    method RunDnsmasqForBridge(start: string, end: string) returns (ok: bool)
      requires Valid() && IsIp(start) && IsIp(end) && '\n' !in bridge
      modifies this
      ensures Valid() && conf.Text? && rangeStart == start && rangeEnd == end
      ensures hosts == old(hosts)
    {
      var lines := ReadDnsmasqHosts();
      WriteDnsmasqConf(start, end, lines);
      rangeStart, rangeEnd := start, end;
      var started: bool := *;
      ok := started;
    }

    /** Binds an address: whatever lease had this MAC or this IP is replaced. */
    method UpsertDHCPHost(mac: string, ip: string, start: string, end: string) returns (ok: bool)
      requires Valid() && IsMac(mac) && IsIp(ip) && '\n' !in bridge
      requires (start == "" || IsIp(start)) && (end == "" || IsIp(end))
      modifies this
      ensures Valid()
      ensures old(conf.Missing?) && (start == "" || end == "") ==> !ok && conf == old(conf)
      ensures !(old(conf.Missing?) && (start == "" || end == "")) ==>
                conf.Text? && hosts == Bound(old(hosts), ToLower(mac), ip)
      ensures old(conf.Text?) ==> rangeStart == old(rangeStart) && rangeEnd == old(rangeEnd)
      ensures old(conf.Missing?) && conf.Text? ==> rangeStart == start && rangeEnd == end
    {
      if conf.Missing? {
        if start == "" || end == "" {
          return false;
        }
        WriteDnsmasqConf(start, end, []);
        rangeStart, rangeEnd := start, end;
        assert HostLinesOf([]) == [];
      }
      var low := ToLower(mac);
      LoweredMac(mac);
      var want := "dhcp-host=" + low + "," + ip;
      var lines := KeepLines(low, true, ip);
      NewBinding(conf.text, bridge, rangeStart, rangeEnd, hosts, low, ip);
      lines := lines + [want];
      var range := DhcpRangeOf(lines);
      assert range == (rangeStart, rangeEnd);
      if range.0 == "" || range.1 == "" {
        return false;
      }
      WriteDnsmasqConf(range.0, range.1, FilterHostLines(lines));
      hosts := Bound(hosts, low, ip);
      var started: bool := *;
      ok := started;
    }

    /** The trimmed lines of the file without the blank ones and the ones to be dropped. */
    method KeepLines(low: string, byIp: bool, ip: string) returns (lines: seq<string>)
      requires conf.Text?
      ensures lines == Surviving(Nonblank(Split(conf.text, '\n')), low, byIp, ip)
    {
      var all := Split(conf.text, '\n');
      lines := [];
      for i := 0 to |all|
        invariant lines == Surviving(Nonblank(all[..i]), low, byIp, ip)
      {
        var trim := Trim(all[i]);
        SurviveOne(all, i, low, byIp, ip);
        if trim == "" {
          continue;
        }
        if HasPrefix(trim, "dhcp-host=") && (Contains(ToLower(trim), low + ",") || (byIp && HasSuffix(trim, "," + ip))) {
          continue;
        }
        lines := lines + [trim];
      }
      assert all[..|all|] == all;
    }

    /** The same for releasing, with the range picked up on the way. */
    method KeepLinesAndRange(low: string) returns (kept: seq<string>, range: (string, string))
      requires conf.Text?
      ensures kept == Surviving(Nonblank(Split(conf.text, '\n')), low, false, "")
      ensures range == LastRange(Nonblank(Split(conf.text, '\n')))
    {
      var all := Split(conf.text, '\n');
      kept := [];
      range := ("", "");
      for i := 0 to |all|
        invariant kept == Surviving(Nonblank(all[..i]), low, false, "")
        invariant range == LastRange(Nonblank(all[..i]))
      {
        var trim := Trim(all[i]);
        SurviveOne(all, i, low, false, "");
        LastRangeOne(all, i);
        if trim == "" {
          continue;
        }
        if HasPrefix(trim, "dhcp-range=") {
          range := ParseDHCPRange(trim);
          RangeIsNoLease(trim);
          kept := kept + [trim];
          continue;
        }
        if HasPrefix(trim, "dhcp-host=") && Contains(ToLower(trim), low + ",") {
          continue;
        }
        kept := kept + [trim];
      }
      assert all[..|all|] == all;
    }

    /** Releases whatever address a MAC has; nothing to do without a file. */
    method RemoveDHCPHost(mac: string) returns (ok: bool)
      requires Valid() && IsMac(mac)
      modifies this
      ensures Valid()
      ensures hosts == Unbound(old(hosts), ToLower(mac))
      ensures rangeStart == old(rangeStart) && rangeEnd == old(rangeEnd) && (conf.Missing? <==> old(conf.Missing?))
    {
      var low := ToLower(mac);
      LoweredMac(mac);
      if conf.Missing? {
        return true;
      }
      var kept, range := KeepLinesAndRange(low);
      Released(conf.text, bridge, rangeStart, rangeEnd, hosts, low);
      assert range == (rangeStart, rangeEnd);
      if range.0 == "" || range.1 == "" {
        return true;
      }
      WriteDnsmasqConf(range.0, range.1, FilterHostLines(kept));
      hosts := Unbound(hosts, low);
      var started: bool := *;
      ok := started;
    }
  }

  lemma RangeIsNoLease(l: string)
    requires HasPrefix(l, "dhcp-range=")
    ensures !HasPrefix(l, "dhcp-host=")
  {
    var r, h := "dhcp-range=", "dhcp-host=";
    assert r[5] != h[5];
  }
}
