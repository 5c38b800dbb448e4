/**
 * The settings that CoreDNS is run with, and the Corefile printed from them.
 */
module Corefile {
  import opened Options
  import opened Text
  import opened Numbers

  datatype Resolver = Resolver(address: string, protocol: string, tlsServerName: string, enabled: bool)

  datatype Forwarding = Forwarding(enabled: bool, domain: string, resolver: string, protocol: string, tlsServerName: string)

  datatype Rewrite = Rewrite(
    enabled: bool, mode: string, field: string, matching: string, from: string, to: string,
    rcodeFrom: string, rcodeTo: string, answerMode: string, answerFrom: string, answerTo: string)

  datatype DnsConfig = DnsConfig(
    listen: string, resolvers: seq<Resolver>, cacheTTL: int, successTTL: int, denialTTL: int,
    successCapacity: int, denialCapacity: int, prefetchAmount: int, prefetchDuration: int, prefetchPercent: int,
    dnssecEnabled: bool, dnssecMode: string, forwarding: Forwarding, rewrites: seq<Rewrite>)

  datatype Logging = Logging(level: string, format: string)

  datatype Level = Debug | Info | Warn | Error

  /** Answers of the standard library about letters and network addresses. */
  datatype Net = Net(upper: char -> char, splitHostPort: string -> Option<(string, string)>, isIPv6: string -> bool)

  function Folded(lib: Library, s: string): string {
    Lower(lib, TrimSpace(lib, s))
  }

  function Raised(lib: Library, net: Net, s: string): string {
    Upper(net, TrimSpace(lib, s))
  }

  function Upper(net: Net, s: string): string {
    if s == "" then "" else [net.upper(s[0])] + Upper(net, s[1..])
  }

  function OrDefault(s: string, default: string): string {
    if s == "" then default else s
  }

  // ------------------------------------------------------------ effective settings

  function EffectiveLevel(lib: Library, l: Logging): Level {
    var level := Folded(lib, l.level);
    if level == "debug" then Debug
    else if level == "warn" || level == "warning" then Warn
    else if level == "error" then Error
    else Info
  }

  predicate JsonFormat(lib: Library, l: Logging) {
    Folded(lib, l.format) == "json"
  }

  function EffectiveSuccessTTL(d: DnsConfig): int {
    if d.successTTL > 0 || d.denialTTL > 0 then d.successTTL else d.cacheTTL
  }

  function EffectiveDenialTTL(d: DnsConfig): int {
    if d.successTTL > 0 || d.denialTTL > 0 then d.denialTTL else d.cacheTTL
  }

  predicate CacheEnabled(d: DnsConfig) {
    EffectiveSuccessTTL(d) > 0 || EffectiveDenialTTL(d) > 0
  }

  predicate DnssecUpstream(lib: Library, d: DnsConfig) {
    d.dnssecEnabled && Folded(lib, d.dnssecMode) in {"", "upstream"}
  }

  // ---------------------------------------------------------------------- printing

  function Line(text: string): string {
    text + "\n"
  }

  function ZoneAddress(net: Net, listen: string): string {
    if HasPrefix(listen, ":") then "." + listen
    else
      match net.splitHostPort(listen)
      case None => ".:" + listen
      case Some(parts) => if parts.1 == "" then ".:" + listen else ".:" + parts.1
  }

  function JoinHostPort(host: string, port: string): string {
    if ':' in host then "[" + host + "]:" + port else host + ":" + port
  }

  function TlsTarget(net: Net, address: string, serverName: string): string {
    if serverName == "" || '%' in address then address
    else if HasPrefix(address, "[") && ']' in address then
      var closing := |Before(address, ']')|;
      address[..closing] + "%" + serverName + address[closing..]
    else
      match net.splitHostPort(address)
      case Some(parts) => JoinHostPort(parts.0 + "%" + serverName, parts.1)
      case None => if net.isIPv6(address) then "[" + address + "%" + serverName + "]" else address + "%" + serverName
  }

  function Target(lib: Library, net: Net, r: Resolver): string {
    var protocol := Folded(lib, r.protocol);
    if Contains(r.address, "://") then r.address
    else if protocol == "tls" then "tls://" + TlsTarget(net, r.address, r.tlsServerName)
    else if protocol == "https" then "https://" + r.address
    else if protocol == "dns" then "dns://" + r.address
    else r.address
  }

  predicate EnabledTcp(lib: Library, r: Resolver) {
    r.enabled && Folded(lib, r.protocol) == "tcp"
  }

  function Targets(lib: Library, net: Net, resolvers: seq<Resolver>): seq<string> {
    if resolvers == [] then []
    else
      Targets(lib, net, resolvers[..|resolvers| - 1])
      + if resolvers[|resolvers| - 1].enabled then [Target(lib, net, resolvers[|resolvers| - 1])] else []
  }

  function Spaced(words: seq<string>): string {
    if words == [] then "" else Spaced(words[..|words| - 1]) + (" " + words[|words| - 1])
  }

  predicate ForcesTcp(lib: Library, resolvers: seq<Resolver>) {
    exists i :: 0 <= i < |resolvers| && EnabledTcp(lib, resolvers[i])
  }

  /** The directive with or without the block that makes it use TCP. */
  function ForwardBlock(line: string, forceTcp: bool): string {
    if forceTcp then Line(line + " {") + Line("        force_tcp") + Line("    }") else Line(line)
  }

  /** A forward line with all its targets. */
  function ForwardText(lib: Library, net: Net, from: string, resolvers: seq<Resolver>): string {
    ForwardBlock("    forward " + from + Spaced(Targets(lib, net, resolvers)), ForcesTcp(lib, resolvers))
  }

  function EffectiveMode(lib: Library, r: Rewrite): string {
    OrDefault(Folded(lib, r.mode), "stop")
  }

  function EffectiveMatch(lib: Library, r: Rewrite): string {
    OrDefault(Folded(lib, r.matching), "exact")
  }

  function NameRewrite(lib: Library, r: Rewrite): string {
    var mode := Folded(lib, r.answerMode);
    "    rewrite " + EffectiveMode(lib, r) + " name " + EffectiveMatch(lib, r) + " " + TrimSpace(lib, r.from) + " " + TrimSpace(lib, r.to)
    + (if mode == "auto" then " answer auto"
       else if mode == "name" || mode == "value" then
         " answer " + mode + " " + TrimSpace(lib, r.answerFrom) + " " + TrimSpace(lib, r.answerTo)
       else "")
  }

  /** The line of a rewrite; one that is off, or of another field, has none. */
  function RewriteText(lib: Library, net: Net, r: Rewrite): string {
    var field := Folded(lib, r.field);
    var opening := "    rewrite " + EffectiveMode(lib, r);
    if !r.enabled then ""
    else if field == "name" then Line(NameRewrite(lib, r))
    else if field == "type" then Line(opening + " type " + Raised(lib, net, r.from) + " " + Raised(lib, net, r.to))
    else if field == "ttl" then Line(opening + " ttl " + EffectiveMatch(lib, r) + " " + TrimSpace(lib, r.from) + " " + TrimSpace(lib, r.to))
    else if field == "rcode" then
      Line(opening + " rcode " + EffectiveMatch(lib, r) + " " + TrimSpace(lib, r.from)
           + " " + Raised(lib, net, r.rcodeFrom) + " " + Raised(lib, net, r.rcodeTo))
    else ""
  }

  function RewritesText(lib: Library, net: Net, rules: seq<Rewrite>): string {
    if rules == [] then "" else RewritesText(lib, net, rules[..|rules| - 1]) + RewriteText(lib, net, rules[|rules| - 1])
  }

  function CacheText(d: DnsConfig): string {
    if !CacheEnabled(d) then ""
    else
      Line("    cache {")
      + Line("        success " + Decimal(d.successCapacity) + " " + Decimal(EffectiveSuccessTTL(d)))
      + Line("        denial " + Decimal(d.denialCapacity) + " " + Decimal(EffectiveDenialTTL(d)))
      + (if d.prefetchAmount > 0
         then Line("        prefetch " + Decimal(d.prefetchAmount) + " " + Decimal(d.prefetchDuration) + "s " + Decimal(d.prefetchPercent) + "%")
         else "")
      + Line("    }")
  }

  /** The logging directives; the JSON format of the query log is a fixed text. */
  function LoggingText(lib: Library, jsonLog: string, l: Logging): string {
    if EffectiveLevel(lib, l) != Debug then Line("    errors")
    else
      Line("    errors {") + Line("        stacktrace") + Line("    }")
      + Line(if JsonFormat(lib, l) then "    log . " + jsonLog else "    log")
  }

  function DnssecText(lib: Library, d: DnsConfig): string {
    if DnssecUpstream(lib, d) then Line("    corehole_dnssec upstream") else ""
  }

  function ForwardingResolver(f: Forwarding): seq<Resolver> {
    [Resolver(f.resolver, f.protocol, f.tlsServerName, true)]
  }

  function ForwardingText(lib: Library, net: Net, f: Forwarding): string {
    if f.enabled then ForwardText(lib, net, f.domain, ForwardingResolver(f)) else ""
  }

  function CorefileText(lib: Library, net: Net, jsonLog: string, d: DnsConfig, l: Logging): string {
    Line(ZoneAddress(net, d.listen) + " {") + LoggingText(lib, jsonLog, l) + Line("    metadata") + Line("    corehole")
    + CacheText(d) + DnssecText(lib, d) + ForwardingText(lib, net, d.forwarding) + RewritesText(lib, net, d.rewrites)
    + ForwardText(lib, net, ".", d.resolvers) + Line("}")
  }

  // --------------------------------------------------------------------- the loops

  method WriteForward(lib: Library, net: Net, b: string, from: string, resolvers: seq<Resolver>) returns (r: string)
    ensures r == b + ForwardText(lib, net, from, resolvers)
  {
    hide Target, EnabledTcp, Targets, Spaced;
    var line := "";
    assert Spaced(Targets(lib, net, [])) == "" by { NoTargets(lib, net); }
    var forceTcp := false;
    for i := 0 to |resolvers|
      invariant line == Spaced(Targets(lib, net, resolvers[..i]))
      invariant forceTcp <==> exists j :: 0 <= j < i && EnabledTcp(lib, resolvers[j])
    {
      assert resolvers[..i + 1] == resolvers[..i] + [resolvers[i]];
      TcpMeans(lib, resolvers[i]);
      TargetsNext(lib, net, resolvers[..i], resolvers[i]);
      if !resolvers[i].enabled { continue; }
      if Folded(lib, resolvers[i].protocol) == "tcp" { forceTcp := true; }
      line := line + (" " + Target(lib, net, resolvers[i]));
    }
    assert resolvers[..|resolvers|] == resolvers;
    r := b + ForwardBlock("    forward " + from + line, forceTcp);
  }

  lemma TcpMeans(lib: Library, r: Resolver)
    ensures EnabledTcp(lib, r) <==> r.enabled && Folded(lib, r.protocol) == "tcp"
  {
  }

  lemma NoTargets(lib: Library, net: Net)
    ensures Spaced(Targets(lib, net, [])) == ""
  {
  }

  lemma TargetsNext(lib: Library, net: Net, front: seq<Resolver>, r: Resolver)
    ensures Spaced(Targets(lib, net, front + [r])) ==
            Spaced(Targets(lib, net, front)) + if r.enabled then " " + Target(lib, net, r) else ""
  {
    assert (front + [r])[..|front|] == front;
    var targets := Targets(lib, net, front);
    if r.enabled {
      assert (targets + [Target(lib, net, r)])[..|targets|] == targets;
    } else {
      assert targets + [] == targets;
    }
  }

  method WriteRewrites(lib: Library, net: Net, b: string, rules: seq<Rewrite>) returns (r: string)
    ensures r == b + RewritesText(lib, net, rules)
  {
    hide RewriteText;
    var text := "";
    for i := 0 to |rules|
      invariant text == RewritesText(lib, net, rules[..i])
    {
      assert rules[..i + 1][..i] == rules[..i];
      text := text + RewriteText(lib, net, rules[i]);
    }
    assert rules[..|rules|] == rules;
    r := b + text;
  }

  method PrintCorefile(lib: Library, net: Net, jsonLog: string, d: DnsConfig, l: Logging) returns (b: string)
    ensures b == CorefileText(lib, net, jsonLog, d, l)
  {
    hide ZoneAddress, LoggingText, CacheText, ForwardText, RewritesText, Line;
    b := Line(ZoneAddress(net, d.listen) + " {") + LoggingText(lib, jsonLog, l) + Line("    metadata") + Line("    corehole");
    b := b + CacheText(d);
    b := b + DnssecText(lib, d);
    if d.forwarding.enabled {
      b := WriteForward(lib, net, b, d.forwarding.domain, ForwardingResolver(d.forwarding));
    }
    b := WriteRewrites(lib, net, b, d.rewrites);
    b := WriteForward(lib, net, b, ".", d.resolvers);
    b := b + Line("}");
  }

  // ------------------------------------------------------------ the resolver rules

  predicate Token(s: string) {
    forall c :: c in s ==> c !in " \t\r\n{}"
  }

  predicate Supported(protocol: string) {
    protocol in ["", "udp", "tcp", "tls", "https", "dns"]
  }

  /** No character that ends a word of the Corefile, or opens or closes a block. */
  predicate OneWord(s: string) {
    forall i :: 0 <= i < |s| ==>
      s[i] != ' ' && s[i] != '\t' && s[i] != '\r' && s[i] != '\n' && s[i] != '{' && s[i] != '}'
  }

  lemma TokenMeans(s: string)
    ensures Token(s) <==> OneWord(s)
  {
    forall c ensures c in " \t\r\n{}" <==> c == ' ' || c == '\t' || c == '\r' || c == '\n' || c == '{' || c == '}' {
      var marks := " \t\r\n{}";
      assert marks[0] == ' ' && marks[1] == '\t' && marks[2] == '\r' && marks[3] == '\n' && marks[4] == '{' && marks[5] == '}';
    }
    if OneWord(s) {
      forall c | c in s ensures c !in " \t\r\n{}" {
        var i :| 0 <= i < |s| && s[i] == c;
      }
    } else {
      var i :| 0 <= i < |s| && s[i] in " \t\r\n{}";
      assert s[i] in s;
    }
  }

  /** What is asked of an enabled resolver by itself. */
  predicate ResolverOk(lib: Library, r: Resolver) {
    r.enabled ==>
      && r.address != "" && OneWord(r.address) && OneWord(r.tlsServerName)
      && var p := Lower(lib, TrimSpace(lib, r.protocol));
         p == "" || p == "udp" || p == "tcp" || p == "tls" || p == "https" || p == "dns"
  }

  predicate SpeaksTcp(lib: Library, r: Resolver) {
    Lower(lib, TrimSpace(lib, r.protocol)) == "tcp"
  }

  /** Some resolver is enabled, each is sound, and TCP ones are among themselves. */
  predicate ResolversOk(lib: Library, resolvers: seq<Resolver>) {
    && (forall i :: 0 <= i < |resolvers| ==> ResolverOk(lib, resolvers[i]))
    && (exists i :: 0 <= i < |resolvers| && resolvers[i].enabled)
    && (forall i, j :: 0 <= i < |resolvers| && 0 <= j < |resolvers| && resolvers[i].enabled && resolvers[j].enabled ==>
          (SpeaksTcp(lib, resolvers[i]) <==> SpeaksTcp(lib, resolvers[j])))
  }

  method ValidateResolvers(lib: Library, resolvers: seq<Resolver>) returns (ok: bool)
    ensures ok <==> ResolversOk(lib, resolvers)
  {
    hide ResolverOk, SpeaksTcp, Token, Supported, OneWord, Lower, TrimSpace;
    var anyEnabled, tcp, other := false, false, false;
    for i := 0 to |resolvers|
      invariant forall j :: 0 <= j < i ==> ResolverOk(lib, resolvers[j])
      invariant anyEnabled <==> exists j :: 0 <= j < i && resolvers[j].enabled
      invariant tcp <==> exists j :: 0 <= j < i && resolvers[j].enabled && SpeaksTcp(lib, resolvers[j])
      invariant other <==> exists j :: 0 <= j < i && resolvers[j].enabled && !SpeaksTcp(lib, resolvers[j])
    {
      var r := resolvers[i];
      ResolverOkMeans(lib, r);
      if r.enabled {
        anyEnabled := true;
        if r.address == "" { return false; }
        if !Token(r.address) { return false; }
        var protocol := Folded(lib, r.protocol);
        if !Supported(protocol) { return false; }
        if protocol == "tcp" { tcp := true; } else { other := true; }
        if r.tlsServerName != "" && !Token(r.tlsServerName) { return false; }
      }
    }
    ok := anyEnabled && !(tcp && other);
  }

  lemma ResolverOkMeans(lib: Library, r: Resolver)
    ensures ResolverOk(lib, r) <==>
            (r.enabled ==>
               && r.address != "" && Token(r.address) && Supported(Folded(lib, r.protocol))
               && (r.tlsServerName != "" ==> Token(r.tlsServerName)))
    ensures SpeaksTcp(lib, r) <==> Folded(lib, r.protocol) == "tcp"
  {
    hide Lower, TrimSpace, Token, OneWord;
    TokenMeans(r.address);
    TokenMeans(r.tlsServerName);
    NoText();
  }

  lemma NoText()
    ensures OneWord("")
  {
  }

  // ------------------------------------------------------------------- the targets

  predicate TransportAt(s: string, i: nat)
    requires i + 2 < |s|
  {
    s[i] == ':' && s[i + 1] == '/' && s[i + 2] == '/'
  }

  /**
   * The target of a resolver as CoreDNS is to read it: an address that names its
   * own transport as it is, else the transport of the protocol before the address,
   * and for TLS the server name as the zone of its host.
   */
  ghost predicate TargetSays(lib: Library, net: Net, r: Resolver, target: string) {
    var protocol := Lower(lib, TrimSpace(lib, r.protocol));
    if exists i :: 0 <= i < |r.address| - 2 && TransportAt(r.address, i) then target == r.address
    else if protocol == "tls" then
      exists host :: target == "tls://" + host && HostSays(net, r.address, r.tlsServerName, host)
    else target == (if protocol == "https" then "https://" else if protocol == "dns" then "dns://" else "") + r.address
  }

  /** The address with the server name after its host, inside the brackets if it has them or needs them. */
  ghost predicate HostSays(net: Net, address: string, serverName: string, host: string) {
    if serverName == "" || '%' in address then host == address
    else if address != "" && address[0] == '[' && ']' in address then
      exists i :: 0 <= i < |address| && address[i] == ']' && ']' !in address[..i]
                  && host == address[..i] + "%" + serverName + address[i..]
    else if net.splitHostPort(address).Some? then
      var named, port := net.splitHostPort(address).value.0 + "%" + serverName, net.splitHostPort(address).value.1;
      host == if ':' in named then "[" + named + "]:" + port else named + ":" + port
    else host == if net.isIPv6(address) then "[" + address + "%" + serverName + "]" else address + "%" + serverName
  }

  lemma TlsHost(net: Net, address: string, serverName: string)
    ensures HostSays(net, address, serverName, TlsTarget(net, address, serverName))
  {
    if HasPrefix(address, "[") && ']' in address {
      var closing := |Before(address, ']')|;
      assert address[..|address|] == address;
      assert closing < |address|;
    } else if address != "" && address[0] == '[' {
      assert address[..1] == "[";
    }
  }

  lemma ContainsMeans(s: string)
    ensures Contains(s, "://") <==> exists i :: 0 <= i < |s| - 2 && TransportAt(s, i)
  {
    forall i | 0 <= i <= |s| ensures HasPrefix(s[i..], "://") <==> i < |s| - 2 && TransportAt(s, i) {
      if i < |s| - 2 { assert s[i..][..3] == [s[i], s[i + 1], s[i + 2]]; }
    }
    hide TransportAt;
    if i :| 0 <= i < |s| - 2 && TransportAt(s, i) { assert HasPrefix(s[i..], "://"); }
  }

  lemma TargetMeans(lib: Library, net: Net, r: Resolver)
    ensures TargetSays(lib, net, r, Target(lib, net, r))
  {
    hide HostSays, TlsTarget, Contains, Lower, TrimSpace;
    ContainsMeans(r.address);
    TlsHost(net, r.address, r.tlsServerName);
    hide TransportAt;
    assert "" + r.address == r.address;
  }

  /** The targets are those of the enabled resolvers and of no others, in order. */
  ghost predicate TargetsOf(lib: Library, net: Net, resolvers: seq<Resolver>, at: seq<nat>, targets: seq<string>) {
    && |at| == |targets|
    && (forall i, j :: 0 <= i < j < |at| ==> at[i] < at[j])
    && (forall i :: 0 <= i < |at| ==> at[i] < |resolvers| && resolvers[at[i]].enabled && TargetSays(lib, net, resolvers[at[i]], targets[i]))
    && (forall k :: 0 <= k < |resolvers| && resolvers[k].enabled ==> k in at)
  }

  lemma {:induction false} TargetsAre(lib: Library, net: Net, resolvers: seq<Resolver>) returns (at: seq<nat>)
    ensures TargetsOf(lib, net, resolvers, at, Targets(lib, net, resolvers))
  {
    if resolvers == [] {
      at := [];
    } else {
      hide Target, TargetSays, TargetsOf;
      var n := |resolvers| - 1;
      var front, last := resolvers[..n], resolvers[n];
      assert resolvers == front + [last];
      at := TargetsAre(lib, net, front);
      TargetMeans(lib, net, last);
      TargetAdded(lib, net, front, last, at, Targets(lib, net, front), Target(lib, net, last));
      if last.enabled { at := at + [n]; } else { assert Targets(lib, net, front) + [] == Targets(lib, net, front); }
    }
  }

  lemma TargetAdded(lib: Library, net: Net, front: seq<Resolver>, r: Resolver, at: seq<nat>, targets: seq<string>, target: string)
    requires TargetsOf(lib, net, front, at, targets) && TargetSays(lib, net, r, target)
    ensures if r.enabled then TargetsOf(lib, net, front + [r], at + [|front|], targets + [target])
            else TargetsOf(lib, net, front + [r], at, targets)
  {
    hide TargetSays;
    var all := front + [r];
    assert all[|front|] == r && forall k :: 0 <= k < |front| ==> all[k] == front[k];
    assert (at + [|front|])[|at|] == |front|;
  }

  /** Words with a space before each. */
  function Listed(words: seq<string>): string {
    if words == [] then "" else " " + words[0] + Listed(words[1..])
  }

  lemma {:induction false} SpacedIsListed(words: seq<string>)
    ensures Spaced(words) == Listed(words)
  {
    if words != [] {
      SpacedIsListed(words[..|words| - 1]);
      ListedNext(words[..|words| - 1], words[|words| - 1]);
      assert words == words[..|words| - 1] + [words[|words| - 1]];
    }
  }

  lemma {:induction false} ListedNext(words: seq<string>, last: string)
    ensures Listed(words + [last]) == Listed(words) + (" " + last)
  {
    if words == [] {
      assert words + [last] == [last] && " " + last + "" == "" + (" " + last);
    } else {
      assert (words + [last])[1..] == words[1..] + [last];
      ListedNext(words[1..], last);
      assert " " + words[0] + (Listed(words[1..]) + (" " + last)) == " " + words[0] + Listed(words[1..]) + (" " + last);
    }
  }

  /**
   * For every configuration that is accepted there is a target, none is empty,
   * and force_tcp is set exactly if every enabled resolver speaks TCP.
   */
  lemma ForwardLine(lib: Library, net: Net, resolvers: seq<Resolver>)
    requires ResolversOk(lib, resolvers)
    ensures Targets(lib, net, resolvers) != [] && forall t :: t in Targets(lib, net, resolvers) ==> t != ""
    ensures ForcesTcp(lib, resolvers)
            <==> forall i :: 0 <= i < |resolvers| && resolvers[i].enabled ==> SpeaksTcp(lib, resolvers[i])
  {
    var k :| 0 <= k < |resolvers| && resolvers[k].enabled;
    TargetsAreThere(lib, net, resolvers);
    assert forall i :: 0 <= i < |resolvers| && resolvers[i].enabled ==> (EnabledTcp(lib, resolvers[i]) <==> SpeaksTcp(lib, resolvers[i]));
    hide Targets, EnabledTcp, SpeaksTcp;
  }

  lemma {:induction false} TargetsAreThere(lib: Library, net: Net, resolvers: seq<Resolver>)
    requires forall i :: 0 <= i < |resolvers| ==> ResolverOk(lib, resolvers[i])
    ensures forall t :: t in Targets(lib, net, resolvers) ==> t != ""
    ensures Targets(lib, net, resolvers) != [] <==> exists i :: 0 <= i < |resolvers| && resolvers[i].enabled
  {
    hide Target;
    if resolvers != [] {
      var n := |resolvers| - 1;
      assert forall i :: 0 <= i < n ==> resolvers[..n][i] == resolvers[i];
      TargetsAreThere(lib, net, resolvers[..n]);
      if resolvers[n].enabled { TargetIsThere(lib, net, resolvers[n]); }
    }
  }

  lemma TargetIsThere(lib: Library, net: Net, r: Resolver)
    requires r.address != ""
    ensures Target(lib, net, r) != ""
  {
  }
}
