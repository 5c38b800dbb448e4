/**
 * The printed Corefile read back, line by line.
 */
module CorefileReading {
  import opened Options
  import opened Text
  import opened Numbers
  import opened Corefile

  predicate OneLine(s: string) {
    '\n' !in s
  }

  /** The lines of a text, without their ends. */
  function Lines(text: string): seq<string>
    decreases |text|
  {
    if text == "" then []
    else
      var line := Before(text, '\n');
      [line] + Lines(if |line| < |text| then text[|line| + 1..] else "")
  }

  // ------------------------------------------------------------------------ lines

  lemma {:induction false} BeforeLine(line: string, rest: string)
    requires OneLine(line)
    ensures Before(line + "\n" + rest, '\n') == line
  {
    if line == "" {
      assert ("" + "\n" + rest)[0] == '\n';
    } else {
      assert (line + "\n" + rest)[1..] == line[1..] + "\n" + rest && (line + "\n" + rest)[0] == line[0];
      BeforeLine(line[1..], rest);
    }
  }

  lemma LinesLine(line: string, rest: string)
    requires OneLine(line)
    ensures Lines(line + "\n" + rest) == [line] + Lines(rest)
  {
    BeforeLine(line, rest);
    var text := line + "\n" + rest;
    assert text[|line| + 1..] == rest;
    hide Before;
  }

  predicate Complete(text: string) {
    text == "" || text[|text| - 1] == '\n'
  }

  /** Complete lines can be read one piece after the other. */
  lemma {:induction false} LinesConcat(a: string, b: string)
    requires Complete(a)
    ensures Lines(a + b) == Lines(a) + Lines(b)
    decreases |a|
  {
    hide Lines, Complete;
    if a == "" {
      assert a + b == b;
      NoLines();
    } else {
      var line, rest := FirstLine(a);
      Regroup(line + "\n", rest, b);
      LinesLine(line, rest);
      LinesLine(line, rest + b);
      LinesConcat(rest, b);
      Associates([line], Lines(rest), Lines(b));
    }
  }

  lemma NoLines()
    ensures Lines("") == []
  {
  }

  lemma Regroup(x: string, y: string, z: string)
    ensures x + y + z == x + (y + z)
  {
  }

  lemma FirstLine(a: string) returns (line: string, rest: string)
    requires a != "" && Complete(a)
    ensures a == line + "\n" + rest && OneLine(line) && Complete(rest) && |rest| < |a|
  {
    line := Before(a, '\n');
    LastInLine(a);
    rest := a[|line| + 1..];
  }

  lemma LastInLine(a: string)
    requires a != "" && Complete(a)
    ensures |Before(a, '\n')| < |a|
  {
    LastIsIn(a);
    assert a[..|a|] == a;
  }

  lemma LastIsIn(a: string)
    requires a != ""
    ensures a[|a| - 1] in a
  {
  }

  /** One line at the end of a text. */
  lemma LinesLast(line: string)
    requires OneLine(line)
    ensures Lines(line + "\n") == [line]
  {
    LinesLine(line, "");
    NoLines();
    assert line + "\n" + "" == line + "\n" && [line] + [] == [line];
    hide Lines;
  }

  /** The text is complete and has these lines. */
  predicate Reads(text: string, lines: seq<string>) {
    Complete(text) && Lines(text) == lines
  }

  lemma Joined(a: string, x: seq<string>, b: string, y: seq<string>)
    requires Reads(a, x) && Reads(b, y)
    ensures Reads(a + b, x + y)
  {
    LinesConcat(a, b);
    CompleteJoin(a, b);
    hide Lines, Complete;
  }

  lemma CompleteJoin(a: string, b: string)
    requires Complete(a) && Complete(b)
    ensures Complete(a + b)
  {
    if b == "" { assert a + b == a; }
  }

  lemma ReadsNothing()
    ensures Reads("", [])
  {
  }

  lemma ReadsLine(line: string)
    requires OneLine(line)
    ensures Reads(Line(line), [line])
  {
    LinesLast(line);
    hide Lines;
  }

  function When(yes: bool, lines: seq<string>): seq<string> {
    if yes then lines else []
  }

  // ---------------------------------------------------------------------- logging

  /** At the debug level errors come with stack traces, and queries are logged. */
  function LoggingLines(lib: Library, jsonLog: string, l: Logging): seq<string> {
    if Lower(lib, TrimSpace(lib, l.level)) == "debug" then
      ["    errors {", "        stacktrace", "    }",
       if Lower(lib, TrimSpace(lib, l.format)) == "json" then "    log . " + jsonLog else "    log"]
    else ["    errors"]
  }

  lemma FixedLines()
    ensures OneLine("    errors") && OneLine("    errors {") && OneLine("        stacktrace") && OneLine("    log") && OneLine("    log . ")
    ensures OneLine("    metadata") && OneLine("    corehole") && OneLine("    }") && OneLine("}") && OneLine(" {")
  {
  }

  lemma MoreFixedLines()
    ensures OneLine("    cache {") && OneLine("        success ") && OneLine("        denial ") && OneLine("        prefetch ")
    ensures OneLine("    corehole_dnssec upstream") && OneLine("    forward ") && OneLine("        force_tcp")
    ensures OneLine(" ") && OneLine("s ") && OneLine("%") && OneLine(" {") && OneLine("    }") && OneLine(".")
  {
  }

  lemma ReadsLines(first: string, second: string, third: string)
    requires OneLine(first) && OneLine(second) && OneLine(third)
    ensures Reads(Line(first) + Line(second) + Line(third), [first, second, third])
  {
    ReadsLine(first);
    ReadsLine(second);
    ReadsLine(third);
    hide Reads, Line, OneLine;
    Joined(Line(first), [first], Line(second), [second]);
    Joined(Line(first) + Line(second), [first] + [second], Line(third), [third]);
    assert [first] + [second] + [third] == [first, second, third];
  }

  lemma LoggingReads(lib: Library, jsonLog: string, l: Logging)
    requires OneLine(jsonLog)
    ensures Reads(LoggingText(lib, jsonLog, l), LoggingLines(lib, jsonLog, l))
  {
    FixedLines();
    var log := if JsonFormat(lib, l) then "    log . " + jsonLog else "    log";
    assert OneLine(log);
    hide Reads, Line, OneLine, Lower, TrimSpace;
    ReadsLine("    errors");
    ReadsLine(log);
    ReadsLines("    errors {", "        stacktrace", "    }");
    Joined(Line("    errors {") + Line("        stacktrace") + Line("    }"), ["    errors {", "        stacktrace", "    }"], Line(log), [log]);
    assert ["    errors {", "        stacktrace", "    }"] + [log] == ["    errors {", "        stacktrace", "    }", log];
  }

  // ------------------------------------------------------------------------ cache

  lemma {:induction false} DecimalIsOneLine(n: int)
    ensures OneLine(Decimal(n))
    decreases if n < 0 then 1 - n else n
  {
    if n < 0 {
      DecimalIsOneLine(-n);
    } else if n >= 10 {
      DecimalIsOneLine(n / 10);
      assert "0123456789"[n % 10] != '\n';
    }
  }

  /** The times to live are the two separate ones if one of them is set, else the common one. */
  function CacheLines(d: DnsConfig): seq<string> {
    var separate := d.successTTL > 0 || d.denialTTL > 0;
    if !separate && d.cacheTTL <= 0 then []
    else
      ["    cache {"]
      + ["        success " + Decimal(d.successCapacity) + " " + Decimal(if separate then d.successTTL else d.cacheTTL),
         "        denial " + Decimal(d.denialCapacity) + " " + Decimal(if separate then d.denialTTL else d.cacheTTL)]
      + When(d.prefetchAmount > 0,
             ["        prefetch " + Decimal(d.prefetchAmount) + " " + Decimal(d.prefetchDuration) + "s " + Decimal(d.prefetchPercent) + "%"])
      + ["    }"]
  }

  lemma OneLineJoin(a: string, b: string)
    requires OneLine(a) && OneLine(b)
    ensures OneLine(a + b)
  {
  }

  lemma NumbersLine(word: string, x: string, y: string)
    requires OneLine(word) && OneLine(x) && OneLine(y)
    ensures OneLine(word + x + " " + y)
  {
    assert OneLine(" ");
    hide OneLine;
    OneLineJoin(word, x);
    OneLineJoin(word + x, " ");
    OneLineJoin(word + x + " ", y);
  }

  lemma PrefetchLine(x: string, y: string, z: string)
    requires OneLine(x) && OneLine(y) && OneLine(z)
    ensures OneLine("        prefetch " + x + " " + y + "s " + z + "%")
  {
    MoreFixedLines();
    hide OneLine;
    var start := "        prefetch ";
    NumbersLine(start, x, y);
    OneLineJoin(start + x + " " + y, "s ");
    OneLineJoin(start + x + " " + y + "s ", z);
    OneLineJoin(start + x + " " + y + "s " + z, "%");
  }

  lemma CacheReads(d: DnsConfig)
    ensures Reads(CacheText(d), CacheLines(d))
  {
    ReadsNothing();
    hide Reads;
    if CacheEnabled(d) {
      forall n: int ensures OneLine(Decimal(n)) { DecimalIsOneLine(n); }
      MoreFixedLines();
      hide Decimal, Line, OneLine;
      NumbersLine("        success ", Decimal(d.successCapacity), Decimal(EffectiveSuccessTTL(d)));
      NumbersLine("        denial ", Decimal(d.denialCapacity), Decimal(EffectiveDenialTTL(d)));
      PrefetchLine(Decimal(d.prefetchAmount), Decimal(d.prefetchDuration), Decimal(d.prefetchPercent));
      var success := "        success " + Decimal(d.successCapacity) + " " + Decimal(EffectiveSuccessTTL(d));
      var denial := "        denial " + Decimal(d.denialCapacity) + " " + Decimal(EffectiveDenialTTL(d));
      var prefetch := "        prefetch " + Decimal(d.prefetchAmount) + " " + Decimal(d.prefetchDuration) + "s " + Decimal(d.prefetchPercent) + "%";
      CacheBlock("    cache {", success, denial, prefetch, d.prefetchAmount > 0);
    }
  }

  lemma CacheBlock(opening: string, success: string, denial: string, prefetch: string, prefetches: bool)
    requires OneLine(opening) && OneLine(success) && OneLine(denial) && OneLine(prefetch)
    ensures Reads(Line(opening) + Line(success) + Line(denial) + (if prefetches then Line(prefetch) else "") + Line("    }"),
                  [opening] + [success, denial] + When(prefetches, [prefetch]) + ["    }"])
  {
    ReadsNothing();
    FixedLines();
    hide Reads, Line, OneLine;
    ReadsLines(opening, success, denial);
    ReadsLine(prefetch);
    ReadsLine("    }");
    var three := Line(opening) + Line(success) + Line(denial);
    var fetch := if prefetches then Line(prefetch) else "";
    Joined(three, [opening, success, denial], fetch, When(prefetches, [prefetch]));
    Joined(three + fetch, [opening, success, denial] + When(prefetches, [prefetch]), Line("    }"), ["    }"]);
    assert [opening] + [success, denial] == [opening, success, denial];
  }

  lemma DnssecReads(lib: Library, d: DnsConfig)
    ensures Reads(DnssecText(lib, d), DnssecLines(lib, d))
  {
    ReadsNothing();
    MoreFixedLines();
    hide Reads, Line, OneLine, Lower, TrimSpace;
    ReadsLine("    corehole_dnssec upstream");
  }

  /** Upstream mode, which is also what an enabled DNSSEC without a mode means. */
  function DnssecLines(lib: Library, d: DnsConfig): seq<string> {
    var mode := Lower(lib, TrimSpace(lib, d.dnssecMode));
    When(d.dnssecEnabled && (mode == "" || mode == "upstream"), ["    corehole_dnssec upstream"])
  }

  // --------------------------------------------------------------------- forwards

  function ForwardLines(lib: Library, from: string, resolvers: seq<Resolver>, targets: seq<string>): seq<string> {
    var line := "    forward " + from + Listed(targets);
    if exists i :: 0 <= i < |resolvers| && resolvers[i].enabled && SpeaksTcp(lib, resolvers[i])
    then [line + " {", "        force_tcp", "    }"]
    else [line]
  }

  lemma {:induction false} ListedIsOneLine(words: seq<string>)
    requires forall w :: w in words ==> OneLine(w)
    ensures OneLine(Listed(words))
  {
    if words != [] {
      assert words[0] in words;
      ListedIsOneLine(words[1..]);
    }
  }

  lemma ForwardReads(lib: Library, net: Net, from: string, resolvers: seq<Resolver>)
    requires OneLine(from) && forall t :: t in Targets(lib, net, resolvers) ==> OneLine(t)
    ensures Reads(ForwardText(lib, net, from, resolvers), ForwardLines(lib, from, resolvers, Targets(lib, net, resolvers)))
  {
    var targets := Targets(lib, net, resolvers);
    SpacedIsListed(targets);
    ListedIsOneLine(targets);
    MoreFixedLines();
    hide Reads, Line, OneLine, Targets, Spaced, Listed;
    OneLineJoin("    forward ", from);
    OneLineJoin("    forward " + from, Listed(targets));
    var line := "    forward " + from + Listed(targets);
    OneLineJoin(line, " {");
    ReadsLine(line);
    ReadsLines(line + " {", "        force_tcp", "    }");
  }

  lemma ForwardingReads(lib: Library, net: Net, f: Forwarding)
    requires OneLine(f.domain) && forall t :: t in Targets(lib, net, ForwardingResolver(f)) ==> OneLine(t)
    ensures Reads(ForwardingText(lib, net, f), ForwardingLines(lib, net, f))
  {
    ReadsNothing();
    hide Reads, ForwardText, ForwardLines;
    if f.enabled { ForwardReads(lib, net, f.domain, ForwardingResolver(f)); }
  }

  function ForwardingLines(lib: Library, net: Net, f: Forwarding): seq<string> {
    var resolvers := [Resolver(f.resolver, f.protocol, f.tlsServerName, true)];
    When(f.enabled, ForwardLines(lib, f.domain, resolvers, Targets(lib, net, resolvers)))
  }

  // --------------------------------------------------------------------- rewrites

  /** The answer part of a name rewrite, if it has one. */
  function AnswerPart(lib: Library, r: Rewrite): string {
    var mode := Lower(lib, TrimSpace(lib, r.answerMode));
    if mode == "auto" then " answer auto"
    else if mode == "name" then " answer " + "name" + " " + TrimSpace(lib, r.answerFrom) + " " + TrimSpace(lib, r.answerTo)
    else if mode == "value" then " answer " + "value" + " " + TrimSpace(lib, r.answerFrom) + " " + TrimSpace(lib, r.answerTo)
    else ""
  }

  /** The line of an enabled rewrite of one of the four fields; another has none. */
  function RewriteLine(lib: Library, net: Net, r: Rewrite): seq<string> {
    var field, how := Lower(lib, TrimSpace(lib, r.field)), Lower(lib, TrimSpace(lib, r.matching));
    var named := Lower(lib, TrimSpace(lib, r.mode));
    var mode, matching := if named == "" then "stop" else named, if how == "" then "exact" else how;
    var from, to := TrimSpace(lib, r.from), TrimSpace(lib, r.to);
    if !r.enabled then []
    else if field == "name" then ["    rewrite " + mode + " name " + matching + " " + from + " " + to + AnswerPart(lib, r)]
    else if field == "type" then ["    rewrite " + mode + " type " + Upper(net, from) + " " + Upper(net, to)]
    else if field == "ttl" then ["    rewrite " + mode + " ttl " + matching + " " + from + " " + to]
    else if field == "rcode" then
      ["    rewrite " + mode + " rcode " + matching + " " + from
       + " " + Upper(net, TrimSpace(lib, r.rcodeFrom)) + " " + Upper(net, TrimSpace(lib, r.rcodeTo))]
    else []
  }

  lemma RewriteReads(lib: Library, net: Net, r: Rewrite)
    requires forall line :: line in RewriteLine(lib, net, r) ==> OneLine(line)
    ensures Reads(RewriteText(lib, net, r), RewriteLine(lib, net, r))
  {
    ReadsNothing();
    RewriteIsLine(lib, net, r);
    if RewriteLine(lib, net, r) != [] { ReadsLine(RewriteLine(lib, net, r)[0]); }
    hide Reads, Line, RewriteText;
  }

  lemma RewriteIsLine(lib: Library, net: Net, r: Rewrite)
    ensures |RewriteLine(lib, net, r)| <= 1
    ensures RewriteText(lib, net, r) == if RewriteLine(lib, net, r) == [] then "" else Line(RewriteLine(lib, net, r)[0])
  {
    hide Lower, TrimSpace, Upper, Line;
  }

  /** One line after the other, in the order of the rules. */
  function RewriteLines(lib: Library, net: Net, rules: seq<Rewrite>): seq<string> {
    if rules == [] then [] else RewriteLine(lib, net, rules[0]) + RewriteLines(lib, net, rules[1..])
  }

  lemma {:induction false} RewriteLinesNext(lib: Library, net: Net, rules: seq<Rewrite>, last: Rewrite)
    ensures RewriteLines(lib, net, rules + [last]) == RewriteLines(lib, net, rules) + RewriteLine(lib, net, last)
  {
    hide RewriteLine;
    if rules == [] {
      assert rules + [last] == [last];
    } else {
      assert (rules + [last])[1..] == rules[1..] + [last];
      RewriteLinesNext(lib, net, rules[1..], last);
    }
  }

  lemma {:induction false} RewritesRead(lib: Library, net: Net, rules: seq<Rewrite>)
    requires forall line :: line in RewriteLines(lib, net, rules) ==> OneLine(line)
    ensures Reads(RewritesText(lib, net, rules), RewriteLines(lib, net, rules))
  {
    hide RewriteText, RewriteLine, OneLine, Reads;
    if rules == [] {
      ReadsNothing();
    } else {
      var n := |rules| - 1;
      var front, last := rules[..n], rules[n];
      assert rules == front + [last];
      RewriteLinesNext(lib, net, front, last);
      hide RewriteLines;
      RewritesRead(lib, net, front);
      RewriteReads(lib, net, last);
      Joined(RewritesText(lib, net, front), RewriteLines(lib, net, front), RewriteText(lib, net, last), RewriteLine(lib, net, last));
    }
  }

  // -------------------------------------------------------------------- the whole

  /** No setting carries a line break into the text. */
  ghost predicate Clean(lib: Library, net: Net, jsonLog: string, d: DnsConfig) {
    && OneLine(ZoneAddress(net, d.listen)) && OneLine(jsonLog) && OneLine(d.forwarding.domain)
    && (forall t :: t in Targets(lib, net, ForwardingResolver(d.forwarding)) ==> OneLine(t))
    && (forall t :: t in Targets(lib, net, d.resolvers) ==> OneLine(t))
    && forall line :: line in RewriteLines(lib, net, d.rewrites) ==> OneLine(line)
  }

  /** The root zone, on the port alone if the listen address has one, else on what it is. */
  function ZoneLines(net: Net, listen: string): seq<string> {
    if listen != "" && listen[0] == ':' then ["." + listen + " {"]
    else
      var parts := net.splitHostPort(listen);
      [".:" + (if parts.Some? && parts.value.1 != "" then parts.value.1 else listen) + " {"]
  }

  lemma HeadReads(lib: Library, net: Net, jsonLog: string, d: DnsConfig, l: Logging)
    requires Clean(lib, net, jsonLog, d)
    ensures Reads(Line(ZoneAddress(net, d.listen) + " {") + LoggingText(lib, jsonLog, l) + Line("    metadata") + Line("    corehole"),
                  ZoneLines(net, d.listen) + LoggingLines(lib, jsonLog, l) + ["    metadata", "    corehole"])
  {
    FixedLines();
    LoggingReads(lib, jsonLog, l);
    ZoneIs(net, d.listen);
    hide Reads, ZoneAddress, ZoneLines, LoggingText, LoggingLines, Line, OneLine;
    var zone := ZoneAddress(net, d.listen) + " {";
    OneLineJoin(ZoneAddress(net, d.listen), " {");
    hide Clean;
    ReadsLine(zone);
    ReadsLine("    metadata");
    ReadsLine("    corehole");
    var lines := [zone] + LoggingLines(lib, jsonLog, l);
    Joined(Line(zone), [zone], LoggingText(lib, jsonLog, l), LoggingLines(lib, jsonLog, l));
    Joined(Line(zone) + LoggingText(lib, jsonLog, l), lines, Line("    metadata"), ["    metadata"]);
    Joined(Line(zone) + LoggingText(lib, jsonLog, l) + Line("    metadata"), lines + ["    metadata"], Line("    corehole"), ["    corehole"]);
    var metadata, corehole := "    metadata", "    corehole";
    Associates(lines, [metadata], [corehole]);
    assert [metadata] + [corehole] == [metadata, corehole];
  }

  lemma TailReads(lib: Library, net: Net, jsonLog: string, d: DnsConfig, head: string, lines: seq<string>)
    requires Clean(lib, net, jsonLog, d) && Reads(head, lines)
    ensures Reads(head + CacheText(d) + DnssecText(lib, d) + ForwardingText(lib, net, d.forwarding)
                  + RewritesText(lib, net, d.rewrites) + ForwardText(lib, net, ".", d.resolvers) + Line("}"),
                  lines + CacheLines(d) + DnssecLines(lib, d) + ForwardingLines(lib, net, d.forwarding)
                  + RewriteLines(lib, net, d.rewrites) + ForwardLines(lib, ".", d.resolvers, Targets(lib, net, d.resolvers)) + ["}"])
  {
    assert OneLine(".") && OneLine("}");
    hide Reads, ForwardText, ForwardingText, RewritesText, DnssecText, CacheText, OneLine, Line, ForwardingResolver, Targets;
    hide CacheLines, DnssecLines, ForwardingLines, RewriteLines, ForwardLines;
    CacheReads(d);
    DnssecReads(lib, d);
    ForwardingReads(lib, net, d.forwarding);
    RewritesRead(lib, net, d.rewrites);
    ForwardReads(lib, net, ".", d.resolvers);
    ReadsLine("}");
    hide Clean;
    var a, x := head + CacheText(d), lines + CacheLines(d);
    Joined(head, lines, CacheText(d), CacheLines(d));
    var b, y := a + DnssecText(lib, d), x + DnssecLines(lib, d);
    Joined(a, x, DnssecText(lib, d), DnssecLines(lib, d));
    var c, z := b + ForwardingText(lib, net, d.forwarding), y + ForwardingLines(lib, net, d.forwarding);
    Joined(b, y, ForwardingText(lib, net, d.forwarding), ForwardingLines(lib, net, d.forwarding));
    var e, w := c + RewritesText(lib, net, d.rewrites), z + RewriteLines(lib, net, d.rewrites);
    Joined(c, z, RewritesText(lib, net, d.rewrites), RewriteLines(lib, net, d.rewrites));
    var f := ForwardLines(lib, ".", d.resolvers, Targets(lib, net, d.resolvers));
    Joined(e, w, ForwardText(lib, net, ".", d.resolvers), f);
    Joined(e + ForwardText(lib, net, ".", d.resolvers), w + f, Line("}"), ["}"]);
  }

  /**
   * The printed Corefile, line by line: the zone with the port of the listen
   * address; errors and the query log by the level; metadata and corehole; the
   * cache with its capacities and times; DNSSEC; the conditional forward; the
   * rewrites; the default forward.
   */
  lemma CorefileReads(lib: Library, net: Net, jsonLog: string, d: DnsConfig, l: Logging)
    requires Clean(lib, net, jsonLog, d)
    ensures Lines(CorefileText(lib, net, jsonLog, d, l)) ==
            ZoneLines(net, d.listen) + LoggingLines(lib, jsonLog, l) + ["    metadata", "    corehole"]
            + CacheLines(d) + DnssecLines(lib, d) + ForwardingLines(lib, net, d.forwarding)
            + RewriteLines(lib, net, d.rewrites) + ForwardLines(lib, ".", d.resolvers, Targets(lib, net, d.resolvers)) + ["}"]
  {
    ZoneIs(net, d.listen);
    hide Lines, ZoneLines, ZoneAddress, LoggingText, CacheText, ForwardText, ForwardingText, RewritesText, DnssecText, Targets;
    hide Clean, Complete, Line, LoggingLines, CacheLines, DnssecLines, ForwardingLines, RewriteLines, ForwardLines;
    HeadReads(lib, net, jsonLog, d, l);
    TailReads(lib, net, jsonLog, d,
              Line(ZoneAddress(net, d.listen) + " {") + LoggingText(lib, jsonLog, l) + Line("    metadata") + Line("    corehole"),
              ZoneLines(net, d.listen) + LoggingLines(lib, jsonLog, l) + ["    metadata", "    corehole"]);
  }

  lemma ZoneIs(net: Net, listen: string)
    ensures ZoneLines(net, listen) == [ZoneAddress(net, listen) + " {"]
  {
  }
}
