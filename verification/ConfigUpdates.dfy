/**
 * Updates of the configuration: when the CoreDNS that is running still runs what
 * is stored.
 */
module ConfigUpdates {
  import opened Options
  import opened Text
  import opened Domains
  import opened Corefile

  /** The stored configuration, as far as an update looks at it. */
  datatype Config = Config(
    dns: DnsConfig, logging: Logging, storage: seq<string>, adminListen: string, blocklists: seq<string>, rest: string)

  /** What CoreDNS prints its configuration with. */
  datatype Printer = Printer(net: Net, jsonLog: string)

  function Printed(lib: Library, p: Printer, c: Config): string {
    CorefileText(lib, p.net, p.jsonLog, c.dns, c.logging)
  }

  predicate LoggingChanged(lib: Library, current: Logging, next: Logging) {
    || EffectiveLevel(lib, current) != EffectiveLevel(lib, next)
    || (EffectiveLevel(lib, current) == Debug && JsonFormat(lib, current) != JsonFormat(lib, next))
  }

  predicate ReloadsNow(lib: Library, current: Config, next: Config, hasReloader: bool) {
    hasReloader && current.dns.listen == next.dns.listen && (current.dns != next.dns || LoggingChanged(lib, current.logging, next.logging))
  }

  predicate RestartRequired(lib: Library, current: Config, next: Config, reloaded: bool) {
    || (current.dns != next.dns && !reloaded)
    || current.storage != next.storage
    || (LoggingChanged(lib, current.logging, next.logging) && !reloaded)
    || current.adminListen != next.adminListen
    || current.blocklists != next.blocklists
  }

  /** One update: what is asked for, and what fails on the way. */
  datatype Update = Update(
    change: Config -> Config, loads: bool, otherRulesHold: bool, reloads: bool, saves: bool, applies: bool)

  datatype Result =
    | Updated(restartRequired: bool)
    | LoadFailed
    | Invalid
    | ReloadFailed
    | SaveFailed(reloaded: bool)
    | ApplyFailed

  datatype State = State(stored: Config, running: Config, hasReloader: bool)

  function Outcome(lib: Library, s: State, u: Update): Result {
    var next := u.change(s.stored);
    var reload := ReloadsNow(lib, s.stored, next, s.hasReloader);
    if !u.loads then LoadFailed
    else if !(ResolversOk(lib, next.dns.resolvers) && u.otherRulesHold) then Invalid
    else if reload && !u.reloads then ReloadFailed
    else if !u.saves then SaveFailed(reload)
    else if !u.applies then ApplyFailed
    else Updated(RestartRequired(lib, s.stored, next, reload))
  }

  function After(lib: Library, s: State, u: Update): State {
    var next := u.change(s.stored);
    var reload := ReloadsNow(lib, s.stored, next, s.hasReloader);
    match Outcome(lib, s, u)
    case LoadFailed => s
    case Invalid => s
    case ReloadFailed => s
    case SaveFailed(_) => s.(running := if reload then next else s.running)
    case _ => s.(stored := next, running := if reload then next else s.running)
  }

  // ---------------------------------------------------------- what an update does

  predicate Warns(level: string) {
    level == "warn" || level == "warning"
  }

  /** CoreDNS is run alike: the same level, unknown ones being info, and at debug the same format, text if not JSON. */
  predicate LogsAlike(lib: Library, a: Logging, b: Logging) {
    var x, y := Lower(lib, TrimSpace(lib, a.level)), Lower(lib, TrimSpace(lib, b.level));
    && (x == "debug" <==> y == "debug") && (Warns(x) <==> Warns(y)) && (x == "error" <==> y == "error")
    && (x == "debug" ==> (Lower(lib, TrimSpace(lib, a.format)) == "json" <==> Lower(lib, TrimSpace(lib, b.format)) == "json"))
  }

  lemma LoggingChangedMeans(lib: Library, a: Logging, b: Logging)
    ensures LoggingChanged(lib, a, b) <==> !LogsAlike(lib, a, b)
  {
    hide Lower, TrimSpace;
  }

  /** CoreDNS can take this change while it runs, and there is something for it to take. */
  predicate TakenNow(lib: Library, s: State, next: Config) {
    && s.hasReloader && s.stored.dns.listen == next.dns.listen
    && (s.stored.dns != next.dns || !LogsAlike(lib, s.stored.logging, next.logging))
  }

  /**
   * The first thing that fails decides the result. What is stored changes exactly
   * when the save works, what is running exactly when a reload does, also if the
   * save then fails.
   */
  lemma UpdateMeans(lib: Library, s: State, u: Update)
    ensures var next, r, after := u.change(s.stored), Outcome(lib, s, u), After(lib, s, u);
            var valid := ResolversOk(lib, next.dns.resolvers) && u.otherRulesHold;
            var reloaded := u.loads && valid && TakenNow(lib, s, next) && u.reloads;
            && (r.LoadFailed? <==> !u.loads)
            && (r.Invalid? <==> u.loads && !valid)
            && (r.ReloadFailed? <==> u.loads && valid && TakenNow(lib, s, next) && !u.reloads)
            && (r.SaveFailed? <==> u.loads && valid && (TakenNow(lib, s, next) ==> u.reloads) && !u.saves)
            && (r.ApplyFailed? <==> u.loads && valid && (TakenNow(lib, s, next) ==> u.reloads) && u.saves && !u.applies)
            && (r.SaveFailed? ==> (r.reloaded <==> reloaded))
            && after.stored == (if r.ApplyFailed? || r.Updated? then next else s.stored)
            && after.running == (if reloaded then next else s.running)
            && after.hasReloader == s.hasReloader
  {
    LoggingChangedMeans(lib, s.stored.logging, u.change(s.stored).logging);
    hide LoggingChanged, LogsAlike, ResolversOk;
  }

  /**
   * An update asks for a restart exactly if it changes what is read at the start
   * alone, or changes what CoreDNS runs with and CoreDNS could not be reloaded.
   */
  lemma RestartExactly(lib: Library, s: State, u: Update)
    requires Outcome(lib, s, u).Updated?
    ensures var next := u.change(s.stored);
            Outcome(lib, s, u).restartRequired <==>
            || s.stored.storage != next.storage || s.stored.adminListen != next.adminListen || s.stored.blocklists != next.blocklists
            || ((s.stored.dns != next.dns || !LogsAlike(lib, s.stored.logging, next.logging))
                && !(s.hasReloader && s.stored.dns.listen == next.dns.listen))
  {
    LoggingChangedMeans(lib, s.stored.logging, u.change(s.stored).logging);
    hide LoggingChanged, LogsAlike, ResolversOk;
  }

  // -------------------------------------------------------------------- in sync

  ghost predicate InSync(lib: Library, p: Printer, s: State) {
    Printed(lib, p, s.running) == Printed(lib, p, s.stored)
  }

  /** Logging that has not changed prints alike, whatever the letters it is written with. */
  lemma SameLogging(lib: Library, jsonLog: string, a: Logging, b: Logging)
    requires !LoggingChanged(lib, a, b)
    ensures LoggingText(lib, jsonLog, a) == LoggingText(lib, jsonLog, b)
  {
  }

  lemma SamePrinted(lib: Library, p: Printer, a: Config, b: Config)
    requires a.dns == b.dns && !LoggingChanged(lib, a.logging, b.logging)
    ensures Printed(lib, p, a) == Printed(lib, p, b)
  {
    SameLogging(lib, p.jsonLog, a.logging, b.logging);
    hide LoggingText;
  }

  /**
   * The update goes as far as to reload a different Corefile but then fails to
   * save it, or saves one that is not reloaded.
   */
  predicate LosesSync(lib: Library, p: Printer, s: State, u: Update) {
    var next := u.change(s.stored);
    && u.loads && ResolversOk(lib, next.dns.resolvers) && u.otherRulesHold
    && Printed(lib, p, next) != Printed(lib, p, s.stored)
    && if ReloadsNow(lib, s.stored, next, s.hasReloader) then u.reloads && !u.saves else u.saves
  }

  /** From a synchronized state, exactly such updates lose the synchronization. */
  lemma StepSync(lib: Library, p: Printer, s: State, u: Update)
    requires InSync(lib, p, s)
    ensures InSync(lib, p, After(lib, s, u)) <==> !LosesSync(lib, p, s, u)
  {
    hide Printed, ReloadsNow, RestartRequired, ResolversOk;
  }

  /** No restart required means that what changed has been reloaded. */
  lemma UpdatedKeepsSync(lib: Library, p: Printer, s: State, u: Update)
    requires InSync(lib, p, s) && Outcome(lib, s, u) == Updated(false)
    ensures InSync(lib, p, After(lib, s, u))
  {
    var next := u.change(s.stored);
    if !ReloadsNow(lib, s.stored, next, s.hasReloader) {
      SamePrinted(lib, p, s.stored, next);
    }
    hide Printed, LoggingChanged, ResolversOk;
  }

  /** The updates the promise covers: those that say no restart is needed, and those that fail before a reload takes effect. */
  predicate Quiet(r: Result) {
    r == Updated(false) || r.LoadFailed? || r.Invalid? || r.ReloadFailed? || r == SaveFailed(false)
  }

  ghost predicate QuietRun(lib: Library, s: State, run: seq<Update>)
    decreases |run|
  {
    run == [] || (Quiet(Outcome(lib, s, run[0])) && QuietRun(lib, After(lib, s, run[0]), run[1..]))
  }

  ghost function Final(lib: Library, s: State, run: seq<Update>): State
    decreases |run|
  {
    if run == [] then s else Final(lib, After(lib, s, run[0]), run[1..])
  }

  /** What the process reads at its start alone. */
  ghost predicate SameStart(a: Config, b: Config) {
    a.storage == b.storage && a.adminListen == b.adminListen && a.blocklists == b.blocklists
  }

  /**
   * Over any run of such updates CoreDNS runs the Corefile of the stored
   * configuration, and the process what it has read at its start.
   */
  lemma {:induction false} RunningIsStored(lib: Library, p: Printer, s: State, run: seq<Update>)
    requires InSync(lib, p, s) && QuietRun(lib, s, run)
    ensures InSync(lib, p, Final(lib, s, run)) && SameStart(s.stored, Final(lib, s, run).stored)
    decreases |run|
  {
    hide InSync, After, Outcome;
    if run != [] {
      QuietKeepsSync(lib, p, s, run[0]);
      RunningIsStored(lib, p, After(lib, s, run[0]), run[1..]);
    }
  }

  lemma QuietKeepsSync(lib: Library, p: Printer, s: State, u: Update)
    requires InSync(lib, p, s) && Quiet(Outcome(lib, s, u))
    ensures InSync(lib, p, After(lib, s, u)) && SameStart(s.stored, After(lib, s, u).stored)
  {
    if Outcome(lib, s, u).Updated? {
      UpdatedKeepsSync(lib, p, s, u);
      RestartExactly(lib, s, u);
    }
    hide Printed, ReloadsNow, RestartRequired, ResolversOk;
  }

  // ------------------------------------------------------------ an update that fails

  function AfterLogging(lib: Library, net: Net, d: DnsConfig): string {
    Line("    metadata") + Line("    corehole") + CacheText(d) + DnssecText(lib, d)
    + ForwardingText(lib, net, d.forwarding) + RewritesText(lib, net, d.rewrites) + ForwardText(lib, net, ".", d.resolvers) + Line("}")
  }

  lemma LoggingInPlace(lib: Library, p: Printer, d: DnsConfig, l: Logging)
    ensures CorefileText(lib, p.net, p.jsonLog, d, l) ==
            Line(ZoneAddress(p.net, d.listen) + " {") + (LoggingText(lib, p.jsonLog, l) + AfterLogging(lib, p.net, d))
  {
    hide ZoneAddress, LoggingText, CacheText, ForwardingText, RewritesText, ForwardText, DnssecText, Line;
  }

  lemma DifferAfter(pre: string, x: string, y: string, i: nat)
    requires i < |x| && i < |y| && x[i] != y[i]
    ensures pre + x != pre + y
  {
    assert (pre + x)[|pre| + i] == x[i] && (pre + y)[|pre| + i] == y[i];
  }

  /** Debug logging shows in the Corefile, whatever else is configured. */
  lemma DebugShows(lib: Library, p: Printer, d: DnsConfig, a: Logging, b: Logging)
    requires EffectiveLevel(lib, a) == Debug && EffectiveLevel(lib, b) != Debug
    ensures CorefileText(lib, p.net, p.jsonLog, d, a) != CorefileText(lib, p.net, p.jsonLog, d, b)
  {
    LoggingInPlace(lib, p, d, a);
    LoggingInPlace(lib, p, d, b);
    var x := LoggingText(lib, p.jsonLog, a) + AfterLogging(lib, p.net, d);
    var y := LoggingText(lib, p.jsonLog, b) + AfterLogging(lib, p.net, d);
    assert x[10] == Line("    errors {")[10] == ' ' && y[10] == Line("    errors")[10] == '\n';
    hide CorefileText, LoggingText, AfterLogging, ZoneAddress;
    DifferAfter(Line(ZoneAddress(p.net, d.listen) + " {"), x, y, 10);
  }

  const DEBUG: Logging := Logging("debug", "")

  lemma DebugIsDebug(lib: Library)
    ensures EffectiveLevel(lib, DEBUG) == Debug
  {
    NameTextIsLower(lib, "debug");
    TightIsTrimmed(lib, "debug");
  }

  /** Turn on debug logging; everything works up to the save, which may fail. */
  function DebugUpdate(saves: bool): Update {
    Update((c: Config) => c.(logging := DEBUG), true, true, true, saves, true)
  }

  /**
   * From any synchronized state without debug logging: turning it on loses the
   * synchronization if CoreDNS is reloaded and the save then fails, or if there
   * is nothing to reload it and the save works.
   */
  lemma DebugUpdateLosesSync(lib: Library, p: Printer, s: State)
    requires InSync(lib, p, s) && ResolversOk(lib, s.stored.dns.resolvers) && EffectiveLevel(lib, s.stored.logging) != Debug
    ensures !InSync(lib, p, After(lib, s, DebugUpdate(!s.hasReloader)))
    ensures Outcome(lib, s, DebugUpdate(!s.hasReloader)) == if s.hasReloader then SaveFailed(true) else Updated(true)
  {
    var u := DebugUpdate(!s.hasReloader);
    var next := s.stored.(logging := DEBUG);
    assert u.change(s.stored) == next;
    DebugIsDebug(lib);
    DebugShows(lib, p, s.stored.dns, DEBUG, s.stored.logging);
    hide CorefileText, ResolversOk, EffectiveLevel;
    assert LosesSync(lib, p, s, u);
    StepSync(lib, p, s, u);
  }

  const PLAIN: Config :=
    Config(
      DnsConfig(":53", [Resolver("1.1.1.1:53", "udp", "", true)], 0, 3600, 30, 32768, 4096, 5, 60, 10, false, "off",
                Forwarding(false, "", "", "", ""), []),
      Logging("info", "text"), [], "127.0.0.1:8080", [], "")

  /** The default settings are such a state. */
  lemma PlainLosesSync(lib: Library, p: Printer, hasReloader: bool)
    ensures var s := State(PLAIN, PLAIN, hasReloader);
            InSync(lib, p, s) && !InSync(lib, p, After(lib, s, DebugUpdate(!hasReloader)))
  {
    PlainIsSound(lib);
    hide ResolversOk, EffectiveLevel, Printed;
    DebugUpdateLosesSync(lib, p, State(PLAIN, PLAIN, hasReloader));
  }

  lemma NameIsFolded(lib: Library, s: string)
    requires NameText(s)
    ensures Folded(lib, s) == s
  {
    NameTextIsLower(lib, s);
    TightIsTrimmed(lib, s);
  }

  lemma PlainIsSound(lib: Library)
    ensures ResolversOk(lib, PLAIN.dns.resolvers) && EffectiveLevel(lib, PLAIN.logging) == Info
  {
    PlainResolver(lib);
    NameIsFolded(lib, "info");
    OneSoundResolver(lib, PLAIN.dns.resolvers[0]);
    hide ResolversOk;
    assert PLAIN.dns.resolvers == [PLAIN.dns.resolvers[0]];
  }

  lemma PlainResolver(lib: Library)
    ensures ResolverOk(lib, Resolver("1.1.1.1:53", "udp", "", true))
  {
    NameIsFolded(lib, "udp");
    assert OneWord("1.1.1.1:53") && OneWord("");
    hide Lower, TrimSpace, OneWord;
  }

  lemma OneSoundResolver(lib: Library, r: Resolver)
    requires r.enabled && ResolverOk(lib, r)
    ensures ResolversOk(lib, [r])
  {
    hide ResolverOk;
    assert [r][0].enabled;
  }

  class ConfigManager {
    const lib: Library
    const hasReloader: bool
    var stored: Config

    /** The configuration that CoreDNS was last started or reloaded with. */
    ghost var running: Config

    ghost function View(): State
      reads this
    {
      State(stored, running, hasReloader)
    }

    constructor (lib: Library, stored: Config, hasReloader: bool)
      ensures this.lib == lib && View() == State(stored, stored, hasReloader)
    {
      this.lib, this.stored, this.hasReloader := lib, stored, hasReloader;
      running := stored;
    }

    /** Load, change, validate, reload, save, apply: the order decides what a failure leaves behind. */
    method Update(u: Update) returns (r: Result)
      modifies this
      ensures r == Outcome(lib, old(View()), u) && View() == After(lib, old(View()), u)
    {
      if !u.loads { return LoadFailed; }
      var current := stored;
      var next := u.change(current);
      var valid := ValidateResolvers(lib, next.dns.resolvers);
      if !valid || !u.otherRulesHold { return Invalid; }
      var reloaded := false;
      if ReloadsNow(lib, current, next, hasReloader) {
        if !u.reloads { return ReloadFailed; }
        running := next;
        reloaded := true;
      }
      if !u.saves { return SaveFailed(reloaded); }
      stored := next;
      if !u.applies { return ApplyFailed; }
      r := Updated(RestartRequired(lib, current, next, reloaded));
    }
  }
}
