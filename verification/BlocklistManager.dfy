/**
 * The reloading of blocklists. Whatever fails on the way, queries are answered
 * from the last load that went through.
 */
module BlocklistManager {
  import opened Options
  import opened Text
  import opened Domains
  import opened ListParser
  import opened BlocklistMatcher

  /** What opening, reading and closing one file comes to during a reload. */
  datatype FileOutcome =
    | OpenFails
    | Opened(lines: seq<string>, stopsAt: Option<nat>, closes: bool)

  /** The outside world during one reload. The caller may give up before any path or source. */
  datatype Inputs = Inputs(files: seq<FileOutcome>, sources: seq<Option<seq<Entry>>>, givesUpAt: Option<nat>)

  datatype Status = NeverLoaded | Ok | Failed

  datatype Meta = Meta(status: Status, entryCount: nat, lastReload: int)

  type Load = Option<seq<Entry>>

  // -------------------------------------------------------------- what a load is

  function FileEntries(lib: Library, path: string, file: FileOutcome): Load {
    match file
    case OpenFails => None
    case Opened(lines, stopsAt, closes) =>
      if (stopsAt.Some? && stopsAt.value <= |lines|) || !closes then None else Some(TextEntries(lib, lines, path))
  }

  predicate GoneBy(inputs: Inputs, step: nat) {
    inputs.givesUpAt.Some? && inputs.givesUpAt.value <= step
  }

  /** The parts of a load in order, files before sources; the load fails as soon as one of them does. */
  function Parts(lib: Library, paths: seq<string>, inputs: Inputs): seq<Load>
    requires |inputs.files| == |paths|
  {
    seq(|paths|, i requires 0 <= i < |paths| => FileEntries(lib, paths[i], inputs.files[i])) + inputs.sources
  }

  /** All the parts joined, if every one of them is there. */
  function Join(parts: seq<Load>): Load {
    if parts == [] then Some([])
    else
      var front := Join(parts[..|parts| - 1]);
      var last := parts[|parts| - 1];
      if front.Some? && last.Some? then Some(front.value + last.value) else None
  }

  function Loaded(lib: Library, paths: seq<string>, inputs: Inputs): Load
    requires |inputs.files| == |paths|
  {
    var parts := Parts(lib, paths, inputs);
    if |parts| > 0 && GoneBy(inputs, |parts| - 1) then None else Join(parts)
  }

  // ------------------------------------------------------------ what loads leave

  /** The entries of the last load that went through, if any did. */
  function LastGood(loads: seq<Load>): Load {
    if loads == [] then None
    else if loads[|loads| - 1].Some? then loads[|loads| - 1]
    else LastGood(loads[..|loads| - 1])
  }

  function EntriesOf(load: Load): seq<Entry> {
    if load.Some? then load.value else []
  }

  function StatusAfter(loads: seq<Load>): Status {
    if loads == [] then NeverLoaded else if loads[|loads| - 1].Some? then Ok else Failed
  }

  /** The bundled entries are counted with a successful load, not before one. */
  function CountAfter(loads: seq<Load>, bundled: bool, seed: seq<Entry>): nat {
    match LastGood(loads)
    case None => 0
    case Some(entries) => |entries| + if bundled then |seed| else 0
  }

  /** Failed reloads, however many, change no answer. */
  lemma {:induction false} FailuresChangeNothing(loads: seq<Load>, failures: seq<Load>)
    requires forall f :: f in failures ==> f.None?
    ensures LastGood(loads + failures) == LastGood(loads)
  {
    if failures == [] {
      assert loads + failures == loads;
    } else {
      var n := |failures| - 1;
      assert failures[n] in failures;
      var all := loads + failures;
      assert all[..|all| - 1] == loads + failures[..n] && all[|all| - 1] == failures[n];
      FailuresChangeNothing(loads, failures[..n]);
    }
  }

  /** A successful reload replaces whatever was there before. */
  lemma SuccessReplacesAll(loads: seq<Load>, entries: seq<Entry>, failures: seq<Load>)
    requires forall f :: f in failures ==> f.None?
    ensures LastGood(loads + [Some(entries)] + failures) == Some(entries)
  {
    FailuresChangeNothing(loads + [Some(entries)], failures);
  }

  lemma {:induction false} JoinFails(parts: seq<Load>, k: nat)
    requires k < |parts| && parts[k].None?
    ensures Join(parts).None?
  {
    if k < |parts| - 1 {
      JoinFails(parts[..|parts| - 1], k);
    }
  }

  lemma NothingJoined()
    ensures Join([]) == Some([])
  {
  }

  lemma JoinNext(parts: seq<Load>, i: nat)
    requires i < |parts| && Join(parts[..i]).Some?
    ensures parts[i].Some? ==> Join(parts[..i + 1]) == Some(Join(parts[..i]).value + parts[i].value)
  {
    assert parts[..i + 1][..i] == parts[..i];
  }

  function Flat(pieces: seq<seq<Entry>>): seq<Entry> {
    if pieces == [] then [] else pieces[0] + Flat(pieces[1..])
  }

  lemma {:induction false} FlatNext(pieces: seq<seq<Entry>>, last: seq<Entry>)
    ensures Flat(pieces + [last]) == Flat(pieces) + last
  {
    if pieces == [] {
      assert pieces + [last] == [last];
    } else {
      assert (pieces + [last])[1..] == pieces[1..] + [last];
      FlatNext(pieces[1..], last);
    }
  }

  lemma {:induction false} JoinIsFlat(parts: seq<Load>) returns (pieces: seq<seq<Entry>>)
    ensures Join(parts).Some? <==> forall i :: 0 <= i < |parts| ==> parts[i].Some?
    ensures Join(parts).Some? ==>
              |pieces| == |parts| && Join(parts).value == Flat(pieces) && forall i :: 0 <= i < |parts| ==> parts[i] == Some(pieces[i])
  {
    pieces := [];
    if parts != [] {
      var n := |parts| - 1;
      pieces := JoinIsFlat(parts[..n]);
      assert parts == parts[..n] + [parts[n]];
      if Join(parts).Some? {
        FlatNext(pieces, parts[n].value);
        pieces := pieces + [parts[n].value];
      }
    }
  }

  /** The file has been opened, read to its end and closed. */
  predicate ReadWhole(file: FileOutcome) {
    file.Opened? && file.closes && (file.stopsAt.None? || file.stopsAt.value > |file.lines|)
  }

  /**
   * A load goes through exactly if every file is read whole, every source answers
   * and the caller waits for all of them; it is then the entries of the files and
   * of the sources, in order.
   */
  lemma LoadedMeans(lib: Library, paths: seq<string>, inputs: Inputs) returns (pieces: seq<seq<Entry>>)
    requires |inputs.files| == |paths|
    ensures Loaded(lib, paths, inputs).Some? <==>
            && (forall i :: 0 <= i < |paths| ==> ReadWhole(inputs.files[i]))
            && (forall k :: 0 <= k < |inputs.sources| ==> inputs.sources[k].Some?)
            && (inputs.givesUpAt.None? || inputs.givesUpAt.value >= |paths| + |inputs.sources|)
    ensures Loaded(lib, paths, inputs).Some? ==>
              && |pieces| == |paths| + |inputs.sources| && Loaded(lib, paths, inputs).value == Flat(pieces)
              && (forall i :: 0 <= i < |paths| ==> pieces[i] == TextEntries(lib, inputs.files[i].lines, paths[i]))
              && (forall k :: 0 <= k < |inputs.sources| ==> Some(pieces[|paths| + k]) == inputs.sources[k])
  {
    hide Join, Flat, TextEntries;
    var parts := Parts(lib, paths, inputs);
    pieces := JoinIsFlat(parts);
    forall i | 0 <= i < |paths| ensures parts[i] == FileEntries(lib, paths[i], inputs.files[i]) { }
    forall k | 0 <= k < |inputs.sources| ensures parts[|paths| + k] == inputs.sources[k] { }
    if parts == [] { NothingJoined(); }
  }

  class Manager {
    const lib: Library
    const paths: seq<string>
    const bundled: bool
    const seed: seq<Entry>
    var current: MemoryMatcher
    var meta: Meta

    /** Every reload so far, in order. */
    ghost var loads: seq<Load>

    ghost predicate Valid()
      reads this, current
    {
      && current.lib == lib
      && current.Answers(WithBundled(EntriesOf(LastGood(loads)), bundled, seed))
      && meta.status == StatusAfter(loads) && meta.entryCount == CountAfter(loads, bundled, seed)
    }

    constructor (lib: Library, paths: seq<string>, bundled: bool, seed: seq<Entry>)
      ensures Valid() && loads == []
      ensures this.lib == lib && this.paths == paths && this.bundled == bundled && this.seed == seed
    {
      this.lib := lib;
      this.paths := paths;
      this.bundled := bundled;
      this.seed := seed;
      current := new MemoryMatcher(lib, [], bundled, seed);
      meta := Meta(NeverLoaded, 0, 0);
      loads := [];
    }

    method Decide(raw: string) returns (verdict: Verdict)
      requires Valid()
      ensures verdict == Scan(lib, WithBundled(EntriesOf(LastGood(loads)), bundled, seed), raw)
    {
      verdict := current.Decide(raw, WithBundled(EntriesOf(LastGood(loads)), bundled, seed));
    }

    method LoadEntries(inputs: Inputs) returns (load: Load)
      requires |inputs.files| == |paths|
      ensures load == Loaded(lib, paths, inputs)
    {
      hide FileEntries, Join;
      ghost var parts := Parts(lib, paths, inputs);
      load := LoadFiles(inputs, parts);
      if load.None? { return; }
      load := LoadSources(inputs, load.value, parts);
    }

    /** The loops stop at the first part that is missing, or where the caller gives up. */
    method LoadFiles(inputs: Inputs, ghost parts: seq<Load>) returns (load: Load)
      requires |inputs.files| == |paths| && parts == Parts(lib, paths, inputs)
      ensures load.Some? ==> Join(parts[..|paths|]) == load && (|paths| > 0 ==> !GoneBy(inputs, |paths| - 1))
      ensures load.None? ==> Loaded(lib, paths, inputs).None?
    {
      hide FileEntries, Join;
      NothingJoined();
      var entries := [];
      for i := 0 to |paths|
        invariant Join(parts[..i]) == Some(entries)
        invariant i > 0 ==> !GoneBy(inputs, i - 1)
      {
        if GoneBy(inputs, i) { return None; }
        var parsed := LoadFile(paths[i], inputs.files[i]);
        assert parts[i] == parsed;
        JoinNext(parts, i);
        if parsed.None? { JoinFails(parts, i); return None; }
        entries := entries + parsed.value;
      }
      load := Some(entries);
    }

    method LoadSources(inputs: Inputs, files: seq<Entry>, ghost parts: seq<Load>) returns (load: Load)
      requires |inputs.files| == |paths| && parts == Parts(lib, paths, inputs)
      requires Join(parts[..|paths|]) == Some(files) && (|paths| > 0 ==> !GoneBy(inputs, |paths| - 1))
      ensures load == Loaded(lib, paths, inputs)
    {
      hide FileEntries, Join;
      var n := |paths|;
      var entries := files;
      for k := 0 to |inputs.sources|
        invariant Join(parts[..n + k]) == Some(entries)
        invariant n + k > 0 ==> !GoneBy(inputs, n + k - 1)
      {
        if GoneBy(inputs, n + k) { return None; }
        assert parts[n + k] == inputs.sources[k];
        JoinNext(parts, n + k);
        if inputs.sources[k].None? { JoinFails(parts, n + k); return None; }
        entries := entries + inputs.sources[k].value;
      }
      assert parts[..|parts|] == parts;
      load := Some(entries);
    }

    method LoadFile(path: string, file: FileOutcome) returns (load: Load)
      ensures load == FileEntries(lib, path, file)
    {
      if file.OpenFails? { return None; }
      load := Parse(lib, file.lines, path, file.stopsAt);
      if load.Some? && !file.closes { return None; }
    }

    method Reload(inputs: Inputs, now: int) returns (ok: bool)
      requires Valid() && |inputs.files| == |paths|
      modifies this
      ensures Valid() && ok == Loaded(lib, paths, inputs).Some?
      ensures loads == old(loads) + [Loaded(lib, paths, inputs)]
      ensures meta.lastReload == now
      ensures if ok then meta.status == Ok && meta.entryCount == |Loaded(lib, paths, inputs).value| + (if bundled then |seed| else 0)
              else meta.status == Failed && meta.entryCount == old(meta.entryCount) && current == old(current)
    {
      var load := LoadEntries(inputs);
      ghost var before := loads;
      loads := loads + [load];
      assert loads[..|before|] == before;
      if load.None? {
        meta := Meta(Failed, meta.entryCount, now);
        return false;
      }
      current := new MemoryMatcher(lib, load.value, bundled, seed);
      meta := Meta(Ok, |load.value| + if bundled then |seed| else 0, now);
      ok := true;
    }
  }
}
