/**
 * Schema migrations: each in one transaction with its version row, so that an
 * open may stop anywhere and a later one carries on.
 */
module Migrations {
  import opened Options
  import opened Thinning

  /** A statement turns one state of the data into another. */
  datatype Migration<!D> = Migration(version: int, statements: seq<D -> D>)

  /** The database: the data, the versions recorded, and the order in which they were applied. */
  datatype Database<D> = Database(data: D, versions: set<int>, history: seq<int>)

  function RunAll<D>(statements: seq<D -> D>, data: D): D {
    if statements == [] then data
    else statements[|statements| - 1](RunAll(statements[..|statements| - 1], data))
  }

  /** One migration, unless it is recorded already. */
  function Applied<D>(m: Migration<D>, db: Database<D>): Database<D> {
    if m.version in db.versions then db
    else Database(RunAll(m.statements, db.data), db.versions + {m.version}, db.history + [m.version])
  }

  /** An open that stops after the first k migrations. */
  function Opened<D>(ms: seq<Migration<D>>, k: nat, db: Database<D>): Database<D>
    requires k <= |ms|
  {
    if k == 0 then db else Applied(ms[k - 1], Opened(ms, k - 1, db))
  }

  /** Opens one after the other, each stopped somewhere. */
  function OpenedAll<D>(ms: seq<Migration<D>>, stops: seq<nat>, db: Database<D>): Database<D>
    requires forall i :: 0 <= i < |stops| ==> stops[i] <= |ms|
  {
    if stops == [] then db
    else Opened(ms, stops[|stops| - 1], OpenedAll(ms, stops[..|stops| - 1], db))
  }

  predicate DistinctVersions<D>(ms: seq<Migration<D>>) {
    forall i, j :: 0 <= i < j < |ms| ==> ms[i].version != ms[j].version
  }

  /** None of the migrations has been recorded. */
  predicate Untouched<D>(ms: seq<Migration<D>>, db: Database<D>) {
    forall i :: 0 <= i < |ms| ==> ms[i].version !in db.versions
  }

  // --------------------------------------------------------------------- resuming

  lemma {:induction false} OpenedVersions<D>(ms: seq<Migration<D>>, k: nat, db: Database<D>)
    requires k <= |ms|
    ensures forall v :: v in Opened(ms, k, db).versions <==> v in db.versions || exists i :: 0 <= i < k && ms[i].version == v
  {
    if k > 0 { OpenedVersions(ms, k - 1, db); }
  }

  /** Starting again after the first j migrations brings one to the larger of the two stops. */
  lemma {:induction false} Resumes<D>(ms: seq<Migration<D>>, j: nat, k: nat, db: Database<D>)
    requires DistinctVersions(ms) && Untouched(ms, db) && j <= |ms| && k <= |ms|
    ensures Opened(ms, k, Opened(ms, j, db)) == Opened(ms, if j > k then j else k, db)
  {
    hide RunAll;
    if k > 0 {
      Resumes(ms, j, k - 1, db);
      OpenedVersions(ms, j, db);
      OpenedVersions(ms, k - 1, db);
      if k <= j { assert ms[k - 1].version in Opened(ms, j, db).versions; }
    }
  }

  function Furthest(stops: seq<nat>): nat {
    if stops == [] then 0
    else
      var before := Furthest(stops[..|stops| - 1]);
      if stops[|stops| - 1] > before then stops[|stops| - 1] else before
  }

  /** At every moment the database is what the first migrations of the list make of it, up to the furthest stop. */
  lemma {:induction false} StopsAtPrefix<D>(ms: seq<Migration<D>>, stops: seq<nat>, db: Database<D>)
    requires DistinctVersions(ms) && Untouched(ms, db)
    requires forall i :: 0 <= i < |stops| ==> stops[i] <= |ms|
    ensures Furthest(stops) <= |ms| && OpenedAll(ms, stops, db) == Opened(ms, Furthest(stops), db)
  {
    if stops != [] {
      var n := |stops| - 1;
      StopsAtPrefix(ms, stops[..n], db);
      Resumes(ms, Furthest(stops[..n]), stops[n], db);
    }
  }

  function Versions<D>(ms: seq<Migration<D>>, k: nat): seq<int>
    requires k <= |ms|
  {
    if k == 0 then [] else Versions(ms, k - 1) + [ms[k - 1].version]
  }

  function FoldAll<D>(ms: seq<Migration<D>>, k: nat, data: D): D
    requires k <= |ms|
  {
    if k == 0 then data else RunAll(ms[k - 1].statements, FoldAll(ms, k - 1, data))
  }

  lemma {:induction false} OpenedIsFold<D>(ms: seq<Migration<D>>, k: nat, db: Database<D>)
    requires DistinctVersions(ms) && Untouched(ms, db) && k <= |ms|
    ensures Opened(ms, k, db).data == FoldAll(ms, k, db.data)
    ensures Opened(ms, k, db).history == db.history + Versions(ms, k)
  {
    if k > 0 {
      OpenedIsFold(ms, k - 1, db);
      OpenedVersions(ms, k - 1, db);
    }
  }

  /** The statements of all migrations, one after the other. */
  function Statements<D>(ms: seq<Migration<D>>): seq<D -> D> {
    if ms == [] then [] else ms[0].statements + Statements(ms[1..])
  }

  /** The data before the first statement, and after each of them. */
  ghost predicate Steps<D>(statements: seq<D -> D>, states: seq<D>) {
    |states| == |statements| + 1 && forall i :: 0 <= i < |statements| ==> states[i + 1] == statements[i](states[i])
  }

  lemma {:induction false} RunAllSteps<D>(statements: seq<D -> D>, data: D) returns (states: seq<D>)
    ensures Steps(statements, states) && states[0] == data && states[|statements|] == RunAll(statements, data)
  {
    states := [data];
    if statements != [] {
      var n := |statements| - 1;
      states := RunAllSteps(statements[..n], data);
      StepsJoin(statements[..n], states, statements[n..], [states[n], statements[n](states[n])]);
      assert statements[..n] + statements[n..] == statements;
      states := states + [statements[n](states[n])];
    }
  }

  /** Two runs of statements, the second from where the first ends. */
  lemma StepsJoin<D>(a: seq<D -> D>, x: seq<D>, b: seq<D -> D>, y: seq<D>)
    requires Steps(a, x) && Steps(b, y) && x[|a|] == y[0]
    ensures Steps(a + b, x + y[1..])
  {
    var states := x + y[1..];
    forall i | 0 <= i < |a + b| ensures states[i + 1] == (a + b)[i](states[i]) {
      if i >= |a| { assert states[i] == y[i - |a|] && states[i + 1] == y[i - |a| + 1]; }
    }
  }

  lemma {:induction false} StatementsNext<D>(front: seq<Migration<D>>, m: Migration<D>)
    ensures Statements(front + [m]) == Statements(front) + m.statements
  {
    if front == [] {
      assert front + [m] == [m];
    } else {
      assert (front + [m])[1..] == front[1..] + [m];
      StatementsNext(front[1..], m);
    }
  }

  lemma {:induction false} FoldSteps<D>(ms: seq<Migration<D>>, k: nat, data: D) returns (states: seq<D>)
    requires k <= |ms|
    ensures Steps(Statements(ms[..k]), states) && states[0] == data && states[|states| - 1] == FoldAll(ms, k, data)
  {
    states := [data];
    if k > 0 {
      hide RunAll;
      states := FoldSteps(ms, k - 1, data);
      var m := ms[k - 1];
      var more := RunAllSteps(m.statements, FoldAll(ms, k - 1, data));
      StepsJoin(Statements(ms[..k - 1]), states, m.statements, more);
      StatementsNext(ms[..k - 1], m);
      assert ms[..k - 1] + [m] == ms[..k];
      states := states + more[1..];
    }
  }

  lemma {:induction false} VersionsAre<D>(ms: seq<Migration<D>>, k: nat)
    requires k <= |ms|
    ensures |Versions(ms, k)| == k && forall i :: 0 <= i < k ==> Versions(ms, k)[i] == ms[i].version
  {
    if k > 0 { VersionsAre(ms, k - 1); }
  }

  /** The migrations from the first on are recorded, in order, and nothing else is. */
  ghost predicate Recorded<D>(ms: seq<Migration<D>>, before: Database<D>, after: Database<D>) {
    && |after.history| == |before.history| + |ms| && after.history[..|before.history|] == before.history
    && (forall i :: 0 <= i < |ms| ==> after.history[|before.history| + i] == ms[i].version)
    && forall v :: v in after.versions <==> v in before.versions || exists i :: 0 <= i < |ms| && ms[i].version == v
  }

  /**
   * After any interrupted opens a full one has run every statement of every
   * migration once, each on what the one before it left, and recorded each
   * version once, in the order of the list.
   */
  lemma InterruptedThenFull<D>(ms: seq<Migration<D>>, stops: seq<nat>, db: Database<D>) returns (states: seq<D>)
    requires DistinctVersions(ms) && Untouched(ms, db)
    requires forall i :: 0 <= i < |stops| ==> stops[i] <= |ms|
    ensures var final := Opened(ms, |ms|, OpenedAll(ms, stops, db));
            && final == Opened(ms, |ms|, db) && Recorded(ms, db, final)
            && Steps(Statements(ms), states) && states[0] == db.data && states[|states| - 1] == final.data
  {
    hide Opened, OpenedAll, FoldAll, Statements, Versions, Steps, Furthest, Recorded;
    StopsAtPrefix(ms, stops, db);
    Resumes(ms, Furthest(stops), |ms|, db);
    OpenedIsFold(ms, |ms|, db);
    states := FoldSteps(ms, |ms|, db.data);
    assert ms[..|ms|] == ms;
    AllRecorded(ms, db);
  }

  lemma AllRecorded<D>(ms: seq<Migration<D>>, db: Database<D>)
    requires DistinctVersions(ms) && Untouched(ms, db)
    ensures Recorded(ms, db, Opened(ms, |ms|, db))
  {
    OpenedIsFold(ms, |ms|, db);
    OpenedVersions(ms, |ms|, db);
    VersionsAre(ms, |ms|);
    hide Opened, FoldAll, Versions, DistinctVersions;
  }

  // ------------------------------------------------------------------- the selection

  /** The migrations of one kind of store, in the order of the whole list. */
  function Selected<D>(all: seq<Migration<D>>, versions: set<int>): seq<Migration<D>> {
    if all == [] then []
    else
      Selected(all[..|all| - 1], versions)
      + if all[|all| - 1].version in versions then [all[|all| - 1]] else []
  }

  method FilterMigrations<D>(all: seq<Migration<D>>, versions: set<int>) returns (selected: seq<Migration<D>>)
    ensures selected == Selected(all, versions)
  {
    selected := [];
    for i := 0 to |all|
      invariant selected == Selected(all[..i], versions)
    {
      assert all[..i + 1][..i] == all[..i];
      if all[i].version in versions {
        selected := selected + [all[i]];
      }
    }
    assert all[..|all|] == all;
  }

  function AskedFor<D>(versions: set<int>): Migration<D> -> bool {
    (m: Migration<D>) => m.version in versions
  }

  /** A selection is exactly the migrations asked for, in the order of the list. */
  lemma {:induction false} SelectedAre<D>(all: seq<Migration<D>>, versions: set<int>) returns (at: seq<nat>)
    ensures Thinned(at, Selected(all, versions), all, AskedFor(versions))
  {
    at := [];
    if all != [] {
      hide Thinned;
      var n := |all| - 1;
      var front, last := all[..n], all[n];
      at := SelectedAre(front, versions);
      ThinnedNext(at, Selected(front, versions), front, last, AskedFor(versions));
      assert all == front + [last];
      if last.version in versions {
        at := at + [n];
      } else {
        assert Selected(front, versions) + [] == Selected(front, versions);
      }
    }
  }

  lemma SelectedIsDistinct<D>(all: seq<Migration<D>>, versions: set<int>)
    requires DistinctVersions(all)
    ensures DistinctVersions(Selected(all, versions))
  {
    var at := SelectedAre(all, versions);
  }

  // ----------------------------------------------------------------------- the store

  class Store<D> {
    var db: Database<D>

    constructor (db: Database<D>)
      ensures this.db == db
    {
      this.db := db;
    }

    /**
     * One transaction. The step at `failAt` may fail: beginning it and looking up
     * the version, a statement, the version row, or the commit.
     */
    method ApplyMigration(m: Migration<D>, failAt: Option<nat>) returns (ok: bool)
      modifies this
      ensures db == if ok then Applied(m, old(db)) else old(db)
      ensures failAt.None? ==> ok
    {
      if failAt == Some(0) { return false; }
      if m.version in db.versions { return true; }
      var data := db.data;
      for i := 0 to |m.statements|
        invariant data == RunAll(m.statements[..i], db.data) && db == old(db)
      {
        if failAt == Some(i + 1) { return false; }
        assert m.statements[..i + 1][..i] == m.statements[..i];
        data := m.statements[i](data);
      }
      assert m.statements[..|m.statements|] == m.statements;
      if failAt.Some? { return false; }
      db := Database(data, db.versions + {m.version}, db.history + [m.version]);
      ok := true;
    }

    /** An open: it stops at the first migration that fails, which has then done nothing. */
    method Migrate(ms: seq<Migration<D>>, fails: seq<Option<nat>>) returns (ok: bool, ghost stop: nat)
      requires |fails| == |ms|
      modifies this
      ensures stop <= |ms| && db == Opened(ms, stop, old(db)) && (ok ==> stop == |ms|)
      ensures (forall i :: 0 <= i < |fails| ==> fails[i].None?) ==> ok
    {
      stop := 0;
      for i := 0 to |ms|
        invariant stop == i && db == Opened(ms, i, old(db))
      {
        ok := ApplyMigration(ms[i], fails[i]);
        if !ok { return; }
        stop := i + 1;
      }
      ok := true;
    }
  }
}
