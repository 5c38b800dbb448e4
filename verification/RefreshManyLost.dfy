/**
 * The run that breaks the bound of 64: one job after the other whose failure
 * cannot be saved, then a restart that finds all of them unfinished.
 */
module RefreshManyLost {
  import opened Options
  import opened JobTable
  import opened RefreshProtocol
  import opened RefreshInvariants
  import opened RefreshBounds
  import opened RefreshRecovery
  import opened RefreshLostFailure
  import opened RefreshShadows

  function Name(i: nat): (id: JobId)
    ensures |id| == i + 1
  {
    if i == 0 then "j" else Name(i - 1) + "j"
  }

  function Asked(i: nat): Job {
    NewJob(Name(i), 1, 0)
  }

  function Taken(i: nat): Job {
    Asked(i).(status := Running, phase := Phase.Refreshing)
  }

  /** What memory keeps of a job whose failure could not be saved. */
  function Forgotten(i: nat): Job {
    var failed := FailedJob(Taken(i), "io");
    failed.(error := failed.error + "; job persistence: " + "io")
  }

  function Rows(n: nat): (rows: seq<Job>)
    ensures |rows| == n && forall i :: 0 <= i < n ==> rows[i] == Asked(i)
  {
    if n == 0 then [] else Rows(n - 1) + [Asked(n - 1)]
  }

  function Names(n: nat): (ids: seq<JobId>)
    ensures |ids| == n && forall i :: 0 <= i < n ==> ids[i] == Name(i)
  {
    if n == 0 then [] else Names(n - 1) + [Name(n - 1)]
  }

  function Known(n: nat): map<JobId, Job> {
    if n == 0 then map[] else Known(n - 1)[Name(n - 1) := Forgotten(n - 1)]
  }

  /** The worker has lost the failures of n jobs and goes round its loop. */
  function LostMany(n: nat): State {
    Up(Rows(n), Names(n), [Restarted], true, Known(n), [], n > 0, false, false, NoAdmission, Looping)
  }

  lemma {:induction false} KnownFacts(n: nat)
    ensures |Known(n)| == n
    ensures forall id :: id in Known(n) ==> |id| <= n && Known(n)[id].status.Failed?
  {
    if n > 0 {
      KnownFacts(n - 1);
      assert Name(n - 1) !in Known(n - 1);
    }
  }

  lemma NewName(n: nat)
    ensures Name(n) !in Names(n) && Name(n) !in Known(n) && Name(n) !in IdsOf(Rows(n))
    ensures ActiveSet(Known(n)) == {} && !HasActiveFor(Known(n), 1)
  {
    KnownFacts(n);
  }

  lemma StartLosing()
    ensures Reaches(Fresh(true), LostMany(0))
  {
    StartIdle();
    ReachStep(Fresh(true), Idle(), TakeWake);
    assert Do(Idle(), TakeWake) == LostMany(0);
  }

  /** With job n accepted: its record saved, known and queued. */
  function AskedFor(n: nat): State {
    var s := LostMany(n);
    s.(table := Rows(n + 1), used := Names(n + 1), jobs := Known(n)[Name(n) := Asked(n)], queue := [Name(n)], wake := true)
  }

  function SavedFor(n: nat): State {
    var s := LostMany(n);
    s.(table := Rows(n) + [Asked(n)], used := Names(n) + [Name(n)], adm := Admitted(Asked(n)))
  }

  function DrawnFor(n: nat): State {
    var s := LostMany(n);
    s.(used := s.used + [Name(n)], adm := Admitting(Asked(n)))
  }

  lemma DrawOneMore(n: nat)
    requires n < MAX_RECORDS && Reaches(Fresh(true), LostMany(n))
    ensures Reaches(Fresh(true), DrawnFor(n))
  {
    NewName(n);
    KnownFacts(n);
    hide Name, Known, Rows, Names, Reaches, ActiveSet, IdsOf;
    var s0 := LostMany(n);
    assert Admissible(s0, 1);
    ReachStep(Fresh(true), s0, SubmitCreate(1, Name(n), 0));
    assert Do(s0, SubmitCreate(1, Name(n), 0)) == DrawnFor(n);
  }

  lemma SaveOneMore(n: nat)
    requires n < MAX_RECORDS && Reaches(Fresh(true), LostMany(n))
    ensures Reaches(Fresh(true), SavedFor(n))
  {
    DrawOneMore(n);
    NewName(n);
    UpsertNew(Rows(n), Asked(n));
    hide Name, Known, Rows, Names, Reaches, IdsOf;
    ReachStep(Fresh(true), DrawnFor(n), AdmitSave(true));
    assert Do(DrawnFor(n), AdmitSave(true)) == SavedFor(n);
  }

  lemma AskOneMore(n: nat)
    requires n < MAX_RECORDS && Reaches(Fresh(true), LostMany(n))
    ensures Reaches(Fresh(true), AskedFor(n))
  {
    SaveOneMore(n);
    OneMore(n);
    var s, s2 := Fresh(true), SavedFor(n);
    hide Name, Known, Rows, Names, Reaches;
    ReachStep(s, s2, AdmitInsert);
    var s3 := Do(s2, AdmitInsert);
    ReachStep(s, s3, AdmitSignal);
    assert [] + [Name(n)] == [Name(n)];
    assert Do(s3, AdmitSignal) == AskedFor(n);
  }

  lemma OneMore(n: nat)
    ensures Rows(n) + [Asked(n)] == Rows(n + 1) && Names(n) + [Name(n)] == Names(n + 1)
    ensures Known(n)[Name(n) := Forgotten(n)] == Known(n + 1)
  {
  }

  function TakenUp(n: nat): State {
    var s := AskedFor(n);
    s.(queue := [], worker := Holding(Taken(n), Starting))
  }

  lemma TakeOneMore(n: nat)
    requires Reaches(Fresh(true), AskedFor(n))
    ensures Reaches(Fresh(true), TakenUp(n))
  {
    hide Name, Known, Rows, Names, Reaches;
    var s, s0 := Fresh(true), AskedFor(n);
    ReachStep(s, s0, CheckContext);
    var s1 := Do(s0, CheckContext);
    ReachStep(s, s1, PopOrPark);
    assert [Name(n)][1..] == [];
    assert Do(s1, PopOrPark) == TakenUp(n);
  }

  lemma LoseOneMore(n: nat)
    requires Reaches(Fresh(true), TakenUp(n))
    ensures Reaches(Fresh(true), LostMany(n + 1))
  {
    OneMore(n);
    hide Name, Known, Rows, Names, Reaches;
    var s, s0 := Fresh(true), TakenUp(n);
    ReachStep(s, s0, SaveRecord(false, 0, "io"));
    var s1 := s0.(worker := Holding(FailedJob(Taken(n), "io"), Failing));
    assert Do(s0, SaveRecord(false, 0, "io")) == s1;
    ReachStep(s, s1, SaveRecord(false, 0, "io"));
    var s2 := s1.(worker := Holding(FailedJob(Taken(n), "io"), FailedUnsaved));
    assert Do(s1, SaveRecord(false, 0, "io")) == s2;
    ReachStep(s, s2, FailInMemory("io"));
    assert Known(n)[Name(n) := Asked(n)][Name(n) := Forgotten(n)] == Known(n)[Name(n) := Forgotten(n)];
    assert Do(s2, FailInMemory("io")) == LostMany(n + 1);
  }

  lemma {:induction false} LosesMany(n: nat)
    requires n <= MAX_RECORDS
    ensures Reaches(Fresh(true), LostMany(n))
  {
    if n == 0 {
      StartLosing();
    } else {
      LosesMany(n - 1);
      AskOneMore(n - 1);
      TakeOneMore(n - 1);
      LoseOneMore(n - 1);
    }
  }

  lemma {:induction false} RowsAreActive(n: nat)
    ensures |ActiveIds(Rows(n))| == n && DistinctIds(Rows(n))
  {
    RowsCount(Rows(n));
  }

  lemma {:induction false} RowsCount(rows: seq<Job>)
    requires forall i :: 0 <= i < |rows| ==> Active(rows[i])
    ensures |ActiveIds(rows)| == |rows|
  {
    if rows != [] { RowsCount(rows[1..]); }
  }

  /**
   * For any number of jobs up to the record limit: a reachable state right after
   * a restart with that many active jobs, all of one list. From 65 on this is
   * more than the bound, and from 2 on more than one job for a list.
   */
  lemma LostFailuresBreakTheBounds(n: nat)
    requires n <= 256
    ensures exists s: State :: Reaches(Fresh(true), s) && s.Up? && |ActiveSet(s.jobs)| == n && (n >= 2 ==> !OnePerList(s.jobs))
  {
    LosesMany(n);
    RowsAreActive(n);
    var s := LostMany(n);
    var d := Do(s, Crash);
    ReachStep(Fresh(true), s, Crash);
    ReachStep(Fresh(true), d, Recover(0));
    assert IsRun(d, []) && Final(d, []) == d;
    var t := Restart(s, [], 0);
    assert t == Do(d, Recover(0));
    RestartOfMany(n);
  }

  lemma RestartOfMany(n: nat)
    requires IsRun(Do(LostMany(n), Crash), [])
    ensures |ActiveSet(Restart(LostMany(n), [], 0).jobs)| == n
    ensures n >= 2 ==> !OnePerList(Restart(LostMany(n), [], 0).jobs)
  {
    var s := LostMany(n);
    RowsAreActive(n);
    RestartCount(s, [], 0);
    RestartQueue(s);
    RestartApartExactly(s, [], 0);
    if n >= 2 {
      assert Rows(n)[0] in Rows(n) && Rows(n)[1] in Rows(n);
    }
  }

  lemma RestartQueue(s: State)
    requires s.Up? && DistinctIds(s.table) && IsRun(Do(s, Crash), [])
    ensures Restart(s, [], 0).queue == ActiveIds(s.table)
  {
    RecoveredOwed(Do(s, Crash), 0);
  }
}
