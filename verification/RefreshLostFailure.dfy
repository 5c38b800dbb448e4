/** The run that breaks one job per list: a failure record that could not be saved, then a restart. */
module RefreshLostFailure {
  import opened Options
  import opened JobTable
  import opened RefreshProtocol
  import opened RefreshInvariants
  import opened RefreshBounds

  ghost predicate Reaches(s: State, t: State) {
    exists run :: IsRun(s, run) && Final(s, run) == t
  }

  lemma ReachStep(s: State, t: State, a: Action)
    requires Reaches(s, t) && Enabled(t, a)
    ensures Reaches(s, Do(t, a))
  {
    var run :| IsRun(s, run) && Final(s, run) == t;
    RunSnoc(s, run, a);
  }

  const JOB_A: Job := NewJob("a", 1, 0)
  const JOB_B: Job := NewJob("b", 1, 1)
  const FAILED_A: Job :=
    JOB_A.(status := Failed, phase := Phase.Refreshing, error := "io" + "; job persistence: " + "io")

  const HELD_A: Job := JOB_A.(status := Running, phase := Phase.Refreshing)

  function Idle(): State {
    Up([], [], [Restarted], true, map[], [], true, false, false, NoAdmission, Parked)
  }

  function StartedA(): State {
    Up([JOB_A], ["a"], [Restarted], true, map["a" := JOB_A], [], false, false, false, NoAdmission, Holding(HELD_A, Starting))
  }

  function FailingA(): State {
    Up([JOB_A], ["a"], [Restarted], true, map["a" := JOB_A], [], false, false, false, NoAdmission,
       Holding(FailedJob(HELD_A, "io"), Failing))
  }

  function QueuedA(): State {
    Up([JOB_A], ["a"], [Restarted], true, map["a" := JOB_A], ["a"], true, false, false, NoAdmission, Parked)
  }

  function LostA(): State {
    Up([JOB_A], ["a"], [Restarted], true, map["a" := FAILED_A], [], false, false, false, NoAdmission, Looping)
  }

  function QueuedB(): State {
    Up([JOB_A, JOB_B], ["a", "b"], [Restarted], true, map["a" := FAILED_A, "b" := JOB_B], ["b"], true, false, false,
       NoAdmission, Looping)
  }

  lemma StartIdle()
    ensures Reaches(Fresh(true), Idle())
  {
    var s := Fresh(true);
    assert IsRun(s, []) && Final(s, []) == s;
    ReachStep(s, s, Recover(0));
    var s1 := Do(s, Recover(0));
    assert s1 == Up([], [], [Restarted], true, map[], [], false, true, false, NoAdmission, Parked);
    ReachStep(s, s1, BootSignal);
    assert Do(s1, BootSignal) == Idle();
  }

  lemma SubmitA()
    ensures Reaches(Fresh(true), QueuedA())
  {
    StartIdle();
    var s := Fresh(true);
    var s2 := Idle();
    assert ActiveSet(s2.jobs) == {};
    ReachStep(s, s2, SubmitCreate(1, "a", 0));
    var s3 := Do(s2, SubmitCreate(1, "a", 0));
    ReachStep(s, s3, AdmitSave(true));
    var s4 := Do(s3, AdmitSave(true));
    ReachStep(s, s4, AdmitInsert);
    var s5 := Do(s4, AdmitInsert);
    ReachStep(s, s5, AdmitSignal);
    assert Do(s5, AdmitSignal) == QueuedA();
  }

  lemma StartA()
    ensures Reaches(Fresh(true), StartedA())
  {
    SubmitA();
    var s := Fresh(true);
    var s0 := QueuedA();
    ReachStep(s, s0, TakeWake);
    var s1 := Do(s0, TakeWake);
    ReachStep(s, s1, CheckContext);
    var s2 := Do(s1, CheckContext);
    ReachStep(s, s2, PopOrPark);
    assert Do(s2, PopOrPark) == StartedA();
  }

  lemma FirstSaveFails()
    ensures Reaches(Fresh(true), FailingA())
  {
    StartA();
    var s := Fresh(true);
    var s3 := StartedA();
    ReachStep(s, s3, SaveRecord(false, 0, "io"));
    assert Do(s3, SaveRecord(false, 0, "io")) == FailingA();
  }

  lemma LoseFailureOfA()
    ensures Reaches(Fresh(true), LostA())
  {
    FirstSaveFails();
    var s := Fresh(true);
    var s4 := FailingA();
    ReachStep(s, s4, SaveRecord(false, 0, "io"));
    var s5 := Do(s4, SaveRecord(false, 0, "io"));
    ReachStep(s, s5, FailInMemory("io"));
    assert Do(s5, FailInMemory("io")) == LostA();
  }

  lemma SubmitB()
    ensures Reaches(Fresh(true), QueuedB())
  {
    LoseFailureOfA();
    var s := Fresh(true);
    var s0 := LostA();
    assert ActiveSet(s0.jobs) == {};
    ReachStep(s, s0, SubmitCreate(1, "b", 1));
    var s1 := Do(s0, SubmitCreate(1, "b", 1));
    ReachStep(s, s1, AdmitSave(true));
    var s2 := Do(s1, AdmitSave(true));
    assert s2.table == [JOB_A, JOB_B];
    ReachStep(s, s2, AdmitInsert);
    var s3 := Do(s2, AdmitInsert);
    ReachStep(s, s3, AdmitSignal);
    assert Do(s3, AdmitSignal) == QueuedB();
  }

  lemma BothRecovered()
    ensures var rows := ResetRows([JOB_A, JOB_B], 2);
            ActiveIds(rows) == ["a", "b"] && !OnePerList(JobsOf(rows))
  {
    var rows := [JOB_A, JOB_B];
    ResetRowsAt(rows, 2);
    ResetOwed(rows, 2);
    JobsOfRows(ResetRows(rows, 2));
    assert ActiveIds(rows[1..]) == ["b"];
    assert ActiveIds(rows) == ["a", "b"];
    assert ResetRows(rows, 2)[0] in ResetRows(rows, 2) && ResetRows(rows, 2)[1] in ResetRows(rows, 2);
  }

  /**
   * Why one job per list needs saved failure records: both saves of job a fail,
   * so memory lets job b in for the same list while the table still holds a as
   * unfinished; the restart then queues both.
   */
  lemma LostFailureBreaksOnePerList()
    ensures exists s: State :: Reaches(Fresh(true), s) && s.Up? && s.queue == ["a", "b"] && !OnePerList(s.jobs)
  {
    SubmitB();
    BothRecovered();
    var d := Do(QueuedB(), Crash);
    ReachStep(Fresh(true), QueuedB(), Crash);
    ReachStep(Fresh(true), d, Recover(2));
  }
}
