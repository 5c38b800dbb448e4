/**
 * `RefreshJobs` itself: the fields it guards with its mutex, the loops of its
 * critical sections, and the durable store behind them. Every method is shown
 * to take the steps of the protocol, one by one, and nothing else.
 */
module RefreshJobs {
  import opened Options
  import opened JobTable
  import opened RefreshProtocol
  import opened RefreshInvariants

  /** The `refresh_jobs` table. A failed statement changes nothing. */
  class JobStore {
    var rows: seq<Job>

    constructor (rows: seq<Job>)
      ensures this.rows == rows
    {
      this.rows := rows;
    }

    method Put(job: Job, works: bool) returns (ok: bool)
      modifies this
      ensures ok == works
      ensures rows == if works then Upsert(old(rows), job) else old(rows)
    {
      if works { rows := Upsert(rows, job); }
      ok := works;
    }

    method Remove(id: JobId, works: bool) returns (ok: bool)
      modifies this
      ensures ok == works
      ensures rows == if works then DeleteRow(old(rows), id) else old(rows)
    {
      if works { rows := DeleteRow(rows, id); }
      ok := works;
    }
  }

  /** What the clock, the random source and the store do during one `Submit`. */
  datatype SubmitEnv = SubmitEnv(deleteWorks: bool, randomWorks: bool, saveWorks: bool, id: JobId, now: int)

  datatype SubmitResult =
    | Accepted(job: Job)
    | ShuttingDown
    | QueueFull
    | Unavailable

  class RefreshJobs {
    const store: JobStore
    var jobs: map<JobId, Job>
    var queue: seq<JobId>
    var wake: bool
    var cancelled: bool

    ghost var used: seq<JobId>
    ghost var log: seq<Event>
    ghost var boot: bool
    ghost var adm: Admission
    ghost var worker: Worker
    ghost const hasReloader: bool

    ghost function View(): (s: State)
      reads this, store
      ensures s.Up?
    {
      Up(store.rows, used, log, hasReloader, jobs, queue, wake, boot, cancelled, adm, worker)
    }

    /** The invariant of the protocol, at a moment when nobody is inside the mutex. */
    ghost predicate Valid()
      reads this, store
    {
      Inv(View()) && MutexFree(View())
    }

    // ---------------------------------------------------------------- recovery

    /** The first loop of the constructor: what the rows say, with unfinished work requeued. */
    static method Load(rows: seq<Job>, now: int) returns (jobs: map<JobId, Job>, queue: seq<JobId>, recovered: seq<Job>)
      ensures jobs == JobsOf(ResetRows(rows, now))
      ensures queue == ActiveIds(rows)
      ensures recovered == Unfinished(ResetRows(rows, now))
    {
      jobs, queue, recovered := map[], [], [];
      for i := 0 to |rows|
        invariant jobs == JobsOf(ResetRows(rows[..i], now))
        invariant queue == ActiveIds(rows[..i])
        invariant recovered == Unfinished(ResetRows(rows[..i], now))
      {
        var job := rows[i];
        LoadSnoc(rows[..i], job, now);
        assert rows[..i + 1] == rows[..i] + [job];
        if Active(job) {
          job := Requeued(job, now);
          queue := queue + [job.id];
          recovered := recovered + [job];
        }
        jobs := jobs[job.id := job];
      }
      assert rows[..|rows|] == rows;
    }

    /**
     * The second loop of the constructor. When a save fails the constructor
     * gives up, having rewritten the unfinished rows before that point.
     */
    static method SaveRecovered(store: JobStore, recovered: seq<Job>, now: int, failAt: Option<nat>) returns (ok: bool, ghost done: nat)
      requires DistinctIds(store.rows) && recovered == Unfinished(ResetRows(store.rows, now))
      modifies store
      ensures ok <==> failAt.None? || failAt.value >= |recovered|
      ensures done <= |old(store.rows)|
      ensures store.rows == ResetRows(old(store.rows)[..done], now) + old(store.rows)[done..]
      ensures ok ==> store.rows == ResetRows(old(store.rows), now)
    {
      hide ResetRows, Unfinished, Upsert, DistinctIds;
      ghost var rows := store.rows;
      done := 0;
      ok := true;
      var k := 0;
      StartReset(rows, now);
      while k < |recovered|
        invariant 0 <= k <= |recovered| && done <= |rows| && ok
        invariant failAt.Some? ==> k <= failAt.value
        invariant SavedUpTo(store.rows, rows, done, now) && Unfinished(ResetRows(rows[done..], now)) == recovered[k..]
      {
        ghost var next := NextUnfinished(rows, done, now, recovered[k..]);
        assert recovered[k..][1..] == recovered[k + 1..] && recovered[k..][0] == recovered[k];
        ok := store.Put(recovered[k], !(failAt.Some? && failAt.value == k));
        if !ok { return; }
        done := next;
        k := k + 1;
      }
      RestFinished(rows, done, now);
      done := |rows|;
    }

    /** A process started on a recovered store; its worker is parked and not yet signalled. */
    constructor (store: JobStore, jobs: map<JobId, Job>, queue: seq<JobId>, ghost before: State, ghost now: int)
      requires before.Down? && Inv(before) && store.rows == ResetRows(before.table, now)
      requires jobs == JobsOf(store.rows) && queue == ActiveIds(before.table)
      ensures View() == Do(before, Recover(now)) && Valid() && this.store == store && this.queue == queue
    {
      this.store := store;
      this.jobs := jobs;
      this.queue := queue;
      wake := false;
      cancelled := false;
      used := before.used;
      log := before.log + [Restarted];
      boot := true;
      adm := NoAdmission;
      worker := Parked;
      hasReloader := before.hasReloader;
      new;
      ResetOwed(before.table, now);
      StepKeepsInv(before, Recover(now));
    }

    // ---------------------------------------------------------------- submitting

    /** The scan that looks for an active job of the same list and counts the others. */
    method FindActive(listId: int) returns (found: Option<Job>, active: nat)
      ensures found.Some? <==> HasActiveFor(jobs, listId)
      ensures found.Some? ==> found.value in jobs.Values && Active(found.value) && found.value.listId == listId
      ensures found.None? ==> active == |ActiveSet(jobs)|
    {
      found, active := None, 0;
      var rest := jobs.Keys;
      ghost var counted := {};
      while rest != {}
        invariant rest <= jobs.Keys
        invariant counted == set id | id in jobs.Keys - rest && Active(jobs[id])
        invariant active == |counted|
        invariant found.None? && forall id :: id in counted ==> jobs[id].listId != listId
      {
        var id :| id in rest;
        rest := rest - {id};
        if Active(jobs[id]) {
          if jobs[id].listId == listId {
            found := Some(jobs[id]);
            return;
          }
          active := active + 1;
          counted := counted + {id};
        }
      }
      assert counted == ActiveSet(jobs);
    }

    /** The scan for the record to evict. */
    method FindVictim() returns (oldest: Option<JobId>)
      ensures oldest.Some? ==> IsVictim(jobs, oldest.value) && OldestFinished(jobs, oldest.value)
      ensures oldest.None? ==> forall id :: id in jobs ==> Active(jobs[id])
    {
      oldest := None;
      var rest := jobs.Keys;
      while rest != {}
        invariant rest <= jobs.Keys
        invariant oldest.None? ==> forall id :: id in jobs.Keys - rest ==> Active(jobs[id])
        invariant oldest.Some? ==>
                    && oldest.value in jobs && !Active(jobs[oldest.value])
                    && forall id :: id in jobs.Keys - rest && !Active(jobs[id]) ==>
                         jobs[oldest.value].createdAt <= jobs[id].createdAt
      {
        var id :| id in rest;
        rest := rest - {id};
        if !Active(jobs[id]) && (oldest.None? || jobs[id].createdAt < jobs[oldest.value].createdAt) {
          oldest := Some(id);
        }
      }
    }

    method Signal()
      modifies this`wake
      ensures wake
    {
      wake := true;
    }

    /** The eviction inside `Submit`: the row first, then the record in memory. */
    method MakeRoom(listId: int, works: bool) returns (ok: bool, ghost path: seq<Action>)
      requires Inv(View()) && Admissible(View(), listId) && |jobs| >= MAX_RECORDS
      modifies this, store
      ensures Inv(View()) && Took(old(View()), path, View()) && ok == works
      ensures !ok ==> View() == old(View())
      ensures ok ==> exists victim ::
                       IsVictim(old(jobs), victim) && View() == Forget(EvictRow(old(View()), listId, victim))
    {
      hide Inv, Took;
      VictimExists(jobs);
      ghost var before := View();
      path := Start(before);
      var oldest := FindVictim();
      var victim := oldest.value;
      ok := store.Remove(victim, works);
      if !ok { return; }
      path := MakeRoomPath(before, listId, victim);
      jobs := jobs - {victim};
      adm := Evicted(listId);
      assert View() == Forget(EvictRow(before, listId, victim));
    }

    /** The admission inside `Submit`: saved, then inserted, then signalled. */
    method Admit(job: Job, works: bool) returns (ok: bool, ghost path: seq<Action>)
      requires Inv(View()) && adm == Admitting(job)
      modifies this, store
      ensures Inv(View()) && Took(old(View()), path, View()) && ok == works
      ensures !ok ==> View() == old(View()).(adm := NoAdmission)
      ensures ok ==> View() == AdmitAll(old(View()))
    {
      hide Inv, Took;
      ghost var before := View();
      path := AdmitPath(before, works);
      ok := store.Put(job, works);
      adm := NoAdmission;
      if !ok { return; }
      jobs := jobs[job.id := job];
      queue := queue + [job.id];
      Signal();
    }

    /** The part of `Submit` after its checks. */
    method AdmitNew(listId: int, env: SubmitEnv) returns (ok: bool, ghost path: seq<Action>, ghost roomy: State)
      requires Inv(View()) && Admissible(View(), listId) && env.id !in used
      modifies this, store
      ensures Valid() && Took(old(View()), path, View())
      ensures ok == (env.randomWorks && env.saveWorks && (|old(jobs)| >= MAX_RECORDS ==> env.deleteWorks))
      ensures ok ==> MadeRoom(old(View()), listId, roomy) && View() == AdmitAll(Create(roomy, listId, env.id, env.now))
      ensures !ok ==> queue == old(queue) && wake == old(wake) && (View().jobs == old(jobs) || MadeRoomIn(old(jobs), View().jobs))
    {
      hide Inv, Took;
      ghost var before := View();
      path := Start(before);
      ok := true;
      var full := |jobs| >= MAX_RECORDS;
      if full {
        ok, path := MakeRoom(listId, env.deleteWorks);
      }
      roomy := View();
      if !ok { return; }
      if !env.randomWorks {
        ok := false;
        if full {
          path := Chain(before, path, roomy, OneStep(roomy, AdmitAbort), roomy.(adm := NoAdmission));
          adm := NoAdmission;
        }
        return;
      }
      ghost var created := Create(roomy, listId, env.id, env.now);
      path := Chain(before, path, roomy, CreatePath(roomy, listId, env.id, env.now), created);
      used := used + [env.id];
      adm := Admitting(NewJob(env.id, listId, env.now));
      ghost var admitting;
      ok, admitting := Admit(NewJob(env.id, listId, env.now), env.saveWorks);
      path := Chain(before, path, created, admitting, View());
    }

    /**
     * `Submit`: nothing changes unless the job is admitted or room was made for
     * it. What an acceptance amounts to is the subject of `AcceptedMeans`.
     */
    method Submit(listId: int, env: SubmitEnv) returns (r: SubmitResult, ghost path: seq<Action>, ghost roomy: State)
      requires Valid() && !boot && env.id !in used
      modifies this, store
      ensures Valid() && Took(old(View()), path, View())
      ensures old(cancelled) ==> r.ShuttingDown? && View() == old(View())
      ensures !old(cancelled) && HasActiveFor(old(jobs), listId) ==>
                && r.Accepted? && r.job in old(jobs).Values && Active(r.job) && r.job.listId == listId
                && View() == old(View())
      ensures !old(cancelled) && !HasActiveFor(old(jobs), listId) && |ActiveSet(old(jobs))| >= 64 ==>
                r.QueueFull? && View() == old(View())
      ensures !old(cancelled) && !HasActiveFor(old(jobs), listId) && |ActiveSet(old(jobs))| < 64 ==>
                if env.randomWorks && env.saveWorks && (|old(jobs)| >= 256 ==> env.deleteWorks)
                then && r == Accepted(Job(env.id, listId, Queued, PhaseQueued, env.now, env.now, "", None))
                     && MadeRoom(old(View()), listId, roomy)
                     && View() == AdmitAll(Create(roomy, listId, env.id, env.now))
                else r.Unavailable? && queue == old(queue) && wake == old(wake)
                     && (jobs == old(jobs) || MadeRoomIn(old(jobs), jobs))
    {
      hide Inv, Took;
      roomy := View();
      path := Start(roomy);
      if cancelled { return ShuttingDown, path, roomy; }
      var found, active := FindActive(listId);
      if found.Some? { return Accepted(found.value), path, roomy; }
      if active >= MAX_ACTIVE { return QueueFull, path, roomy; }
      var ok;
      ok, path, roomy := AdmitNew(listId, env);
      r := if ok then Accepted(NewJob(env.id, listId, env.now)) else Unavailable;
    }

    // ---------------------------------------------------------------- the worker

    /** The signal at the end of the constructor, which lets the new worker find recovered work. */
    method StartWorker() returns (ghost path: seq<Action>)
      requires Valid() && boot
      modifies this`wake, this`boot
      ensures Valid() && View() == Do(old(View()), BootSignal) && Took(old(View()), path, View())
    {
      hide Inv, Took;
      path := OneStep(View(), BootSignal);
      Signal();
      boot := false;
    }

    /** The owner of the process tells it to stop. */
    method Cancel() returns (ghost path: seq<Action>)
      requires Valid()
      modifies this`cancelled
      ensures Valid() && View() == Do(old(View()), Action.Cancel) && Took(old(View()), path, View())
    {
      hide Inv, Took;
      path := OneStep(View(), Action.Cancel);
      cancelled := true;
    }

    /** The parked worker receives the wake token. */
    method TakeWake() returns (ghost path: seq<Action>)
      requires Valid() && worker.Parked? && wake
      modifies this`wake, this`worker
      ensures Valid() && View() == Do(old(View()), Action.TakeWake) && Took(old(View()), path, View())
    {
      hide Inv, Took;
      path := OneStep(View(), Action.TakeWake);
      wake := false;
      worker := Looping;
    }

    /** The condition of the inner loop: on with it, unless the process is stopping. */
    method CheckContext() returns (goesOn: bool, ghost path: seq<Action>)
      requires Valid() && worker.Looping?
      modifies this`worker
      ensures Valid() && View() == Do(old(View()), Action.CheckContext) && Took(old(View()), path, View())
      ensures goesOn == !cancelled && worker == if goesOn then Acquiring else Parked
    {
      hide Inv, Took;
      path := OneStep(View(), Action.CheckContext);
      goesOn := !cancelled;
      worker := if cancelled then Parked else Acquiring;
    }

    /** A parked worker sees that the process is stopping, and returns. */
    method StopParked() returns (ghost path: seq<Action>)
      requires Valid() && worker.Parked? && cancelled
      modifies this`worker
      ensures Valid() && View() == Do(old(View()), Action.StopParked) && Took(old(View()), path, View())
    {
      hide Inv, Took;
      path := OneStep(View(), Action.StopParked);
      worker := Stopped(None);
    }

    /** The worker's locked look at the queue. */
    method PopNext() returns (job: Option<Job>)
      requires Valid() && worker.Acquiring?
      modifies this
      ensures Valid()
      ensures View() == if old(queue) == [] then old(View()).(worker := Parked) else Pop(old(View()))
      ensures jobs == old(jobs) && queue == if old(queue) == [] then [] else old(queue)[1..]
      ensures old(queue) != [] ==>
                && job.Some? && old(queue)[0] in jobs
                && job.value == jobs[old(queue)[0]].(status := Running, phase := Phase.Refreshing)
      ensures if old(queue) == [] then job.None? else job.Some? && worker == Holding(job.value, Starting)
    {
      hide Inv;
      PopOrParkKeeps(View());
      HeadKnown(View());
      if queue == [] {
        worker := Parked;
        job := None;
      } else {
        var id := queue[0];
        queue := queue[1..];
        var next := jobs[id].(status := Running, phase := Phase.Refreshing);
        worker := Holding(next, Starting);
        job := Some(next);
      }
    }

    /** `update` for the record the worker holds: saved first, then copied to memory. */
    method Update(job: Job, now: int, works: bool, ghost failure: string) returns (ok: bool, ghost path: seq<Action>)
      requires Valid() && Saving(worker) && worker.job == job
      modifies this, store
      ensures Valid() && ok == works
      ensures path == if works then [SaveRecord(true, now, failure), Publish] else [SaveRecord(false, now, failure)]
      ensures Took(old(View()), path, View())
      ensures View() == if works then PublishHeld(SaveHeld(old(View()), now))
                        else old(View()).(worker := SaveFailed(old(worker), failure))
    {
      hide Inv, Took;
      path := UpdatePath(View(), now, works, failure);
      var stored := job.(updatedAt := now);
      ok := store.Put(stored, works);
      if ok {
        log := if AfterSave(worker).ToRefreshing? then log + [RefreshBegan(stored.id)] else log;
        jobs := jobs[stored.id := stored];
        worker := AfterPublish(Holding(job, Publishing(stored, AfterSave(worker))), hasReloader);
      } else {
        worker := SaveFailed(worker, failure);
      }
    }

    /** `fail`: the failure is saved, or else kept in memory with the reason it could not be. */
    method Fail(job: Job, now: int, works: bool, saveError: string) returns (ghost path: seq<Action>)
      requires Valid() && worker == Holding(job, Failing)
      modifies this, store
      ensures Valid() && worker.Looping? && Took(old(View()), path, View())
      ensures queue == old(queue) && cancelled == old(cancelled) && job.id in jobs
      ensures jobs[job.id] == if works then job.(updatedAt := now)
                              else job.(error := job.error + "; job persistence: " + saveError)
      ensures jobs == old(jobs)[job.id := jobs[job.id]]
      ensures store.rows == if works then Upsert(old(store.rows), job.(updatedAt := now)) else old(store.rows)
    {
      hide Inv, Took;
      ghost var before := View();
      var ok, updating := Update(job, now, works, saveError);
      path := updating;
      if !ok {
        ghost var unsaved := View();
        path := Chain(before, path, unsaved, OneStep(unsaved, FailInMemory(saveError)), ForgetHeld(unsaved, saveError));
        var failed := job.(error := job.error + "; job persistence: " + saveError);
        jobs := jobs[failed.id := failed];
        worker := Looping;
      }
    }
  }

  /** The run `path` leads from s to t. */
  ghost predicate Took(s: State, path: seq<Action>, t: State) {
    IsRun(s, path) && Final(s, path) == t
  }

  ghost function Start(s: State): (path: seq<Action>)
    ensures path == [] && Took(s, path, s)
  {
    []
  }

  lemma {:induction false} TookThen(s: State, p: seq<Action>, q: seq<Action>)
    requires IsRun(s, p) && IsRun(Final(s, p), q)
    ensures IsRun(s, p + q) && Final(s, p + q) == Final(Final(s, p), q)
    decreases |p|
  {
    hide Do, Enabled;
    if p == [] {
      assert p + q == q;
    } else {
      assert (p + q)[1..] == p[1..] + q && (p + q)[0] == p[0];
      TookThen(Do(s, p[0]), p[1..], q);
    }
  }

  ghost function Chain(s: State, p: seq<Action>, t: State, q: seq<Action>, u: State): (path: seq<Action>)
    requires Took(s, p, t) && Took(t, q, u)
    ensures path == p + q && Took(s, path, u)
  {
    TookThen(s, p, q);
    p + q
  }

  /** The records left when one finished record, the oldest, was evicted from a full map. */
  ghost predicate MadeRoomIn(before: map<JobId, Job>, after: map<JobId, Job>) {
    |before| >= MAX_RECORDS && exists victim :: IsVictim(before, victim) && after == before - {victim}
  }

  /** The state in which the new record is created: as before, or with room made for it. */
  ghost predicate MadeRoom(before: State, listId: int, roomy: State)
    requires before.Up?
  {
    && roomy.Up?
    && if |before.jobs| < MAX_RECORDS then roomy == before
       else exists victim :: IsVictim(before.jobs, victim) && roomy == Forget(EvictRow(before, listId, victim))
  }

  /** A record that is neither queued nor running, and that no such record is older than. */
  ghost predicate OldestFinished(jobs: map<JobId, Job>, victim: JobId) {
    && victim in jobs && (jobs[victim].status == Succeeded || jobs[victim].status == Failed)
    && forall id :: id in jobs && (jobs[id].status == Succeeded || jobs[id].status == Failed) ==>
         jobs[victim].createdAt <= jobs[id].createdAt
  }

  /**
   * An accepted job is new, saved, in memory and last in the queue, the worker
   * has a token. Below 256 records nothing else changes; at 256 an oldest
   * finished record makes room for it.
   */
  lemma AcceptedMeans(before: State, listId: int, id: JobId, now: int, roomy: State)
    requires Inv(before) && before.Up? && MutexFree(before) && id !in before.used
    requires MadeRoom(before, listId, roomy)
    ensures var after := AdmitAll(Create(roomy, listId, id, now));
            var job := Job(id, listId, Queued, PhaseQueued, now, now, "", None);
            && id !in before.jobs && after.jobs.Keys <= before.jobs.Keys + {id}
            && after.queue == before.queue + [id] && after.wake
            && id in after.jobs && after.jobs[id] == job && job in after.table
            && (forall known :: known in before.jobs && Active(before.jobs[known]) ==>
                  known in after.jobs && after.jobs[known] == before.jobs[known])
            && |after.jobs| == (if |before.jobs| < 256 then |before.jobs| + 1 else |before.jobs|)
            && if |before.jobs| < 256 then after.jobs == before.jobs[id := job]
               else exists victim :: OldestFinished(before.jobs, victim) && after.jobs == (before.jobs - {victim})[id := job]
  {
    var victim := RoomFacts(before, listId, roomy);
    UpsertRows(roomy.table, NewJob(id, listId, now));
    if |before.jobs| < MAX_RECORDS {
      MapGrows(before.jobs, id, NewJob(id, listId, now));
    } else {
      MapGrows(before.jobs - {victim}, id, NewJob(id, listId, now));
      VictimIsOldest(before.jobs, victim);
    }
  }

  lemma VictimIsOldest(jobs: map<JobId, Job>, victim: JobId)
    requires IsVictim(jobs, victim)
    ensures OldestFinished(jobs, victim) && !Active(jobs[victim])
  {
  }

  lemma MapGrows(jobs: map<JobId, Job>, id: JobId, job: Job)
    requires id !in jobs
    ensures jobs[id := job].Keys == jobs.Keys + {id} && |jobs[id := job]| == |jobs| + 1
  {
  }

  lemma RoomFacts(before: State, listId: int, roomy: State) returns (victim: JobId)
    requires Inv(before) && before.Up? && MadeRoom(before, listId, roomy)
    ensures DistinctIds(roomy.table) && roomy.queue == before.queue
    ensures |before.jobs| < MAX_RECORDS ==> roomy.jobs == before.jobs
    ensures |before.jobs| >= MAX_RECORDS ==>
              && IsVictim(before.jobs, victim) && roomy.jobs == before.jobs - {victim}
              && |before.jobs| == MAX_RECORDS && |roomy.jobs| == |before.jobs| - 1
  {
    if |before.jobs| >= MAX_RECORDS {
      victim :| IsVictim(before.jobs, victim) && roomy == Forget(EvictRow(before, listId, victim));
      DeleteRows(before.table, victim);
      assert roomy.jobs.Keys == before.jobs.Keys - {victim};
    } else {
      victim := "";
    }
  }

  lemma HeadKnown(s: State)
    requires s.Up? && Inv(s)
    ensures s.queue != [] ==> s.queue[0] in s.jobs
  {
    if s.queue != [] { assert s.queue[0] in s.queue; }
  }

  // ------------------------------------------------------- the steps of each section

  ghost function OneStep(s: State, a: Action): (path: seq<Action>)
    requires Inv(s) && Enabled(s, a)
    ensures path == [a] && Took(s, path, Do(s, a)) && Inv(Do(s, a))
  {
    StepKeepsInv(s, a);
    assert [a][1..] == [];
    [a]
  }

  ghost function MakeRoomPath(s: State, listId: int, victim: JobId): (path: seq<Action>)
    requires Inv(s) && s.Up? && Admissible(s, listId) && |s.jobs| >= MAX_RECORDS && IsVictim(s.jobs, victim)
    ensures Took(s, path, Forget(EvictRow(s, listId, victim))) && Inv(Forget(EvictRow(s, listId, victim)))
  {
    var evicted := EvictRow(s, listId, victim);
    Chain(s, OneStep(s, SubmitEvict(listId, victim)), evicted, OneStep(evicted, ForgetVictim), Forget(evicted))
  }

  ghost function CreatePath(s: State, listId: int, id: JobId, now: int): (path: seq<Action>)
    requires Inv(s) && s.Up? && id !in s.used
    requires s.adm == Evicted(listId) || (Admissible(s, listId) && |s.jobs| < MAX_RECORDS)
    ensures Took(s, path, Create(s, listId, id, now)) && Inv(Create(s, listId, id, now))
  {
    OneStep(s, if s.adm.Evicted? then CreateAfterEvict(id, now) else SubmitCreate(listId, id, now))
  }

  ghost function AdmitPath(s: State, works: bool): (path: seq<Action>)
    requires Inv(s) && s.Up? && s.adm.Admitting?
    ensures var t := if works then AdmitAll(s) else s.(adm := NoAdmission);
            Took(s, path, t) && Inv(t)
  {
    var first := OneStep(s, AdmitSave(works));
    if !works then first
    else
      var saved := SaveAdmission(s);
      var inserted := Insert(saved);
      Chain(s, first, saved,
            Chain(saved, OneStep(saved, AdmitInsert), inserted, OneStep(inserted, AdmitSignal), AdmitAll(s)), AdmitAll(s))
  }

  lemma PublishPath(s: State, now: int, failure: string)
    requires Inv(s) && s.Up? && MutexFree(s) && Saving(s.worker)
    ensures Took(s, [SaveRecord(true, now, failure), Publish], PublishHeld(SaveHeld(s, now)))
    ensures Inv(PublishHeld(SaveHeld(s, now)))
  {
    hide Inv;
    var saved := SaveHeld(s, now);
    var first := OneStep(s, SaveRecord(true, now, failure));
    var path := Chain(s, first, saved, OneStep(saved, Publish), PublishHeld(saved));
    assert path == [SaveRecord(true, now, failure), Publish];
  }

  ghost function UpdatePath(s: State, now: int, works: bool, failure: string): (path: seq<Action>)
    requires Inv(s) && s.Up? && MutexFree(s) && Saving(s.worker)
    ensures path == if works then [SaveRecord(true, now, failure), Publish] else [SaveRecord(false, now, failure)]
    ensures works ==> Took(s, path, PublishHeld(SaveHeld(s, now))) && Inv(PublishHeld(SaveHeld(s, now)))
    ensures !works ==> Took(s, path, s.(worker := SaveFailed(s.worker, failure))) && Inv(s.(worker := SaveFailed(s.worker, failure)))
  {
    if works then PublishPath(s, now, failure); [SaveRecord(true, now, failure), Publish]
    else OneStep(s, SaveRecord(false, now, failure))
  }

  /** The unfinished rows, in row order. */
  function Unfinished(rows: seq<Job>): seq<Job> {
    if rows == [] then [] else (if Active(rows[0]) then [rows[0]] else []) + Unfinished(rows[1..])
  }

  lemma {:induction false} ResetSnoc(rows: seq<Job>, job: Job, now: int)
    ensures ResetRows(rows + [job], now) == ResetRows(rows, now) + [ResetRow(job, now)]
  {
    if rows == [] {
      assert rows + [job] == [job];
    } else {
      assert (rows + [job])[1..] == rows[1..] + [job];
      ResetSnoc(rows[1..], job, now);
    }
  }

  lemma Grouped<T>(x: seq<T>, y: seq<T>, z: seq<T>)
    ensures x + (y + z) == x + y + z
  {
  }

  lemma Snoc<T>(rows: seq<T>, last: T)
    ensures rows != [] ==> (rows + [last])[1..] == rows[1..] + [last] && (rows + [last])[0] == rows[0]
    ensures rows == [] ==> rows + [last] == [last]
  {
  }

  lemma {:induction false} UnfinishedSnoc(rows: seq<Job>, job: Job)
    ensures Unfinished(rows + [job]) == Unfinished(rows) + (if Active(job) then [job] else [])
  {
    hide Active;
    Snoc(rows, job);
    if rows != [] {
      UnfinishedSnoc(rows[1..], job);
      Grouped(if Active(rows[0]) then [rows[0]] else [], Unfinished(rows[1..]), if Active(job) then [job] else []);
    }
  }

  lemma {:induction false} ActiveIdsSnoc(rows: seq<Job>, job: Job)
    ensures ActiveIds(rows + [job]) == ActiveIds(rows) + (if Active(job) then [job.id] else [])
  {
    hide Active;
    Snoc(rows, job);
    if rows != [] {
      ActiveIdsSnoc(rows[1..], job);
      Grouped(if Active(rows[0]) then [rows[0].id] else [], ActiveIds(rows[1..]), if Active(job) then [job.id] else []);
    }
  }

  lemma JobsOfSnoc(rows: seq<Job>, job: Job)
    ensures JobsOf(rows + [job]) == JobsOf(rows)[job.id := job]
  {
    assert (rows + [job])[..|rows|] == rows;
  }

  lemma LoadSnoc(rows: seq<Job>, job: Job, now: int)
    ensures JobsOf(ResetRows(rows + [job], now)) == JobsOf(ResetRows(rows, now))[job.id := ResetRow(job, now)]
    ensures ActiveIds(rows + [job]) == ActiveIds(rows) + (if Active(job) then [job.id] else [])
    ensures Unfinished(ResetRows(rows + [job], now)) ==
            Unfinished(ResetRows(rows, now)) + (if Active(job) then [ResetRow(job, now)] else [])
  {
    ResetSnoc(rows, job, now);
    JobsOfSnoc(ResetRows(rows, now), ResetRow(job, now));
    ActiveIdsSnoc(rows, job);
    UnfinishedSnoc(ResetRows(rows, now), ResetRow(job, now));
  }

  /** The first rows of the table are reset, the others untouched. */
  ghost predicate SavedUpTo(table: seq<Job>, rows: seq<Job>, done: nat, now: int) {
    done <= |rows| && table == ResetRows(rows[..done], now) + rows[done..]
  }

  /** Saving the next unfinished row moves the boundary between reset and untouched rows past it. */
  lemma {:induction false} NextUnfinished(rows: seq<Job>, done: nat, now: int, rest: seq<Job>) returns (next: nat)
    requires DistinctIds(rows) && done <= |rows|
    requires rest == Unfinished(ResetRows(rows[done..], now)) && rest != []
    ensures done < next <= |rows|
    ensures Unfinished(ResetRows(rows[next..], now)) == rest[1..]
    ensures Upsert(ResetRows(rows[..done], now) + rows[done..], rest[0]) == ResetRows(rows[..next], now) + rows[next..]
    decreases |rows| - done
  {
    assert done < |rows|;
    var row := rows[done];
    assert rows[done..][1..] == rows[done + 1..];
    assert rows[..done + 1] == rows[..done] + [row];
    ResetSnoc(rows[..done], row, now);
    ResetRowsAt(rows[..done], now);
    var mixed := ResetRows(rows[..done], now) + rows[done..];
    var after := ResetRows(rows[..done + 1], now) + rows[done + 1..];
    assert after == mixed[done := ResetRow(row, now)];
    if Active(row) {
      next := done + 1;
      PartialResetShape(rows, done, now);
      SameShapeFacts(rows, mixed);
      UpsertAt(mixed, done, rest[0]);
    } else {
      assert after == mixed;
      next := NextUnfinished(rows, done + 1, now, rest);
    }
  }

  lemma StartReset(rows: seq<Job>, now: int)
    ensures ResetRows(rows[..0], now) + rows[0..] == rows && rows[0..] == rows
  {
    assert rows[..0] == [];
  }

  lemma {:induction false} FinishedUntouched(rows: seq<Job>, now: int)
    requires Unfinished(ResetRows(rows, now)) == []
    ensures ResetRows(rows, now) == rows
  {
    if rows != [] {
      FinishedUntouched(rows[1..], now);
    }
  }

  lemma {:induction false} ResetConcat(a: seq<Job>, b: seq<Job>, now: int)
    ensures ResetRows(a + b, now) == ResetRows(a, now) + ResetRows(b, now)
  {
    if a == [] {
      assert a + b == b;
    } else {
      assert (a + b)[1..] == a[1..] + b;
      ResetConcat(a[1..], b, now);
    }
  }

  lemma RestFinished(rows: seq<Job>, done: nat, now: int)
    requires done <= |rows| && Unfinished(ResetRows(rows[done..], now)) == []
    ensures ResetRows(rows[..done], now) + rows[done..] == ResetRows(rows, now)
    ensures ResetRows(rows[..|rows|], now) + rows[|rows|..] == ResetRows(rows, now)
  {
    FinishedUntouched(rows[done..], now);
    ResetConcat(rows[..done], rows[done..], now);
    assert rows[..done] + rows[done..] == rows;
    assert rows[..|rows|] == rows;
  }
}
