/**
 * Refresh job records and the durable `refresh_jobs` table: rows in rowid
 * order, an upsert that keeps a row's place, and a delete by primary key.
 */
module JobTable {
  import opened Options

  type JobId = string

  datatype Status = Queued | Running | Succeeded | Failed

  datatype Phase = PhaseQueued | Refreshing | Reloading | Complete

  datatype Job = Job(
    id: JobId,
    listId: int,
    status: Status,
    phase: Phase,
    createdAt: int,
    updatedAt: int,
    error: string,
    result: Option<int>)

  predicate Active(job: Job) {
    job.status.Queued? || job.status.Running?
  }

  function NewJob(id: JobId, listId: int, now: int): Job {
    Job(id, listId, Queued, PhaseQueued, now, now, "", None)
  }

  /** What recovery does to an unfinished row. */
  function Requeued(job: Job, now: int): Job {
    job.(status := Queued, phase := PhaseQueued, error := "", updatedAt := now)
  }

  ghost function IdsOf(rows: seq<Job>): set<JobId> {
    set i | 0 <= i < |rows| :: rows[i].id
  }

  ghost predicate DistinctIds(rows: seq<Job>) {
    forall i, j :: 0 <= i < j < |rows| ==> rows[i].id != rows[j].id
  }

  function Upsert(rows: seq<Job>, job: Job): seq<Job> {
    if rows == [] then [job]
    else if rows[0].id == job.id then [job] + rows[1..]
    else [rows[0]] + Upsert(rows[1..], job)
  }

  function DeleteRow(rows: seq<Job>, id: JobId): seq<Job> {
    if rows == [] then []
    else if rows[0].id == id then rows[1..]
    else [rows[0]] + DeleteRow(rows[1..], id)
  }

  /** Ids, in row order, of the unfinished rows: what a restart would queue. */
  function ActiveIds(rows: seq<Job>): seq<JobId> {
    if rows == [] then []
    else (if Active(rows[0]) then [rows[0].id] else []) + ActiveIds(rows[1..])
  }

  /**
   * A row is owed when it is unfinished and memory does not say otherwise. An
   * unfinished row whose job memory holds as finished is a shadow: it stays
   * behind when both the update and the failure record could not be saved.
   */
  predicate Owed(row: Job, jobs: map<JobId, Job>) {
    Active(row) && (row.id in jobs ==> Active(jobs[row.id]))
  }

  function OwedIds(rows: seq<Job>, jobs: map<JobId, Job>): seq<JobId> {
    if rows == [] then []
    else (if Owed(rows[0], jobs) then [rows[0].id] else []) + OwedIds(rows[1..], jobs)
  }

  function Without(ids: seq<JobId>, id: JobId): seq<JobId> {
    if ids == [] then []
    else (if ids[0] == id then [] else [ids[0]]) + Without(ids[1..], id)
  }

  // ---------------------------------------------------------------- rows

  lemma UpsertRest(rows: seq<Job>, job: Job)
    requires rows != [] && rows[0].id != job.id
    ensures Upsert(rows, job) == [rows[0]] + Upsert(rows[1..], job)
  {
  }

  lemma UpsertFirst(rows: seq<Job>, job: Job)
    requires DistinctIds(rows) && rows != [] && rows[0].id == job.id
    ensures DistinctIds(Upsert(rows, job)) && IdsOf(Upsert(rows, job)) == IdsOf(rows) && job.id in IdsOf(rows)
    ensures |Upsert(rows, job)| == |rows|
    ensures forall r :: r in Upsert(rows, job) <==> r == job || (r in rows && r.id != job.id)
  {
    var up := Upsert(rows, job);
    assert rows == [rows[0]] + rows[1..];
    assert forall i :: 0 <= i < |rows| ==> up[i].id == rows[i].id;
  }

  lemma {:induction false} UpsertRows(rows: seq<Job>, job: Job)
    requires DistinctIds(rows)
    ensures DistinctIds(Upsert(rows, job))
    ensures IdsOf(Upsert(rows, job)) == IdsOf(rows) + {job.id}
    ensures |Upsert(rows, job)| == |rows| + (if job.id in IdsOf(rows) then 0 else 1)
    ensures forall r :: r in Upsert(rows, job) <==> r == job || (r in rows && r.id != job.id)
  {
    if rows == [] {
      assert Upsert(rows, job)[0].id == job.id;
    } else if rows[0].id == job.id {
      UpsertFirst(rows, job);
    } else {
      var first, front := rows[0], rows[1..];
      UpsertRows(front, job);
      UpsertRest(rows, job);
      var rest := Upsert(front, job);
      IdsSplit(rows);
      IdsSplit([first] + rest);
      assert rows == [first] + front && ([first] + rest)[1..] == rest;
      assert forall r :: r in rows <==> r == first || r in front;
      hide Upsert, IdsOf;
      PrependDistinct(first, rest);
    }
  }

  lemma PrependDistinct(first: Job, rest: seq<Job>)
    requires DistinctIds(rest) && first.id !in IdsOf(rest)
    ensures DistinctIds([first] + rest)
  {
    forall i, j | 0 <= i < j < |rest| + 1 ensures ([first] + rest)[i].id != ([first] + rest)[j].id {
      assert rest[j - 1].id in IdsOf(rest);
    }
  }

  lemma IdsSplit(rows: seq<Job>)
    requires rows != []
    ensures IdsOf(rows) == {rows[0].id} + IdsOf(rows[1..])
  {
    forall id | id in IdsOf(rows)
      ensures id in {rows[0].id} + IdsOf(rows[1..])
    {
      var i :| 0 <= i < |rows| && rows[i].id == id;
      if i > 0 { assert rows[1..][i - 1].id == id; }
    }
    forall id | id in IdsOf(rows[1..])
      ensures id in IdsOf(rows)
    {
      var i :| 0 <= i < |rows[1..]| && rows[1..][i].id == id;
      assert rows[i + 1].id == id;
    }
  }

  /** A new row goes last. */
  lemma {:induction false} UpsertNew(rows: seq<Job>, job: Job)
    requires job.id !in IdsOf(rows)
    ensures Upsert(rows, job) == rows + [job]
  {
    if rows != [] {
      IdsSplit(rows);
      UpsertNew(rows[1..], job);
      assert [rows[0]] + (rows[1..] + [job]) == rows + [job];
    }
  }

  /** An existing row keeps its place. */
  lemma {:induction false} UpsertAt(rows: seq<Job>, i: nat, job: Job)
    requires DistinctIds(rows) && i < |rows| && rows[i].id == job.id
    ensures Upsert(rows, job) == rows[i := job]
  {
    if rows[0].id == job.id {
      assert i == 0;
    } else {
      UpsertAt(rows[1..], i - 1, job);
      assert rows[i := job] == [rows[0]] + rows[1..][i - 1 := job];
    }
  }

  lemma {:induction false} DeleteRows(rows: seq<Job>, id: JobId)
    requires DistinctIds(rows)
    ensures DistinctIds(DeleteRow(rows, id))
    ensures IdsOf(DeleteRow(rows, id)) == IdsOf(rows) - {id}
    ensures |DeleteRow(rows, id)| == |rows| - (if id in IdsOf(rows) then 1 else 0)
    ensures forall r :: r in DeleteRow(rows, id) <==> r in rows && r.id != id
  {
    if rows == [] {
    } else {
      IdsSplit(rows);
      assert rows == [rows[0]] + rows[1..];
      if rows[0].id == id {
        forall r | r in rows[1..] ensures r.id != id { }
      } else {
        DeleteRows(rows[1..], id);
        var rest := DeleteRow(rows[1..], id);
        assert DeleteRow(rows, id)[1..] == rest;
        IdsSplit(DeleteRow(rows, id));
        forall i, j | 0 <= i < j < |rest| + 1
          ensures DeleteRow(rows, id)[i].id != DeleteRow(rows, id)[j].id
        {
          assert rest[j - 1] in rest;
          assert rest[j - 1] in rows[1..];
        }
      }
    }
  }

  // ------------------------------------------------------------- owed ids

  lemma {:induction false} OwedFrame(rows: seq<Job>, jobs: map<JobId, Job>, jobs': map<JobId, Job>)
    requires forall r :: r in rows ==> (Owed(r, jobs) <==> Owed(r, jobs'))
    ensures OwedIds(rows, jobs) == OwedIds(rows, jobs')
  {
    if rows != [] {
      assert rows[0] in rows;
      OwedFrame(rows[1..], jobs, jobs');
    }
  }

  lemma {:induction false} OwedMembers(rows: seq<Job>, jobs: map<JobId, Job>, id: JobId)
    ensures id in OwedIds(rows, jobs) <==> exists r :: r in rows && r.id == id && Owed(r, jobs)
  {
    if rows != [] {
      OwedMembers(rows[1..], jobs, id);
      assert rows == [rows[0]] + rows[1..];
    }
  }

  lemma {:induction false} OwedAppend(rows: seq<Job>, job: Job, jobs: map<JobId, Job>)
    ensures OwedIds(rows + [job], jobs) == OwedIds(rows, jobs) + (if Owed(job, jobs) then [job.id] else [])
  {
    if rows == [] {
      assert rows + [job] == [job];
    } else {
      assert (rows + [job])[1..] == rows[1..] + [job];
      OwedAppend(rows[1..], job, jobs);
    }
  }

  /** Rewriting an unfinished owed row in place leaves the owed ids as they were. */
  lemma {:induction false} OwedRewrite(rows: seq<Job>, job: Job, jobs: map<JobId, Job>)
    requires DistinctIds(rows) && job.id in OwedIds(rows, jobs) && Active(job)
    ensures OwedIds(Upsert(rows, job), jobs) == OwedIds(rows, jobs)
  {
    OwedMembers(rows, jobs, job.id);
    if rows[0].id == job.id {
      assert Upsert(rows, job)[1..] == rows[1..];
      var r :| r in rows && r.id == job.id && Owed(r, jobs);
      assert r == rows[0];
    } else {
      OwedRewrite(rows[1..], job, jobs);
      assert Upsert(rows, job)[1..] == Upsert(rows[1..], job);
    }
  }

  /** Finishing a row takes exactly its id out of the owed ids. */
  lemma {:induction false} OwedFinish(rows: seq<Job>, job: Job, jobs: map<JobId, Job>)
    requires DistinctIds(rows) && !Active(job)
    ensures OwedIds(Upsert(rows, job), jobs) == Without(OwedIds(rows, jobs), job.id)
  {
    if rows == [] {
    } else {
      var head := if Owed(rows[0], jobs) then [rows[0].id] else [];
      var tail := OwedIds(rows[1..], jobs);
      WithoutConcat(head, tail, job.id);
      if rows[0].id == job.id {
        assert Upsert(rows, job)[1..] == rows[1..];
        forall r | r in rows[1..] ensures r.id != job.id { }
        OwedMembers(rows[1..], jobs, job.id);
        WithoutAbsent(tail, job.id);
        assert Without(head, job.id) == [];
      } else {
        OwedFinish(rows[1..], job, jobs);
        assert Upsert(rows, job)[1..] == Upsert(rows[1..], job);
        WithoutAbsent(head, job.id);
      }
    }
  }

  /** Recording in memory only that a job failed turns its row into a shadow. */
  lemma {:induction false} OwedForget(rows: seq<Job>, job: Job, jobs: map<JobId, Job>)
    requires !Active(job)
    ensures OwedIds(rows, jobs[job.id := job]) == Without(OwedIds(rows, jobs), job.id)
  {
    if rows == [] {
    } else {
      var head := if Owed(rows[0], jobs) then [rows[0].id] else [];
      WithoutConcat(head, OwedIds(rows[1..], jobs), job.id);
      OwedForget(rows[1..], job, jobs);
      if rows[0].id == job.id {
        assert Without(head, job.id) == [];
      } else {
        WithoutAbsent(head, job.id);
      }
    }
  }

  /** Copying a saved record to memory does not change what is owed. */
  lemma {:induction false} OwedLearn(rows: seq<Job>, job: Job, jobs: map<JobId, Job>)
    requires DistinctIds(rows) && job in rows && (job.id in jobs ==> Active(jobs[job.id]))
    ensures OwedIds(rows, jobs[job.id := job]) == OwedIds(rows, jobs)
  {
    var i :| 0 <= i < |rows| && rows[i] == job;
    forall r | r in rows && r.id == job.id ensures r == job {
      var j :| 0 <= j < |rows| && rows[j] == r;
    }
    OwedFrame(rows, jobs, jobs[job.id := job]);
  }

  lemma {:induction false} OwedDelete(rows: seq<Job>, id: JobId, jobs: map<JobId, Job>)
    requires id in jobs && !Active(jobs[id])
    ensures OwedIds(DeleteRow(rows, id), jobs) == OwedIds(rows, jobs)
  {
    if rows == [] {
    } else if rows[0].id != id {
      OwedDelete(rows[1..], id, jobs);
      assert DeleteRow(rows, id)[1..] == DeleteRow(rows[1..], id);
    }
  }

  lemma WithoutHead(ids: seq<JobId>, id: JobId)
    requires id !in ids
    ensures Without([id] + ids, id) == ids
  {
    WithoutConcat([id], ids, id);
    WithoutAbsent(ids, id);
    assert Without([id], id) == [];
  }

  lemma {:induction false} WithoutConcat(a: seq<JobId>, b: seq<JobId>, id: JobId)
    ensures Without(a + b, id) == Without(a, id) + Without(b, id)
  {
    if a == [] {
      assert a + b == b;
    } else {
      assert (a + b)[1..] == a[1..] + b;
      WithoutConcat(a[1..], b, id);
    }
  }

  lemma {:induction false} WithoutAbsent(ids: seq<JobId>, id: JobId)
    requires id !in ids
    ensures Without(ids, id) == ids
  {
    if ids != [] {
      WithoutAbsent(ids[1..], id);
    }
  }

  // ---------------------------------------------------------- active ids

  /** With no shadow row, what a restart would queue is exactly what is owed; otherwise it is more. */
  lemma {:induction false} OwedVersusActive(rows: seq<Job>, jobs: map<JobId, Job>)
    requires DistinctIds(rows)
    ensures |OwedIds(rows, jobs)| <= |ActiveIds(rows)|
    ensures OwedIds(rows, jobs) == ActiveIds(rows) <==>
            (forall r :: r in rows && Active(r) ==> Owed(r, jobs))
  {
    if rows != [] {
      OwedVersusActive(rows[1..], jobs);
      assert rows == [rows[0]] + rows[1..];
      if Active(rows[0]) && !Owed(rows[0], jobs) {
        assert |OwedIds(rows, jobs)| < |ActiveIds(rows)|;
      } else if Active(rows[0]) {
        assert OwedIds(rows, jobs)[1..] == OwedIds(rows[1..], jobs);
        assert ActiveIds(rows)[1..] == ActiveIds(rows[1..]);
      } else {
        assert OwedIds(rows, jobs) == OwedIds(rows[1..], jobs);
        assert ActiveIds(rows) == ActiveIds(rows[1..]);
      }
    }
  }

  lemma {:induction false} ActiveMembers(rows: seq<Job>, id: JobId)
    ensures id in ActiveIds(rows) <==> exists r :: r in rows && r.id == id && Active(r)
  {
    if rows != [] {
      ActiveMembers(rows[1..], id);
      assert rows == [rows[0]] + rows[1..];
    }
  }

  lemma {:induction false} ActiveDistinct(rows: seq<Job>)
    requires DistinctIds(rows)
    ensures forall i, j :: 0 <= i < j < |ActiveIds(rows)| ==> ActiveIds(rows)[i] != ActiveIds(rows)[j]
  {
    if rows != [] {
      ActiveDistinct(rows[1..]);
      ActiveMembers(rows[1..], rows[0].id);
      if Active(rows[0]) {
        assert rows[0].id !in ActiveIds(rows[1..]);
      }
    }
  }
}
