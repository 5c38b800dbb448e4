/**
 * Retention: rows are deleted in batches, oldest first by stamp and id, until
 * none is left below the cutoff.
 */
module AuditCleanup {
  import opened Options
  import opened Stamps
  import opened StampOrder
  import opened CutoffOrder
  import opened Thinning

  const BATCH: nat := 5000

  datatype Row = Row(id: nat, stamp: string, client: string, action: string)

  predicate Expired(r: Row, cutoff: string) {
    Less(r.stamp, cutoff)
  }

  /** The order in which a statement picks rows. */
  predicate Older(a: Row, b: Row) {
    Less(a.stamp, b.stamp) || (a.stamp == b.stamp && a.id < b.id)
  }

  predicate DistinctRows(rows: seq<Row>) {
    forall i, j :: 0 <= i < j < |rows| ==> rows[i].id != rows[j].id
  }

  function Unexpired(rows: seq<Row>, cutoff: string): seq<Row> {
    if rows == [] then []
    else (if Expired(rows[0], cutoff) then [] else [rows[0]]) + Unexpired(rows[1..], cutoff)
  }

  /** The place of the oldest expired row. */
  function OldestAt(rows: seq<Row>, cutoff: string): (at: Option<nat>)
    ensures at.Some? ==> at.value < |rows| && Expired(rows[at.value], cutoff)
    ensures at.None? ==> forall i :: 0 <= i < |rows| ==> !Expired(rows[i], cutoff)
  {
    if rows == [] then None
    else
      var n := |rows| - 1;
      var front := OldestAt(rows[..n], cutoff);
      if Expired(rows[n], cutoff) && (front.None? || Older(rows[n], rows[front.value])) then Some(n) else front
  }

  function Removed(rows: seq<Row>, at: nat): seq<Row>
    requires at < |rows|
  {
    rows[..at] + rows[at + 1..]
  }

  /** One delete statement: up to `limit` expired rows, the oldest ones. */
  function DeleteOldest(rows: seq<Row>, cutoff: string, limit: nat): (r: seq<Row>)
    ensures |rows| - limit <= |r| <= |rows|
  {
    var at := OldestAt(rows, cutoff);
    if limit == 0 || at.None? then rows
    else DeleteOldest(Removed(rows, at.value), cutoff, limit - 1)
  }

  // ------------------------------------------------------------------- the order

  lemma {:induction false} LessTransitive(a: string, b: string, c: string)
    requires Less(a, b) && Less(b, c)
    ensures Less(a, c)
  {
    if a != "" && a[0] == b[0] == c[0] { LessTransitive(a[1..], b[1..], c[1..]); }
  }

  lemma {:induction false} LessTotal(a: string, b: string)
    ensures Less(a, b) || a == b || Less(b, a)
  {
    if a != "" && b != "" && a[0] == b[0] { LessTotal(a[1..], b[1..]); }
  }

  lemma OlderTransitive(a: Row, b: Row, c: Row)
    requires Older(a, b) && Older(b, c)
    ensures Older(a, c)
  {
    if Less(a.stamp, b.stamp) && Less(b.stamp, c.stamp) { LessTransitive(a.stamp, b.stamp, c.stamp); }
  }

  lemma OlderTotal(a: Row, b: Row)
    requires a.id != b.id
    ensures Older(a, b) || Older(b, a)
  {
    LessTotal(a.stamp, b.stamp);
  }

  /** The row picked first is older than every other expired one. */
  lemma {:induction false} OldestIsOldest(rows: seq<Row>, cutoff: string)
    requires DistinctRows(rows) && OldestAt(rows, cutoff).Some?
    ensures var at := OldestAt(rows, cutoff).value;
            forall i :: 0 <= i < |rows| && i != at && Expired(rows[i], cutoff) ==> Older(rows[at], rows[i])
  {
    var n := |rows| - 1;
    var front := OldestAt(rows[..n], cutoff);
    if front.Some? {
      OldestIsOldest(rows[..n], cutoff);
      OlderTotal(rows[n], rows[front.value]);
      if Older(rows[n], rows[front.value]) {
        forall i | 0 <= i < n && i != front.value && Expired(rows[i], cutoff) ensures Older(rows[n], rows[i]) {
          OlderTransitive(rows[n], rows[front.value], rows[i]);
        }
      }
    }
  }

  // ------------------------------------------------------------ what is deleted

  lemma {:induction false} UnexpiredConcat(a: seq<Row>, b: seq<Row>, cutoff: string)
    ensures Unexpired(a + b, cutoff) == Unexpired(a, cutoff) + Unexpired(b, cutoff)
  {
    hide Expired;
    if a == [] {
      assert a + b == b;
    } else {
      assert (a + b)[1..] == a[1..] + b && (a + b)[0] == a[0];
      UnexpiredConcat(a[1..], b, cutoff);
    }
  }

  lemma RemovedLength(rows: seq<Row>, at: nat)
    requires at < |rows|
    ensures |Removed(rows, at)| == |rows| - 1
  {
  }

  lemma RemovedKeepsUnexpired(rows: seq<Row>, cutoff: string, at: nat)
    requires at < |rows| && Expired(rows[at], cutoff)
    ensures Unexpired(Removed(rows, at), cutoff) == Unexpired(rows, cutoff)
  {
    var tail := rows[at..];
    assert rows == rows[..at] + tail && tail[1..] == rows[at + 1..];
    UnexpiredConcat(rows[..at], tail, cutoff);
    UnexpiredConcat(rows[..at], rows[at + 1..], cutoff);
  }

  lemma {:induction false} NothingExpired(rows: seq<Row>, cutoff: string)
    requires forall i :: 0 <= i < |rows| ==> !Expired(rows[i], cutoff)
    ensures Unexpired(rows, cutoff) == rows
  {
    if rows != [] {
      NothingExpired(rows[1..], cutoff);
    }
  }

  lemma RemovedKeepsDistinct(rows: seq<Row>, at: nat)
    requires DistinctRows(rows) && at < |rows|
    ensures DistinctRows(Removed(rows, at)) && rows[at] !in Removed(rows, at)
    ensures forall r :: r in rows <==> r == rows[at] || r in Removed(rows, at)
  {
    assert rows == rows[..at] + [rows[at]] + rows[at + 1..];
  }

  /**
   * A statement deletes only expired rows, keeps the order of the rest, and if it
   * deletes fewer than its limit, no expired row is left.
   */
  lemma {:induction false} DeleteMeans(rows: seq<Row>, cutoff: string, limit: nat)
    ensures Unexpired(DeleteOldest(rows, cutoff, limit), cutoff) == Unexpired(rows, cutoff)
    ensures |rows| - |DeleteOldest(rows, cutoff, limit)| < limit ==> DeleteOldest(rows, cutoff, limit) == Unexpired(rows, cutoff)
    decreases limit
  {
    hide DeleteOldest, OldestAt, Removed, Unexpired, Expired;
    var at := OldestAt(rows, cutoff);
    if at.None? {
      NothingExpired(rows, cutoff);
      NoneToDelete(rows, cutoff, limit);
    } else if limit == 0 {
      DeleteNothing(rows, cutoff);
    } else {
      DeleteStep(rows, cutoff, limit);
      RemovedKeepsUnexpired(rows, cutoff, at.value);
      assert |Removed(rows, at.value)| == |rows| - 1 by { RemovedLength(rows, at.value); }
      DeleteMeans(Removed(rows, at.value), cutoff, limit - 1);
    }
  }

  /** Two statements in a row are one with both limits. */
  lemma {:induction false} DeleteTwice(rows: seq<Row>, cutoff: string, a: nat, b: nat)
    ensures DeleteOldest(DeleteOldest(rows, cutoff, a), cutoff, b) == DeleteOldest(rows, cutoff, a + b)
    decreases a
  {
    hide DeleteOldest, OldestAt, Removed;
    var at := OldestAt(rows, cutoff);
    if a == 0 {
      DeleteNothing(rows, cutoff);
    } else if at.Some? {
      DeleteStep(rows, cutoff, a);
      DeleteStep(rows, cutoff, a + b);
      DeleteTwice(Removed(rows, at.value), cutoff, a - 1, b);
    } else {
      NoneToDelete(rows, cutoff, a);
      NoneToDelete(rows, cutoff, b);
      NoneToDelete(rows, cutoff, a + b);
    }
  }

  lemma NoneToDelete(rows: seq<Row>, cutoff: string, limit: nat)
    requires OldestAt(rows, cutoff).None?
    ensures DeleteOldest(rows, cutoff, limit) == rows
  {
  }

  /** Whatever the limit, an expired row that stays is younger than every row that goes. */
  lemma {:induction false} OldestGoFirst(rows: seq<Row>, cutoff: string, limit: nat)
    requires DistinctRows(rows)
    ensures var left := DeleteOldest(rows, cutoff, limit);
            && DistinctRows(left) && (forall r :: r in left ==> r in rows)
            && (forall r :: r in rows && r !in left ==> Less(r.stamp, cutoff))
            && (forall r, q :: r in rows && r !in left && q in left && Less(q.stamp, cutoff) ==>
                  Less(r.stamp, q.stamp) || (r.stamp == q.stamp && r.id < q.id))
    decreases limit
  {
    hide DeleteOldest, DistinctRows, Removed, OldestAt, Less;
    var at := OldestAt(rows, cutoff);
    if limit == 0 {
      DeleteNothing(rows, cutoff);
    } else if at.None? {
      NoneToDelete(rows, cutoff, limit);
    } else {
      OldestIsOldest(rows, cutoff);
      RemovedKeepsDistinct(rows, at.value);
      var rest := Removed(rows, at.value);
      OldestGoFirst(rest, cutoff, limit - 1);
      DeleteStep(rows, cutoff, limit);
      var left := DeleteOldest(rest, cutoff, limit - 1);
      forall q | q in left && Expired(q, cutoff) ensures Older(rows[at.value], q) {
        var i :| 0 <= i < |rows| && rows[i] == q;
      }
    }
  }

  lemma DeleteStep(rows: seq<Row>, cutoff: string, limit: nat)
    requires limit > 0 && OldestAt(rows, cutoff).Some?
    ensures DeleteOldest(rows, cutoff, limit) == DeleteOldest(Removed(rows, OldestAt(rows, cutoff).value), cutoff, limit - 1)
  {
  }

  // ------------------------------------------------------------------------ in time

  predicate StampedAt(r: Row, time: nat) {
    time / SECOND < END && r.stamp == Stored(time)
  }

  /**
   * Of the rows with a stamp, those older than the cutoff are gone, but for the
   * misordered instants of the cutoff's own second, where it is the other way round.
   */
  ghost predicate KeepsByTime(rows: seq<Row>, left: seq<Row>, cutoff: nat) {
    cutoff / SECOND < END ==>
      forall r, time :: r in rows && StampedAt(r, time) ==> (r in left <==> !Goes(time, cutoff))
  }

  lemma {:induction false} UnexpiredHas(rows: seq<Row>, cutoff: string, r: Row)
    ensures r in Unexpired(rows, cutoff) <==> r in rows && !Expired(r, cutoff)
  {
    if rows != [] {
      UnexpiredHas(rows[1..], cutoff, r);
    }
  }

  function NotBelow(cutoff: string): Row -> bool {
    (r: Row) => !Less(r.stamp, cutoff)
  }

  /** Exactly the rows with a stamp below the cutoff are gone, and the others are in order. */
  ghost predicate ExpiredGone(left: seq<Row>, rows: seq<Row>, cutoff: string) {
    exists at :: Thinned(at, left, rows, NotBelow(cutoff))
  }

  lemma {:induction false} UnexpiredIs(rows: seq<Row>, cutoff: string) returns (at: seq<nat>)
    ensures Thinned(at, Unexpired(rows, cutoff), rows, NotBelow(cutoff))
  {
    at := [];
    if rows != [] {
      hide Thinned, Less, Unexpired;
      var n := |rows| - 1;
      var front, last := rows[..n], rows[n];
      at := UnexpiredIs(front, cutoff);
      assert rows == front + [last];
      ThinnedNext(at, Unexpired(front, cutoff), front, last, NotBelow(cutoff));
      UnexpiredNext(front, last, cutoff);
      if !Less(last.stamp, cutoff) { at := at + [n]; }
    }
  }

  lemma UnexpiredNext(front: seq<Row>, last: Row, cutoff: string)
    ensures Unexpired(front + [last], cutoff)
            == if Less(last.stamp, cutoff) then Unexpired(front, cutoff) else Unexpired(front, cutoff) + [last]
  {
    UnexpiredConcat(front, [last], cutoff);
    assert Unexpired(front, cutoff) + [] == Unexpired(front, cutoff);
  }

  lemma UnexpiredGone(rows: seq<Row>, cutoff: string)
    ensures ExpiredGone(Unexpired(rows, cutoff), rows, cutoff)
  {
    var at := UnexpiredIs(rows, cutoff);
    hide Thinned, Unexpired;
  }

  lemma UnexpiredByTime(rows: seq<Row>, cutoff: nat)
    ensures KeepsByTime(rows, Unexpired(rows, Stored(cutoff)), cutoff)
  {
    if cutoff / SECOND < END {
      forall r, time: nat | r in rows && StampedAt(r, time)
        ensures r in Unexpired(rows, Stored(cutoff)) <==> !Goes(time, cutoff)
      {
        UnexpiredHas(rows, Stored(cutoff), r);
        CutoffTakes(time, cutoff);
      }
    }
  }

  /** A row of half past the fifth second is deleted by the fifth second as a cutoff, although it is younger. */
  lemma YoungerRowGoes(r: Row)
    requires StampedAt(r, 5 * SECOND + 500_000_000)
    ensures Unexpired([r], Stored(5 * SECOND)) == []
  {
    HalfSecondWitness();
    assert [r][1..] == [];
  }

  class AuditTable {
    var rows: seq<Row>

    constructor (rows: seq<Row>)
      ensures this.rows == rows
    {
      this.rows := rows;
    }

    /**
     * The delete loop. The statement numbered `failAt` may fail, and the caller may
     * give up after any number of statements. Any `maxRows` above 0 means one statement.
     */
    method CleanupOlderThan(maxAge: int, now: nat, maxRows: int, failAt: Option<nat>, givesUpAfter: Option<nat>)
        returns (ok: bool, deleted: nat, ghost statements: nat)
      requires maxAge <= now
      modifies this
      ensures maxAge <= 0 ==> ok && rows == old(rows)
      ensures maxAge > 0 ==> rows == DeleteOldest(old(rows), Stored(now - maxAge), statements * 5000)
      ensures deleted == |old(rows)| - |rows|
      ensures ok && maxAge > 0 && maxRows > 0 ==> statements == 1
      ensures ok && maxAge > 0 && maxRows <= 0 ==> rows == Unexpired(old(rows), Stored(now - maxAge))
      ensures ok && maxAge > 0 && maxRows <= 0 ==> ExpiredGone(rows, old(rows), Stored(now - maxAge))
      ensures ok && maxAge > 0 && maxRows <= 0 ==> KeepsByTime(old(rows), rows, now - maxAge)
      ensures failAt.None? && givesUpAfter.None? ==> ok
    {
      hide DeleteOldest, Stored, KeepsByTime, ExpiredGone;
      deleted, statements := 0, 0;
      if maxAge <= 0 {
        return true, 0, 0;
      }
      var cutoff := Stored(now - maxAge);
      ghost var before := rows;
      DeleteNothing(rows, cutoff);
      while true
        invariant rows == DeleteOldest(before, cutoff, statements * BATCH)
        invariant Unexpired(rows, cutoff) == Unexpired(before, cutoff)
        invariant deleted == |before| - |rows|
        invariant maxRows > 0 ==> statements == 0
        decreases |rows|
      {
        if failAt == Some(deleted / BATCH) {
          return false, deleted, statements;
        }
        DeleteTwice(before, cutoff, statements * BATCH, BATCH);
        DeleteMeans(rows, cutoff, BATCH);
        var count := |rows| - |DeleteOldest(rows, cutoff, BATCH)|;
        rows := DeleteOldest(rows, cutoff, BATCH);
        statements := statements + 1;
        deleted := deleted + count;
        if maxRows > 0 {
          return true, deleted, statements;
        }
        if count < BATCH {
          UnexpiredByTime(before, now - maxAge);
          UnexpiredGone(before, cutoff);
          return true, deleted, statements;
        }
        if givesUpAfter.Some? && givesUpAfter.value <= deleted / BATCH {
          return false, deleted, statements;
        }
      }
    }
  }

  lemma DeleteNothing(rows: seq<Row>, cutoff: string)
    ensures DeleteOldest(rows, cutoff, 0) == rows
  {
  }
}
