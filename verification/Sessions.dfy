/**
 * Admin sessions: a cache in front of a table, and the one-time copy of an older
 * table. Tokens stand for their digests; expiry times are instants.
 */
module Sessions {
  import opened Options

  datatype State<!T(==)> = State(table: map<T, int>, marker: bool, cache: map<T, int>)

  /** Each call, and whether the database goes along with its reads and writes. */
  datatype Call<T> =
    | Create(token: T, expires: int, writable: bool)
    | Valid(token: T, now: int, readable: bool, writable: bool)
    | Delete(token: T, writable: bool)
    | CopyLegacy(rows: map<T, int>, works: bool)
    | Restart

  function Unexpired<T(==)>(sessions: map<T, int>, now: int): map<T, int> {
    map t | t in sessions && sessions[t] > now :: sessions[t]
  }

  function Deleted<T(==)>(s: State<T>, token: T, writable: bool): State<T> {
    s.(cache := s.cache - {token}, table := if writable then s.table - {token} else s.table)
  }

  /** A row of the older table is copied unless the new one has it; the marker goes with the copy. */
  function Copied<T(==)>(s: State<T>, rows: map<T, int>, works: bool): State<T> {
    if s.marker || !works then s
    else s.(table := Merged(s.table, rows), marker := true)
  }

  function Merged<T(==)>(table: map<T, int>, rows: map<T, int>): map<T, int> {
    map t | t in rows.Keys + table.Keys :: if t in table then table[t] else rows[t]
  }

  function Do<T(==)>(s: State<T>, c: Call<T>): State<T> {
    match c
    case Create(token, expires, writable) =>
      if !writable || token in s.table then s else s.(table := s.table[token := expires], cache := s.cache[token := expires])
    case Valid(token, now, readable, writable) =>
      var pruned := s.(cache := Unexpired(s.cache, now));
      if token in pruned.cache || !readable || token !in s.table then pruned
      else if s.table[token] <= now then Deleted(pruned, token, writable)
      else pruned.(cache := pruned.cache[token := s.table[token]])
    case Delete(token, writable) => Deleted(s, token, writable)
    case CopyLegacy(rows, works) => Copied(s, rows, works)
    case Restart => s.(cache := map[])
  }

  /** What `Valid` answers, from the cache or from the table. */
  function Answer<T(==)>(s: State<T>, token: T, now: int, readable: bool): bool {
    token in Unexpired(s.cache, now) || (readable && token in s.table && s.table[token] > now)
  }

  function Run<T(==)>(s: State<T>, calls: seq<Call<T>>): State<T> {
    if calls == [] then s else Do(Run(s, calls[..|calls| - 1]), calls[|calls| - 1])
  }

  // ----------------------------------------------------------------- transparency

  /** What is cached is in the table, with the same expiry. */
  predicate Mirrored<T(!new,==)>(s: State<T>) {
    forall t :: t in s.cache ==> t in s.table && s.table[t] == s.cache[t]
  }

  lemma CallKeepsMirrored<T(!new)>(s: State<T>, c: Call<T>)
    requires Mirrored(s)
    ensures Mirrored(Do(s, c))
  {
  }

  lemma {:induction false} RunKeepsMirrored<T(!new)>(s: State<T>, calls: seq<Call<T>>)
    requires Mirrored(s)
    ensures Mirrored(Run(s, calls))
  {
    if calls != [] {
      RunKeepsMirrored(s, calls[..|calls| - 1]);
      CallKeepsMirrored(Run(s, calls[..|calls| - 1]), calls[|calls| - 1]);
    }
  }

  /**
   * After any calls and restarts, with writes that may have failed: a session is
   * valid only if the table has it unexpired, and if the read works exactly then.
   */
  lemma {:induction false} CacheIsTransparent<T(!new)>(table: map<T, int>, marker: bool, calls: seq<Call<T>>, token: T, now: int, readable: bool)
    ensures var s := Run(State(table, marker, map[]), calls);
            var known := token in s.table && s.table[token] > now;
            (Answer(s, token, now, readable) ==> known) && (readable ==> Answer(s, token, now, readable) == known)
  {
    RunKeepsMirrored(State(table, marker, map[]), calls);
  }

  // ------------------------------------------------------------- created is known

  /** A call that ends the session: a delete that reaches the table, or a look-up when it has expired. */
  predicate Ends<T(==)>(c: Call<T>, token: T, expires: int) {
    match c
    case Delete(t, writable) => t == token && writable
    case Valid(t, now, _, _) => t == token && now >= expires
    case _ => false
  }

  lemma CallKeepsSession<T(!new)>(s: State<T>, c: Call<T>, token: T, expires: int)
    requires token in s.table && s.table[token] == expires && !Ends(c, token, expires)
    ensures token in Do(s, c).table && Do(s, c).table[token] == expires
  {
  }

  /**
   * A session that is created is valid until the expiry it was given and no longer,
   * whatever is called and however often the process restarts, unless it is ended.
   */
  lemma {:induction false} CreatedIsValid<T(!new)>(s: State<T>, token: T, expires: int, calls: seq<Call<T>>, now: int)
    requires Mirrored(s) && token !in s.table
    requires forall i :: 0 <= i < |calls| ==> !Ends(calls[i], token, expires)
    ensures var end := Run(Do(s, Call.Create(token, expires, true)), calls);
            && Mirrored(end) && token in end.table && end.table[token] == expires
            && (Answer(end, token, now, true) <==> now < expires)
  {
    var start := Do(s, Call.Create(token, expires, true));
    if calls == [] {
      CallKeepsMirrored(s, Call.Create(token, expires, true));
    } else {
      hide Do, Mirrored;
      var n := |calls| - 1;
      CreatedIsValid(s, token, expires, calls[..n], now);
      CallKeepsMirrored(Run(start, calls[..n]), calls[n]);
      CallKeepsSession(Run(start, calls[..n]), calls[n], token, expires);
      AnswerIs(Run(start, calls), token, now);
    }
  }

  lemma AnswerIs<T(!new)>(s: State<T>, token: T, now: int)
    requires Mirrored(s) && token in s.table
    ensures Answer(s, token, now, true) <==> now < s.table[token]
  {
  }

  /** A create that the table refuses leaves everything as it is, and one that works touches no other session. */
  lemma OnlyCreated<T(!new)>(s: State<T>, token: T, expires: int, writable: bool, other: T)
    ensures var end := Do(s, Call.Create(token, expires, writable));
            && (!writable || token in s.table ==> end == s)
            && (other != token ==> (other in end.table <==> other in s.table) && (other in end.cache <==> other in s.cache))
            && end.marker == s.marker
  {
  }

  // ---------------------------------------------------------------- deleted is gone

  predicate Creates<T(==)>(c: Call<T>, token: T) {
    c.Create? && c.token == token
  }

  /** Once the marker is set, a session that is gone stays gone, however often the older table is copied. */
  lemma {:induction false} GoneStaysGone<T(!new)>(s: State<T>, calls: seq<Call<T>>, token: T)
    requires Mirrored(s) && s.marker && token !in s.table
    requires forall i :: 0 <= i < |calls| ==> !Creates(calls[i], token)
    ensures var end := Run(s, calls);
            end.marker && token !in end.table && forall now, readable :: !Answer(end, token, now, readable)
  {
    if calls != [] {
      var n := |calls| - 1;
      GoneStaysGone(s, calls[..n], token);
      assert !Creates(calls[n], token);
      RunKeepsMirrored(s, calls);
    }
  }

  /** In particular after a delete that reached the table. */
  lemma DeletedStaysDeleted<T(!new)>(s: State<T>, token: T, calls: seq<Call<T>>)
    requires Mirrored(s) && s.marker && forall i :: 0 <= i < |calls| ==> !Creates(calls[i], token)
    ensures token !in Run(Do(s, Delete(token, true)), calls).table
  {
    CallKeepsMirrored(s, Delete(token, true));
    GoneStaysGone(Do(s, Delete(token, true)), calls, token);
  }

  class SessionStore<T(==)> {
    var table: map<T, int>
    var marker: bool
    var sessions: map<T, int>

    function View(): State<T>
      reads this
    {
      State(table, marker, sessions)
    }

    constructor (table: map<T, int>, marker: bool)
      ensures View() == State(table, marker, map[])
    {
      this.table, this.marker, sessions := table, marker, map[];
    }

    method Create(token: T, expires: int, writable: bool) returns (ok: bool)
      modifies this
      ensures View() == Do(old(View()), Call.Create(token, expires, writable))
      ensures ok <==> writable && token !in old(table)
    {
      if !writable || token in table { return false; }
      table := table[token := expires];
      sessions := sessions[token := expires];
      ok := true;
    }

    /** Expired entries leave the cache on every look-up, whichever token is asked about. */
    method ValidCached(token: T, now: int) returns (found: bool)
      modifies this`sessions
      ensures sessions == Unexpired(old(sessions), now)
      ensures found <==> token in sessions
    {
      var todo := sessions.Keys;
      while todo != {}
        invariant todo <= old(sessions).Keys
        invariant sessions == map t | t in old(sessions) && (t in todo || old(sessions)[t] > now) :: old(sessions)[t]
        decreases |todo|
      {
        var key :| key in todo;
        todo := todo - {key};
        if sessions[key] <= now {
          sessions := sessions - {key};
        }
      }
      found := token in sessions;
    }

    method Valid(token: T, now: int, readable: bool, writable: bool) returns (valid: bool)
      modifies this
      ensures View() == Do(old(View()), Call.Valid(token, now, readable, writable))
      ensures valid == Answer(old(View()), token, now, readable)
      ensures forall t :: t in sessions ==> sessions[t] > now
    {
      var cached := ValidCached(token, now);
      if cached { return true; }
      if !readable || token !in table { return false; }
      var expires := table[token];
      if expires <= now {
        Delete(token, writable);
        return false;
      }
      sessions := sessions[token := expires];
      valid := true;
    }

    method Delete(token: T, writable: bool)
      modifies this
      ensures View() == Do(old(View()), Call.Delete(token, writable))
      ensures token !in sessions && (writable ==> token !in table) && (!writable ==> table == old(table))
      ensures forall t :: t != token ==> (t in sessions <==> t in old(sessions)) && (t in table <==> t in old(table))
    {
      sessions := sessions - {token};
      if writable { table := table - {token}; }
    }

    /** The rows go in one by one, inside the transaction that sets the marker. */
    method CopyLegacySessions(rows: map<T, int>, works: bool) returns (ok: bool)
      modifies this`table, this`marker
      ensures View() == Do(old(View()), CopyLegacy(rows, works)) && (ok <==> works || old(marker))
      ensures marker == ok && (old(marker) || !works ==> table == old(table))
      ensures !old(marker) && works ==> forall t ::
                && (t in table <==> t in old(table) || t in rows)
                && (t in old(table) ==> table[t] == old(table)[t])
                && (t in rows && t !in old(table) ==> table[t] == rows[t])
    {
      if marker { return true; }
      if !works { return false; }
      table := CopyRows(table, rows);
      marker := true;
      ok := true;
    }
  }

  /** The insert loop of the copy, over the rows in any order. */
  method CopyRows<T(==)>(table: map<T, int>, rows: map<T, int>) returns (copied: map<T, int>)
    ensures copied == Merged(table, rows)
  {
    copied := table;
    var todo := rows.Keys;
    while todo != {}
      invariant todo <= rows.Keys
      invariant forall t :: t in copied ==> t in Merged(table, rows) && copied[t] == Merged(table, rows)[t]
      invariant forall t :: t in Merged(table, rows) && t !in todo ==> t in copied
      invariant forall t :: t in table ==> t in copied
      decreases |todo|
    {
      var token :| token in todo;
      if token !in copied { copied := copied[token := rows[token]]; }
      todo := todo - {token};
    }
  }
}
