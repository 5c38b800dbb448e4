/**
 * The query log, page by page: an order without ties, the window of a page, and
 * the links from one page to the next and back.
 */
module QueryPages {
  import opened Options

  datatype Entry = Entry(id: int, key: int, body: int)

  /** What is asked: which entries, and sorted which way. The key stands for the sort column. */
  datatype Query = Query(wanted: Entry -> bool, descending: bool)

  /** The order of the query, with the id breaking every tie. */
  predicate Comes(q: Query, a: Entry, b: Entry) {
    if q.descending then b.key < a.key || (b.key == a.key && b.id < a.id)
    else a.key < b.key || (a.key == b.key && a.id < b.id)
  }

  function Inserted(q: Query, sorted: seq<Entry>, e: Entry): seq<Entry> {
    if sorted == [] || Comes(q, e, sorted[0]) then [e] + sorted
    else [sorted[0]] + Inserted(q, sorted[1..], e)
  }

  /** The whole answer to a query. */
  function Ordered(q: Query, table: seq<Entry>): seq<Entry> {
    if table == [] then []
    else
      var rest := Ordered(q, table[1..]);
      if q.wanted(table[0]) then Inserted(q, rest, table[0]) else rest
  }

  function Window(all: seq<Entry>, offset: nat, limit: nat): seq<Entry> {
    var from := if offset > |all| then |all| else offset;
    var upto := if from + limit > |all| then |all| else from + limit;
    all[from..upto]
  }

  /** One page of events, for a limit of 0 or less none; a negative offset is refused. */
  function QueryEvents(q: Query, table: seq<Entry>, limit: int, offset: int): Option<seq<Entry>> {
    if limit <= 0 then Some([])
    else if offset < 0 then None
    else Some(Window(Ordered(q, table), offset, limit))
  }

  datatype Page = Page(
    limit: int, offset: int, nextOffset: Option<int>, previousOffset: Option<int>, hasNext: bool, hasPrevious: bool)

  /** One event more than requested tells whether there is a next page. */
  method QueryPage(q: Query, table: seq<Entry>, offset: int, limit: int) returns (events: Option<seq<Entry>>, page: Page)
    requires limit >= 1
    ensures events.Some? <==> offset >= 0
    ensures offset >= 0 ==> events.value == Window(Ordered(q, table), offset, limit)
    ensures offset >= 0 ==> page == PageOf(Ordered(q, table), offset, limit)
    ensures offset >= 0 ==>
              && IsWindow(events.value, Ordered(q, table), offset, limit)
              && page.limit == limit && page.offset == offset
              && page.hasNext == (offset + limit < |Ordered(q, table)|) && page.hasPrevious == (offset > 0)
              && page.nextOffset == (if page.hasNext then Some(offset + limit) else None)
              && page.previousOffset == (if offset == 0 then None else if offset < limit then Some(0) else Some(offset - limit))
  {
    page := Page(limit, offset, None, None, false, offset > 0);
    if page.hasPrevious {
      var previous := offset - limit;
      if previous < 0 { previous := 0; }
      page := page.(previousOffset := Some(previous));
    }
    events := QueryEvents(q, table, limit + 1, offset);
    if events.None? { return; }
    if |events.value| > limit {
      page := page.(hasNext := true, nextOffset := Some(offset + limit));
      events := Some(events.value[..limit]);
    }
  }

  /** The entries from the offset on, as many as there are up to the limit. */
  ghost predicate IsWindow(events: seq<Entry>, all: seq<Entry>, offset: nat, limit: nat) {
    && |events| == (if offset + limit <= |all| then limit else if offset < |all| then |all| - offset else 0)
    && forall i :: 0 <= i < |events| ==> events[i] == all[offset + i]
  }

  /** The links of a page, told from the whole answer. */
  function PageOf(all: seq<Entry>, offset: nat, limit: nat): Page {
    Page(limit, offset, if offset + limit < |all| then Some(offset + limit) else None,
         if offset == 0 then None else Some(if offset < limit then 0 else offset - limit),
         offset + limit < |all|, offset > 0)
  }

  // -------------------------------------------------------------------- the order

  ghost predicate DistinctIds(es: seq<Entry>) {
    forall i, j :: 0 <= i < j < |es| ==> es[i].id != es[j].id
  }

  /** By the key in the direction asked for, and among equal keys by the id in the same direction. */
  ghost predicate Sorted(q: Query, es: seq<Entry>) {
    forall i, j :: 0 <= i < j < |es| ==>
      if q.descending then es[i].key >= es[j].key && (es[i].key == es[j].key ==> es[i].id > es[j].id)
      else es[i].key <= es[j].key && (es[i].key == es[j].key ==> es[i].id < es[j].id)
  }

  lemma SortedIs(q: Query, es: seq<Entry>)
    ensures Sorted(q, es) <==> forall i, j :: 0 <= i < j < |es| ==> Comes(q, es[i], es[j])
  {
  }

  lemma {:induction false} InsertedFacts(q: Query, sorted: seq<Entry>, e: Entry)
    requires Sorted(q, sorted) && forall x :: x in sorted ==> x.id != e.id
    ensures Sorted(q, Inserted(q, sorted, e)) && forall x :: x in Inserted(q, sorted, e) <==> x == e || x in sorted
    ensures |Inserted(q, sorted, e)| == |sorted| + 1
  {
    if sorted != [] && !Comes(q, e, sorted[0]) {
      var first, rest := sorted[0], sorted[1..];
      assert first in sorted && sorted == [first] + rest;
      InsertedFacts(q, rest, e);
      var r := Inserted(q, rest, e);
      forall i | 0 <= i < |r| ensures Comes(q, first, r[i]) {
        assert r[i] in r;
        if r[i] != e { var k :| 0 <= k < |rest| && rest[k] == r[i]; assert sorted[k + 1] == r[i]; }
      }
    }
  }

  /** The answer is sorted, with exactly the wanted entries, each once. */
  lemma {:induction false} OrderedFacts(q: Query, table: seq<Entry>)
    requires DistinctIds(table)
    ensures Sorted(q, Ordered(q, table))
    ensures forall x :: x in Ordered(q, table) <==> x in table && q.wanted(x)
  {
    if table != [] {
      OrderedFacts(q, table[1..]);
      var rest := Ordered(q, table[1..]);
      assert table == [table[0]] + table[1..];
      forall x | x in rest ensures x.id != table[0].id {
        var k :| 0 <= k < |table[1..]| && table[1..][k] == x;
      }
      if q.wanted(table[0]) { InsertedFacts(q, rest, table[0]); }
    }
  }

  /** There is only one such order, so it does not depend on how the table is laid out. */
  lemma {:induction false} OnlyOneOrder(q: Query, a: seq<Entry>, b: seq<Entry>)
    requires Sorted(q, a) && Sorted(q, b) && forall x :: x in a <==> x in b
    ensures a == b
  {
    if a == [] || b == [] {
      FirstIn(a);
      FirstIn(b);
    } else {
      FirstIn(a);
      FirstIn(b);
      var i :| 0 <= i < |b| && b[i] == a[0];
      var j :| 0 <= j < |a| && a[j] == b[0];
      assert i == 0;
      var ra, rb := a[1..], b[1..];
      assert a == [a[0]] + ra && b == [b[0]] + rb;
      NotAgain(q, a);
      NotAgain(q, b);
      assert forall x :: x in ra <==> x in a && x != a[0];
      assert forall x :: x in rb <==> x in b && x != b[0];
      OnlyOneOrder(q, ra, rb);
    }
  }

  lemma FirstIn(es: seq<Entry>)
    ensures es != [] ==> es[0] in es
  {
  }

  lemma NotAgain(q: Query, es: seq<Entry>)
    requires es != [] && Sorted(q, es)
    ensures es[0] !in es[1..]
  {
  }

  // -------------------------------------------------------------------- following

  /** The pages found by following the next links. */
  function Pages(all: seq<Entry>, offset: nat, limit: nat): seq<seq<Entry>>
    requires limit >= 1
    decreases if offset < |all| then |all| - offset else 0
  {
    var page := PageOf(all, offset, limit);
    [Window(all, offset, limit)] + if page.hasNext then Pages(all, page.nextOffset.value, limit) else []
  }

  function Joined(pages: seq<seq<Entry>>): seq<Entry> {
    if pages == [] then [] else pages[0] + Joined(pages[1..])
  }

  lemma {:induction false} PagesFrom(all: seq<Entry>, offset: nat, limit: nat)
    requires limit >= 1 && offset <= |all|
    ensures Joined(Pages(all, offset, limit)) == all[offset..]
    decreases |all| - offset
  {
    var first := Window(all, offset, limit);
    if offset + limit < |all| {
      var rest := Pages(all, offset + limit, limit);
      PagesFrom(all, offset + limit, limit);
      assert ([first] + rest)[1..] == rest;
      assert all[offset..] == first + all[offset + limit..];
    } else {
      assert [first][1..] == [] && first == all[offset..];
    }
  }

  /**
   * From the first page on, the pages are the whole answer without gap or repeat;
   * all but the last are full, and only an empty answer has an empty page.
   */
  lemma PagesAreTheAnswer(q: Query, table: seq<Entry>, limit: nat)
    requires limit >= 1
    ensures var all := Ordered(q, table);
            var pages := Pages(all, 0, limit);
            && Joined(pages) == all
            && (forall i :: 0 <= i < |pages| - 1 ==> |pages[i]| == limit)
            && (all != [] ==> pages[|pages| - 1] != [])
  {
    var all := Ordered(q, table);
    PagesFrom(all, 0, limit);
    PagesFill(all, 0, limit);
  }

  lemma {:induction false} PagesFill(all: seq<Entry>, offset: nat, limit: nat)
    requires limit >= 1 && offset <= |all|
    ensures var pages := Pages(all, offset, limit);
            && (forall i :: 0 <= i < |pages| - 1 ==> |pages[i]| == limit)
            && (offset < |all| ==> pages[|pages| - 1] != [])
    decreases |all| - offset
  {
    if offset + limit < |all| {
      PagesFill(all, offset + limit, limit);
      var rest := Pages(all, offset + limit, limit);
      assert Pages(all, offset, limit) == [Window(all, offset, limit)] + rest;
    }
  }

  /** Next and then previous is back on the page before; previous never goes below 0 and stops there. */
  lemma ThereAndBack(all: seq<Entry>, offset: nat, limit: nat)
    requires limit >= 1
    ensures var page := PageOf(all, offset, limit);
            && (page.hasNext ==> PageOf(all, page.nextOffset.value, limit).previousOffset == Some(offset))
            && (page.hasPrevious ==> 0 <= page.previousOffset.value < offset)
            && (page.hasPrevious && offset >= limit && offset < |all| ==>
                  PageOf(all, page.previousOffset.value, limit).nextOffset == Some(offset))
  {
  }
}
