/** A walk through keyset pages, each read past the last key of the one before. */
module KeyWalk {
  import opened Prelude
  import opened Paging

  /** One read: the rows a list ranges over as they stood, and what the database answered. */
  datatype Turn = Turn(table: set<Row>, rows: seq<Row>)

  ghost function PastKey(table: set<Row>, cursor: Option<Key>): set<Row> {
    set r | r in table && (cursor.Some? ==> Less(r.key, cursor.value))
  }

  function PageOf(limit: nat, cursor: Option<Key>, turn: Turn): Page {
    Finalize(turn.rows, limit, Forward, cursor.Some?)
  }

  ghost predicate Answers(limit: nat, cursor: Option<Key>, turn: Turn) {
    IsTop(Forward, turn.rows, PastKey(turn.table, cursor), limit + 1)
  }

  /** The pages a client reads, following each page's next cursor. */
  function Walk(limit: nat, cursor: Option<Key>, turns: seq<Turn>): seq<Page>
    decreases |turns|
  {
    if turns == [] then []
    else
      var page := PageOf(limit, cursor, turns[0]);
      [page] + if page.next.None? then [] else Walk(limit, page.next, turns[1..])
  }

  /** Each read of the walk answers its page's query. */
  ghost predicate Answered(limit: nat, cursor: Option<Key>, turns: seq<Turn>)
    decreases |turns|
  {
    turns == [] ||
    (Answers(limit, cursor, turns[0]) &&
     var next := PageOf(limit, cursor, turns[0]).next;
     next.Some? ==> Answered(limit, next, turns[1..]))
  }

  /** Rows come and go between the reads; the unique index stays. */
  ghost predicate Indexed(turns: seq<Turn>) {
    forall i :: 0 <= i < |turns| ==> Distinct(turns[i].table)
  }

  /** Rows are inserted between the reads, none removed. */
  ghost predicate Grows(turns: seq<Turn>) {
    forall i, j :: 0 <= i <= j < |turns| ==> turns[i].table <= turns[j].table
  }

  /** The row is there at each of the first `pages` reads. */
  ghost predicate InEvery(turns: seq<Turn>, pages: nat, row: Row)
    requires pages <= |turns|
  {
    forall i :: 0 <= i < pages ==> row in turns[i].table
  }

  ghost predicate InSome(turns: seq<Turn>, pages: nat, row: Row)
    requires pages <= |turns|
  {
    exists i :: 0 <= i < pages && row in turns[i].table
  }

  /** The walk came to a page without a next one. */
  predicate Ended(pages: seq<Page>) {
    pages != [] && pages[|pages| - 1].next.None?
  }

  function Served(pages: seq<Page>): seq<Row> {
    if pages == [] then [] else pages[0].items + Served(pages[1..])
  }

  predicate IsPast(cursor: Option<Key>, row: Row) {
    cursor.Some? ==> Less(row.key, cursor.value)
  }

  /** A page's items are in order, and what it leaves is what its next cursor reads. */
  ghost predicate IsSlice(cursor: Option<Key>, limit: nat, table: set<Row>, page: Page) {
    && StrictlyOrdered(Forward, page.items)
    && (forall r :: r in page.items ==> r in table && IsPast(cursor, r))
    && (page.next.None? ==> forall r :: r in table && IsPast(cursor, r) ==> r in page.items)
    && (page.next.Some? ==>
          && |page.items| == limit > 0
          && page.next.value == page.items[limit - 1].key
          && forall r :: r in table && IsPast(cursor, r) && r !in page.items ==> Less(r.key, page.next.value))
  }

  lemma PageIsASlice(limit: nat, cursor: Option<Key>, turn: Turn)
    requires limit > 0 && Distinct(turn.table) && Answers(limit, cursor, turn)
    ensures IsSlice(cursor, limit, turn.table, PageOf(limit, cursor, turn))
  {
    var rows, m := turn.rows, PastKey(turn.table, cursor);
    var page := PageOf(limit, cursor, turn);
    assert Distinct(m) && forall r :: r in m <==> r in turn.table && IsPast(cursor, r);
    if |rows| <= limit {
      DistinctIsStrict(Forward, rows, m, limit + 1);
      assert page.items == rows;
      hide PageOf, PastKey, Distinct, StrictlyOrdered, Before, IsPast;
    } else {
      var items := rows[..limit];
      assert page.items == items && page.next == Some(items[limit - 1].key);
      TopPrefix(Forward, rows, m, limit);
      DistinctIsStrict(Forward, items, m, limit);
      hide PageOf, PastKey, StrictlyOrdered, IsPast;
      FullPageLeavesLess(items, m);
    }
  }

  /** What a full answer leaves out comes after its last. */
  lemma FullPageLeavesLess(items: seq<Row>, from: set<Row>)
    requires items != [] && Distinct(from) && IsTop(Forward, items, from, |items|)
    ensures forall r :: r in from && r !in items ==> Less(r.key, items[|items| - 1].key)
  {
    var last := items[|items| - 1];
    assert last in items;
    forall r | r in from && r !in items
      ensures Less(r.key, last.key)
    {
      assert !Before(Forward, r.key, last.key) && r.key != last.key;
    }
  }

  /** What the walk from a cursor serves over `pages` pages. */
  ghost predicate ServesEachOnce(cursor: Option<Key>, limit: nat, turns: seq<Turn>, pages: nat, served: seq<Row>) {
    && 0 < pages <= |turns|
    && StrictlyOrdered(Forward, served)
    && (forall r :: InEvery(turns, pages, r) && IsPast(cursor, r) ==> r in served)
    && (forall r :: r in served ==> InSome(turns, pages, r) && IsPast(cursor, r))
    && |served| >= limit * (pages - 1)
  }

  lemma WalkFirst(limit: nat, cursor: Option<Key>, turns: seq<Turn>)
    requires turns != []
    ensures var first, pages := PageOf(limit, cursor, turns[0]), Walk(limit, cursor, turns);
            && (first.next.None? ==> pages == [first])
            && (first.next.Some? ==> pages == [first] + Walk(limit, first.next, turns[1..]))
            && Served(pages) == first.items + Served(pages[1..])
  {
  }

  /** The walk from a cursor, whatever comes and goes meanwhile. */
  lemma {:induction false} WalkFrom(limit: nat, cursor: Option<Key>, turns: seq<Turn>)
    requires limit > 0 && turns != [] && Indexed(turns) && Answered(limit, cursor, turns)
    requires Ended(Walk(limit, cursor, turns))
    ensures var pages := Walk(limit, cursor, turns);
            ServesEachOnce(cursor, limit, turns, |pages|, Served(pages))
    decreases |turns|
  {
    hide Walk, Served, PageOf, Answers, ServesEachOnce, IsSlice, Ended, Distinct;
    var first := PageOf(limit, cursor, turns[0]);
    WalkFirst(limit, cursor, turns);
    PageIsASlice(limit, cursor, turns[0]);
    IndexedTail(turns);
    hide Indexed;
    if first.next.None? {
      LastPage(cursor, first, turns, limit);
    } else {
      var rest := Walk(limit, first.next, turns[1..]);
      assert ([first] + rest)[1..] == rest;
      EndedTail(first, rest, limit, first.next, turns[1..]);
      WalkFrom(limit, first.next, turns[1..]);
      JoinWalk(cursor, first, Served(rest), turns, |rest|, limit);
    }
  }

  lemma LastPage(cursor: Option<Key>, first: Page, turns: seq<Turn>, limit: nat)
    requires turns != [] && first.next.None? && IsSlice(cursor, limit, turns[0].table, first)
    ensures ServesEachOnce(cursor, limit, turns, 1, Served([first]))
  {
    assert Served([first]) == first.items;
    assert forall r :: r in turns[0].table <==> InEvery(turns, 1, r);
    assert forall r :: r in turns[0].table ==> InSome(turns, 1, r);
  }

  lemma EndedTail(page: Page, rest: seq<Page>, limit: nat, cursor: Option<Key>, turns: seq<Turn>)
    requires Ended([page] + rest) && page.next.Some? && rest == Walk(limit, cursor, turns)
    ensures rest != [] && Ended(rest) && turns != []
  {
    hide PageOf;
    assert rest != [] ==> ([page] + rest)[|rest|] == rest[|rest| - 1];
  }

  lemma IndexedTail(turns: seq<Turn>)
    requires Indexed(turns) && turns != []
    ensures Indexed(turns[1..])
  {
    assert forall i :: 0 <= i < |turns| - 1 ==> turns[1..][i] == turns[i + 1];
  }

  lemma ReadsTail(turns: seq<Turn>, more: nat, row: Row)
    requires more < |turns|
    ensures InEvery(turns, more + 1, row) <==> row in turns[0].table && InEvery(turns[1..], more, row)
    ensures InSome(turns, more + 1, row) <==> row in turns[0].table || InSome(turns[1..], more, row)
  {
    assert forall i :: 0 <= i < more ==> turns[1..][i] == turns[i + 1];
    if i :| 0 <= i < more && row in turns[1..][i].table {
      assert row in turns[i + 1].table;
    }
    if i :| 0 < i < more + 1 && row in turns[i].table {
      assert row in turns[1..][i - 1].table;
    }
    if InEvery(turns, more + 1, row) {
      forall i | 0 <= i < more
        ensures row in turns[1..][i].table
      {
        assert row in turns[i + 1].table;
      }
    }
  }

  /** A page put before what is served under its next cursor. */
  lemma JoinWalk(cursor: Option<Key>, first: Page, rest: seq<Row>, turns: seq<Turn>, more: nat, limit: nat)
    requires turns != []
    requires first.next.Some? && IsSlice(cursor, limit, turns[0].table, first)
    requires ServesEachOnce(first.next, limit, turns[1..], more, rest)
    ensures ServesEachOnce(cursor, limit, turns, more + 1, first.items + rest)
  {
    var items := first.items;
    var served := items + rest;
    hide InEvery, InSome;
    forall r
      ensures InEvery(turns, more + 1, r) <==> r in turns[0].table && InEvery(turns[1..], more, r)
      ensures InSome(turns, more + 1, r) <==> r in turns[0].table || InSome(turns[1..], more, r)
    {
      ReadsTail(turns, more, r);
    }
    assert items[limit - 1] in items;
    assert forall j :: 0 <= j < |rest| ==> rest[j] in rest;
    forall i, j | 0 <= i < j < |served|
      ensures Before(Forward, served[i].key, served[j].key)
    {
      if i < limit && limit <= j {
        assert Less(rest[j - limit].key, items[limit - 1].key);
        assert i < limit - 1 ==> Before(Forward, items[i].key, items[limit - 1].key);
      }
    }
    assert limit * more == limit + limit * (more - 1);
  }

  /** Where rows are only inserted, the first read's are in every one, and what is in some is in the last. */
  lemma GrowsFromFirst(turns: seq<Turn>, pages: nat)
    requires Grows(turns) && 0 < pages <= |turns|
    ensures forall r :: InEvery(turns, pages, r) <==> r in turns[0].table
    ensures forall r :: InSome(turns, pages, r) <==> r in turns[pages - 1].table
  {
  }

  /**
   Whatever is inserted and removed between the pages, a walk serves once, in order, every row that is
   there at each of its reads, and nothing that none of them held; every page but the last is full.
   */
  lemma {:induction false} WalkServesEachOnce(limit: nat, turns: seq<Turn>)
    requires limit > 0 && turns != [] && Indexed(turns) && Answered(limit, None, turns)
    requires Ended(Walk(limit, None, turns))
    ensures var pages := Walk(limit, None, turns);
            var served := Served(pages);
            && 0 < |pages| <= |turns|
            && StrictlyOrdered(Forward, served) && NoneTwice(served)
            && (forall r :: InEvery(turns, |pages|, r) ==> r in served)
            && (forall r :: r in served ==> InSome(turns, |pages|, r))
            && |served| >= limit * (|pages| - 1)
            && (Grows(turns) ==>
                  && (forall r :: r in turns[0].table ==> r in served)
                  && (forall r :: r in served ==> r in turns[|pages| - 1].table))
  {
    hide Walk, Served, Answered, Indexed, Grows, StrictlyOrdered, Ended, InEvery, InSome;
    WalkFrom(limit, None, turns);
    OrderedNoneTwice(Served(Walk(limit, None, turns)));
    if Grows(turns) {
      GrowsFromFirst(turns, |Walk(limit, None, turns)|);
    }
  }

  lemma OrderedNoneTwice(rows: seq<Row>)
    requires StrictlyOrdered(Forward, rows)
    ensures NoneTwice(rows)
  {
  }
}
