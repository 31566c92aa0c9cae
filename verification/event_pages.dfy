/** On-chain event lists: the keyset predicate, its pages, and a walk through them. */
module EventPages {
  import opened Prelude
  import opened Paging
  import KeyWalk

  // ---------------------------------------------------------------------
  // The predicate, in SQL's three-valued logic
  // ---------------------------------------------------------------------

  datatype Ternary = True | False | Unknown

  function And(a: Ternary, b: Ternary): Ternary {
    if a == False || b == False then False else if a == True && b == True then True else Unknown
  }

  function Or(a: Ternary, b: Ternary): Ternary {
    if a == True || b == True then True else if a == False && b == False then False else Unknown
  }

  function Truth(b: bool): Ternary {
    if b then True else False
  }

  /** `(a, b) < (c, d)`, where `c` and `d` may be `NULL`. */
  function RowLess(a: int, b: int, c: Option<int>, d: Option<int>): Ternary {
    if c.None? then Unknown
    else if a != c.value then Truth(a < c.value)
    else if d.None? then Unknown
    else Truth(b < d.value)
  }

  datatype EventScope = All | DammV2 | Dlmm | Pool(pool: int)

  datatype EventCursor = EventCursor(scope: EventScope, from: int, key: Key)

  /** The key a page reads after, `NULL` throughout on a first page. */
  datatype EventKey = EventKey(at: Option<int>, signature: Option<int>, index: Option<int>)

  function KeyOf(cursor: Option<EventCursor>): EventKey {
    match cursor
    case None => EventKey(None, None, None)
    case Some(c) => EventKey(Some(c.key.at), Some(c.key.rank), Some(c.key.index))
  }

  /** The `WHERE` clause; the instant's bound coalesces to infinity, which no event reaches. */
  function Where(event: Key, from: int, key: EventKey): Ternary {
    var upTo := key.at.None? || event.at <= key.at.value;
    var under := key.at.None? || event.at < key.at.value;
    And(And(Truth(event.at >= from), Truth(upTo)),
        Or(Truth(under), RowLess(event.rank, event.index, key.signature, key.index)))
  }

  /** A predicate split for the index's sake is the order of the list. */
  lemma WhereIsLexicographic(event: Key, from: int, cursor: Option<EventCursor>)
    ensures Where(event, from, KeyOf(cursor)) == True <==>
            event.at >= from && (cursor.Some? ==> Less(event, cursor.value.key))
  {
  }

  predicate InScope(scope: EventScope, row: Row) {
    match scope
    case All => true
    case DammV2 => true
    case Dlmm => false
    case Pool(pool) => row.pool == pool
  }

  /** The rows of DAMM v2's table a query ranges over. */
  ghost function Matching(table: set<Row>, scope: EventScope, from: int, key: EventKey): set<Row> {
    set r | r in table && InScope(scope, r) && Where(r.key, from, key) == True
  }

  // ---------------------------------------------------------------------
  // One page
  // ---------------------------------------------------------------------

  /** The start of the window: the cursor's, fixed at the first page, else `window` back from `now`. */
  function WindowStart(cursor: Option<EventCursor>, window: nat, now: int): int {
    match cursor
    case None => now - window
    case Some(c) => c.from
  }

  datatype EventPage = EventPage(page: Page, next: Option<EventCursor>)

  function FinishEventPage(rows: seq<Row>, limit: nat, hadCursor: bool): Page {
    Finalize(rows, limit, Forward, hadCursor).(prev := None)
  }

  /** A page of `scope`'s events, from the rows its query answered. */
  function ListEvents(scope: EventScope, from: int, cursor: Option<EventCursor>, limit: nat,
                      rows: seq<Row>): EventPage {
    if scope == Dlmm then EventPage(EMPTY, None)
    else
      var page := FinishEventPage(rows, limit, cursor.Some?);
      EventPage(page, match page.next
                      case None => None
                      case Some(key) => Some(EventCursor(scope, from, key)))
  }

  /** One read: the table as it stood, the clock, and what the database answered. */
  datatype Read = Read(table: set<Row>, now: int, rows: seq<Row>)

  function Serve(scope: EventScope, window: nat, limit: nat, cursor: Option<EventCursor>, read: Read): EventPage {
    ListEvents(scope, WindowStart(cursor, window, read.now), cursor, limit, read.rows)
  }

  ghost predicate Answers(scope: EventScope, window: nat, limit: nat, cursor: Option<EventCursor>, read: Read) {
    scope != Dlmm ==>
      IsTop(Forward, read.rows, Matching(read.table, scope, WindowStart(cursor, window, read.now), KeyOf(cursor)),
            limit + 1)
  }

  // ---------------------------------------------------------------------
  // A walk
  // ---------------------------------------------------------------------

  /** The pages a client reads, following each page's next cursor. */
  function Walk(scope: EventScope, window: nat, limit: nat, cursor: Option<EventCursor>, turns: seq<Read>): seq<Page>
    decreases |turns|
  {
    if turns == [] then []
    else
      var page := Serve(scope, window, limit, cursor, turns[0]);
      [page.page] + if page.next.None? then [] else Walk(scope, window, limit, page.next, turns[1..])
  }

  /** Each read of the walk answers its page's query. */
  ghost predicate Answered(scope: EventScope, window: nat, limit: nat, cursor: Option<EventCursor>, turns: seq<Read>)
    decreases |turns|
  {
    turns == [] ||
    (Answers(scope, window, limit, cursor, turns[0]) &&
     var next := Serve(scope, window, limit, cursor, turns[0]).next;
     next.Some? ==> Answered(scope, window, limit, next, turns[1..]))
  }

  /** The reads, whatever the clock. */
  ghost function TurnsOf(turns: seq<Read>): (r: seq<KeyWalk.Turn>)
    ensures |r| == |turns| && forall i :: 0 <= i < |r| ==> r[i] == KeyWalk.Turn(turns[i].table, turns[i].rows)
  {
    seq(|turns|, i requires 0 <= i < |turns| => KeyWalk.Turn(turns[i].table, turns[i].rows))
  }

  predicate InWindow(scope: EventScope, from: int, cursor: Option<EventCursor>, row: Row) {
    InScope(scope, row) && row.key.at >= from && (cursor.Some? ==> Less(row.key, cursor.value.key))
  }

  /** The rows of the list, and the walk through them by key. */
  ghost function InView(table: set<Row>, scope: EventScope, from: int): set<Row> {
    set r | r in table && InScope(scope, r) && r.key.at >= from
  }

  ghost function View(read: Read, scope: EventScope, from: int): KeyWalk.Turn {
    KeyWalk.Turn(InView(read.table, scope, from), read.rows)
  }

  function KeyIn(cursor: Option<EventCursor>): Option<Key> {
    if cursor.Some? then Some(cursor.value.key) else None
  }

  lemma AnswersByKey(scope: EventScope, window: nat, limit: nat, cursor: Option<EventCursor>, read: Read)
    requires scope != Dlmm && Answers(scope, window, limit, cursor, read)
    ensures KeyWalk.Answers(limit, KeyIn(cursor), View(read, scope, WindowStart(cursor, window, read.now)))
  {
    var from := WindowStart(cursor, window, read.now);
    hide Where, KeyOf;
    forall r
      ensures r in Matching(read.table, scope, from, KeyOf(cursor)) <==>
              r in KeyWalk.PastKey(InView(read.table, scope, from), KeyIn(cursor))
    {
      WhereIsLexicographic(r.key, from, cursor);
    }
    assert Matching(read.table, scope, from, KeyOf(cursor)) ==
           KeyWalk.PastKey(InView(read.table, scope, from), KeyIn(cursor));
  }

  /** A page is in order and within its window; what it leaves is all below its next cursor, or nothing. */
  lemma PageIsASlice(scope: EventScope, window: nat, limit: nat, cursor: Option<EventCursor>, read: Read)
    requires limit > 0 && Distinct(read.table) && Answers(scope, window, limit, cursor, read)
    ensures var from := WindowStart(cursor, window, read.now);
            var served := Serve(scope, window, limit, cursor, read);
            && StrictlyOrdered(Forward, served.page.items)
            && (forall r :: r in served.page.items ==> r in read.table && InWindow(scope, from, cursor, r))
            && (served.next.None? ==>
                  forall r :: r in read.table && InWindow(scope, from, cursor, r) ==> r in served.page.items)
            && (served.next.Some? ==>
                  && |served.page.items| == limit
                  && served.next.value == EventCursor(scope, from, served.page.items[limit - 1].key)
                  && forall r :: r in read.table && InWindow(scope, from, cursor, r) && r !in served.page.items ==>
                       Less(r.key, served.next.value.key))
            && served.page.prev.None? && (served.page.isLast <==> served.next.None?)
            && (served.page.isFirst <==> cursor.None? || scope == Dlmm)
  {
    if scope != Dlmm {
      var from := WindowStart(cursor, window, read.now);
      AnswersByKey(scope, window, limit, cursor, read);
      KeyWalk.PageIsASlice(limit, KeyIn(cursor), View(read, scope, from));
      hide Answers;
      assert forall r :: r in read.table && InWindow(scope, from, cursor, r) <==>
                         r in InView(read.table, scope, from) && KeyWalk.IsPast(KeyIn(cursor), r);
    }
  }

  ghost function Views(turns: seq<Read>, scope: EventScope, from: int): (r: seq<KeyWalk.Turn>)
    ensures |r| == |turns| && forall i :: 0 <= i < |r| ==> r[i] == View(turns[i], scope, from)
  {
    seq(|turns|, i requires 0 <= i < |turns| => View(turns[i], scope, from))
  }

  /** Pages of the same items, under the same next keys. */
  predicate SamePages(a: seq<Page>, b: seq<Page>) {
    |a| == |b| && forall i :: 0 <= i < |a| ==> a[i].items == b[i].items && a[i].next == b[i].next
  }

  lemma {:induction false} SameServed(a: seq<Page>, b: seq<Page>)
    requires SamePages(a, b)
    ensures KeyWalk.Served(a) == KeyWalk.Served(b) && (KeyWalk.Ended(a) <==> KeyWalk.Ended(b))
  {
    if a != [] {
      SameServed(a[1..], b[1..]);
    }
  }

  /** The page of a read, by key. */
  lemma ServedByKey(scope: EventScope, window: nat, limit: nat, cursor: Option<EventCursor>, read: Read)
    requires scope != Dlmm
    ensures var from := WindowStart(cursor, window, read.now);
            var served := Serve(scope, window, limit, cursor, read);
            var page := KeyWalk.PageOf(limit, KeyIn(cursor), View(read, scope, from));
            && served.page.items == page.items && KeyIn(served.next) == page.next == served.page.next
            && (served.next.None? <==> page.next.None?)
            && (served.next.Some? ==> served.next.value.from == from)
  {
    hide Finalize;
  }

  lemma WalkStep(scope: EventScope, window: nat, limit: nat, cursor: Option<EventCursor>, turns: seq<Read>)
    requires turns != []
    ensures var served, rest := Serve(scope, window, limit, cursor, turns[0]), turns[1..];
            && Walk(scope, window, limit, cursor, turns)
               == [served.page] + (if served.next.None? then [] else Walk(scope, window, limit, served.next, rest))
            && (Answered(scope, window, limit, cursor, turns) <==>
                  Answers(scope, window, limit, cursor, turns[0])
                  && (served.next.Some? ==> Answered(scope, window, limit, served.next, rest)))
  {
    hide Serve, Answers;
  }

  lemma KeyWalkStep(limit: nat, cursor: Option<Key>, turns: seq<KeyWalk.Turn>)
    requires turns != []
    ensures var page, rest := KeyWalk.PageOf(limit, cursor, turns[0]), turns[1..];
            && KeyWalk.Walk(limit, cursor, turns)
               == [page] + (if page.next.None? then [] else KeyWalk.Walk(limit, page.next, rest))
            && (KeyWalk.Answered(limit, cursor, turns) <==>
                  KeyWalk.Answers(limit, cursor, turns[0])
                  && (page.next.Some? ==> KeyWalk.Answered(limit, page.next, rest)))
  {
    hide KeyWalk.PageOf, KeyWalk.Answers;
  }

  /** A walk whose window its first cursor fixed is a walk by key. */
  lemma {:induction false} WalkIsByKey(scope: EventScope, window: nat, limit: nat, cursor: Option<EventCursor>,
                                       from: int, turns: seq<Read>)
    requires scope != Dlmm && Answered(scope, window, limit, cursor, turns)
    requires turns != [] ==> WindowStart(cursor, window, turns[0].now) == from
    ensures KeyWalk.Answered(limit, KeyIn(cursor), Views(turns, scope, from))
    ensures SamePages(Walk(scope, window, limit, cursor, turns),
                      KeyWalk.Walk(limit, KeyIn(cursor), Views(turns, scope, from)))
    decreases |turns|
  {
    if turns != [] {
      var views, rest := Views(turns, scope, from), turns[1..];
      assert views[1..] == Views(rest, scope, from);
      hide *;
      WalkStep(scope, window, limit, cursor, turns);
      KeyWalkStep(limit, KeyIn(cursor), views);
      AnswersByKey(scope, window, limit, cursor, turns[0]);
      ServedByKey(scope, window, limit, cursor, turns[0]);
      var served := Serve(scope, window, limit, cursor, turns[0]);
      var page := KeyWalk.PageOf(limit, KeyIn(cursor), views[0]);
      if served.next.None? {
        FirstSame(served.page, page, [], []);
      } else {
        StartIsFixed(served.next, window, rest);
        WalkIsByKey(scope, window, limit, served.next, from, rest);
        FirstSame(served.page, page, Walk(scope, window, limit, served.next, rest),
                  KeyWalk.Walk(limit, page.next, Views(rest, scope, from)));
      }
    } else {
      assert KeyWalk.Answered(limit, KeyIn(cursor), Views(turns, scope, from));
    }
  }

  lemma StartIsFixed(cursor: Option<EventCursor>, window: nat, turns: seq<Read>)
    requires cursor.Some?
    ensures turns != [] ==> WindowStart(cursor, window, turns[0].now) == cursor.value.from
  {
  }

  lemma FirstSame(a: Page, b: Page, restA: seq<Page>, restB: seq<Page>)
    requires a.items == b.items && a.next == b.next && SamePages(restA, restB)
    ensures SamePages([a] + restA, [b] + restB)
  {
  }

  /**
   Whatever is inserted and removed between the pages and however the clock moves, a walk serves once,
   newest first, every event of the first read's window that is there at each read, and nothing outside
   the window or in none of the reads; every page but the last is full.
   */
  lemma {:induction false} WalkServesEachOnce(scope: EventScope, window: nat, limit: nat, turns: seq<Read>)
    requires limit > 0 && turns != [] && KeyWalk.Indexed(TurnsOf(turns))
    requires Answered(scope, window, limit, None, turns)
    requires KeyWalk.Ended(Walk(scope, window, limit, None, turns))
    ensures var pages := Walk(scope, window, limit, None, turns);
            var served := KeyWalk.Served(pages);
            var from := turns[0].now - window;
            && 0 < |pages| <= |turns|
            && StrictlyOrdered(Forward, served) && NoneTwice(served)
            && (forall r :: KeyWalk.InEvery(TurnsOf(turns), |pages|, r) && InScope(scope, r) && r.key.at >= from ==>
                  r in served)
            && (forall r :: r in served ==>
                  KeyWalk.InSome(TurnsOf(turns), |pages|, r) && InScope(scope, r) && r.key.at >= from)
            && |served| >= limit * (|pages| - 1)
            && (KeyWalk.Grows(TurnsOf(turns)) ==>
                  && (forall r :: r in turns[0].table && InScope(scope, r) && r.key.at >= from ==> r in served)
                  && (forall r :: r in served ==> r in turns[|pages| - 1].table))
  {
    var from := turns[0].now - window;
    var views, pages := Views(turns, scope, from), Walk(scope, window, limit, None, turns);
    assert WindowStart(None, window, turns[0].now) == from;
    hide *;
    if scope == Dlmm {
      NoneOfDlmm(window, limit, turns);
    } else {
      ViewsIndexed(turns, scope, from);
      WalkIsByKey(scope, window, limit, None, from, turns);
      NoCursorNoKey();
      SameServed(pages, KeyWalk.Walk(limit, None, views));
      KeyWalk.WalkServesEachOnce(limit, views);
      SameCount(pages, KeyWalk.Walk(limit, None, views));
      ViewedReads(turns, scope, from, |pages|);
      if KeyWalk.Grows(TurnsOf(turns)) {
        KeyWalk.GrowsFromFirst(TurnsOf(turns), |pages|);
      }
    }
  }

  /**
   Under a pool, a walk serves its events of the window and no other pool's; under everything or DAMM v2,
   every event of the window; under DLMM, none.
   */
  lemma {:induction false} WalkServesItsScope(scope: EventScope, window: nat, limit: nat, turns: seq<Read>)
    requires limit > 0 && turns != [] && KeyWalk.Indexed(TurnsOf(turns))
    requires Answered(scope, window, limit, None, turns)
    requires KeyWalk.Ended(Walk(scope, window, limit, None, turns))
    ensures var pages := Walk(scope, window, limit, None, turns);
            var served := KeyWalk.Served(pages);
            var from := turns[0].now - window;
            && |pages| <= |turns|
            && (scope.Pool? ==>
                  && (forall r :: r in served ==> r.pool == scope.pool && r.key.at >= from)
                  && (forall r ::
                        KeyWalk.InEvery(TurnsOf(turns), |pages|, r) && r.pool == scope.pool && r.key.at >= from ==>
                          r in served))
            && (scope == All || scope == DammV2 ==>
                  && (forall r :: r in served ==> r.key.at >= from)
                  && (forall r :: KeyWalk.InEvery(TurnsOf(turns), |pages|, r) && r.key.at >= from ==> r in served))
            && (scope == Dlmm ==> forall r :: r !in served)
  {
    WalkServesEachOnce(scope, window, limit, turns);
    assert forall r :: InScope(scope, r) <==> (scope.Pool? && r.pool == scope.pool) || scope == All || scope == DammV2;
    hide *;
  }

  lemma NoneOfDlmm(window: nat, limit: nat, turns: seq<Read>)
    requires turns != []
    ensures var pages := Walk(Dlmm, window, limit, None, turns);
            |pages| == 1 && KeyWalk.Served(pages) == [] && StrictlyOrdered(Forward, []) && NoneTwice<Row>([])
    ensures forall r :: !InScope(Dlmm, r)
  {
    assert Walk(Dlmm, window, limit, None, turns) == [EMPTY];
    assert KeyWalk.Served([EMPTY]) == [];
  }

  lemma NoCursorNoKey()
    ensures KeyIn(None) == None
  {
  }

  lemma SameCount(a: seq<Page>, b: seq<Page>)
    requires SamePages(a, b)
    ensures |a| == |b|
  {
  }

  lemma ViewsIndexed(turns: seq<Read>, scope: EventScope, from: int)
    requires KeyWalk.Indexed(TurnsOf(turns))
    ensures KeyWalk.Indexed(Views(turns, scope, from))
  {
  }

  /** What is in view at every read, or at some. */
  lemma ViewedReads(turns: seq<Read>, scope: EventScope, from: int, pages: nat)
    requires pages <= |turns|
    ensures forall r :: InScope(scope, r) && r.key.at >= from && KeyWalk.InEvery(TurnsOf(turns), pages, r) ==>
              KeyWalk.InEvery(Views(turns, scope, from), pages, r)
    ensures forall r :: KeyWalk.InSome(Views(turns, scope, from), pages, r) ==>
              KeyWalk.InSome(TurnsOf(turns), pages, r) && InScope(scope, r) && r.key.at >= from
  {
  }

  // ---------------------------------------------------------------------
  // Rows of a merged list, put back in its order
  // ---------------------------------------------------------------------

  datatype Result<T> = Ok(value: T) | IntegrityError(key: (int, int))

  /** Each key's row, taken from the map; a key without its row is an error, never a gap. */
  method InKeyOrder<T>(keys: seq<(int, int)>, fetched: map<(int, int), T>) returns (r: Result<seq<T>>)
    ensures r.Ok? <==> (forall i :: 0 <= i < |keys| ==> keys[i] in fetched && keys[i] !in keys[..i])
    ensures r.Ok? ==> |r.value| == |keys| && forall i :: 0 <= i < |keys| ==> r.value[i] == fetched[keys[i]]
    ensures r.IntegrityError? ==>
              exists i :: 0 <= i < |keys| && r.key == keys[i] && (keys[i] in fetched ==> keys[i] in keys[..i])
                          && forall j :: 0 <= j < i ==> keys[j] in fetched && keys[j] !in keys[..j]
  {
    var rows := fetched;
    var out := [];
    for i := 0 to |keys|
      invariant |out| == i
      invariant forall j :: 0 <= j < i ==> keys[j] in fetched && keys[j] !in keys[..j] && out[j] == fetched[keys[j]]
      invariant forall k :: k in rows <==> k in fetched && k !in keys[..i]
      invariant forall k :: k in rows ==> rows[k] == fetched[k]
    {
      if keys[i] !in rows {
        return IntegrityError(keys[i]);
      }
      out := out + [rows[keys[i]]];
      rows := rows - {keys[i]};
      assert keys[..i + 1] == keys[..i] + [keys[i]];
    }
    return Ok(out);
  }
}
