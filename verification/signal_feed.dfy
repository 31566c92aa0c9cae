/** The signal feed, paged both ways. */
module SignalFeed {
  import opened Prelude
  import opened Paging
  import KeyWalk

  datatype PagePosition = First | Last
  datatype PageDirection = Next | Prev

  const MAX_PAGE_SIZE := 200

  function ResolveQueryMode(position: Option<PagePosition>, cursor: Option<Key>, direction: PageDirection): QueryMode {
    match (position, cursor)
    case (Some(First), _) => Forward
    case (Some(Last), _) => Backward
    case (None, None) => Forward
    case (None, Some(_)) => if direction == Next then Forward else Backward
  }

  function EffectiveLimit(limit: int): (r: nat)
    ensures 1 <= r <= MAX_PAGE_SIZE
    ensures 1 <= limit <= MAX_PAGE_SIZE ==> r == limit
    ensures limit < 1 ==> r == 1
    ensures limit > MAX_PAGE_SIZE ==> r == MAX_PAGE_SIZE
  {
    if limit < 1 then 1 else if limit > MAX_PAGE_SIZE then MAX_PAGE_SIZE else limit
  }

  /** The signals past the cursor, in the direction of the walk. */
  ghost function Past(signals: set<Row>, mode: QueryMode, cursor: Option<Key>): set<Row> {
    set r | r in signals &&
            (cursor.None?
             || (if mode == Forward then r.key.at < cursor.value.at else r.key.at > cursor.value.at)
             || (r.key.at == cursor.value.at
                 && if mode == Forward then r.key.rank < cursor.value.rank else r.key.rank > cursor.value.rank))
  }

  function ActiveCursor(cursor: Option<Key>, position: Option<PagePosition>): Option<Key> {
    if position.Some? then None else cursor
  }

  /** The rows a query over the signals its filter keeps may answer. */
  ghost predicate Answers(signals: set<Row>, cursor: Option<Key>, direction: PageDirection,
                          position: Option<PagePosition>, limit: int, rows: seq<Row>) {
    var mode := ResolveQueryMode(position, cursor, direction);
    IsTop(mode, rows, Past(signals, mode, ActiveCursor(cursor, position)), EffectiveLimit(limit) + 1)
  }

  function List(cursor: Option<Key>, direction: PageDirection, position: Option<PagePosition>, limit: int,
                rows: seq<Row>): Page {
    Finalize(rows, EffectiveLimit(limit), ResolveQueryMode(position, cursor, direction),
             ActiveCursor(cursor, position).Some?)
  }

  /** A signal's key is its instant and its id. */
  predicate SignalKeys(signals: set<Row>) {
    forall r :: r in signals ==> r.key.index == 0
  }

  /** The predicate on the two columns is the order, taken strictly past the cursor. */
  lemma PastIsTheOrder(signals: set<Row>, mode: QueryMode, cursor: Option<Key>, row: Row)
    requires SignalKeys(signals) && (cursor.Some? ==> cursor.value.index == 0)
    ensures row in Past(signals, mode, cursor) <==>
            row in signals && (cursor.Some? ==> Before(mode, cursor.value, row.key))
  {
  }

  lemma PastIsTheOrderOf(signals: set<Row>, mode: QueryMode, cursor: Option<Key>)
    requires SignalKeys(signals) && (cursor.Some? ==> cursor.value.index == 0)
    ensures forall r :: r in Past(signals, mode, cursor) <==>
                        r in signals && (cursor.Some? ==> Before(mode, cursor.value, r.key))
  {
    forall r
      ensures r in Past(signals, mode, cursor) <==> r in signals && (cursor.Some? ==> Before(mode, cursor.value, r.key))
    {
      PastIsTheOrder(signals, mode, cursor, r);
    }
  }

  // ---------------------------------------------------------------------
  // There and back
  // ---------------------------------------------------------------------

  function Opposite(mode: QueryMode): QueryMode {
    if mode == Forward then Backward else Forward
  }

  lemma OppositeReverses(mode: QueryMode)
    ensures forall a, b :: Before(Opposite(mode), a, b) <==> Before(mode, b, a)
  {
  }

  /** `q` is the first row past `key`. */
  ghost predicate IsNextPast(signals: set<Row>, mode: QueryMode, key: Key, q: Row) {
    && q in signals && Before(mode, key, q.key)
    && forall e :: e in signals && Before(mode, key, e.key) ==> !Before(mode, e.key, q.key)
  }

  /** Read back from the row after them, a page's items are the nearest. */
  lemma ItemsAreNearest(signals: set<Row>, mode: QueryMode, cursor: Option<Key>, limit: nat, rows: seq<Row>, q: Row)
    requires Distinct(signals) && SignalKeys(signals) && (cursor.Some? ==> cursor.value.index == 0)
    requires limit > 0 && |rows| == limit + 1 && IsTop(mode, rows, Past(signals, mode, cursor), limit + 1)
    requires IsNextPast(signals, mode, rows[limit - 1].key, q)
    ensures IsTop(Opposite(mode), Reversed(rows[..limit]), Past(signals, Opposite(mode), Some(q.key)), limit)
  {
    var items := rows[..limit];
    var last := rows[limit - 1];
    var ahead, behind := Past(signals, mode, cursor), Past(signals, Opposite(mode), Some(q.key));
    assert q.key.index == 0;
    PastIsTheOrderOf(signals, mode, cursor);
    PastIsTheOrderOf(signals, Opposite(mode), Some(q.key));
    OppositeReverses(mode);
    TopPrefix(mode, rows, ahead, limit);
    DistinctIsStrict(mode, items, ahead, limit);
    ReversedIsOrdered(mode, items);
    SameMembers(items);
    LastIsLast(mode, items);
    hide Past, SignalKeys, Reversed, Ordered, NoneTwice, StrictlyOrdered;
    assert last == items[limit - 1] && last in items;
    forall e | e in behind && e !in items
      ensures forall r :: r in items ==> !Before(mode, r.key, e.key)
    {
      assert e !in ahead by {
        assert e.key != last.key;
        if e in ahead {
          assert false;
        }
      }
    }
  }

  lemma ReversedIsOrdered(mode: QueryMode, rows: seq<Row>)
    requires StrictlyOrdered(mode, rows)
    ensures Ordered(Opposite(mode), Reversed(rows)) && NoneTwice(Reversed(rows))
  {
  }

  lemma LastIsLast(mode: QueryMode, rows: seq<Row>)
    requires rows != [] && StrictlyOrdered(mode, rows)
    ensures forall r :: r in rows ==> r == rows[|rows| - 1] || Before(mode, r.key, rows[|rows| - 1].key)
  {
  }

  lemma SameMembers(rows: seq<Row>)
    ensures forall r :: r in Reversed(rows) <==> r in rows
  {
    forall i | 0 <= i < |rows|
      ensures rows[i] in Reversed(rows)
    {
      assert Reversed(rows)[|rows| - 1 - i] == rows[i];
    }
  }

  /** The row after a page is the next page's first, and nothing lies between. */
  lemma NextStartsAfter(signals: set<Row>, mode: QueryMode, cursor: Option<Key>, limit: nat, rows: seq<Row>,
                        nextRows: seq<Row>)
    requires Distinct(signals) && SignalKeys(signals) && (cursor.Some? ==> cursor.value.index == 0)
    requires limit > 0 && |rows| == limit + 1 && IsTop(mode, rows, Past(signals, mode, cursor), limit + 1)
    requires IsTop(mode, nextRows, Past(signals, mode, Some(rows[limit - 1].key)), limit + 1)
    ensures nextRows != [] && IsNextPast(signals, mode, rows[limit - 1].key, nextRows[0])
  {
    var k := rows[limit - 1].key;
    var after := Past(signals, mode, Some(k));
    assert rows[limit - 1] in rows && rows[limit] in rows;
    PastIsTheOrderOf(signals, mode, Some(k));
    DistinctIsStrict(mode, rows, Past(signals, mode, cursor), limit + 1);
    hide Past, SignalKeys;
    assert rows[limit] in after;
    assert nextRows != [] ==> nextRows[0] in after;
    FirstIsFirst(mode, nextRows, after, limit + 1);
  }

  /** No signal comes before the key. */
  ghost predicate NoneBefore(signals: set<Row>, mode: QueryMode, key: Key) {
    forall r :: r in signals ==> !Before(mode, r.key, key)
  }

  /** The first of the rows read back are the page's, reversed; one more lies before the page. */
  lemma BackRowsAreThePage(signals: set<Row>, mode: QueryMode, items: seq<Row>, q: Row, backRows: seq<Row>)
    requires Distinct(signals) && SignalKeys(signals) && q in signals
    requires IsTop(Opposite(mode), Reversed(items), Past(signals, Opposite(mode), Some(q.key)), |items|)
    requires items != [] && IsTop(Opposite(mode), backRows, Past(signals, Opposite(mode), Some(q.key)), |items| + 1)
    ensures |items| <= |backRows| && backRows[..|items|] == Reversed(items)
    ensures |backRows| == |items| <==> NoneBefore(signals, mode, items[0].key)
  {
    var behind, n := Past(signals, Opposite(mode), Some(q.key)), |items|;
    PastIsTheOrderOf(signals, Opposite(mode), Some(q.key));
    OppositeReverses(mode);
    hide Past, SignalKeys;
    var back := Reversed(items);
    AtLeastAsMany(Opposite(mode), back, backRows, behind);
    TopPrefix(Opposite(mode), backRows, behind, n);
    TopIsUnique(Opposite(mode), backRows[..n], back, behind, n);
    DistinctIsStrict(Opposite(mode), backRows, behind, n + 1);
    var first := back[n - 1];
    assert first == items[0] && first in back && first == backRows[..n][n - 1] == backRows[n - 1];
    if |backRows| == n {
      assert backRows == backRows[..n];
      forall r | r in signals
        ensures !Before(mode, r.key, first.key)
      {
        assert r in behind && r !in back ==> r in backRows;
        assert forall i :: 0 <= i < n ==> !Before(mode, back[i].key, first.key);
      }
    } else {
      assert backRows[n] in backRows;
    }
  }

  /** An answer not cut short is at least as long as any part of its table. */
  lemma AtLeastAsMany(mode: QueryMode, part: seq<Row>, rows: seq<Row>, from: set<Row>)
    requires NoneTwice(part) && (forall r :: r in part ==> r in from)
    requires IsTop(mode, rows, from, |part| + 1)
    ensures |rows| >= |part|
  {
    SizeOfSetOf(part);
    SizeOfSetOf(rows);
    if |rows| < |part| {
      assert SetOf(part) <= SetOf(rows);
      SubsetSize(SetOf(part), SetOf(rows));
    }
  }

  // ---------------------------------------------------------------------
  // Pages, seen in the direction of a walk
  // ---------------------------------------------------------------------

  function DirectionOf(mode: QueryMode): PageDirection {
    if mode == Forward then Next else Prev
  }

  /** The cursor onward, in the direction of the walk. */
  function Onward(page: Page, mode: QueryMode): Option<Key> {
    if mode == Forward then page.next else page.prev
  }

  function IsStart(page: Page, mode: QueryMode): bool {
    if mode == Forward then page.isFirst else page.isLast
  }

  /** The item nearest the start of the walk. */
  function StartOf(page: Page, mode: QueryMode): Key
    requires page.items != []
  {
    if mode == Forward then page.items[0].key else page.items[|page.items| - 1].key
  }

  /**
   A page with more to come, the page onward, and the page back: the same items, under the same
   cursor onward, and at the start exactly when no signal comes before them.
   */
  lemma BackUndoesOnward(signals: set<Row>, cursor: Option<Key>, direction: PageDirection,
                         position: Option<PagePosition>, limit: int, rows: seq<Row>, onRows: seq<Row>,
                         backRows: seq<Row>)
    requires Distinct(signals) && SignalKeys(signals) && (cursor.Some? ==> cursor.value.index == 0)
    requires Answers(signals, cursor, direction, position, limit, rows)
    requires var mode := ResolveQueryMode(position, cursor, direction);
             var key := Onward(List(cursor, direction, position, limit, rows), mode);
             && key.Some? && Answers(signals, key, DirectionOf(mode), None, limit, onRows)
             && Answers(signals, Onward(List(key, DirectionOf(mode), None, limit, onRows), Opposite(mode)),
                        DirectionOf(Opposite(mode)), None, limit, backRows)
    ensures var mode := ResolveQueryMode(position, cursor, direction);
            var page := List(cursor, direction, position, limit, rows);
            var on := List(Onward(page, mode), DirectionOf(mode), None, limit, onRows);
            var back := List(Onward(on, Opposite(mode)), DirectionOf(Opposite(mode)), None, limit, backRows);
            && on.items != [] && page.items != []
            && back.items == page.items && Onward(back, mode) == Onward(page, mode)
            && (IsStart(back, mode) <==> NoneBefore(signals, mode, StartOf(page, mode)))
  {
    hide *;
    var mode, page := ResolveQueryMode(position, cursor, direction), List(cursor, direction, position, limit, rows);
    var n, items := FirstPage(signals, cursor, direction, position, limit, rows);
    var key := rows[n - 1].key;
    var on := List(Some(key), DirectionOf(mode), None, limit, onRows);
    SecondPage(signals, mode, ActiveCursor(cursor, position), n, rows, key, limit, onRows);
    ThirdPage(signals, mode, ActiveCursor(cursor, position), n, rows, items, onRows[0], limit, backRows);
  }

  /** The first page, cut from its rows. */
  lemma FirstPage(signals: set<Row>, cursor: Option<Key>, direction: PageDirection, position: Option<PagePosition>,
                  limit: int, rows: seq<Row>) returns (n: nat, items: seq<Row>)
    requires Answers(signals, cursor, direction, position, limit, rows) && (cursor.Some? ==> cursor.value.index == 0)
    requires var mode := ResolveQueryMode(position, cursor, direction);
             Onward(List(cursor, direction, position, limit, rows), mode).Some?
    ensures n == EffectiveLimit(limit) > 0 && |rows| == n + 1 && items == rows[..n]
    ensures var active := ActiveCursor(cursor, position); active.Some? ==> active.value.index == 0
    ensures var mode := ResolveQueryMode(position, cursor, direction);
            var page := List(cursor, direction, position, limit, rows);
            && IsTop(mode, rows, Past(signals, mode, ActiveCursor(cursor, position)), n + 1)
            && page.items == Shown(mode, items) != []
            && Onward(page, mode) == Some(rows[n - 1].key) && StartOf(page, mode) == rows[0].key
  {
    n, items := EffectiveLimit(limit), rows[..EffectiveLimit(limit)];
    assert IsTop(ResolveQueryMode(position, cursor, direction), rows,
                 Past(signals, ResolveQueryMode(position, cursor, direction), ActiveCursor(cursor, position)), n + 1);
    assert |rows| <= n + 1;
    hide List, Past, IsTop, Shown, StartOf, Onward;
    PageOf(ResolveQueryMode(position, cursor, direction), cursor, direction, position, limit, rows);
  }

  /** The page onward starts at the very next signal. */
  lemma SecondPage(signals: set<Row>, mode: QueryMode, active: Option<Key>, n: nat, rows: seq<Row>, key: Key,
                   limit: int, onRows: seq<Row>)
    requires Distinct(signals) && SignalKeys(signals) && (active.Some? ==> active.value.index == 0)
    requires n == EffectiveLimit(limit) > 0 && |rows| == n + 1 && IsTop(mode, rows, Past(signals, mode, active), n + 1)
    requires key == rows[n - 1].key && Answers(signals, Some(key), DirectionOf(mode), None, limit, onRows)
    ensures onRows != [] && IsNextPast(signals, mode, key, onRows[0])
    ensures var on := List(Some(key), DirectionOf(mode), None, limit, onRows);
            on.items != [] && Onward(on, Opposite(mode)) == Some(onRows[0].key)
  {
    hide *;
    AnswersOnward(signals, mode, key, limit, onRows);
    NextStartsAfter(signals, mode, active, n, rows, onRows);
    PageAfter(mode, key, limit, onRows);
  }

  /** The page back is the first again. */
  lemma ThirdPage(signals: set<Row>, mode: QueryMode, active: Option<Key>, n: nat, rows: seq<Row>, items: seq<Row>,
                  q: Row, limit: int, backRows: seq<Row>)
    requires Distinct(signals) && SignalKeys(signals) && (active.Some? ==> active.value.index == 0)
    requires n == EffectiveLimit(limit) > 0 && |rows| == n + 1 && IsTop(mode, rows, Past(signals, mode, active), n + 1)
    requires items == rows[..n] && IsNextPast(signals, mode, rows[n - 1].key, q)
    requires Answers(signals, Some(q.key), DirectionOf(Opposite(mode)), None, limit, backRows)
    ensures var back := List(Some(q.key), DirectionOf(Opposite(mode)), None, limit, backRows);
            && back.items == Shown(mode, items) && Onward(back, mode) == Some(rows[n - 1].key)
            && (IsStart(back, mode) <==> NoneBefore(signals, mode, rows[0].key))
  {
    assert items[n - 1] == rows[n - 1];
    hide *;
    AnswersOnward(signals, Opposite(mode), q.key, limit, backRows);
    RowsBack(signals, mode, active, n, rows, q, backRows);
    PageBack(mode, q.key, limit, items, backRows);
  }

  lemma AnswersOnward(signals: set<Row>, mode: QueryMode, key: Key, limit: int, rows: seq<Row>)
    ensures Answers(signals, Some(key), DirectionOf(mode), None, limit, rows) <==>
            IsTop(mode, rows, Past(signals, mode, Some(key)), EffectiveLimit(limit) + 1)
  {
    hide IsTop, Past;
  }

  /** The rows read back from the one after a page. */
  lemma RowsBack(signals: set<Row>, mode: QueryMode, cursor: Option<Key>, n: nat, rows: seq<Row>, q: Row,
                 backRows: seq<Row>)
    requires Distinct(signals) && SignalKeys(signals) && (cursor.Some? ==> cursor.value.index == 0)
    requires n > 0 && |rows| == n + 1 && IsTop(mode, rows, Past(signals, mode, cursor), n + 1)
    requires IsNextPast(signals, mode, rows[n - 1].key, q)
    requires IsTop(Opposite(mode), backRows, Past(signals, Opposite(mode), Some(q.key)), n + 1)
    ensures n <= |backRows| && backRows[..n] == Reversed(rows[..n])
    ensures |backRows| == n <==> NoneBefore(signals, mode, rows[0].key)
  {
    hide Past, IsTop, Distinct, SignalKeys, Before, Reversed, NoneBefore;
    ItemsAreNearest(signals, mode, cursor, n, rows, q);
    assert q in signals && rows[..n][0] == rows[0];
    hide IsNextPast;
    BackRowsAreThePage(signals, mode, rows[..n], q, backRows);
  }

  /** The items a page shows of its rows, in the order of its query. */
  function Shown(mode: QueryMode, rows: seq<Row>): seq<Row> {
    if mode == Forward then rows else Reversed(rows)
  }

  lemma PageOf(mode: QueryMode, cursor: Option<Key>, direction: PageDirection, position: Option<PagePosition>,
               limit: int, rows: seq<Row>)
    requires mode == ResolveQueryMode(position, cursor, direction) && |rows| <= EffectiveLimit(limit) + 1
    requires Onward(List(cursor, direction, position, limit, rows), mode).Some?
    ensures var n, page := EffectiveLimit(limit), List(cursor, direction, position, limit, rows);
            && |rows| == n + 1 && page.items == Shown(mode, rows[..n]) != []
            && Onward(page, mode) == Some(rows[n - 1].key) && StartOf(page, mode) == rows[0].key
  {
  }

  lemma PageAfter(mode: QueryMode, key: Key, limit: int, rows: seq<Row>)
    requires rows != []
    ensures var page := List(Some(key), DirectionOf(mode), None, limit, rows);
            page.items != [] && Onward(page, Opposite(mode)) == Some(rows[0].key)
  {
  }

  lemma BackwardPageBack(key: Key, limit: int, items: seq<Row>, back: seq<Row>, rows: seq<Row>)
    requires |items| == |back| == EffectiveLimit(limit) <= |rows| && rows[..|items|] == back && items == Reversed(back)
    ensures var page := List(Some(key), Prev, None, limit, rows);
            && page.items == items && page.next == Some(items[|items| - 1].key)
            && (page.isFirst <==> |rows| <= |items|)
  {
    hide Reversed;
    FullPage(rows, |items|, Backward, back);
  }

  lemma ForwardPageBack(key: Key, limit: int, back: seq<Row>, rows: seq<Row>)
    requires |back| == EffectiveLimit(limit) <= |rows| && rows[..|back|] == back
    ensures var page := List(Some(key), Next, None, limit, rows);
            && page.items == back && page.prev == Some(back[0].key)
            && (page.isLast <==> |rows| <= |back|)
  {
    FullPage(rows, |back|, Forward, back);
  }

  lemma PageBack(mode: QueryMode, key: Key, limit: int, items: seq<Row>, rows: seq<Row>)
    requires |items| == EffectiveLimit(limit) <= |rows| && rows[..|items|] == Reversed(items)
    ensures var page := List(Some(key), DirectionOf(Opposite(mode)), None, limit, rows);
            && page.items == Shown(mode, items)
            && Onward(page, mode) == Some(items[|items| - 1].key)
            && (IsStart(page, mode) <==> |rows| <= |items|)
  {
    var back := rows[..|items|];
    if mode == Forward {
      TwiceReversed(items);
      hide List, Reversed;
      BackwardPageBack(key, limit, items, back, rows);
    } else {
      assert back[0] == items[|items| - 1];
      hide List, Reversed;
      ForwardPageBack(key, limit, back, rows);
    }
  }

  /** A page cut from at least as many rows as its limit, read past a cursor. */
  lemma FullPage(rows: seq<Row>, n: nat, mode: QueryMode, cut: seq<Row>)
    requires 0 < n <= |rows| && cut == rows[..n]
    ensures var page, items := Finalize(rows, n, mode, true), if mode == Backward then Reversed(cut) else cut;
            && page.items == items
            && page.isFirst == (mode == Backward && |rows| == n) && page.isLast == (mode == Forward && |rows| == n)
            && (mode == Backward ==> page.next == Some(items[n - 1].key))
            && (mode == Forward ==> page.prev == Some(items[0].key))
  {
    hide Reversed;
    if |rows| == n {
      assert cut == rows;
    }
  }

  lemma TwiceReversed(rows: seq<Row>)
    ensures Reversed(Reversed(rows)) == rows
  {
  }

  /** The next page of a page, and back: the same items, under the same next cursor. */
  lemma PrevUndoesNext(signals: set<Row>, cursor: Option<Key>, limit: int, rows: seq<Row>, nextRows: seq<Row>,
                       backRows: seq<Row>)
    requires Distinct(signals) && SignalKeys(signals) && (cursor.Some? ==> cursor.value.index == 0)
    requires Answers(signals, cursor, Next, None, limit, rows)
    requires List(cursor, Next, None, limit, rows).next.Some?
    requires Answers(signals, List(cursor, Next, None, limit, rows).next, Next, None, limit, nextRows)
    requires var next := List(List(cursor, Next, None, limit, rows).next, Next, None, limit, nextRows);
             Answers(signals, next.prev, Prev, None, limit, backRows)
    ensures var page := List(cursor, Next, None, limit, rows);
            var next := List(page.next, Next, None, limit, nextRows);
            var back := List(next.prev, Prev, None, limit, backRows);
            && next.items != [] && page.items != []
            && back.items == page.items && back.next == page.next
            && (back.isFirst <==> forall r :: r in signals ==> !Less(page.items[0].key, r.key))
  {
    hide List, Answers;
    assert ResolveQueryMode(None, cursor, Next) == Forward;
    BackUndoesOnward(signals, cursor, Next, None, limit, rows, nextRows, backRows);
  }

  /** The previous page of a page, the last one included, and back. */
  lemma NextUndoesPrev(signals: set<Row>, cursor: Option<Key>, position: Option<PagePosition>, limit: int,
                       rows: seq<Row>, prevRows: seq<Row>, backRows: seq<Row>)
    requires Distinct(signals) && SignalKeys(signals) && (cursor.Some? ==> cursor.value.index == 0)
    requires position == Some(Last) || (position.None? && cursor.Some?)
    requires Answers(signals, cursor, Prev, position, limit, rows)
    requires List(cursor, Prev, position, limit, rows).prev.Some?
    requires Answers(signals, List(cursor, Prev, position, limit, rows).prev, Prev, None, limit, prevRows)
    requires var prev := List(List(cursor, Prev, position, limit, rows).prev, Prev, None, limit, prevRows);
             Answers(signals, prev.next, Next, None, limit, backRows)
    ensures var page := List(cursor, Prev, position, limit, rows);
            var prev := List(page.prev, Prev, None, limit, prevRows);
            var back := List(prev.next, Next, None, limit, backRows);
            && prev.items != [] && page.items != []
            && back.items == page.items && back.prev == page.prev
            && (back.isLast <==> forall r :: r in signals ==> !Less(r.key, page.items[|page.items| - 1].key))
  {
    hide List, Answers;
    assert ResolveQueryMode(position, cursor, Prev) == Backward;
    BackUndoesOnward(signals, cursor, Prev, position, limit, rows, prevRows, backRows);
  }

  // ---------------------------------------------------------------------
  // A walk while the feed changes
  // ---------------------------------------------------------------------

  /** The pages a client reads from the newest, following each page's next cursor. */
  function Walk(limit: int, cursor: Option<Key>, turns: seq<KeyWalk.Turn>): seq<Page>
    decreases |turns|
  {
    if turns == [] then []
    else
      var page := List(cursor, Next, None, limit, turns[0].rows);
      [page] + if page.next.None? then [] else Walk(limit, page.next, turns[1..])
  }

  ghost predicate Answered(limit: int, cursor: Option<Key>, turns: seq<KeyWalk.Turn>)
    decreases |turns|
  {
    turns == [] ||
    (Answers(turns[0].table, cursor, Next, None, limit, turns[0].rows) &&
     var next := List(cursor, Next, None, limit, turns[0].rows).next;
     next.Some? ==> Answered(limit, next, turns[1..]))
  }

  lemma AnswersByKey(signals: set<Row>, cursor: Option<Key>, limit: int, rows: seq<Row>)
    requires SignalKeys(signals) && (cursor.Some? ==> cursor.value.index == 0)
    requires Answers(signals, cursor, Next, None, limit, rows)
    ensures KeyWalk.Answers(EffectiveLimit(limit), cursor, KeyWalk.Turn(signals, rows))
    ensures List(cursor, Next, None, limit, rows) ==
            KeyWalk.PageOf(EffectiveLimit(limit), cursor, KeyWalk.Turn(signals, rows))
  {
    PastIsTheOrderOf(signals, Forward, cursor);
    hide Past;
    assert KeyWalk.PastKey(signals, cursor) == Past(signals, Forward, cursor);
    hide Finalize;
  }

  /** A page's next cursor is the key of a signal. */
  lemma NextIsASignal(signals: set<Row>, cursor: Option<Key>, limit: int, rows: seq<Row>)
    requires SignalKeys(signals) && Answers(signals, cursor, Next, None, limit, rows)
    ensures var next := List(cursor, Next, None, limit, rows).next;
            next.Some? ==> next.value.index == 0
  {
    var page := List(cursor, Next, None, limit, rows);
    assert forall i :: 0 <= i < |rows| ==> rows[i] in rows;
  }

  lemma {:induction false} WalkIsByKey(limit: int, cursor: Option<Key>, turns: seq<KeyWalk.Turn>)
    requires (cursor.Some? ==> cursor.value.index == 0) && Answered(limit, cursor, turns)
    requires forall t :: t in turns ==> SignalKeys(t.table)
    ensures KeyWalk.Answered(EffectiveLimit(limit), cursor, turns)
    ensures Walk(limit, cursor, turns) == KeyWalk.Walk(EffectiveLimit(limit), cursor, turns)
    decreases |turns|
  {
    hide List, Answers, KeyWalk.Answers, KeyWalk.PageOf, EffectiveLimit, SignalKeys;
    if turns != [] {
      var signals, rows := turns[0].table, turns[0].rows;
      assert turns[0] == KeyWalk.Turn(signals, rows);
      AnswersByKey(signals, cursor, limit, rows);
      NextIsASignal(signals, cursor, limit, rows);
      if List(cursor, Next, None, limit, rows).next.Some? {
        WalkIsByKey(limit, List(cursor, Next, None, limit, rows).next, turns[1..]);
      }
    }
  }

  /**
   Whatever signals are inserted and removed between the pages, a walk from the newest serves once,
   newest first, every signal that is there at each of its reads, and nothing that none of them held;
   every page but the last is full.
   */
  lemma {:induction false} WalkServesEachOnce(limit: int, turns: seq<KeyWalk.Turn>)
    requires turns != [] && KeyWalk.Indexed(turns) && Answered(limit, None, turns)
    requires KeyWalk.Ended(Walk(limit, None, turns)) && forall t :: t in turns ==> SignalKeys(t.table)
    ensures var pages := Walk(limit, None, turns);
            var served := KeyWalk.Served(pages);
            && 0 < |pages| <= |turns|
            && StrictlyOrdered(Forward, served) && NoneTwice(served)
            && (forall r :: KeyWalk.InEvery(turns, |pages|, r) ==> r in served)
            && (forall r :: r in served ==> KeyWalk.InSome(turns, |pages|, r))
            && |served| >= EffectiveLimit(limit) * (|pages| - 1)
            && (KeyWalk.Grows(turns) ==>
                  && (forall r :: r in turns[0].table ==> r in served)
                  && (forall r :: r in served ==> r in turns[|pages| - 1].table))
  {
    hide *;
    WalkIsByKey(limit, None, turns);
    KeyWalk.WalkServesEachOnce(EffectiveLimit(limit), turns);
  }
}
