/** Keyset pages: the rows a query answers, and the page cut from them. */
module Paging {
  import opened Prelude

  /** The order of a list: an instant, then two tie-breakers. */
  datatype Key = Key(at: int, rank: int, index: int)

  /** A row, and the table and pool it belongs to. */
  datatype Row = Row(key: Key, kind: int, pool: int)

  predicate Less(a: Key, b: Key) {
    a.at < b.at || (a.at == b.at && (a.rank < b.rank || (a.rank == b.rank && a.index < b.index)))
  }

  /** Forward is the display order, newest first; backward walks against it. */
  datatype QueryMode = Forward | Backward

  predicate Before(mode: QueryMode, a: Key, b: Key) {
    if mode == Forward then Less(b, a) else Less(a, b)
  }

  /** A unique index on the key. */
  ghost predicate Distinct(table: set<Row>) {
    forall a, b :: a in table && b in table && a.key == b.key ==> a == b
  }

  predicate NoneTwice<T(==)>(rows: seq<T>) {
    forall i, j :: 0 <= i < j < |rows| ==> rows[i] != rows[j]
  }

  predicate Ordered(mode: QueryMode, rows: seq<Row>) {
    forall i, j :: 0 <= i < j < |rows| ==> !Before(mode, rows[j].key, rows[i].key)
  }

  predicate StrictlyOrdered(mode: QueryMode, rows: seq<Row>) {
    forall i, j :: 0 <= i < j < |rows| ==> Before(mode, rows[i].key, rows[j].key)
  }

  /** What `ORDER BY … LIMIT n` may answer: nothing left out comes before anything answered. */
  ghost predicate IsTop(mode: QueryMode, rows: seq<Row>, from: set<Row>, n: nat) {
    && |rows| <= n
    && NoneTwice(rows)
    && Ordered(mode, rows)
    && (forall r :: r in rows ==> r in from)
    && (forall e :: e in from && e !in rows ==>
          |rows| == n && forall r :: r in rows ==> !Before(mode, e.key, r.key))
  }

  // ---------------------------------------------------------------------
  // The page
  // ---------------------------------------------------------------------

  datatype Page = Page(items: seq<Row>, prev: Option<Key>, next: Option<Key>, isFirst: bool, isLast: bool)

  const EMPTY := Page([], None, None, true, true)

  function Reversed(rows: seq<Row>): (r: seq<Row>)
    ensures |r| == |rows| && forall i :: 0 <= i < |r| ==> r[i] == rows[|rows| - 1 - i]
  {
    seq(|rows|, i requires 0 <= i < |rows| => rows[|rows| - 1 - i])
  }

  /** `rows`, read with one past `limit`, in display order and cut to it. */
  function Finalize(rows: seq<Row>, limit: nat, mode: QueryMode, hadCursor: bool): Page {
    var hasMore := |rows| > limit;
    var cut := if hasMore then rows[..limit] else rows;
    var items := if mode == Backward then Reversed(cut) else cut;
    var isFirst := if mode == Forward then !hadCursor else !hasMore;
    var isLast := if mode == Forward then !hasMore else !hadCursor;
    if items == [] then Page([], None, None, isFirst, isLast)
    else
      Page(items,
           if isFirst then None else Some(items[0].key),
           if isLast then None else Some(items[|items| - 1].key),
           isFirst, isLast)
  }

  // ---------------------------------------------------------------------
  // The answer to a query
  // ---------------------------------------------------------------------

  lemma DistinctIsStrict(mode: QueryMode, rows: seq<Row>, from: set<Row>, n: nat)
    requires Distinct(from) && IsTop(mode, rows, from, n)
    ensures StrictlyOrdered(mode, rows)
  {
  }

  /** The first of an answer comes before every other row of its table. */
  lemma FirstIsFirst(mode: QueryMode, rows: seq<Row>, from: set<Row>, n: nat)
    requires Distinct(from) && IsTop(mode, rows, from, n) && rows != []
    ensures forall e :: e in from && e != rows[0] ==> Before(mode, rows[0].key, e.key)
  {
    forall e | e in from && e != rows[0]
      ensures Before(mode, rows[0].key, e.key)
    {
      assert e.key != rows[0].key;
      assert rows[0] in rows;
      if e in rows {
        var j :| 0 <= j < |rows| && rows[j] == e;
        assert 0 < j;
      }
    }
  }

  lemma TopTail(mode: QueryMode, rows: seq<Row>, from: set<Row>, n: nat)
    requires IsTop(mode, rows, from, n) && rows != []
    ensures IsTop(mode, rows[1..], from - {rows[0]}, n - 1)
  {
    forall e | e in from - {rows[0]} && e !in rows[1..]
      ensures e !in rows
    {
      assert rows == [rows[0]] + rows[1..];
    }
    forall r | r in rows[1..]
      ensures r in from - {rows[0]} && r in rows
    {
      var j :| 0 <= j < |rows[1..]| && rows[1..][j] == r;
      assert rows[j + 1] == r;
    }
  }

  /** Under a unique index, a query has one answer. */
  lemma {:induction false} TopIsUnique(mode: QueryMode, a: seq<Row>, b: seq<Row>, from: set<Row>, n: nat)
    requires Distinct(from) && IsTop(mode, a, from, n) && IsTop(mode, b, from, n)
    ensures a == b
    decreases n
  {
    assert a != [] ==> a[0] in from;
    assert b != [] ==> b[0] in from;
    if a != [] && b != [] {
      FirstIsFirst(mode, a, from, n);
      FirstIsFirst(mode, b, from, n);
      assert a[0] in from && b[0] in from;
      TopTail(mode, a, from, n);
      TopTail(mode, b, from, n);
      TopIsUnique(mode, a[1..], b[1..], from - {a[0]}, n - 1);
      assert a == [a[0]] + a[1..] && b == [b[0]] + b[1..];
    }
  }

  lemma TopPrefix(mode: QueryMode, rows: seq<Row>, from: set<Row>, n: nat)
    requires IsTop(mode, rows, from, n + 1) && |rows| >= n
    ensures IsTop(mode, rows[..n], from, n)
  {
    forall e | e in from && e !in rows[..n]
      ensures forall r :: r in rows[..n] ==> !Before(mode, e.key, r.key)
    {
      if e in rows {
        assert rows == rows[..n] + rows[n..];
        var j :| 0 <= j < |rows[n..]| && rows[n..][j] == e;
        assert rows[n + j] == e;
      }
      forall r | r in rows[..n]
        ensures r in rows && !Before(mode, e.key, r.key)
      {
        var i :| 0 <= i < n && rows[..n][i] == r;
        assert rows[i] == r;
      }
    }
  }

  // ---------------------------------------------------------------------
  // A list read from several tables
  // ---------------------------------------------------------------------

  ghost function SetOf(rows: seq<Row>): set<Row> {
    set r | r in rows
  }

  lemma {:induction false} SizeOfSetOf(rows: seq<Row>)
    requires NoneTwice(rows)
    ensures |SetOf(rows)| == |rows|
  {
    if rows != [] {
      SizeOfSetOf(rows[1..]);
      assert rows == [rows[0]] + rows[1..];
      assert SetOf(rows) == SetOf(rows[1..]) + {rows[0]};
    }
  }

  lemma SubsetSize(a: set<Row>, b: set<Row>)
    requires a <= b
    ensures |a| <= |b|
  {
    assert b == a + (b - a);
  }

  ghost function Merged(parts: seq<set<Row>>): set<Row> {
    set i, r | 0 <= i < |parts| && r in parts[i] :: r
  }

  /** Cutting each table to `n` before the merge loses no row the merge would answer. */
  lemma MergedReadIsTheTop(mode: QueryMode, parts: seq<set<Row>>, tops: seq<seq<Row>>, rows: seq<Row>, n: nat)
    requires |parts| == |tops|
    requires forall i :: 0 <= i < |parts| ==> IsTop(mode, tops[i], parts[i], n)
    requires IsTop(mode, rows, Merged(seq(|tops|, i requires 0 <= i < |tops| => SetOf(tops[i]))), n)
    ensures IsTop(mode, rows, Merged(parts), n)
  {
    var cut := seq(|tops|, i requires 0 <= i < |tops| => SetOf(tops[i]));
    forall r | r in rows
      ensures r in Merged(parts)
    {
      var i :| 0 <= i < |cut| && r in cut[i];
      assert r in parts[i];
    }
    forall e | e in Merged(parts) && e !in rows
      ensures |rows| == n && forall r :: r in rows ==> !Before(mode, e.key, r.key)
    {
      var i :| 0 <= i < |parts| && e in parts[i];
      assert cut[i] == SetOf(tops[i]);
      forall t | t in tops[i]
        ensures t in Merged(cut)
      {
        assert t in cut[i];
      }
      if e !in tops[i] {
        LeftOutOfItsTable(mode, parts[i], tops[i], rows, Merged(cut), e, n);
      }
    }
  }

  lemma LeftOutOfItsTable(mode: QueryMode, part: set<Row>, top: seq<Row>, rows: seq<Row>, from: set<Row>, e: Row,
                          n: nat)
    requires IsTop(mode, top, part, n) && IsTop(mode, rows, from, n)
    requires forall t :: t in top ==> t in from
    requires e in part && e !in top && e !in rows
    ensures |rows| == n && forall r :: r in rows ==> !Before(mode, e.key, r.key)
  {
    SizeOfSetOf(top);
    SizeOfSetOf(rows);
    assert |rows| == n by {
      if |rows| < n {
        assert SetOf(top) <= SetOf(rows);
        SubsetSize(SetOf(top), SetOf(rows));
        assert false;
      }
    }
    forall r | r in rows
      ensures !Before(mode, e.key, r.key)
    {
      if Before(mode, e.key, r.key) {
        assert r !in top;
        assert forall t :: t in top ==> t in rows;
        SubsetSize(SetOf(top), SetOf(rows) - {r});
        assert false;
      }
    }
  }
}
