/** The slots a session watched: one row a session, each end moved only outwards. */
module ObservedSlots {
  import opened Prelude

  const I64_MAX := 0x7FFF_FFFF_FFFF_FFFF

  /** The first and last slots of a session, each with its instant. */
  datatype Range = Range(first: nat, firstAt: int, last: nat, lastAt: int)

  /** The upsert: a session without a row takes the observation. */
  function Widened(row: Option<Range>, seen: Range): Range {
    match row
    case None => seen
    case Some(r) =>
      Range(if seen.first < r.first then seen.first else r.first,
            if seen.first < r.first then seen.firstAt else r.firstAt,
            if seen.last > r.last then seen.last else r.last,
            if seen.last > r.last then seen.lastAt else r.lastAt)
  }

  class ObservedSlotRanges {
    var rows: map<int, Range>

    constructor ()
      ensures rows == map[]
    {
      rows := map[];
    }

    /** A slot past `i64` is refused and writes nothing. */
    method Record(session: int, seen: Range) returns (ok: bool)
      modifies this
      ensures ok <==> seen.first <= I64_MAX && seen.last <= I64_MAX
      ensures rows == if ok then old(rows)[session := Widened(RowOf(old(rows), session), seen)] else old(rows)
    {
      if seen.first > I64_MAX || seen.last > I64_MAX {
        return false;
      }
      if session !in rows {
        rows := rows[session := seen];
      } else {
        var r := rows[session];
        var first, firstAt := r.first, r.firstAt;
        if seen.first < r.first {
          first, firstAt := seen.first, seen.firstAt;
        }
        var last, lastAt := r.last, r.lastAt;
        if seen.last > r.last {
          last, lastAt := seen.last, seen.lastAt;
        }
        rows := rows[session := Range(first, firstAt, last, lastAt)];
      }
      return true;
    }
  }

  function RowOf(rows: map<int, Range>, session: int): Option<Range> {
    if session in rows then Some(rows[session]) else None
  }

  /** One session's row after a replay. */
  function Replayed(seen: seq<Range>): Range
    requires seen != []
  {
    if |seen| == 1 then seen[0]
    else Widened(Some(Replayed(seen[..|seen| - 1])), seen[|seen| - 1])
  }

  /** The row spans every observation, and each end's instant is that of the first to reach it. */
  lemma {:induction false} RowSpansEverySlot(seen: seq<Range>)
    requires seen != []
    ensures var r := Replayed(seen);
            && (forall i :: 0 <= i < |seen| ==> r.first <= seen[i].first && seen[i].last <= r.last)
            && (exists i :: 0 <= i < |seen| && seen[i].first == r.first && seen[i].firstAt == r.firstAt
                            && forall j :: 0 <= j < i ==> seen[j].first > r.first)
            && (exists i :: 0 <= i < |seen| && seen[i].last == r.last && seen[i].lastAt == r.lastAt
                            && forall j :: 0 <= j < i ==> seen[j].last < r.last)
  {
    if |seen| > 1 {
      var n := |seen| - 1;
      var init := seen[..n];
      RowSpansEverySlot(init);
      var before, r := Replayed(init), Replayed(seen);
      var i :| 0 <= i < n && init[i].first == before.first && init[i].firstAt == before.firstAt
               && forall j :: 0 <= j < i ==> init[j].first > before.first;
      var k :| 0 <= k < n && init[k].last == before.last && init[k].lastAt == before.lastAt
               && forall j :: 0 <= j < k ==> init[j].last < before.last;
      var first := if seen[n].first < before.first then n else i;
      var last := if seen[n].last > before.last then n else k;
      assert seen[first].first == r.first && seen[first].firstAt == r.firstAt;
      assert seen[last].last == r.last && seen[last].lastAt == r.lastAt;
      assert forall j :: 0 <= j < n ==> init[j] == seen[j];
    }
  }

  ghost predicate IsFirst(seen: seq<Range>, o: Range) {
    o in seen && forall p :: p in seen ==> o.first <= p.first
  }

  ghost predicate IsLast(seen: seq<Range>, o: Range) {
    o in seen && forall p :: p in seen ==> p.last <= o.last
  }

  /** The observations with the lowest slot agree on its instant, and those with the highest on its. */
  ghost predicate EndsAgree(seen: seq<Range>) {
    && (forall o, p :: IsFirst(seen, o) && IsFirst(seen, p) ==> o.firstAt == p.firstAt)
    && (forall o, p :: IsLast(seen, o) && IsLast(seen, p) ==> o.lastAt == p.lastAt)
  }

  lemma RowIsOfTheEnds(seen: seq<Range>)
    requires seen != []
    ensures var r := Replayed(seen);
            && (exists o :: IsFirst(seen, o) && o.first == r.first && o.firstAt == r.firstAt)
            && (exists o :: IsLast(seen, o) && o.last == r.last && o.lastAt == r.lastAt)
  {
    hide Replayed, Widened;
    RowSpansEverySlot(seen);
    var r := Replayed(seen);
    var i :| 0 <= i < |seen| && seen[i].first == r.first && seen[i].firstAt == r.firstAt;
    var k :| 0 <= k < |seen| && seen[k].last == r.last && seen[k].lastAt == r.lastAt;
    assert IsFirst(seen, seen[i]) && IsLast(seen, seen[k]);
  }

  ghost predicate SameObservations(a: seq<Range>, b: seq<Range>) {
    forall o :: o in a <==> o in b
  }

  /** Replayed in any order and any number of times, the same observations leave the same row. */
  lemma ReplayIsOrderFree(a: seq<Range>, b: seq<Range>)
    requires a != [] && b != [] && SameObservations(a, b) && EndsAgree(a)
    ensures Replayed(a) == Replayed(b)
  {
    hide Replayed, Widened;
    RowIsOfTheEnds(a);
    RowIsOfTheEnds(b);
    var r, t := Replayed(a), Replayed(b);
    var f :| IsFirst(b, f) && f.first == t.first && f.firstAt == t.firstAt;
    var l :| IsLast(b, l) && l.last == t.last && l.lastAt == t.lastAt;
    assert IsFirst(a, f) && IsLast(a, l);
  }

  /** Exactly when the ends agree: otherwise some other replay of the same observations differs. */
  lemma OrderFreeOnlyIfTheEndsAgree(a: seq<Range>)
    requires a != []
    ensures EndsAgree(a) <==> forall b :: b != [] && SameObservations(a, b) ==> Replayed(a) == Replayed(b)
  {
    forall b | b != [] && SameObservations(a, b) && EndsAgree(a)
      ensures Replayed(a) == Replayed(b)
    {
      ReplayIsOrderFree(a, b);
    }
    if !EndsAgree(a) {
      var r := Replayed(a);
      RowIsOfTheEnds(a);
      var o :| (IsFirst(a, o) && o.firstAt != r.firstAt) || (IsLast(a, o) && o.lastAt != r.lastAt);
      var b := [o] + a;
      assert SameObservations(a, b);
      FirstSeenKeepsItsEnds(a, o);
    }
  }

  /** One slot seen at two instants: the row is at the one that came first. */
  lemma TheFirstInstantStays(slot: nat, one: int, other: int)
    requires one != other
    ensures var a, b := Range(slot, one, slot, one), Range(slot, other, slot, other);
            && SameObservations([a, b], [b, a]) && !EndsAgree([a, b])
            && Replayed([a, b]) == a && Replayed([b, a]) == b && a != b
  {
    var a, b := Range(slot, one, slot, one), Range(slot, other, slot, other);
    assert [a, b][..1] == [a] && [b, a][..1] == [b];
    assert IsFirst([a, b], a) && IsFirst([a, b], b);
  }

  /** Seen before everything else, an observation that reaches an end gives its instant. */
  lemma FirstSeenKeepsItsEnds(a: seq<Range>, o: Range)
    requires a != [] && o in a
    ensures IsFirst(a, o) ==> Replayed([o] + a).firstAt == o.firstAt
    ensures IsLast(a, o) ==> Replayed([o] + a).lastAt == o.lastAt
  {
    hide Replayed, Widened;
    var b := [o] + a;
    RowSpansEverySlot(b);
    var r := Replayed(b);
    assert b[0] == o;
    var i :| 0 <= i < |b| && b[i].first == r.first && b[i].firstAt == r.firstAt &&
              forall j :: 0 <= j < i ==> b[j].first > r.first;
    var k :| 0 <= k < |b| && b[k].last == r.last && b[k].lastAt == r.lastAt &&
              forall j :: 0 <= j < k ==> b[j].last < r.last;
    assert i > 0 ==> b[i] == a[i - 1];
    assert k > 0 ==> b[k] == a[k - 1];
  }
}
