/** Claim totals: a period read whole, or as a series read grouped. */
module ClaimTotals {
  import opened Prelude

  datatype ClaimKind = PositionFee | Reward

  /** A valued claim row, its amount in the smallest unit; unpriced, it has none. */
  datatype Claim = Claim(kind: ClaimKind, protocol: int, at: int, owner: int, amount: Option<int>)

  datatype Totals = Totals(claims: nat, claimsValued: nat, amount: int, owners: nat)

  datatype Bucket = Bucket(from: int, value: Totals)

  // ---------------------------------------------------------------------
  // Aggregates
  // ---------------------------------------------------------------------

  function Valued(rows: seq<Claim>): nat {
    if rows == [] then 0 else Valued(rows[..|rows| - 1]) + if rows[|rows| - 1].amount.Some? then 1 else 0
  }

  function Sum(rows: seq<Claim>): int {
    if rows == [] then 0
    else Sum(rows[..|rows| - 1]) + if rows[|rows| - 1].amount.Some? then rows[|rows| - 1].amount.value else 0
  }

  function Owners(rows: seq<Claim>): set<int> {
    set i | 0 <= i < |rows| :: rows[i].owner
  }

  /** `COUNT(*)`, `COUNT(amount)`, `SUM(amount)` and `COUNT(DISTINCT owner)`; 0 without rows. */
  function Aggregate(rows: seq<Claim>): Totals {
    Totals(|rows|, Valued(rows), Sum(rows), |Owners(rows)|)
  }

  /** The rows in `from..until`, in the table's order. */
  function Within(rows: seq<Claim>, from: int, until: int): seq<Claim> {
    if rows == [] then []
    else
      var last := rows[|rows| - 1];
      var before := Within(rows[..|rows| - 1], from, until);
      if from <= last.at < until then before + [last] else before
  }

  function Of(rows: seq<Claim>, kind: ClaimKind, protocol: int): seq<Claim> {
    if rows == [] then []
    else
      var last := rows[|rows| - 1];
      var before := Of(rows[..|rows| - 1], kind, protocol);
      if last.kind == kind && last.protocol == protocol then before + [last] else before
  }

  function TotalsOf(table: seq<Claim>, kind: ClaimKind, from: int, asOf: int, protocol: int): Totals {
    Aggregate(Within(Of(table, kind, protocol), from, asOf))
  }

  // ---------------------------------------------------------------------
  // The totals, over the table alone
  // ---------------------------------------------------------------------

  /** What a query ranges over: the claims of one kind, one protocol and one period. */
  datatype Query = Query(kind: ClaimKind, protocol: int, from: int, until: int) {
    predicate Covers(c: Claim) {
      c.kind == kind && c.protocol == protocol && from <= c.at < until
    }
  }

  function Claims(table: seq<Claim>, query: Query): set<nat> {
    set i | 0 <= i < |table| && query.Covers(table[i])
  }

  function ValuedClaims(table: seq<Claim>, query: Query): set<nat> {
    set i | 0 <= i < |table| && query.Covers(table[i]) && table[i].amount.Some?
  }

  function Claimants(table: seq<Claim>, query: Query): set<int> {
    set i | 0 <= i < |table| && query.Covers(table[i]) :: table[i].owner
  }

  /** An unpriced claim counts for nothing. */
  function AmountOver(table: seq<Claim>, query: Query): int {
    if table == [] then 0
    else
      var last := table[|table| - 1];
      AmountOver(table[..|table| - 1], query)
      + if query.Covers(last) && last.amount.Some? then last.amount.value else 0
  }

  lemma OneMoreRow(table: seq<Claim>, query: Query)
    requires table != []
    ensures var n, last := |table| - 1, table[|table| - 1];
            var before := table[..n];
            && n !in Claims(before, query) && n !in ValuedClaims(before, query)
            && Claims(table, query) == Claims(before, query) + (if query.Covers(last) then {n} else {})
            && ValuedClaims(table, query) ==
               ValuedClaims(before, query) + (if query.Covers(last) && last.amount.Some? then {n} else {})
            && Claimants(table, query) == Claimants(before, query) + (if query.Covers(last) then {last.owner} else {})
  {
    hide Query.Covers;
  }

  lemma OwnersOneMore(rows: seq<Claim>, last: Claim)
    ensures Owners(rows + [last]) == Owners(rows) + {last.owner}
  {
    var more := rows + [last];
    assert more[|rows|] == last;
    assert forall i :: 0 <= i < |rows| ==> more[i] == rows[i];
  }

  lemma AggregatesOneMore(rows: seq<Claim>, last: Claim)
    ensures Valued(rows + [last]) == Valued(rows) + if last.amount.Some? then 1 else 0
    ensures Sum(rows + [last]) == Sum(rows) + if last.amount.Some? then last.amount.value else 0
  {
    assert (rows + [last])[..|rows|] == rows;
  }

  lemma WithinOneMore(rows: seq<Claim>, last: Claim, from: int, until: int)
    ensures Within(rows + [last], from, until) ==
            if from <= last.at < until then Within(rows, from, until) + [last] else Within(rows, from, until)
  {
    assert (rows + [last])[..|rows|] == rows;
  }

  lemma {:induction false} RowsOfTheTable(table: seq<Claim>, query: Query)
    ensures var rows := Within(Of(table, query.kind, query.protocol), query.from, query.until);
            && |rows| == |Claims(table, query)| && Valued(rows) == |ValuedClaims(table, query)|
            && Sum(rows) == AmountOver(table, query) && Owners(rows) == Claimants(table, query)
  {
    if table != [] {
      var before, last := table[..|table| - 1], table[|table| - 1];
      RowsOfTheTable(before, query);
      OneMoreRow(table, query);
      var rows := Within(Of(before, query.kind, query.protocol), query.from, query.until);
      RowsOneMore(table, query);
      hide *;
      SizesOneMore(table, query);
      AmountOneMore(table, query);
      OwnersOneMore(rows, last);
      AggregatesOneMore(rows, last);
    } else {
      assert Owners([]) == {};
    }
  }

  lemma RowsOneMore(table: seq<Claim>, query: Query)
    requires table != []
    ensures var before, last := table[..|table| - 1], table[|table| - 1];
            var rows := Within(Of(before, query.kind, query.protocol), query.from, query.until);
            Within(Of(table, query.kind, query.protocol), query.from, query.until) ==
            if query.Covers(last) then rows + [last] else rows
  {
    var before, last := table[..|table| - 1], table[|table| - 1];
    WithinOneMore(Of(before, query.kind, query.protocol), last, query.from, query.until);
    hide Within;
  }

  lemma AmountOneMore(table: seq<Claim>, query: Query)
    requires table != []
    ensures var last := table[|table| - 1];
            AmountOver(table, query) == AmountOver(table[..|table| - 1], query)
                                        + if query.Covers(last) && last.amount.Some? then last.amount.value else 0
  {
  }

  lemma SizesOneMore(table: seq<Claim>, query: Query)
    requires table != []
    ensures var before, last := table[..|table| - 1], table[|table| - 1];
            && |Claims(table, query)| == |Claims(before, query)| + (if query.Covers(last) then 1 else 0)
            && |ValuedClaims(table, query)| ==
               |ValuedClaims(before, query)| + (if query.Covers(last) && last.amount.Some? then 1 else 0)
  {
    OneMoreRow(table, query);
    hide Claims, ValuedClaims, Claimants, Query.Covers;
  }

  /** The totals of a period count the claims of its kind and protocol, those valued, their amounts, their owners. */
  lemma TotalsOfTheTable(table: seq<Claim>, query: Query)
    ensures TotalsOf(table, query.kind, query.from, query.until, query.protocol) ==
            Totals(|Claims(table, query)|, |ValuedClaims(table, query)|, AmountOver(table, query),
                   |Claimants(table, query)|)
  {
    RowsOfTheTable(table, query);
    hide Within, Of, Claims, ValuedClaims, Claimants, Owners, Valued, Sum, AmountOver;
  }

  // ---------------------------------------------------------------------
  // The series
  // ---------------------------------------------------------------------

  datatype SeriesBounds = SeriesBounds(from: int, asOf: int, coveredSince: int, width: nat)

  /** The start of the bucket an instant falls in, counted from `origin`. */
  function TimeBucket(width: nat, at: int, origin: int): int
    requires width > 0
  {
    origin + (at - origin) / width * width
  }

  /** `GROUP BY`: one pass over the rows, each put in its bucket's group. */
  function Grouped(rows: seq<Claim>, width: nat, origin: int): map<int, seq<Claim>>
    requires width > 0
  {
    if rows == [] then map[]
    else
      var groups, last := Grouped(rows[..|rows| - 1], width, origin), rows[|rows| - 1];
      var bucket := TimeBucket(width, last.at, origin);
      groups[bucket := (if bucket in groups then groups[bucket] else []) + [last]]
  }

  /** The buckets `generate_series` gives, joined to their group; 0 in one without. */
  function Joined(groups: map<int, seq<Claim>>, bucket: int, bounds: SeriesBounds): seq<Bucket>
    requires bounds.width > 0
    decreases bounds.asOf - bucket
  {
    if bucket > bounds.asOf - bounds.width then []
    else
      (if bucket >= bounds.coveredSince
       then [Bucket(bucket, if bucket in groups then Aggregate(groups[bucket]) else Totals(0, 0, 0, 0))]
       else [])
      + Joined(groups, bucket + bounds.width, bounds)
  }

  function ListSeries(table: seq<Claim>, kind: ClaimKind, bounds: SeriesBounds, protocol: int): seq<Bucket>
    requires bounds.width > 0
  {
    var read := Within(Of(table, kind, protocol), Max(bounds.from, bounds.coveredSince), bounds.asOf);
    Joined(Grouped(read, bounds.width, bounds.from), bounds.from, bounds)
  }

  // ---------------------------------------------------------------------
  // Each bucket is the totals of its period
  // ---------------------------------------------------------------------

  lemma InBucket(width: nat, at: int, origin: int, k: int)
    requires width > 0
    ensures TimeBucket(width, at, origin) == origin + k * width <==>
              origin + k * width <= at < origin + k * width + width
  {
    var q, r := (at - origin) / width, (at - origin) % width;
    assert at - origin == q * width + r;
    if q < k {
      assert (q + 1) * width <= k * width;
    } else if q > k {
      assert (k + 1) * width <= q * width;
    }
  }

  /** The group of a bucket holds the bucket's rows. */
  lemma {:induction false} GroupIsWithin(rows: seq<Claim>, width: nat, origin: int, k: int)
    requires width > 0
    ensures var bucket := origin + k * width;
            var within := Within(rows, bucket, bucket + width);
            if bucket in Grouped(rows, width, origin) then Grouped(rows, width, origin)[bucket] == within
            else within == []
  {
    if rows != [] {
      GroupIsWithin(rows[..|rows| - 1], width, origin, k);
      InBucket(width, rows[|rows| - 1].at, origin, k);
    }
  }

  lemma {:induction false} WithinWithin(rows: seq<Claim>, from: int, until: int, lo: int, hi: int)
    requires from <= lo && hi <= until
    ensures Within(Within(rows, from, until), lo, hi) == Within(rows, lo, hi)
  {
    if rows != [] {
      WithinWithin(rows[..|rows| - 1], from, until, lo, hi);
      WithinOneMore(Within(rows[..|rows| - 1], from, until), rows[|rows| - 1], lo, hi);
    }
  }

  /** The series bucket by bucket, each read by itself. */
  function BucketByBucket(rows: seq<Claim>, bucket: int, bounds: SeriesBounds): seq<Bucket>
    requires bounds.width > 0
    decreases bounds.asOf - bucket
  {
    if bucket > bounds.asOf - bounds.width then []
    else
      (if bucket >= bounds.coveredSince
       then [Bucket(bucket, Aggregate(Within(rows, bucket, bucket + bounds.width)))]
       else [])
      + BucketByBucket(rows, bucket + bounds.width, bounds)
  }

  lemma NothingAggregated()
    ensures Aggregate([]) == Totals(0, 0, 0, 0)
  {
    assert Owners([]) == {};
  }

  lemma GroupIsTheBucket(rows: seq<Claim>, bounds: SeriesBounds, k: nat)
    requires bounds.width > 0
    requires var bucket := bounds.from + k * bounds.width;
             bounds.coveredSince <= bucket && bucket + bounds.width <= bounds.asOf
    ensures var bucket := bounds.from + k * bounds.width;
            var groups := Grouped(Within(rows, Max(bounds.from, bounds.coveredSince), bounds.asOf), bounds.width,
                                  bounds.from);
            Aggregate(Within(rows, bucket, bucket + bounds.width)) ==
            if bucket in groups then Aggregate(groups[bucket]) else Totals(0, 0, 0, 0)
  {
    NothingAggregated();
    hide Grouped, Within, Aggregate;
    var bucket := bounds.from + k * bounds.width;
    var read := Within(rows, Max(bounds.from, bounds.coveredSince), bounds.asOf);
    assert k * bounds.width >= 0;
    WithinWithin(rows, Max(bounds.from, bounds.coveredSince), bounds.asOf, bucket, bucket + bounds.width);
    GroupIsWithin(read, bounds.width, bounds.from, k);
  }

  lemma {:induction false} JoinedIsBucketByBucket(rows: seq<Claim>, bounds: SeriesBounds, k: nat)
    requires bounds.width > 0
    ensures var groups := Grouped(Within(rows, Max(bounds.from, bounds.coveredSince), bounds.asOf), bounds.width,
                                  bounds.from);
            Joined(groups, bounds.from + k * bounds.width, bounds) ==
              BucketByBucket(rows, bounds.from + k * bounds.width, bounds)
    decreases bounds.asOf - (bounds.from + k * bounds.width)
  {
    hide Grouped, Within, Aggregate;
    var bucket := bounds.from + k * bounds.width;
    if bucket <= bounds.asOf - bounds.width {
      assert bounds.from + (k + 1) * bounds.width == bucket + bounds.width;
      JoinedIsBucketByBucket(rows, bounds, k + 1);
      if bucket >= bounds.coveredSince {
        GroupIsTheBucket(rows, bounds, k);
      }
    }
  }

  /** The `k`th position of a series. */
  function Position(bounds: SeriesBounds, k: nat): int {
    bounds.from + k * bounds.width
  }

  /** The bucket at the `k`th position is covered, and over by the end. */
  predicate Fits(bounds: SeriesBounds, k: nat) {
    bounds.coveredSince <= Position(bounds, k) && Position(bounds, k) + bounds.width <= bounds.asOf
  }

  predicate IsAt(series: seq<Bucket>, bounds: SeriesBounds, k: nat) {
    exists b :: b in series && b.from == Position(bounds, k)
  }

  /** From the `start`th position on, a bucket at each that fits and at no other, each a width after the one before. */
  ghost predicate Placed(series: seq<Bucket>, bounds: SeriesBounds, start: nat) {
    && (forall k: nat :: start <= k ==> (IsAt(series, bounds, k) <==> Fits(bounds, k)))
    && (forall b :: b in series ==> exists k: nat :: start <= k && b.from == Position(bounds, k))
    && (forall i :: 0 < i < |series| ==> After(series[i - 1], series[i], bounds.width))
    && (series != [] && Fits(bounds, start) ==> series[0].from == Position(bounds, start))
  }

  /**
   Read grouped, a series is what its buckets are, each the totals of its own period; there is one
   at every position covered and over by the end, and none elsewhere.
   */
  lemma SeriesIsItsBuckets(table: seq<Claim>, kind: ClaimKind, bounds: SeriesBounds, protocol: int)
    requires bounds.width > 0
    ensures var series := ListSeries(table, kind, bounds, protocol);
            && (forall b :: b in series ==>
                  b.value == TotalsOf(table, kind, b.from, b.from + bounds.width, protocol))
            && Placed(series, bounds, 0)
  {
    hide Grouped, Within, Aggregate, Of, Placed;
    JoinedIsBucketByBucket(Of(table, kind, protocol), bounds, 0);
    BucketsArePlaced(Of(table, kind, protocol), bounds, 0);
    BucketsHaveTheirTotals(Of(table, kind, protocol), bounds.from, bounds);
    assert forall b: Bucket :: HasItsTotals(Of(table, kind, protocol), b, bounds.width) ==>
        b.value == TotalsOf(table, kind, b.from, b.from + bounds.width, protocol);
  }

  predicate After(before: Bucket, b: Bucket, width: nat) {
    b.from == before.from + width
  }

  predicate HasItsTotals(rows: seq<Claim>, b: Bucket, width: nat) {
    b.value == Aggregate(Within(rows, b.from, b.from + width))
  }

  lemma {:induction false} BucketsHaveTheirTotals(rows: seq<Claim>, bucket: int, bounds: SeriesBounds)
    requires bounds.width > 0
    ensures forall b :: b in BucketByBucket(rows, bucket, bounds) ==> HasItsTotals(rows, b, bounds.width)
    decreases bounds.asOf - bucket
  {
    if bucket <= bounds.asOf - bounds.width {
      BucketsHaveTheirTotals(rows, bucket + bounds.width, bounds);
    }
  }

  lemma PositionsAscend(bounds: SeriesBounds, k: nat)
    ensures Position(bounds, k + 1) == Position(bounds, k) + bounds.width
    ensures forall j: nat :: k <= j ==> Position(bounds, k) <= Position(bounds, j)
    ensures forall j: nat :: k < j ==> Position(bounds, k) + bounds.width <= Position(bounds, j)
  {
    assert (k + 1) * bounds.width == k * bounds.width + bounds.width;
    forall j: nat | k < j
      ensures Position(bounds, k) + bounds.width <= Position(bounds, j)
    {
      MulMonotone(k + 1, bounds.width, j, bounds.width);
    }
  }

  lemma {:induction false} BucketsArePlaced(rows: seq<Claim>, bounds: SeriesBounds, k: nat)
    requires bounds.width > 0
    ensures Placed(BucketByBucket(rows, Position(bounds, k), bounds), bounds, k)
    decreases bounds.asOf - Position(bounds, k)
  {
    var bucket := Position(bounds, k);
    PositionsAscend(bounds, k);
    hide Within, Aggregate, Position, Placed;
    if bucket > bounds.asOf - bounds.width {
      PlacedNone(bounds, k);
    } else {
      var first := Bucket(bucket, Aggregate(Within(rows, bucket, bucket + bounds.width)));
      var rest := BucketByBucket(rows, Position(bounds, k + 1), bounds);
      assert BucketByBucket(rows, bucket, bounds) == (if bucket >= bounds.coveredSince then [first] else []) + rest;
      hide BucketByBucket;
      BucketsArePlaced(rows, bounds, k + 1);
      PlacedOneMore(first, rest, bounds, k);
      assert [] + rest == rest;
    }
  }

  lemma PlacedNone(bounds: SeriesBounds, k: nat)
    requires bounds.width > 0 && Position(bounds, k) > bounds.asOf - bounds.width
    ensures Placed([], bounds, k)
  {
    PositionsAscend(bounds, k);
  }

  lemma PlacedOneMore(first: Bucket, rest: seq<Bucket>, bounds: SeriesBounds, k: nat)
    requires bounds.width > 0 && first.from == Position(bounds, k) <= bounds.asOf - bounds.width
    requires Placed(rest, bounds, k + 1)
    ensures Placed(if first.from >= bounds.coveredSince then [first] + rest else rest, bounds, k)
  {
    var series := if first.from >= bounds.coveredSince then [first] + rest else rest;
    PositionsAscend(bounds, k);
    PositionsAscend(bounds, k + 1);
    hide Position;
    FirstFollows(first, rest, bounds, k);
    assert first.from >= bounds.coveredSince ==> series[0] == first && first in series;
    forall j: nat | k <= j
      ensures IsAt(series, bounds, j) <==> Fits(bounds, j)
    {
      assert IsAt(series, bounds, j) <==> IsAt(rest, bounds, j) || (j == k && first.from >= bounds.coveredSince);
      if j == k && IsAt(rest, bounds, k) {
        assert false;
      }
    }
    forall i | 0 < i < |series|
      ensures After(series[i - 1], series[i], bounds.width)
    {
      assert first.from >= bounds.coveredSince && i > 1 ==> After(rest[i - 2], rest[i - 1], bounds.width);
    }
  }

  /** After a bucket that is covered, the next is a width later. */
  lemma FirstFollows(first: Bucket, rest: seq<Bucket>, bounds: SeriesBounds, k: nat)
    requires bounds.width > 0 && first.from == Position(bounds, k) <= bounds.asOf - bounds.width
    requires Placed(rest, bounds, k + 1)
    ensures first.from >= bounds.coveredSince && rest != [] ==> After(first, rest[0], bounds.width)
  {
    PositionsAscend(bounds, k);
    PositionsAscend(bounds, k + 1);
    hide Position;
    if first.from >= bounds.coveredSince && rest != [] {
      assert rest[0] in rest;
      var j: nat :| k + 1 <= j && rest[0].from == Position(bounds, j);
      assert IsAt(rest, bounds, j);
      assert Fits(bounds, k + 1);
    }
  }

  // ---------------------------------------------------------------------
  // The buckets add up to the period
  // ---------------------------------------------------------------------

  function SumOf(series: seq<Bucket>): Totals {
    if series == [] then Totals(0, 0, 0, 0)
    else
      var rest, first := SumOf(series[1..]), series[0].value;
      Totals(first.claims + rest.claims, first.claimsValued + rest.claimsValued, first.amount + rest.amount,
             first.owners + rest.owners)
  }

  lemma {:induction false} SplitAt(rows: seq<Claim>, lo: int, mid: int, hi: int)
    requires lo <= mid <= hi
    ensures var whole, left, right := Within(rows, lo, hi), Within(rows, lo, mid), Within(rows, mid, hi);
            && |whole| == |left| + |right|
            && Valued(whole) == Valued(left) + Valued(right)
            && Sum(whole) == Sum(left) + Sum(right)
            && Owners(whole) == Owners(left) + Owners(right)
  {
    if rows != [] {
      var init, last := rows[..|rows| - 1], rows[|rows| - 1];
      SplitAt(init, lo, mid, hi);
      OneMore(Within(init, lo, hi), last);
      OneMore(Within(init, lo, mid), last);
      OneMore(Within(init, mid, hi), last);
    }
  }

  lemma OneMore(rows: seq<Claim>, last: Claim)
    ensures Valued(rows + [last]) == Valued(rows) + if last.amount.Some? then 1 else 0
    ensures Sum(rows + [last]) == Sum(rows) + if last.amount.Some? then last.amount.value else 0
    ensures Owners(rows + [last]) == Owners(rows) + {last.owner}
  {
    var more := rows + [last];
    assert more[..|rows|] == rows;
    assert forall i :: 0 <= i < |rows| ==> more[i] == rows[i];
    assert more[|rows|] == last;
  }

  lemma UnionSize(a: set<int>, b: set<int>)
    ensures |a + b| <= |a| + |b|
    ensures |a + b| == |a| + |b| <==> a !! b
  {
    assert a + b == a + (b - a);
    assert b == (b - a) + (b * a);
    assert |b| == |b - a| + |b * a|;
  }

  lemma OwnersOfSplit(rows: seq<Claim>, lo: int, mid: int, hi: int)
    requires lo <= mid <= hi
    ensures var whole, left, right := |Owners(Within(rows, lo, hi))|, |Owners(Within(rows, lo, mid))|,
                                        |Owners(Within(rows, mid, hi))|;
            && whole <= left + right
            && (whole == left + right <==> Owners(Within(rows, lo, mid)) !! Owners(Within(rows, mid, hi)))
            && right <= whole
  {
    SplitAt(rows, lo, mid, hi);
    hide Within, Owners;
    var a, b := Owners(Within(rows, lo, mid)), Owners(Within(rows, mid, hi));
    UnionSize(a, b);
    assert a + b == (a - b) + b;
  }

  /** Each owner claims in one bucket only. */
  predicate OneBucketEach(rows: seq<Claim>, bucket: int, bounds: SeriesBounds)
    requires bounds.width > 0
    decreases bounds.asOf - bucket
  {
    bucket > bounds.asOf - bounds.width ||
    (var next := bucket + bounds.width;
     Owners(Within(rows, bucket, next)) !! Owners(Within(rows, next, bounds.asOf)) && OneBucketEach(rows, next, bounds))
  }

  /** What is left from `bucket` is `n` widths. */
  predicate Divides(bounds: SeriesBounds, bucket: int, n: nat) {
    bucket + n * bounds.width == bounds.asOf
  }

  lemma {:induction false} RowsAddUp(rows: seq<Claim>, bucket: int, bounds: SeriesBounds, n: nat)
    requires bounds.width > 0 && bounds.coveredSince <= bucket && Divides(bounds, bucket, n)
    ensures var sum, whole := SumOf(BucketByBucket(rows, bucket, bounds)), Within(rows, bucket, bounds.asOf);
            && |BucketByBucket(rows, bucket, bounds)| == n
            && sum.claims == |whole| && sum.claimsValued == Valued(whole) && sum.amount == Sum(whole)
    decreases n
  {
    if n == 0 {
      NothingWithin(rows, bucket);
    } else {
      hide Divides, Within, Valued, Sum, Owners, BucketByBucket, SumOf;
      var next := bucket + bounds.width;
      OneLess(bucket, bounds, n);
      RowsAddUp(rows, next, bounds, n - 1);
      FirstBucket(rows, bucket, bounds);
      SplitAt(rows, bucket, next, bounds.asOf);
    }
  }

  /** An owner is counted in every bucket it claims in. */
  lemma {:induction false} OwnersAddUp(rows: seq<Claim>, bucket: int, bounds: SeriesBounds, n: nat)
    requires bounds.width > 0 && bounds.coveredSince <= bucket && Divides(bounds, bucket, n)
    ensures var sum := SumOf(BucketByBucket(rows, bucket, bounds)).owners;
            var whole := |Owners(Within(rows, bucket, bounds.asOf))|;
            sum >= whole && (sum == whole <==> OneBucketEach(rows, bucket, bounds))
    decreases n
  {
    if n == 0 {
      NothingWithin(rows, bucket);
      NothingAggregated();
    } else {
      hide Divides, Within, Valued, Sum, Owners, BucketByBucket, SumOf;
      var next := bucket + bounds.width;
      OneLess(bucket, bounds, n);
      OwnersAddUp(rows, next, bounds, n - 1);
      FirstBucket(rows, bucket, bounds);
      OwnersOfSplit(rows, bucket, next, bounds.asOf);
      OneBucketFirst(rows, bucket, bounds);
      hide OneBucketEach;
    }
  }

  lemma OneBucketFirst(rows: seq<Claim>, bucket: int, bounds: SeriesBounds)
    requires bounds.width > 0 && bucket <= bounds.asOf - bounds.width
    ensures var next := bucket + bounds.width;
            OneBucketEach(rows, bucket, bounds) <==>
            && Owners(Within(rows, bucket, next)) !! Owners(Within(rows, next, bounds.asOf))
            && OneBucketEach(rows, next, bounds)
  {
  }

  lemma OneLess(bucket: int, bounds: SeriesBounds, n: nat)
    requires n > 0 && Divides(bounds, bucket, n)
    ensures Divides(bounds, bucket + bounds.width, n - 1)
    ensures bucket + bounds.width <= bounds.asOf
  {
    assert (n - 1) * bounds.width >= 0;
  }

  lemma FirstBucket(rows: seq<Claim>, bucket: int, bounds: SeriesBounds)
    requires bounds.width > 0 && bounds.coveredSince <= bucket <= bounds.asOf - bounds.width
    ensures var series := BucketByBucket(rows, bucket, bounds);
            var rest := BucketByBucket(rows, bucket + bounds.width, bounds);
            var first, sum := Aggregate(Within(rows, bucket, bucket + bounds.width)), SumOf(rest);
            && |series| == |rest| + 1
            && SumOf(series) == Totals(first.claims + sum.claims, first.claimsValued + sum.claimsValued,
                                       first.amount + sum.amount, first.owners + sum.owners)
  {
    hide Within, Aggregate;
    assert BucketByBucket(rows, bucket, bounds)[1..] == BucketByBucket(rows, bucket + bounds.width, bounds);
  }

  lemma {:induction false} NothingWithin(rows: seq<Claim>, at: int)
    ensures Within(rows, at, at) == []
  {
    if rows != [] {
      NothingWithin(rows[..|rows| - 1], at);
    }
  }

  /**
   When the width divides a fully covered period, claims and amounts add up to it; owners do exactly
   when each claims in one bucket.
   */
  lemma SeriesAddsUp(table: seq<Claim>, kind: ClaimKind, bounds: SeriesBounds, protocol: int, n: nat)
    requires bounds.width > 0 && bounds.coveredSince <= bounds.from && Divides(bounds, bounds.from, n)
    ensures var sum := SumOf(ListSeries(table, kind, bounds, protocol));
            var whole := TotalsOf(table, kind, bounds.from, bounds.asOf, protocol);
            && |ListSeries(table, kind, bounds, protocol)| == n
            && sum.claims == whole.claims && sum.claimsValued == whole.claimsValued && sum.amount == whole.amount
            && sum.owners >= whole.owners
            && (sum.owners == whole.owners <==> OneBucketEach(Of(table, kind, protocol), bounds.from, bounds))
  {
    hide Grouped, Within, Valued, Sum, Owners, Of, Joined, BucketByBucket, SumOf, OneBucketEach, Divides;
    JoinedIsBucketByBucket(Of(table, kind, protocol), bounds, 0);
    RowsAddUp(Of(table, kind, protocol), bounds.from, bounds, n);
    OwnersAddUp(Of(table, kind, protocol), bounds.from, bounds, n);
  }
}
