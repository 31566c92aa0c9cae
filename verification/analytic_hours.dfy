/** When a recorded hour is the sum of its tranches, and what it then says of them (`analytic.rs:167-268`). */
module AnalyticHours {
  import opened Prelude
  import opened Analytic
  import opened AnalyticRuns

  // ---------------------------------------------------------------------
  // Every recorded hour, and when a cycle leaves one behind
  // ---------------------------------------------------------------------

  ghost predicate AllRolled(db: Tables) {
    forall h :: h in db.hours ==> RolledHour(db, h)
  }

  /** No tranche valued lies in an hour recorded past the cycle's last one. */
  ghost predicate LeavesNoneBehind(db: Tables, c: CycleWrite, values: map<Slot, Fact>) {
    forall s :: s in values && c.tranchesFrom <= s.bucket <= c.tranchesThrough && HourOf(s.bucket) in db.hours
      ==> HourOf(s.bucket) <= c.through
  }

  lemma {:induction false} OverBucketsGrows(a: map<Slot, Fact>, b: map<Slot, Fact>, pool: Pool, low: int, high: int,
                                            extra: int)
    requires forall t :: low <= t < high && Slot(pool, t) in a ==> AgreeAt(a, b, Slot(pool, t))
    requires low <= extra < high ==> Slot(pool, extra) in b && Slot(pool, extra) !in a && b[Slot(pool, extra)].swaps > 0
    ensures OverBuckets(a, pool, low, high).swaps + (if low <= extra < high then 1 else 0) <=
            OverBuckets(b, pool, low, high).swaps
    decreases high - low
  {
    hide AddUsd, TallyAt, AgreeAt;
    if low < high {
      OverBucketsGrows(a, b, pool, low, high - 1, extra);
      TallyAtGrows(a, b, Slot(pool, high - 1));
    }
  }

  lemma TallyAtGrows(a: map<Slot, Fact>, b: map<Slot, Fact>, s: Slot)
    requires s in a ==> AgreeAt(a, b, s)
    ensures TallyAt(a, s).swaps <= TallyAt(b, s).swaps
    ensures s !in a && s in b ==> TallyAt(b, s).swaps == TallyAt(a, s).swaps + b[s].swaps
  {
  }

  lemma LeftBehind(db: Tables, c: CycleWrite, values: map<Slot, Fact>, s: Slot)
    requires Valid(db) && ValidRows(values, db.pools) && Trimmed(db, c)
    requires s in values && c.tranchesFrom <= s.bucket <= c.tranchesThrough
    requires RolledHour(db, HourOf(s.bucket)) && HourOf(s.bucket) > c.through
    ensures !RolledHour(CycleTables(db, c, values), HourOf(s.bucket))
  {
    hide CycleTables, PoolHourRows, ProtocolHourRows, PeriodRows, Series, FrozenWhole, OverBuckets;
    var after, h := CycleTables(db, c, values), HourOf(s.bucket);
    CycleFields(db, c, values);
    PoolHourRowsRange(after.tranches, c.from, c.through);
    assert AgreeAt(db.poolHours, after.poolHours, Slot(s.pool, h));
    var low, high := h * TRANCHES_PER_HOUR, (h + 1) * TRANCHES_PER_HOUR;
    assert s !in db.tranches && s == Slot(s.pool, s.bucket);
    forall t | low <= t < high && Slot(s.pool, t) in db.tranches
      ensures AgreeAt(db.tranches, after.tranches, Slot(s.pool, t))
    {
    }
    OverBucketsGrows(db.tranches, after.tranches, s.pool, low, high, s.bucket);
    OverBucketsRows(after.tranches, s.pool, low, high);
    assert RolledPool(db, s.pool, h);
    assert !RolledPool(after, s.pool, h);
  }

  /**
   A cycle leaves every recorded hour the sum of its tranches exactly when no tranche it values
   lies in a recorded hour past its last one.
   */
  lemma RecordedHoursRolled(db: Tables, planned: CycleWrite, values: map<Slot, Fact>)
    requires Valid(db) && AllRolled(db) && ValidRows(values, db.pools)
    ensures var c := planned.WithoutWritten(ProgressOf(db));
            AllRolled(CycleTables(db, c, values)) <==> LeavesNoneBehind(db, c, values)
  {
    hide CycleTables, RolledHour, CycleWrite.WithoutWritten, ProgressOf, HourUntouched, FrozenWhole, HourSlots;
    var c := planned.WithoutWritten(ProgressOf(db));
    var after := CycleTables(db, c, values);
    WithoutWrittenTrims(db, planned, ProgressOf(db));
    if LeavesNoneBehind(db, c, values) {
      forall h | h in after.hours
        ensures RolledHour(after, h)
      {
        CycleHours(db, c, values, h);
        if c.from <= h <= c.through {
          RangeRolled(db, c, values, h);
        } else {
          OutsideHourKept(db, c, values, h);
        }
      }
    } else {
      var s :| s in values && c.tranchesFrom <= s.bucket <= c.tranchesThrough && HourOf(s.bucket) in db.hours
               && HourOf(s.bucket) > c.through;
      LeftBehind(db, c, values, s);
      CycleHours(db, c, values, HourOf(s.bucket));
    }
  }

  lemma OutsideHourKept(db: Tables, c: CycleWrite, values: map<Slot, Fact>, hour: int)
    requires Trimmed(db, c) && LeavesNoneBehind(db, c, values)
    requires hour in db.hours && !(c.from <= hour <= c.through) && RolledHour(db, hour)
    ensures RolledHour(CycleTables(db, c, values), hour)
  {
    hide CycleTables, RolledHour;
    if hour < c.from {
      BelowUntouched(db, c, values, hour);
    } else {
      OutsideUntouched(db, c, values, hour);
    }
    UntouchedStaysRolled(db, CycleTables(db, c, values), hour);
  }

  /**
   Two cycles from empty tables: the first records hours 0 and 1, the second values the first tranche
   of hour 1 and rewrites hour 0 only, leaving hour 1 without its swap.
   */
  lemma ACycleLeavesAnHourBehind()
    ensures var none: map<Slot, Fact> := map[];
            var swap := map[Slot(0, 12) := Fact(1, None)];
            var first := CycleTables(Empty(1), CycleWrite(0, 0, 0, 1, None, 7).WithoutWritten(ProgressOf(Empty(1))),
                                     none);
            var second := CycleTables(first, CycleWrite(1, 12, 0, 0, None, 8).WithoutWritten(ProgressOf(first)), swap);
            AllRolled(first) && 1 in second.hours && !RolledHour(second, 1) && !AllRolled(second)
  {
    var none: map<Slot, Fact> := map[];
    var swap := map[Slot(0, 12) := Fact(1, None)];
    var db, c := Empty(1), CycleWrite(0, 0, 0, 1, None, 7);
    EmptyProgress(db);
    EmptyIsValid(1);
    assert db.pools == 1 && db.hours == map[] && db.ledger == map[];
    assert swap.Keys == {Slot(0, 12)} && ValidRows(none, 1);
    var second := CycleWrite(1, 12, 0, 0, None, 8);
    FirstIsWhole(c);
    SecondIsWhole(second);
    assert LeavesNoneBehind(db, c, none) && AllRolled(db);
    hide CycleTables, RolledHour, ProgressOf, Valid, CycleWrite.WithoutWritten, ValidRows, LeavesNoneBehind, Empty;
    AnyCycleKeeps(db, c, none);
    RecordedHoursRolled(db, c, none);
    var first := CycleTables(db, c, none);
    FirstCycle(db, c, none);
    SecondCycle(first, second, swap);
  }

  lemma FirstIsWhole(c: CycleWrite)
    requires c == CycleWrite(0, 0, 0, 1, None, 7)
    ensures c.WithoutWritten(Progress(None, None, None)) == c
  {
  }

  lemma SecondIsWhole(c: CycleWrite)
    requires c == CycleWrite(1, 12, 0, 0, None, 8)
    ensures c.WithoutWritten(Progress(Some(0), None, Some(0))) == c
  {
  }

  lemma ProgressUnique(db: Tables, p: Progress, q: Progress)
    requires IsProgress(db, p) && IsProgress(db, q)
    ensures p == q
  {
    ExtremeUnique(db.hours.Keys, p.firstHour, q.firstHour);
    ExtremeUnique(FrozenHours(db), p.lastFrozen, q.lastFrozen);
    ExtremeUnique(db.ledger.Keys, p.lastTranche, q.lastTranche);
  }

  lemma ExtremeUnique(s: set<int>, a: Option<int>, b: Option<int>)
    ensures IsMax(s, a) && IsMax(s, b) ==> a == b
    ensures IsMin(s, a) && IsMin(s, b) ==> a == b
  {
  }

  lemma EmptyProgress(db: Tables)
    requires db.hours == map[] && db.ledger == map[]
    ensures ProgressOf(db) == Progress(None, None, None)
  {
    hide ProgressOf;
    ProgressUnique(db, ProgressOf(db), Progress(None, None, None));
  }

  lemma FirstCycle(db: Tables, c: CycleWrite, values: map<Slot, Fact>)
    requires db.pools == 1 && db.hours == map[] && db.ledger == map[] && c == CycleWrite(0, 0, 0, 1, None, 7)
    ensures var first := CycleTables(db, c, values);
            first.pools == 1 && 1 in first.hours && ProgressOf(first) == Progress(Some(0), None, Some(0))
  {
    var first := CycleTables(db, c, values);
    hide CycleTables, ProgressOf, PoolHourRows, ProtocolHourRows, PeriodRows, Rows, Series;
    CycleFields(db, c, values);
    assert forall t :: t in first.ledger <==> t == 0;
    forall h
      ensures h in first.hours <==> 0 <= h <= 1
      ensures !IsFrozen(first, h)
    {
      CycleHours(db, c, values, h);
    }
    assert IsMin(first.hours.Keys, Some(0)) && IsMax(FrozenHours(first), None) && IsMax(first.ledger.Keys, Some(0));
    hide IsMin, IsMax;
    ProgressUnique(first, ProgressOf(first), Progress(Some(0), None, Some(0)));
  }

  lemma SecondCycle(first: Tables, c: CycleWrite, values: map<Slot, Fact>)
    requires Valid(first) && AllRolled(first) && first.pools == 1 && 1 in first.hours
    requires c == CycleWrite(1, 12, 0, 0, None, 8) == c.WithoutWritten(ProgressOf(first))
    requires values.Keys == {Slot(0, 12)} && values[Slot(0, 12)].swaps > 0
    ensures var second := CycleTables(first, c, values);
            1 in second.hours && !RolledHour(second, 1)
  {
    hide CycleTables, RolledHour, ProgressOf, Valid, CycleWrite.WithoutWritten, Trimmed, IsProgress;
    var s := Slot(0, 12);
    assert HourOf(s.bucket) == 1;
    WithoutWrittenTrims(first, c, ProgressOf(first));
    LeftBehind(first, c, values, s);
    CycleHours(first, c, values, 1);
  }

  /** A catch-up plan: 72 tranches from the middle of an hour reach past its 6 hours. */
  lemma CatchUpValuesPastItsHours()
    ensures var now := 20 * HOUR_SECONDS + 1800;
            var c := Plan(now, Progress(Some(0), Some(8), Some(9 * 12 + 5)));
            && c.from == 9 && c.through == 14
            && c.tranchesFrom == 9 * 12 + 6 && HourOf(c.tranchesThrough) == 15
  {
  }

  // ---------------------------------------------------------------------
  // What a rolled hour says of its tranches
  // ---------------------------------------------------------------------

  /** Every row of the tranches `low..high`, pool after pool within each. */
  function OverRows(tranches: map<Slot, Fact>, pools: nat, low: int, high: int): Tally
    decreases high - low
  {
    if high <= low then NOTHING
    else Add(OverRows(tranches, pools, low, high - 1), OverPools(tranches, pools, high - 1))
  }

  /** The same rows, tranche after tranche within each pool. */
  function ByPool(tranches: map<Slot, Fact>, pools: nat, low: int, high: int): Tally {
    if pools == 0 then NOTHING
    else Add(ByPool(tranches, pools - 1, low, high), OverBuckets(tranches, pools - 1, low, high))
  }

  lemma AddLaws(a: Tally, b: Tally, c: Tally, d: Tally)
    ensures Add(Add(a, b), Add(c, d)) == Add(Add(a, c), Add(b, d))
    ensures Add(a, NOTHING) == a
  {
  }

  lemma {:induction false} NoBuckets(tranches: map<Slot, Fact>, pools: nat, low: int, high: int)
    requires high <= low
    ensures ByPool(tranches, pools, low, high) == NOTHING
  {
    hide Add;
    if pools > 0 {
      NoBuckets(tranches, pools - 1, low, high);
      AddLaws(NOTHING, NOTHING, NOTHING, NOTHING);
    }
  }

  lemma {:induction false} ByPoolStep(tranches: map<Slot, Fact>, pools: nat, low: int, high: int)
    requires low < high
    ensures ByPool(tranches, pools, low, high) ==
            Add(ByPool(tranches, pools, low, high - 1), OverPools(tranches, pools, high - 1))
  {
    hide Add, TallyAt;
    if pools == 0 {
      AddLaws(NOTHING, NOTHING, NOTHING, NOTHING);
    } else {
      ByPoolStep(tranches, pools - 1, low, high);
      AddLaws(ByPool(tranches, pools - 1, low, high - 1), OverPools(tranches, pools - 1, high - 1),
              OverBuckets(tranches, pools - 1, low, high - 1), TallyAt(tranches, Slot(pools - 1, high - 1)));
    }
  }

  lemma {:induction false} SumsExchange(tranches: map<Slot, Fact>, pools: nat, low: int, high: int)
    ensures ByPool(tranches, pools, low, high) == OverRows(tranches, pools, low, high)
    decreases high - low
  {
    hide ByPool;
    if low < high {
      SumsExchange(tranches, pools, low, high - 1);
      ByPoolStep(tranches, pools, low, high);
    } else {
      NoBuckets(tranches, pools, low, high);
    }
  }

  lemma {:induction false} AllValued(tranches: map<Slot, Fact>, pool: Pool, low: int, high: int)
    ensures var t := OverBuckets(tranches, pool, low, high);
            t.valued <= t.rows && (t.valued == t.rows <==> NoneUnvalued(tranches, pool, low, high))
    decreases high - low
  {
    hide AddUsd;
    if low < high {
      AllValued(tranches, pool, low, high - 1);
      NoneUnvaluedStep(tranches, pool, low, high);
    }
  }

  ghost predicate NoneUnvalued(tranches: map<Slot, Fact>, pool: Pool, low: int, high: int) {
    forall b :: low <= b < high && Slot(pool, b) in tranches ==> tranches[Slot(pool, b)].usd.Some?
  }

  lemma NoneUnvaluedStep(tranches: map<Slot, Fact>, pool: Pool, low: int, high: int)
    requires low < high
    ensures NoneUnvalued(tranches, pool, low, high)
       <==> NoneUnvalued(tranches, pool, low, high - 1)
            && (Slot(pool, high - 1) in tranches ==> tranches[Slot(pool, high - 1)].usd.Some?)
  {
  }

  /** A rolled pool-hour: there when the pool traded, its amounts there when every tranche of it is valued. */
  lemma PoolHourOfTranches(db: Tables, pool: Pool, hour: int)
    requires RolledHour(db, hour) && pool < db.pools
    ensures var low, high := hour * TRANCHES_PER_HOUR, (hour + 1) * TRANCHES_PER_HOUR;
            && (Slot(pool, hour) in db.poolHours <==> HasRow(db.tranches, pool, low, high))
            && (Slot(pool, hour) in db.poolHours ==>
                  var fact := db.poolHours[Slot(pool, hour)];
                  && fact.swaps == OverBuckets(db.tranches, pool, low, high).swaps
                  && (fact.usd.Some? <==> NoneUnvalued(db.tranches, pool, low, high))
                  && (fact.usd.Some? ==> fact.usd.value == OverBuckets(db.tranches, pool, low, high).usd))
  {
    hide OverBuckets, OverPools;
    var low, high := hour * TRANCHES_PER_HOUR, (hour + 1) * TRANCHES_PER_HOUR;
    assert RolledPool(db, pool, hour);
    OverBucketsRows(db.tranches, pool, low, high);
    AllValued(db.tranches, pool, low, high);
  }

  /** The pools of an hour with rows, and those with every row valued: their number and amounts. */
  function FullyValued(tranches: map<Slot, Fact>, pools: nat, hour: int): Tally {
    if pools == 0 then NOTHING
    else Add(FullyValued(tranches, pools - 1, hour), AsPoolHour(HourTally(tranches, pools - 1, hour)))
  }

  /** A pool's hour, as a row of its own. */
  function AsPoolHour(t: Tally): Tally {
    if t.rows == 0 then NOTHING
    else if t.valued == t.rows then Tally(1, 1, t.swaps, t.usd)
    else Tally(1, 0, t.swaps, NO_USD)
  }

  lemma {:induction false} PoolHoursTally(db: Tables, pools: nat, hour: int)
    requires pools <= db.pools && forall p :: 0 <= p < db.pools ==> RolledPool(db, p, hour)
    ensures OverPools(db.poolHours, pools, hour) == FullyValued(db.tranches, pools, hour)
  {
    hide HourTally;
    if pools > 0 {
      PoolHoursTally(db, pools - 1, hour);
      assert RolledPool(db, pools - 1, hour);
    }
  }

  lemma {:induction false} SwapsByPool(tranches: map<Slot, Fact>, pools: nat, hour: int)
    ensures FullyValued(tranches, pools, hour).swaps
         == ByPool(tranches, pools, hour * TRANCHES_PER_HOUR, (hour + 1) * TRANCHES_PER_HOUR).swaps
  {
    hide AddUsd, TallyAt;
    if pools > 0 {
      SwapsByPool(tranches, pools - 1, hour);
      NoRowsNoSwaps(tranches, pools - 1, hour * TRANCHES_PER_HOUR, (hour + 1) * TRANCHES_PER_HOUR);
    }
  }

  lemma {:induction false} NoRowsNoSwaps(tranches: map<Slot, Fact>, pool: Pool, low: int, high: int)
    ensures OverBuckets(tranches, pool, low, high).rows == 0 ==> OverBuckets(tranches, pool, low, high).swaps == 0
    decreases high - low
  {
    hide Add, TallyAt;
    if low < high {
      NoRowsNoSwaps(tranches, pool, low, high - 1);
      NoRowsAdded(OverBuckets(tranches, pool, low, high - 1), tranches, Slot(pool, high - 1));
    }
  }

  lemma NoRowsAdded(t: Tally, tranches: map<Slot, Fact>, s: Slot)
    requires t.rows == 0 ==> t.swaps == 0
    ensures Add(t, TallyAt(tranches, s)).rows == 0 ==> Add(t, TallyAt(tranches, s)).swaps == 0
  {
    hide AddUsd;
  }

  /**
   A rolled hour, read from its tranches: its swaps are all theirs, in any order of summing; its
   amounts are zero only when no pool traded, absent exactly when pools traded and none has all
   its tranches valued, and otherwise the sums over the pools that have.
   */
  lemma ProtocolHourOfTranches(db: Tables, hour: int)
    requires RolledHour(db, hour)
    ensures var fact, t := db.protocolHours[hour], FullyValued(db.tranches, db.pools, hour);
            && fact.swaps == OverRows(db.tranches, db.pools, hour * TRANCHES_PER_HOUR,
                                      (hour + 1) * TRANCHES_PER_HOUR).swaps
            && fact.activePools == t.rows && fact.activePoolsValued == t.valued
            && (fact.usd.None? <==> t.rows > 0 && t.valued == 0)
            && (t.rows == 0 ==> fact.usd == Some(HourUsd(0.0, 0.0, 0.0, 0.0, 0.0)))
            && (t.valued > 0 ==> fact.usd.Some? && fact.usd.value.volume == t.usd.volumeA + t.usd.volumeB
                                 && fact.usd.value.fees == t.usd.fees && fact.usd.value.lpFees == t.usd.lpFees
                                 && fact.usd.value.protocolFees == t.usd.protocolFees
                                 && fact.usd.value.referralFees == t.usd.referralFees)
  {
    hide HourTally, FullyValued, OverPools, ByPool, OverRows;
    PoolHoursTally(db, db.pools, hour);
    SwapsByPool(db.tranches, db.pools, hour);
    SumsExchange(db.tranches, db.pools, hour * TRANCHES_PER_HOUR, (hour + 1) * TRANCHES_PER_HOUR);
    ValuedHaveRows(db.tranches, db.pools, hour);
  }

  lemma {:induction false} ValuedHaveRows(tranches: map<Slot, Fact>, pools: nat, hour: int)
    ensures FullyValued(tranches, pools, hour).valued <= FullyValued(tranches, pools, hour).rows
  {
    hide HourTally, AddUsd;
    if pools > 0 {
      ValuedHaveRows(tranches, pools - 1, hour);
    }
  }

  // ---------------------------------------------------------------------
  // The same, over the rows alone
  // ---------------------------------------------------------------------

  datatype Column = Swaps | VolumeA | VolumeB | Fees | LpFees | ProtocolFees | ReferralFees

  function AmountIn(usd: Usd, column: Column): real {
    match column
    case Swaps => 0.0
    case VolumeA => usd.volumeA
    case VolumeB => usd.volumeB
    case Fees => usd.fees
    case LpFees => usd.lpFees
    case ProtocolFees => usd.protocolFees
    case ReferralFees => usd.referralFees
  }

  /** A row's amount; a row that is not there, or not valued, has none. */
  function AmountAt(table: map<Slot, Fact>, s: Slot, column: Column): real {
    if s !in table then 0.0
    else if column == Swaps then table[s].swaps as real
    else match table[s].usd
         case Some(usd) => AmountIn(usd, column)
         case None => 0.0
  }

  function Sum(amounts: int -> real, low: int, high: int): real
    decreases high - low
  {
    if high <= low then 0.0 else Sum(amounts, low, high - 1) + amounts(high - 1)
  }

  /** A pool's amounts in the tranches of an hour. */
  function PoolSum(tranches: map<Slot, Fact>, pool: Pool, hour: int, column: Column): real {
    Sum(Amounts(tranches, pool, column), hour * TRANCHES_PER_HOUR, (hour + 1) * TRANCHES_PER_HOUR)
  }

  function Amounts(table: map<Slot, Fact>, pool: Pool, column: Column): int -> real {
    (b: int) => AmountAt(table, Slot(pool, b), column)
  }

  function InTally(t: Tally, column: Column): real {
    if column == Swaps then t.swaps as real else AmountIn(t.usd, column)
  }

  lemma InAdd(a: Tally, b: Tally, column: Column)
    ensures InTally(Add(a, b), column) == InTally(a, column) + InTally(b, column)
  {
  }

  lemma InTallyAt(table: map<Slot, Fact>, s: Slot, column: Column)
    ensures InTally(TallyAt(table, s), column) == AmountAt(table, s, column)
  {
  }

  lemma {:induction false} BucketsSum(table: map<Slot, Fact>, pool: Pool, low: int, high: int, column: Column)
    ensures InTally(OverBuckets(table, pool, low, high), column) == Sum(Amounts(table, pool, column), low, high)
    decreases high - low
  {
    hide Add, TallyAt;
    if low < high {
      BucketsSum(table, pool, low, high - 1, column);
      InTallyAt(table, Slot(pool, high - 1), column);
      InAdd(OverBuckets(table, pool, low, high - 1), TallyAt(table, Slot(pool, high - 1)), column);
      hide InTally, AmountAt;
    }
  }

  /** A rolled pool-hour's swaps and amounts are the sums of its twelve tranches'. */
  lemma PoolHourSums(db: Tables, pool: Pool, hour: int, column: Column)
    requires RolledHour(db, hour) && pool < db.pools && Slot(pool, hour) in db.poolHours
    ensures var fact := db.poolHours[Slot(pool, hour)];
            && fact.swaps as real == PoolSum(db.tranches, pool, hour, Swaps)
            && (fact.usd.Some? && column != Swaps ==>
                  AmountIn(fact.usd.value, column) == PoolSum(db.tranches, pool, hour, column))
  {
    var low, high := hour * TRANCHES_PER_HOUR, (hour + 1) * TRANCHES_PER_HOUR;
    hide RolledHour, OverBuckets, Sum, Amounts;
    BucketsSum(db.tranches, pool, low, high, Swaps);
    BucketsSum(db.tranches, pool, low, high, column);
    PoolHourOfTranches(db, pool, hour);
  }

  ghost predicate Traded(tranches: map<Slot, Fact>, pool: Pool, hour: int) {
    HasRow(tranches, pool, hour * TRANCHES_PER_HOUR, (hour + 1) * TRANCHES_PER_HOUR)
  }

  /** Traded, and with no tranche unvalued. */
  ghost predicate Valued(tranches: map<Slot, Fact>, pool: Pool, hour: int) {
    Traded(tranches, pool, hour)
    && NoneUnvalued(tranches, pool, hour * TRANCHES_PER_HOUR, (hour + 1) * TRANCHES_PER_HOUR)
  }

  /** The amounts of the pools valued; the swaps of all of them. */
  ghost function HourSum(tranches: map<Slot, Fact>, pools: nat, hour: int, column: Column): real {
    if pools == 0 then 0.0
    else
      HourSum(tranches, pools - 1, hour, column)
      + if column == Swaps || Valued(tranches, pools - 1, hour) then PoolSum(tranches, pools - 1, hour, column) else 0.0
  }

  ghost function TradedPools(tranches: map<Slot, Fact>, pools: nat, hour: int): set<Pool> {
    set p: Pool | p < pools && Traded(tranches, p, hour)
  }

  ghost function ValuedPools(tranches: map<Slot, Fact>, pools: nat, hour: int): set<Pool> {
    set p: Pool | p < pools && Valued(tranches, p, hour)
  }

  lemma {:induction false} FullyValuedSums(tranches: map<Slot, Fact>, pools: nat, hour: int, column: Column)
    ensures var t := FullyValued(tranches, pools, hour);
            && t.rows == |TradedPools(tranches, pools, hour)| && t.valued == |ValuedPools(tranches, pools, hour)|
            && InTally(t, column) == HourSum(tranches, pools, hour, column)
  {
    hide Add, AsPoolHour, HourTally, PoolSum, Traded, Valued, TradedPools, ValuedPools;
    if pools > 0 {
      var before, pool := FullyValued(tranches, pools - 1, hour), pools - 1;
      FullyValuedSums(tranches, pool, hour, column);
      PoolHourIn(tranches, pool, hour, column);
      OnePoolMore(tranches, pool, hour);
      InAdd(before, AsPoolHour(HourTally(tranches, pool, hour)), column);
      AddCounts(before, AsPoolHour(HourTally(tranches, pool, hour)));
      hide InTally;
    } else {
      NoPools(tranches, hour);
    }
  }

  lemma AddCounts(a: Tally, b: Tally)
    ensures Add(a, b).rows == a.rows + b.rows && Add(a, b).valued == a.valued + b.valued
  {
  }

  lemma NoPools(tranches: map<Slot, Fact>, hour: int)
    ensures TradedPools(tranches, 0, hour) == {} && ValuedPools(tranches, 0, hour) == {}
  {
  }

  lemma PoolHourIn(tranches: map<Slot, Fact>, pool: Pool, hour: int, column: Column)
    ensures var t := AsPoolHour(HourTally(tranches, pool, hour));
            && t.rows == (if Traded(tranches, pool, hour) then 1 else 0)
            && t.valued == (if Valued(tranches, pool, hour) then 1 else 0)
            && InTally(t, column) == if column == Swaps || Valued(tranches, pool, hour)
                                     then PoolSum(tranches, pool, hour, column) else 0.0
  {
    hide OverBuckets, Sum, HasRow, NoneUnvalued, Amounts;
    var low, high := hour * TRANCHES_PER_HOUR, (hour + 1) * TRANCHES_PER_HOUR;
    BucketsSum(tranches, pool, low, high, column);
    OverBucketsRows(tranches, pool, low, high);
    AllValued(tranches, pool, low, high);
    NoRowsNoSwaps(tranches, pool, low, high);
  }

  lemma OnePoolMore(tranches: map<Slot, Fact>, pool: Pool, hour: int)
    ensures |TradedPools(tranches, pool + 1, hour)| ==
            |TradedPools(tranches, pool, hour)| + if Traded(tranches, pool, hour) then 1 else 0
    ensures |ValuedPools(tranches, pool + 1, hour)| ==
            |ValuedPools(tranches, pool, hour)| + if Valued(tranches, pool, hour) then 1 else 0
  {
    hide Traded, Valued;
    PoolsWithOneMore(tranches, pool, hour);
    hide TradedPools, ValuedPools;
  }

  lemma PoolsWithOneMore(tranches: map<Slot, Fact>, pool: Pool, hour: int)
    ensures var traded, valued := TradedPools(tranches, pool, hour), ValuedPools(tranches, pool, hour);
            && pool !in traded && pool !in valued
            && TradedPools(tranches, pool + 1, hour) ==
               (if Traded(tranches, pool, hour) then traded + {pool} else traded)
            && ValuedPools(tranches, pool + 1, hour) ==
               if Valued(tranches, pool, hour) then valued + {pool} else valued
  {
    hide Traded, Valued;
  }

  lemma {:induction false} NoneValuedNoSum(tranches: map<Slot, Fact>, pools: nat, hour: int, column: Column)
    requires ValuedPools(tranches, pools, hour) == {} && column != Swaps
    ensures HourSum(tranches, pools, hour, column) == 0.0
  {
    hide Valued;
    if pools > 0 {
      assert pools - 1 !in ValuedPools(tranches, pools, hour);
      assert ValuedPools(tranches, pools - 1, hour) <= ValuedPools(tranches, pools, hour);
      NoneValuedNoSum(tranches, pools - 1, hour, column);
    }
  }

  /** A rolled protocol-hour: the pools that traded, those valued, the swaps of all, the amounts of the valued. */
  lemma ProtocolHourSums(db: Tables, hour: int)
    requires RolledHour(db, hour)
    ensures var fact, traded := db.protocolHours[hour], TradedPools(db.tranches, db.pools, hour);
            var valued := ValuedPools(db.tranches, db.pools, hour);
            && fact.activePools == |traded| && fact.activePoolsValued == |valued|
            && fact.swaps as real == HourSum(db.tranches, db.pools, hour, Swaps)
            && (fact.usd.None? <==> traded != {} && valued == {})
            && (fact.usd.Some? ==>
                  && fact.usd.value.volume == HourSum(db.tranches, db.pools, hour, VolumeA)
                                              + HourSum(db.tranches, db.pools, hour, VolumeB)
                  && fact.usd.value.fees == HourSum(db.tranches, db.pools, hour, Fees)
                  && fact.usd.value.lpFees == HourSum(db.tranches, db.pools, hour, LpFees)
                  && fact.usd.value.protocolFees == HourSum(db.tranches, db.pools, hour, ProtocolFees)
                  && fact.usd.value.referralFees == HourSum(db.tranches, db.pools, hour, ReferralFees))
  {
    FullyValuedSums(db.tranches, db.pools, hour, Swaps);
    FullyValuedSums(db.tranches, db.pools, hour, VolumeA);
    FullyValuedSums(db.tranches, db.pools, hour, VolumeB);
    FullyValuedSums(db.tranches, db.pools, hour, Fees);
    FullyValuedSums(db.tranches, db.pools, hour, LpFees);
    FullyValuedSums(db.tranches, db.pools, hour, ProtocolFees);
    FullyValuedSums(db.tranches, db.pools, hour, ReferralFees);
    PoolHoursTally(db, db.pools, hour);
    if ValuedPools(db.tranches, db.pools, hour) == {} {
      NoneValuedNoSum(db.tranches, db.pools, hour, VolumeA);
      NoneValuedNoSum(db.tranches, db.pools, hour, VolumeB);
      NoneValuedNoSum(db.tranches, db.pools, hour, Fees);
      NoneValuedNoSum(db.tranches, db.pools, hour, LpFees);
      NoneValuedNoSum(db.tranches, db.pools, hour, ProtocolFees);
      NoneValuedNoSum(db.tranches, db.pools, hour, ReferralFees);
    }
    hide FullyValued, HourSum, TradedPools, ValuedPools, OverPools;
  }

  // ---------------------------------------------------------------------
  // The windows a freeze writes
  // ---------------------------------------------------------------------

  /** The pools with an hour among the last `hours` up to `hour`. */
  ghost function ActiveOver(db: Tables, hours: int, hour: int): set<Pool> {
    ActiveWithin(db.poolHours, db.pools, hour - hours, hour)
  }

  ghost function ActiveWithin(poolHours: map<Slot, Fact>, pools: nat, after: int, through: int): set<Pool> {
    set p: Pool | p < pools && HasHour(poolHours, p, after, through)
  }

  ghost predicate HasHour(poolHours: map<Slot, Fact>, pool: Pool, after: int, through: int) {
    exists b :: after < b <= through && Slot(pool, b) in poolHours
  }

  lemma {:induction false} ActiveHasHour(poolHours: map<Slot, Fact>, pool: Pool, after: int, through: int)
    ensures IsActive(poolHours, pool, after, through) <==> HasHour(poolHours, pool, after, through)
    decreases through - after
  {
    if after < through {
      ActiveHasHour(poolHours, pool, after, through - 1);
      if b :| after < b <= through && Slot(pool, b) in poolHours {
        assert b == through || after < b <= through - 1;
      }
    }
  }

  lemma {:induction false} ActivePoolsCounted(poolHours: map<Slot, Fact>, pools: nat, after: int, through: int)
    ensures ActivePools(poolHours, pools, after, through) ==
            |ActiveWithin(poolHours, pools, after, through)|
  {
    hide IsActive, HasHour, ActiveWithin;
    if pools == 0 {
      NoneWithin(poolHours, after, through);
    } else {
      ActivePoolsCounted(poolHours, pools - 1, after, through);
      ActiveHasHour(poolHours, pools - 1, after, through);
      OneMoreWithin(poolHours, pools - 1, after, through);
    }
  }

  lemma NoneWithin(poolHours: map<Slot, Fact>, after: int, through: int)
    ensures ActiveWithin(poolHours, 0, after, through) == {}
  {
  }

  lemma OneMoreWithin(poolHours: map<Slot, Fact>, pool: Pool, after: int, through: int)
    ensures var fewer := ActiveWithin(poolHours, pool, after, through);
            && pool !in fewer
            && ActiveWithin(poolHours, pool + 1, after, through) ==
               if HasHour(poolHours, pool, after, through) then fewer + {pool} else fewer
  {
    hide HasHour;
  }

  /** A frozen hour's windows are the distinct pools with an hour in the last day, week and 30 days up to it. */
  lemma FrozenWindows(db: Tables, hour: int)
    requires Valid(db) && IsFrozen(db, hour)
    ensures hour in db.periods
    ensures db.periods[hour] ==
            Periods(|ActiveOver(db, 24, hour)|, |ActiveOver(db, 7 * 24, hour)|, |ActiveOver(db, 30 * 24, hour)|)
  {
    ActivePoolsCounted(db.poolHours, db.pools, hour - 24, hour);
    ActivePoolsCounted(db.poolHours, db.pools, hour - 7 * 24, hour);
    ActivePoolsCounted(db.poolHours, db.pools, hour - 30 * 24, hour);
    hide ActivePools, RolledHour;
  }
}
