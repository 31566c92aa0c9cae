/**
 The analytic writer: what one cycle writes (`crates/core/src/domain/analytic/model.rs`) and how
 (`crates/persistence/src/repositories/analytic.rs`).

 Tranches (5 minutes) and hours are numbered from the epoch: tranche `t` lies in hour `t / 12`.
 A table is a map from its primary key, an SQL `NULL` an absent value. Valuing a tranche is an
 arbitrary producer of rows; one protocol is measured, so rows carry no protocol.
 */
module Analytic {
  import opened Prelude

  const TRANCHES_PER_HOUR: int := 12
  const MAX_HOURS_PER_CYCLE: int := 6
  const MAX_TRANCHES_PER_CYCLE: int := 72
  const HOUR_SECONDS: int := 3600
  const TRANCHE_SECONDS: int := 300
  const FREEZE_MARGIN_SECONDS: int := 600

  type Pool = nat

  function HourOf(tranche: int): int {
    tranche / TRANCHES_PER_HOUR
  }

  // ---------------------------------------------------------------------
  // The cycle
  // ---------------------------------------------------------------------

  datatype Progress = Progress(firstHour: Option<int>, lastFrozen: Option<int>, lastTranche: Option<int>)

  datatype CycleWrite = CycleWrite(
    tranchesFrom: int, tranchesThrough: int,
    from: int, through: int,
    freezeThrough: Option<int>,
    at: int
  ) {
    /** The cycle less what is written already, and without a freeze past what it writes. */
    function WithoutWritten(written: Progress): CycleWrite {
      var from' := match written.lastFrozen
                   case Some(frozen) => Max(from, frozen + 1)
                   case None => from;
      var afterLast := match written.lastTranche
                       case Some(last) => Max(tranchesFrom, last + 1)
                       case None => tranchesFrom;
      var tranchesFrom' := Max(afterLast, from' * TRANCHES_PER_HOUR);
      var lastWritten := if tranchesThrough >= tranchesFrom' then MaxOption(Some(tranchesThrough), written.lastTranche)
                         else written.lastTranche;
      var freeze :=
        match (freezeThrough, lastWritten)
        case (Some(hour), Some(last)) =>
          var capped := Min(Min(hour, through), HourOf(last + 1) - 1);
          if capped >= from' then Some(capped) else None
        case _ => None;
      CycleWrite(tranchesFrom', tranchesThrough, from', through, freeze, at)
    }
  }

  function MaxOption(a: Option<int>, b: Option<int>): Option<int> {
    if a.Some? && b.Some? then Some(Max(a.value, b.value)) else if a.Some? then a else b
  }

  function MinOption(a: Option<int>, b: Option<int>): Option<int> {
    if a.Some? && b.Some? then Some(Min(a.value, b.value)) else if a.Some? then a else b
  }

  /** The first hour of a cycle planned from `progress`. */
  function PlannedFrom(current: int, progress: Progress): int {
    match (progress.lastFrozen, progress.firstHour)
    case (Some(frozen), _) => frozen + 1
    case (None, Some(first)) => first
    case (None, None) => current
  }

  /** The cycle to run at `now`, in seconds. */
  function Plan(now: int, progress: Progress): CycleWrite {
    var current := now / HOUR_SECONDS;
    var from := PlannedFrom(current, progress);
    var tranchesFrom := match progress.lastTranche
                        case Some(last) => last + 1
                        case None => from * TRANCHES_PER_HOUR;
    CycleWrite(
      tranchesFrom,
      Min((now - TRANCHE_SECONDS - FREEZE_MARGIN_SECONDS) / TRANCHE_SECONDS, tranchesFrom + MAX_TRANCHES_PER_CYCLE - 1),
      from,
      Min(current, from + MAX_HOURS_PER_CYCLE - 1),
      Some((now - HOUR_SECONDS - FREEZE_MARGIN_SECONDS) / HOUR_SECONDS),
      now
    ).WithoutWritten(progress)
  }

  // ---------------------------------------------------------------------
  // The tables
  // ---------------------------------------------------------------------

  datatype Usd = Usd(volumeA: real, volumeB: real, fees: real, lpFees: real, protocolFees: real, referralFees: real)

  /** A pool's swaps in a bucket; `usd` is absent exactly when they are not valued. */
  datatype Fact = Fact(swaps: nat, usd: Option<Usd>)

  datatype Slot = Slot(pool: Pool, bucket: int)

  datatype HourUsd = HourUsd(volume: real, fees: real, lpFees: real, protocolFees: real, referralFees: real)

  datatype ProtocolFact = ProtocolFact(usd: Option<HourUsd>, swaps: nat, activePools: nat, activePoolsValued: nat)

  /** The distinct pools of the windows of 24 hours, 7 days and 30 days. */
  datatype Periods = Periods(day: nat, week: nat, month: nat)

  /** `pools` bounds the pools that will ever exist. */
  datatype Tables = Tables(
    pools: nat,
    ledger: map<int, int>,
    tranches: map<Slot, Fact>,
    poolHours: map<Slot, Fact>,
    protocolHours: map<int, ProtocolFact>,
    hours: map<int, Option<int>>,
    periods: map<int, Periods>
  )

  function Empty(pools: nat): Tables {
    Tables(pools, map[], map[], map[], map[], map[], map[])
  }

  // ---------------------------------------------------------------------
  // Sums
  // ---------------------------------------------------------------------

  /** What a `GROUP BY` sees of its rows: their number, those valued, their swaps, the valued amounts. */
  datatype Tally = Tally(rows: nat, valued: nat, swaps: nat, usd: Usd)

  const NO_USD := Usd(0.0, 0.0, 0.0, 0.0, 0.0, 0.0)
  const NOTHING := Tally(0, 0, 0, NO_USD)

  function AddUsd(a: Usd, b: Usd): Usd {
    Usd(a.volumeA + b.volumeA, a.volumeB + b.volumeB, a.fees + b.fees, a.lpFees + b.lpFees,
        a.protocolFees + b.protocolFees, a.referralFees + b.referralFees)
  }

  function Add(a: Tally, b: Tally): Tally {
    Tally(a.rows + b.rows, a.valued + b.valued, a.swaps + b.swaps, AddUsd(a.usd, b.usd))
  }

  function TallyAt(table: map<Slot, Fact>, s: Slot): Tally {
    if s !in table then NOTHING
    else match table[s].usd
         case Some(usd) => Tally(1, 1, table[s].swaps, usd)
         case None => Tally(1, 0, table[s].swaps, NO_USD)
  }

  /** One pool's rows in the buckets `low..high`. */
  function OverBuckets(table: map<Slot, Fact>, pool: Pool, low: int, high: int): Tally
    decreases high - low
  {
    if high <= low then NOTHING
    else Add(OverBuckets(table, pool, low, high - 1), TallyAt(table, Slot(pool, high - 1)))
  }

  /** The rows of the pools below `pools` in one bucket. */
  function OverPools(table: map<Slot, Fact>, pools: nat, bucket: int): Tally {
    if pools == 0 then NOTHING
    else Add(OverPools(table, pools - 1, bucket), TallyAt(table, Slot(pools - 1, bucket)))
  }

  /** A pool's twelve tranches of an hour. */
  function HourTally(tranches: map<Slot, Fact>, pool: Pool, hour: int): Tally {
    OverBuckets(tranches, pool, hour * TRANCHES_PER_HOUR, (hour + 1) * TRANCHES_PER_HOUR)
  }

  /** Summed rows: the amounts absent unless every row is valued. */
  function Summed(t: Tally): Fact {
    Fact(t.swaps, if t.valued == t.rows then Some(t.usd) else None)
  }

  /** Zero only for an hour without a pool; absent when no pool is valued; else over the valued ones. */
  function SummedProtocol(t: Tally): ProtocolFact {
    ProtocolFact(
      if t.rows == 0 then Some(HourUsd(0.0, 0.0, 0.0, 0.0, 0.0))
      else if t.valued == 0 then None
      else Some(HourUsd(t.usd.volumeA + t.usd.volumeB, t.usd.fees, t.usd.lpFees, t.usd.protocolFees,
                        t.usd.referralFees)),
      t.swaps, t.rows, t.valued)
  }

  /** Whether a pool has an hour in `after < hour <= through`. */
  predicate IsActive(poolHours: map<Slot, Fact>, pool: Pool, after: int, through: int)
    decreases through - after
  {
    after < through && (Slot(pool, through) in poolHours || IsActive(poolHours, pool, after, through - 1))
  }

  function ActivePools(poolHours: map<Slot, Fact>, pools: nat, after: int, through: int): nat {
    if pools == 0 then 0
    else ActivePools(poolHours, pools - 1, after, through)
         + if IsActive(poolHours, pools - 1, after, through) then 1 else 0
  }

  function PeriodsAt(poolHours: map<Slot, Fact>, pools: nat, hour: int): Periods {
    Periods(ActivePools(poolHours, pools, hour - 24, hour),
            ActivePools(poolHours, pools, hour - 168, hour),
            ActivePools(poolHours, pools, hour - 720, hour))
  }

  // ---------------------------------------------------------------------
  // The statements of a cycle
  // ---------------------------------------------------------------------

  /** `generate_series`. */
  function Series(from: int, through: int): (r: set<int>)
    ensures forall t :: t in r <==> from <= t <= through
    decreases through - from
  {
    if through < from then {} else Series(from, through - 1) + {through}
  }

  function Rows(values: map<Slot, Fact>, from: int, through: int): map<Slot, Fact> {
    map s | s in values && from <= s.bucket <= through :: values[s]
  }

  function ValueTranche(db: Tables, tranche: int, values: map<Slot, Fact>): Tables {
    db.(tranches := db.tranches + Rows(values, tranche, tranche))
  }

  function RecordTranches(db: Tables, from: int, through: int, at: int): Tables {
    db.(ledger := db.ledger + map t | t in Series(from, through) :: at)
  }

  function HourSlots(tranches: map<Slot, Fact>): set<Slot> {
    set s | s in tranches :: Slot(s.pool, HourOf(s.bucket))
  }

  function PoolHourRows(tranches: map<Slot, Fact>, from: int, through: int): map<Slot, Fact> {
    map s | s in HourSlots(tranches) && from <= s.bucket <= through :: Summed(HourTally(tranches, s.pool, s.bucket))
  }

  function UpsertPoolHourly(db: Tables, from: int, through: int): Tables {
    db.(poolHours := db.poolHours + PoolHourRows(db.tranches, from, through))
  }

  function ProtocolHourRows(poolHours: map<Slot, Fact>, pools: nat, from: int, through: int): map<int, ProtocolFact> {
    map h | h in Series(from, through) :: SummedProtocol(OverPools(poolHours, pools, h))
  }

  function UpsertProtocolHourly(db: Tables, from: int, through: int): Tables {
    db.(protocolHours := db.protocolHours + ProtocolHourRows(db.poolHours, db.pools, from, through))
  }

  function RecordHours(db: Tables, from: int, through: int): Tables {
    db.(hours := (map h | h in Series(from, through) :: None) + db.hours)
  }

  function Freeze(db: Tables, from: int, through: int, at: int): Tables {
    db.(hours := map h | h in db.hours ::
                   if from <= h <= through && db.hours[h].None? then Some(at) else db.hours[h])
  }

  function PeriodRows(poolHours: map<Slot, Fact>, pools: nat, from: int, through: int): map<int, Periods> {
    map h | h in Series(from, through) :: PeriodsAt(poolHours, pools, h)
  }

  function WriteProtocolPeriods(db: Tables, from: int, through: int): Tables {
    db.(periods := db.periods + PeriodRows(db.poolHours, db.pools, from, through))
  }

  // ---------------------------------------------------------------------
  // A cycle's effect
  // ---------------------------------------------------------------------

  predicate IsFrozen(db: Tables, hour: int) {
    hour in db.hours && db.hours[hour].Some?
  }

  function FrozenHours(db: Tables): set<int> {
    set h | h in db.hours && db.hours[h].Some?
  }

  ghost predicate IsMax(s: set<int>, m: Option<int>) {
    match m
    case Some(value) => value in s && forall x :: x in s ==> x <= value
    case None => forall x :: x !in s
  }

  ghost predicate IsMin(s: set<int>, m: Option<int>) {
    match m
    case Some(value) => value in s && forall x :: x in s ==> value <= x
    case None => forall x :: x !in s
  }

  /** What `progress` reads: the least hour, the greatest frozen one, the greatest tranche. */
  ghost predicate IsProgress(db: Tables, p: Progress) {
    && IsMin(db.hours.Keys, p.firstHour)
    && IsMax(FrozenHours(db), p.lastFrozen)
    && IsMax(db.ledger.Keys, p.lastTranche)
  }

  /** The tables after a trimmed cycle, statement by statement, when none of them fails. */
  function CycleTables(db: Tables, c: CycleWrite, values: map<Slot, Fact>): Tables {
    var valued := db.(tranches := db.tranches + Rows(values, c.tranchesFrom, c.tranchesThrough));
    var recorded := RecordTranches(valued, c.tranchesFrom, c.tranchesThrough, c.at);
    var pooled := UpsertPoolHourly(recorded, c.from, c.through);
    var rolled := RecordHours(UpsertProtocolHourly(pooled, c.from, c.through), c.from, c.through);
    match c.freezeThrough
    case Some(through) => WriteProtocolPeriods(Freeze(rolled, c.from, through, c.at), c.from, through)
    case None => rolled
  }

  /** The unique-key violations that would fail a cycle: a tranche or a frozen period written twice. */
  predicate Collides(db: Tables, c: CycleWrite, values: map<Slot, Fact>) {
    || RowsCollide(db.tranches, values, c.tranchesFrom, c.tranchesThrough)
    || LedgerCollides(db.ledger, c.tranchesFrom, c.tranchesThrough)
    || (c.freezeThrough.Some? && PeriodsCollide(db.periods, c.from, c.freezeThrough.value))
  }

  predicate RowsCollide(tranches: map<Slot, Fact>, values: map<Slot, Fact>, from: int, through: int) {
    exists s :: s in values && from <= s.bucket <= through && s in tranches
  }

  predicate LedgerCollides(ledger: map<int, int>, from: int, through: int) {
    exists t :: t in ledger && from <= t <= through
  }

  predicate PeriodsCollide(periods: map<int, Periods>, from: int, through: int) {
    exists h :: h in periods && from <= h <= through
  }

  /** A cycle collides exactly when a row it inserts, of a tranche, the ledger or a window, has its key taken. */
  lemma CollidesOnAKey(db: Tables, c: CycleWrite, values: map<Slot, Fact>)
    ensures Collides(db, c, values) <==>
            || !(Rows(values, c.tranchesFrom, c.tranchesThrough).Keys !! db.tranches.Keys)
            || !(Series(c.tranchesFrom, c.tranchesThrough) !! db.ledger.Keys)
            || (c.freezeThrough.Some? && !(Series(c.from, c.freezeThrough.value) !! db.periods.Keys))
  {
    hide Series;
    assert forall s :: s in Rows(values, c.tranchesFrom, c.tranchesThrough).Keys <==>
                       s in values && c.tranchesFrom <= s.bucket <= c.tranchesThrough;
  }

  // ---------------------------------------------------------------------
  // The repository
  // ---------------------------------------------------------------------

  ghost function Greatest(s: set<int>): (m: Option<int>)
    ensures IsMax(s, m)
  {
    if s == {} then None
    else
      var x := Any(s);
      assert s == (s - {x}) + {x};
      MaxOption(Some(x), Greatest(s - {x}))
  }

  ghost function Least(s: set<int>): (m: Option<int>)
    ensures IsMin(s, m)
  {
    if s == {} then None
    else
      var x := Any(s);
      assert s == (s - {x}) + {x};
      MinOption(Some(x), Least(s - {x}))
  }

  ghost function ProgressOf(db: Tables): (p: Progress)
    ensures IsProgress(db, p)
  {
    Progress(Least(db.hours.Keys), Greatest(FrozenHours(db)), Greatest(db.ledger.Keys))
  }

  method MaxOf(s: set<int>) returns (m: Option<int>)
    ensures m == Greatest(s)
  {
    var rest := s;
    m := None;
    while rest != {}
      invariant rest <= s && IsMax(s - rest, m)
      decreases |rest|
    {
      ghost var some := Any(rest);
      var x :| x in rest;
      assert s - (rest - {x}) == (s - rest) + {x};
      m := MaxOption(Some(x), m);
      rest := rest - {x};
    }
    assert s - rest == s;
  }

  method MinOf(s: set<int>) returns (m: Option<int>)
    ensures m == Least(s)
  {
    var rest := s;
    m := None;
    while rest != {}
      invariant rest <= s && IsMin(s - rest, m)
      decreases |rest|
    {
      ghost var some := Any(rest);
      var x :| x in rest;
      assert s - (rest - {x}) == (s - rest) + {x};
      m := MinOption(Some(x), m);
      rest := rest - {x};
    }
    assert s - rest == s;
  }

  lemma RowsExtend(table: map<Slot, Fact>, values: map<Slot, Fact>, from: int, through: int)
    requires from <= through
    ensures table + Rows(values, from, through - 1) + Rows(values, through, through) ==
            table + Rows(values, from, through)
  {
  }

  /** Rows inserted by this cycle, of earlier tranches, collide with none of a later one. */
  lemma CollideStep(db: Tables, tx: Tables, values: map<Slot, Fact>, from: int, tranche: int, through: int)
    requires from <= tranche <= through
    requires tx.tranches == db.tranches + Rows(values, from, tranche - 1)
    requires !RowsCollide(db.tranches, values, from, tranche - 1)
    ensures RowsCollide(tx.tranches, values, tranche, tranche) <==> RowsCollide(db.tranches, values, tranche, tranche)
    ensures RowsCollide(db.tranches, values, from, tranche)
       <==> RowsCollide(db.tranches, values, tranche, tranche)
    ensures RowsCollide(db.tranches, values, tranche, through)
       <==> RowsCollide(db.tranches, values, tranche, tranche) || RowsCollide(db.tranches, values, tranche + 1, through)
  {
  }

  lemma RowsNone(values: map<Slot, Fact>, from: int, through: int)
    requires through < from
    ensures Rows(values, from, through) == map[]
    ensures forall tranches :: !RowsCollide(tranches, values, from, through)
  {
  }

  datatype CycleOutcome = CycleOutcome(written: CycleWrite, tranchesWritten: nat)

  class AnalyticRepository {
    var db: Tables

    constructor (pools: nat)
      ensures db == Empty(pools)
    {
      db := Empty(pools);
    }

    method ReadProgress() returns (p: Progress)
      ensures p == ProgressOf(db)
    {
      var first := MinOf(db.hours.Keys);
      var frozen := MaxOf(FrozenHours(db));
      var last := MaxOf(db.ledger.Keys);
      p := Progress(first, frozen, last);
    }

    /** The valuation loop, one tranche at a time; it stops at a row already there. */
    static method ValueTranches(db: Tables, from: int, through: int, values: map<Slot, Fact>)
      returns (tx: Tables, written: nat, collided: bool)
      ensures collided <==> RowsCollide(db.tranches, values, from, through)
      ensures !collided ==> tx == db.(tranches := db.tranches + Rows(values, from, through))
      ensures !collided ==> written == Max(0, through - from + 1)
    {
      hide Rows, RowsCollide;
      tx, written := db, 0;
      var tranche := from;
      RowsNone(values, from, from - 1);
      if through < from {
        RowsNone(values, from, through);
      }
      while tranche <= through
        invariant from <= tranche <= Max(from, through + 1)
        invariant written == tranche - from
        invariant tx == db.(tranches := db.tranches + Rows(values, from, tranche - 1))
        invariant !RowsCollide(db.tranches, values, from, tranche - 1)
        invariant RowsCollide(db.tranches, values, from, through) <==>
                  RowsCollide(db.tranches, values, tranche, through)
      {
        RowsExtend(db.tranches, values, from, tranche);
        CollideStep(db, tx, values, from, tranche, through);
        if RowsCollide(tx.tranches, values, tranche, tranche) {
          return tx, written, true;
        }
        tx := ValueTranche(tx, tranche, values);
        written := written + 1;
        tranche := tranche + 1;
      }
      RowsNone(values, tranche, through);
      collided := false;
    }

    /**
     One transaction: the cycle trimmed by the progress it reads, its tranches valued one by one,
     then its hours rewritten and frozen. A unique-key violation fails it and writes nothing.
     */
    method WriteCycle(planned: CycleWrite, values: map<Slot, Fact>) returns (outcome: Option<CycleOutcome>)
      modifies this
      ensures var c := planned.WithoutWritten(ProgressOf(old(db)));
              && (outcome.None? <==> Collides(old(db), c, values))
              && (outcome.None? ==> db == old(db))
              && (outcome.Some? ==>
                    && db == CycleTables(old(db), c, values)
                    && outcome.value == CycleOutcome(c, Max(0, c.tranchesThrough - c.tranchesFrom + 1)))
    {
      hide CycleWrite.WithoutWritten, ProgressOf, Series, Rows, PoolHourRows, ProtocolHourRows, PeriodRows,
        RowsCollide, LedgerCollides, PeriodsCollide;
      var progress := ReadProgress();
      var cycle := planned.WithoutWritten(progress);
      var tx, tranchesWritten, collided := ValueTranches(db, cycle.tranchesFrom, cycle.tranchesThrough, values);
      if collided {
        return None;
      }
      if LedgerCollides(tx.ledger, cycle.tranchesFrom, cycle.tranchesThrough) {
        return None;
      }
      tx := RecordTranches(tx, cycle.tranchesFrom, cycle.tranchesThrough, cycle.at);
      tx := UpsertPoolHourly(tx, cycle.from, cycle.through);
      tx := UpsertProtocolHourly(tx, cycle.from, cycle.through);
      tx := RecordHours(tx, cycle.from, cycle.through);
      if cycle.freezeThrough.Some? {
        var through := cycle.freezeThrough.value;
        tx := Freeze(tx, cycle.from, through, cycle.at);
        if PeriodsCollide(tx.periods, cycle.from, through) {
          return None;
        }
        tx := WriteProtocolPeriods(tx, cycle.from, through);
      }

      db := tx;
      return Some(CycleOutcome(cycle, tranchesWritten));
    }
  }

  // ---------------------------------------------------------------------
  // Rolled hours
  // ---------------------------------------------------------------------

  /** The pool-hours of an hour are the sums of their tranches, and its protocol-hour theirs. */
  ghost predicate RolledHour(db: Tables, hour: int) {
    && (forall p :: 0 <= p < db.pools ==> RolledPool(db, p, hour))
    && hour in db.protocolHours
    && db.protocolHours[hour] == SummedProtocol(OverPools(db.poolHours, db.pools, hour))
  }

  ghost predicate RolledPool(db: Tables, pool: Pool, hour: int) {
    var t := HourTally(db.tranches, pool, hour);
    && (Slot(pool, hour) in db.poolHours <==> t.rows > 0)
    && (t.rows > 0 ==> db.poolHours[Slot(pool, hour)] == Summed(t))
  }

  /** What every cycle keeps, planned or not. */
  ghost predicate Valid(db: Tables) {
    && (forall s :: s in db.tranches ==> s.pool < db.pools && s.bucket in db.ledger)
    && (forall s :: s in db.poolHours ==> s in HourSlots(db.tranches))
    && (forall h :: IsFrozen(db, h) ==> FrozenWhole(db, h))
    && (forall h :: h in db.periods ==> IsFrozen(db, h))
  }

  ghost predicate FrozenWhole(db: Tables, hour: int) {
    && RolledHour(db, hour)
    && hour in db.periods
    && db.periods[hour] == PeriodsAt(db.poolHours, db.pools, hour)
  }

  /** Rows of registered pools, each of at least one swap. */
  ghost predicate ValidRows(values: map<Slot, Fact>, pools: nat) {
    forall s :: s in values ==> s.pool < pools && values[s].swaps > 0
  }

  lemma {:induction false} OverBucketsRows(table: map<Slot, Fact>, pool: Pool, low: int, high: int)
    ensures OverBuckets(table, pool, low, high).rows > 0 <==> HasRow(table, pool, low, high)
    decreases high - low
  {
    hide AddUsd;
    if low < high {
      OverBucketsRows(table, pool, low, high - 1);
      HasRowStep(table, pool, low, high);
    }
  }

  ghost predicate HasRow(table: map<Slot, Fact>, pool: Pool, low: int, high: int) {
    exists b :: low <= b < high && Slot(pool, b) in table
  }

  lemma HasRowStep(table: map<Slot, Fact>, pool: Pool, low: int, high: int)
    requires low < high
    ensures HasRow(table, pool, low, high) <==> HasRow(table, pool, low, high - 1) || Slot(pool, high - 1) in table
  {
    if b :| low <= b < high && Slot(pool, b) in table {
      assert b == high - 1 || b < high - 1;
    }
  }

  lemma HourTallyRows(tranches: map<Slot, Fact>, pool: Pool, hour: int)
    ensures HourTally(tranches, pool, hour).rows > 0 <==> Slot(pool, hour) in HourSlots(tranches)
  {
    hide OverBuckets;
    OverBucketsRows(tranches, pool, hour * TRANCHES_PER_HOUR, (hour + 1) * TRANCHES_PER_HOUR);
    if s :| s in tranches && Slot(s.pool, HourOf(s.bucket)) == Slot(pool, hour) {
      assert s == Slot(pool, s.bucket);
    }
    if b :| hour * TRANCHES_PER_HOUR <= b < (hour + 1) * TRANCHES_PER_HOUR && Slot(pool, b) in tranches {
      assert Slot(Slot(pool, b).pool, HourOf(Slot(pool, b).bucket)) in HourSlots(tranches);
    }
  }

  ghost predicate AgreeAt(a: map<Slot, Fact>, b: map<Slot, Fact>, s: Slot) {
    (s in a <==> s in b) && (s in a ==> a[s] == b[s])
  }

  lemma {:induction false} OverBucketsSame(a: map<Slot, Fact>, b: map<Slot, Fact>, pool: Pool, low: int, high: int)
    requires forall t :: low <= t < high ==> AgreeAt(a, b, Slot(pool, t))
    ensures OverBuckets(a, pool, low, high) == OverBuckets(b, pool, low, high)
    decreases high - low
  {
    if low < high {
      OverBucketsSame(a, b, pool, low, high - 1);
      assert AgreeAt(a, b, Slot(pool, high - 1));
    }
  }

  lemma {:induction false} OverPoolsSame(a: map<Slot, Fact>, b: map<Slot, Fact>, pools: nat, bucket: int)
    requires forall p :: 0 <= p < pools ==> AgreeAt(a, b, Slot(p, bucket))
    ensures OverPools(a, pools, bucket) == OverPools(b, pools, bucket)
  {
    if pools > 0 {
      OverPoolsSame(a, b, pools - 1, bucket);
      assert AgreeAt(a, b, Slot(pools - 1, bucket));
    }
  }

  lemma {:induction false} IsActiveSame(a: map<Slot, Fact>, b: map<Slot, Fact>, pool: Pool, after: int, through: int)
    requires forall h :: h <= through ==> AgreeAt(a, b, Slot(pool, h))
    ensures IsActive(a, pool, after, through) == IsActive(b, pool, after, through)
    decreases through - after
  {
    if after < through {
      assert AgreeAt(a, b, Slot(pool, through));
      IsActiveSame(a, b, pool, after, through - 1);
    }
  }

  lemma {:induction false} ActivePoolsSame(a: map<Slot, Fact>, b: map<Slot, Fact>, pools: nat, after: int, through: int)
    requires forall p, h :: 0 <= p < pools && h <= through ==> AgreeAt(a, b, Slot(p, h))
    ensures ActivePools(a, pools, after, through) == ActivePools(b, pools, after, through)
  {
    if pools > 0 {
      IsActiveSame(a, b, pools - 1, after, through);
      ActivePoolsSame(a, b, pools - 1, after, through);
    }
  }

  // ---------------------------------------------------------------------
  // What a trimmed cycle leaves alone, and what it rewrites
  // ---------------------------------------------------------------------

  /** What trimming guarantees: nothing frozen and no tranche valued is in range. */
  ghost predicate Trimmed(db: Tables, c: CycleWrite) {
    && (forall h :: IsFrozen(db, h) ==> h < c.from)
    && (forall t :: t in db.ledger ==> t < c.tranchesFrom)
    && c.from * TRANCHES_PER_HOUR <= c.tranchesFrom
    && (c.freezeThrough.Some? ==> c.from <= c.freezeThrough.value <= c.through)
  }

  lemma WithoutWrittenTrims(db: Tables, planned: CycleWrite, p: Progress)
    requires IsProgress(db, p)
    ensures var c := planned.WithoutWritten(p);
            && Trimmed(db, c)
            // A freeze stops before an hour that ends past every tranche written and about to be.
            && (c.freezeThrough.Some? ==>
                  var last := (c.freezeThrough.value + 1) * TRANCHES_PER_HOUR - 1;
                  || (p.lastTranche.Some? && last <= p.lastTranche.value)
                  || (c.tranchesFrom <= c.tranchesThrough && last <= c.tranchesThrough))
  {
    forall h | IsFrozen(db, h)
      ensures h < planned.WithoutWritten(p).from
    {
      assert h in FrozenHours(db);
    }
  }

  /** The last tranche of an hour. */
  function LastOf(hour: int): int {
    hour * TRANCHES_PER_HOUR + 11
  }

  /**
   What is left of a cycle, exactly: it starts past the last frozen hour and the last tranche written, and
   freezes every hour it was asked to and rewrites, up to the first whose last tranche is neither written
   nor valued now.
   */
  lemma WithoutWrittenExactly(planned: CycleWrite, p: Progress, h: int, t: int)
    ensures var c := planned.WithoutWritten(p);
            && c.tranchesThrough == planned.tranchesThrough && c.through == planned.through && c.at == planned.at
            && (h >= c.from <==> h >= planned.from && (p.lastFrozen.Some? ==> h > p.lastFrozen.value))
            && (t >= c.tranchesFrom <==>
                t >= planned.tranchesFrom && HourOf(t) >= c.from && (p.lastTranche.Some? ==> t > p.lastTranche.value))
            && (c.freezeThrough.Some? && c.from <= h <= c.freezeThrough.value <==>
                && planned.freezeThrough.Some? && c.from <= h <= Min(planned.freezeThrough.value, planned.through)
                && ((p.lastTranche.Some? && LastOf(h) <= p.lastTranche.value)
                    || (c.tranchesFrom <= c.tranchesThrough && LastOf(h) <= c.tranchesThrough)))
  {
  }

  /**
   The plan of an instant, exactly: it goes on from the last frozen hour, else the first one ever, else
   its own, for 6 hours at most and none to come; it values the tranches over for 10 minutes, 72 at most,
   and freezes the hours of its own over for 10 minutes whose last tranche is written or valued now.
   */
  lemma PlanExactly(now: int, p: Progress, h: int, t: int)
    ensures var c := Plan(now, p);
            var from := if p.lastFrozen.Some? then p.lastFrozen.value + 1
                        else if p.firstHour.Some? then p.firstHour.value
                        else now / 3600;
            var start := if p.lastTranche.Some? then p.lastTranche.value + 1 else from * 12;
            && c.at == now && c.from == from && c.tranchesFrom == Max(start, from * 12)
            && (h <= c.through <==> h * 3600 <= now && h < from + 6)
            && (t <= c.tranchesThrough <==> t * 300 + 300 + 600 <= now && t < start + 72)
            && (c.freezeThrough.Some? && from <= h <= c.freezeThrough.value <==>
                && from <= h <= c.through && h * 3600 + 3600 + 600 <= now
                && ((p.lastTranche.Some? && LastOf(h) <= p.lastTranche.value)
                    || (c.tranchesFrom <= c.tranchesThrough && LastOf(h) <= c.tranchesThrough)))
  {
  }

  /** No hour changes, in any table, but those of the cycle's own range and of its tranches. */
  ghost predicate HourUntouched(db: Tables, after: Tables, hour: int) {
    && after.pools == db.pools
    && (forall s: Slot :: HourOf(s.bucket) == hour ==> AgreeAt(db.tranches, after.tranches, s))
    && (forall p :: AgreeAt(db.poolHours, after.poolHours, Slot(p, hour)))
    && (hour in db.protocolHours <==> hour in after.protocolHours)
    && (hour in db.protocolHours ==> db.protocolHours[hour] == after.protocolHours[hour])
    && (hour in db.hours <==> hour in after.hours)
    && (hour in db.hours ==> db.hours[hour] == after.hours[hour])
    && (hour in db.periods <==> hour in after.periods)
    && (hour in db.periods ==> db.periods[hour] == after.periods[hour])
  }

  /** A trimmed cycle's tables, one by one. */
  lemma CycleFields(db: Tables, c: CycleWrite, values: map<Slot, Fact>)
    ensures var after := CycleTables(db, c, values);
            && after.pools == db.pools
            && after.tranches == db.tranches + Rows(values, c.tranchesFrom, c.tranchesThrough)
            && after.ledger == db.ledger + (map t | t in Series(c.tranchesFrom, c.tranchesThrough) :: c.at)
            && after.poolHours == db.poolHours + PoolHourRows(after.tranches, c.from, c.through)
            && after.protocolHours
               == db.protocolHours + ProtocolHourRows(after.poolHours, db.pools, c.from, c.through)
            && after.periods == (match c.freezeThrough
                                 case Some(f) => db.periods + PeriodRows(after.poolHours, db.pools, c.from, f)
                                 case None => db.periods)
  {
    hide PoolHourRows, ProtocolHourRows, PeriodRows, Rows;
  }

  function HourAfter(db: Tables, c: CycleWrite, hour: int): Option<int> {
    if c.freezeThrough.Some? && c.from <= hour <= c.freezeThrough.value && !IsFrozen(db, hour) then Some(c.at)
    else if hour in db.hours then db.hours[hour]
    else None
  }

  lemma CycleHours(db: Tables, c: CycleWrite, values: map<Slot, Fact>, hour: int)
    ensures var after := CycleTables(db, c, values);
            && (hour in after.hours <==> hour in db.hours || c.from <= hour <= c.through)
            && (hour in after.hours ==> after.hours[hour] == HourAfter(db, c, hour))
  {
    hide PoolHourRows, ProtocolHourRows, PeriodRows, Rows;
  }

  lemma OutsideUntouched(db: Tables, c: CycleWrite, values: map<Slot, Fact>, hour: int)
    requires Trimmed(db, c)
    requires hour < c.from || c.through < hour
    requires forall s :: s in values && c.tranchesFrom <= s.bucket <= c.tranchesThrough ==> HourOf(s.bucket) != hour
    ensures HourUntouched(db, CycleTables(db, c, values), hour)
  {
    hide CycleTables, PoolHourRows, ProtocolHourRows, PeriodRows, Series, Rows;
    CycleFields(db, c, values);
    CycleHours(db, c, values, hour);
    var after := CycleTables(db, c, values);
    RowsOutside(values, c.tranchesFrom, c.tranchesThrough, hour);
    PoolHourRowsRange(after.tranches, c.from, c.through);
    HourRowsRange(after.poolHours, db.pools, c.from, c.through);
    if c.freezeThrough.Some? {
      HourRowsRange(after.poolHours, db.pools, c.from, c.freezeThrough.value);
    }
  }

  lemma RowsOutside(values: map<Slot, Fact>, from: int, through: int, hour: int)
    requires forall s :: s in values && from <= s.bucket <= through ==> HourOf(s.bucket) != hour
    ensures forall s: Slot :: HourOf(s.bucket) == hour ==> s !in Rows(values, from, through)
  {
  }

  lemma PoolHourRowsRange(tranches: map<Slot, Fact>, from: int, through: int)
    ensures forall s :: s in PoolHourRows(tranches, from, through) ==> from <= s.bucket <= through
  {
  }

  lemma HourRowsRange(poolHours: map<Slot, Fact>, pools: nat, from: int, through: int)
    ensures forall h :: h in ProtocolHourRows(poolHours, pools, from, through) <==> from <= h <= through
    ensures forall h :: h in PeriodRows(poolHours, pools, from, through) <==> from <= h <= through
  {
  }

  lemma BelowUntouched(db: Tables, c: CycleWrite, values: map<Slot, Fact>, hour: int)
    requires Trimmed(db, c) && hour < c.from
    ensures HourUntouched(db, CycleTables(db, c, values), hour)
  {
    OutsideUntouched(db, c, values, hour);
  }

  lemma UntouchedStaysRolled(db: Tables, after: Tables, hour: int)
    requires HourUntouched(db, after, hour) && RolledHour(db, hour)
    ensures RolledHour(after, hour)
  {
    forall p | 0 <= p < db.pools
      ensures RolledPool(after, p, hour)
    {
      assert RolledPool(db, p, hour);
      assert AgreeAt(db.poolHours, after.poolHours, Slot(p, hour));
      forall t | hour * TRANCHES_PER_HOUR <= t < (hour + 1) * TRANCHES_PER_HOUR
        ensures AgreeAt(db.tranches, after.tranches, Slot(p, t))
      {
        assert HourOf(Slot(p, t).bucket) == hour;
      }
      OverBucketsSame(db.tranches, after.tranches, p, hour * TRANCHES_PER_HOUR, (hour + 1) * TRANCHES_PER_HOUR);
    }
    OverPoolsSame(db.poolHours, after.poolHours, db.pools, hour);
  }

  lemma RangeRolled(db: Tables, c: CycleWrite, values: map<Slot, Fact>, hour: int)
    requires Valid(db) && c.from <= hour <= c.through
    ensures RolledHour(CycleTables(db, c, values), hour)
  {
    hide CycleTables, HourTally, OverPools, PeriodsAt, SummedProtocol, Summed, HourSlots;
    var after := CycleTables(db, c, values);
    CycleFields(db, c, values);
    HourSlotsGrow(db.tranches, after.tranches);
    forall p | 0 <= p < db.pools
      ensures RolledPool(after, p, hour)
    {
      HourTallyRows(after.tranches, p, hour);
    }
  }

  lemma HourSlotsGrow(a: map<Slot, Fact>, b: map<Slot, Fact>)
    requires a.Keys <= b.Keys
    ensures HourSlots(a) <= HourSlots(b)
  {
  }
}
