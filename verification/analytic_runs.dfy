/** What every sequence of cycles keeps of the analytic tables (`analytic.rs:36-102`). */
module AnalyticRuns {
  import opened Prelude
  import opened Analytic

  // ---------------------------------------------------------------------
  // Any sequence of cycles
  // ---------------------------------------------------------------------

  lemma PeriodsSame(db: Tables, after: Tables, hour: int)
    requires after.pools == db.pools
    requires forall p, h :: 0 <= p < db.pools && h <= hour ==> AgreeAt(db.poolHours, after.poolHours, Slot(p, h))
    ensures PeriodsAt(db.poolHours, db.pools, hour) == PeriodsAt(after.poolHours, after.pools, hour)
  {
    ActivePoolsSame(db.poolHours, after.poolHours, db.pools, hour - 24, hour);
    ActivePoolsSame(db.poolHours, after.poolHours, db.pools, hour - 168, hour);
    ActivePoolsSame(db.poolHours, after.poolHours, db.pools, hour - 720, hour);
  }

  lemma BelowStaysWhole(db: Tables, c: CycleWrite, values: map<Slot, Fact>, hour: int)
    requires Trimmed(db, c) && hour < c.from && FrozenWhole(db, hour)
    ensures FrozenWhole(CycleTables(db, c, values), hour)
  {
    hide CycleTables, RolledHour, PeriodsAt;
    var after := CycleTables(db, c, values);
    BelowUntouched(db, c, values, hour);
    UntouchedStaysRolled(db, after, hour);
    forall p, h | 0 <= p < db.pools && h <= hour
      ensures AgreeAt(db.poolHours, after.poolHours, Slot(p, h))
    {
      BelowUntouched(db, c, values, h);
    }
    PeriodsSame(db, after, hour);
  }

  lemma FreezeMakesWhole(db: Tables, c: CycleWrite, values: map<Slot, Fact>, hour: int)
    requires Valid(db) && Trimmed(db, c)
    requires c.freezeThrough.Some? && c.from <= hour <= c.freezeThrough.value
    ensures FrozenWhole(CycleTables(db, c, values), hour)
  {
    hide CycleTables, RolledHour, PeriodsAt, Valid;
    RangeRolled(db, c, values, hour);
    CycleFields(db, c, values);
  }

  lemma FrozenAfter(db: Tables, c: CycleWrite, values: map<Slot, Fact>, hour: int)
    requires Trimmed(db, c)
    ensures IsFrozen(CycleTables(db, c, values), hour) <==>
            IsFrozen(db, hour) || (c.freezeThrough.Some? && c.from <= hour <= c.freezeThrough.value)
  {
    hide CycleTables;
    CycleHours(db, c, values, hour);
  }

  /** The tranches visited are recorded; the rows inserted are theirs alone. */
  lemma RowsKeepKeys(db: Tables, c: CycleWrite, values: map<Slot, Fact>)
    requires Valid(db) && ValidRows(values, db.pools)
    ensures var after := CycleTables(db, c, values);
            && (forall s :: s in after.tranches ==> s.pool < after.pools && s.bucket in after.ledger)
            && (forall s :: s in after.poolHours ==> s in HourSlots(after.tranches))
            && (forall t :: t in after.ledger <==> t in db.ledger || c.tranchesFrom <= t <= c.tranchesThrough)
  {
    hide CycleTables, HourSlots, FrozenWhole;
    CycleFields(db, c, values);
    HourSlotsGrow(db.tranches, CycleTables(db, c, values).tranches);
  }

  lemma PeriodsAreFrozen(db: Tables, c: CycleWrite, values: map<Slot, Fact>)
    requires Valid(db) && Trimmed(db, c)
    ensures var after := CycleTables(db, c, values);
            forall h :: h in after.periods ==> IsFrozen(after, h)
  {
    hide CycleTables, FrozenWhole, PeriodsAt;
    CycleFields(db, c, values);
    forall h | h in CycleTables(db, c, values).periods
      ensures IsFrozen(CycleTables(db, c, values), h)
    {
      FrozenAfter(db, c, values, h);
    }
  }

  /** A tranche recorded keeps its instant and its rows. */
  ghost predicate WrittenOnce(db: Tables, after: Tables) {
    forall t :: t in db.ledger ==>
      && t in after.ledger && after.ledger[t] == db.ledger[t]
      && forall p :: AgreeAt(db.tranches, after.tranches, Slot(p, t))
  }

  lemma TranchesWrittenOnce(db: Tables, c: CycleWrite, values: map<Slot, Fact>)
    requires Trimmed(db, c)
    ensures WrittenOnce(db, CycleTables(db, c, values))
  {
    hide CycleTables;
    CycleFields(db, c, values);
  }

  lemma WrittenOnceChain(a: Tables, b: Tables, c: Tables)
    requires WrittenOnce(a, b) && WrittenOnce(b, c)
    ensures WrittenOnce(a, c)
  {
    forall t, p | t in a.ledger
      ensures AgreeAt(a.tranches, c.tranches, Slot(p, t))
    {
      assert AgreeAt(a.tranches, b.tranches, Slot(p, t)) && AgreeAt(b.tranches, c.tranches, Slot(p, t));
    }
  }

  lemma TrimmedNeverCollides(db: Tables, c: CycleWrite, values: map<Slot, Fact>)
    requires Valid(db) && Trimmed(db, c)
    ensures !Collides(db, c, values)
    ensures forall t :: t in db.ledger ==> !(c.tranchesFrom <= t <= c.tranchesThrough)
  {
    hide FrozenWhole, HourSlots;
  }

  lemma TrimmedKeepsValid(db: Tables, c: CycleWrite, values: map<Slot, Fact>)
    requires Valid(db) && ValidRows(values, db.pools) && Trimmed(db, c)
    ensures Valid(CycleTables(db, c, values))
  {
    RowsKeepKeys(db, c, values);
    PeriodsAreFrozen(db, c, values);
    FrozenKept(db, c, values);
    hide CycleTables, FrozenWhole, HourSlots, HourUntouched, Trimmed, ValidRows;
  }

  /** Hours frozen before are untouched; those and the newly frozen are whole. */
  lemma FrozenKept(db: Tables, c: CycleWrite, values: map<Slot, Fact>)
    requires Valid(db) && Trimmed(db, c)
    ensures var after := CycleTables(db, c, values);
            && (forall h :: IsFrozen(db, h) ==> HourUntouched(db, after, h))
            && (forall h :: IsFrozen(after, h) ==> FrozenWhole(after, h))
  {
    hide CycleTables, FrozenWhole, HourUntouched;
    var after := CycleTables(db, c, values);
    forall h | IsFrozen(db, h)
      ensures HourUntouched(db, after, h)
    {
      BelowUntouched(db, c, values, h);
    }
    forall h | IsFrozen(after, h)
      ensures FrozenWhole(after, h)
    {
      FrozenAfter(db, c, values, h);
      if IsFrozen(db, h) {
        BelowStaysWhole(db, c, values, h);
      } else {
        FreezeMakesWhole(db, c, values, h);
      }
    }
  }

  /**
   Whatever cycle is asked for, planned long ago or by hand: it never violates a unique key, every
   frozen hour it leaves is whole, and no hour frozen before changes in any table.
   */
  lemma AnyCycleKeeps(db: Tables, planned: CycleWrite, values: map<Slot, Fact>)
    requires Valid(db) && ValidRows(values, db.pools)
    ensures var c := planned.WithoutWritten(ProgressOf(db));
            var after := CycleTables(db, c, values);
            && !Collides(db, c, values)
            && Valid(after)
            && after.pools == db.pools
            && (forall h :: IsFrozen(db, h) ==> HourUntouched(db, after, h))
            && (forall t :: t in after.ledger <==> t in db.ledger || c.tranchesFrom <= t <= c.tranchesThrough)
            && (forall t :: t in db.ledger ==> !(c.tranchesFrom <= t <= c.tranchesThrough))
            && WrittenOnce(db, after)
  {
    var c := planned.WithoutWritten(ProgressOf(db));
    WithoutWrittenTrims(db, planned, ProgressOf(db));
    hide *;
    TrimmedNeverCollides(db, c, values);
    CycleFields(db, c, values);
    TranchesWrittenOnce(db, c, values);
    FrozenKept(db, c, values);
    TrimmedKeepsValid(db, c, values);
    RowsKeepKeys(db, c, values);
  }

  datatype Step = Step(cycle: CycleWrite, values: map<Slot, Fact>)

  ghost function RunCycles(db: Tables, steps: seq<Step>): Tables
    decreases |steps|
  {
    if steps == [] then db
    else
      var c := steps[0].cycle.WithoutWritten(ProgressOf(db));
      RunCycles(CycleTables(db, c, steps[0].values), steps[1..])
  }

  /** No cycle of the run violates a unique key. */
  ghost predicate NeverCollides(db: Tables, steps: seq<Step>)
    decreases |steps|
  {
    steps == [] ||
    (var c := steps[0].cycle.WithoutWritten(ProgressOf(db));
     !Collides(db, c, steps[0].values) && NeverCollides(CycleTables(db, c, steps[0].values), steps[1..]))
  }

  /** Some cycle of the run values the tranche. */
  ghost predicate IsVisited(db: Tables, steps: seq<Step>, tranche: int)
    decreases |steps|
  {
    steps != [] &&
    var c := steps[0].cycle.WithoutWritten(ProgressOf(db));
    || c.tranchesFrom <= tranche <= c.tranchesThrough
    || IsVisited(CycleTables(db, c, steps[0].values), steps[1..], tranche)
  }

  /**
   Over any sequence of cycles: none fails, the tranches recorded are those the loops visit, every
   frozen hour's pool-hours are the sums of its tranches, its protocol-hour theirs and its windows the
   pools they hold, and an hour once frozen, at any point of the run, keeps its tranches, facts and
   freeze instant to the end.
   */
  lemma {:induction false} AnyRunKeeps(db: Tables, steps: seq<Step>)
    requires Valid(db) && forall i :: 0 <= i < |steps| ==> ValidRows(steps[i].values, db.pools)
    ensures NeverCollides(db, steps)
    ensures Valid(RunCycles(db, steps))
    ensures forall t :: t in RunCycles(db, steps).ledger <==> t in db.ledger || IsVisited(db, steps, t)
    ensures forall h :: IsFrozen(db, h) ==> HourUntouched(db, RunCycles(db, steps), h)
    ensures WrittenOnce(db, RunCycles(db, steps))
    decreases |steps|
  {
    hide Valid, CycleTables, CycleWrite.WithoutWritten, ProgressOf, ValidRows, HourUntouched, Collides, WrittenOnce;
    if steps == [] {
      WrittenOnceSelf(db);
      forall h { UntouchedSelf(db, h); }
    } else {
      var c := steps[0].cycle.WithoutWritten(ProgressOf(db));
      var next := CycleTables(db, c, steps[0].values);
      AnyCycleKeeps(db, steps[0].cycle, steps[0].values);
      AnyRunKeeps(next, steps[1..]);
      WrittenOnceChain(db, next, RunCycles(db, steps));
      forall h | IsFrozen(db, h)
        ensures HourUntouched(db, RunCycles(db, steps), h)
      {
        UntouchedChain(db, next, RunCycles(db, steps), h);
      }
    }
  }

  lemma UntouchedSelf(db: Tables, hour: int)
    ensures HourUntouched(db, db, hour)
  {
  }

  lemma WrittenOnceSelf(db: Tables)
    ensures WrittenOnce(db, db)
  {
  }

  lemma UntouchedChain(a: Tables, b: Tables, c: Tables, hour: int)
    requires HourUntouched(a, b, hour)
    requires IsFrozen(a, hour) && (IsFrozen(b, hour) ==> HourUntouched(b, c, hour))
    ensures IsFrozen(b, hour) && HourUntouched(a, c, hour)
  {
    assert IsFrozen(b, hour);
    forall s: Slot | HourOf(s.bucket) == hour
      ensures AgreeAt(a.tranches, c.tranches, s)
    {
      assert AgreeAt(a.tranches, b.tranches, s) && AgreeAt(b.tranches, c.tranches, s);
    }
    forall p
      ensures AgreeAt(a.poolHours, c.poolHours, Slot(p, hour))
    {
      assert AgreeAt(a.poolHours, b.poolHours, Slot(p, hour)) && AgreeAt(b.poolHours, c.poolHours, Slot(p, hour));
    }
  }

  lemma EmptyIsValid(pools: nat)
    ensures Valid(Empty(pools))
  {
  }
}
