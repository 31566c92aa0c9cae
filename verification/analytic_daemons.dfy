/**
 The daemons on the analytic tables: one, planning every cycle from the progress it finds; or several,
 each of which reads how far the tables go and plans on its own, and only writes under the lock
 (`crates/analytic/src/application/worker.rs`), so that a plan may be stale by then.
 */
module AnalyticDaemons {
  import opened Prelude
  import opened Analytic
  import opened AnalyticRuns
  import opened AnalyticHours

  // ---------------------------------------------------------------------
  // The daemon: every cycle planned from the progress it finds
  // ---------------------------------------------------------------------

  /** The first hour not frozen yet. */
  function NextHour(p: Progress, first: int): int {
    match p.lastFrozen
    case Some(frozen) => frozen + 1
    case None => first
  }

  /** No gap: every hour from the first to the last frozen, every tranche from the first hour's to the last written. */
  ghost predicate NoGap(db: Tables, p: Progress) {
    match p.firstHour
    case None => db.ledger == map[] && p.lastFrozen.None? && p.lastTranche.None? && db.hours == map[]
    case Some(first) =>
      && first <= NextHour(p, first)
      && (forall h :: h in db.hours ==> first <= h <= NextHour(p, first) + MAX_HOURS_PER_CYCLE - 1)
      && (forall h :: first <= h < NextHour(p, first) <==> IsFrozen(db, h))
      && (forall t :: t in db.ledger <==> p.lastTranche.Some? && first * TRANCHES_PER_HOUR <= t <= p.lastTranche.value)
      && (p.lastFrozen.Some? ==> p.lastTranche.Some?
                                 && NextHour(p, first) * TRANCHES_PER_HOUR <= p.lastTranche.value + 1)
  }

  ghost predicate DaemonState(db: Tables) {
    Valid(db) && AllRolled(db) && NoGap(db, ProgressOf(db))
  }

  /** The progress a planned cycle leaves. */
  function NextProgress(p: Progress, c: CycleWrite): Progress {
    Progress(
      if p.firstHour.None? && c.from <= c.through then Some(c.from) else p.firstHour,
      if c.freezeThrough.Some? then c.freezeThrough else p.lastFrozen,
      if c.tranchesFrom <= c.tranchesThrough then Some(c.tranchesThrough) else p.lastTranche)
  }

  /** A cycle that goes on from where gapless tables end, up to the current hour at most. */
  ghost predicate PlansOn(p: Progress, c: CycleWrite, current: int) {
    && c.from == PlannedFrom(current, p)
    && c.through <= Min(current, c.from + MAX_HOURS_PER_CYCLE - 1)
    && (p.firstHour.None? ==> c.through == c.from)
    && c.tranchesFrom == (if p.lastTranche.Some? then p.lastTranche.value + 1 else c.from * TRANCHES_PER_HOUR)
    && c.from * TRANCHES_PER_HOUR <= c.tranchesFrom
    && HourOf(c.tranchesThrough) <= current
    && (c.freezeThrough.Some? ==>
          && c.from <= c.freezeThrough.value <= c.through
          && (c.tranchesFrom <= c.tranchesThrough || p.lastTranche.Some?)
          && c.freezeThrough.value
             < HourOf(1 + if c.tranchesFrom <= c.tranchesThrough then c.tranchesThrough else p.lastTranche.value))
  }

  predicate PlansWhole(c: CycleWrite, current: int) {
    c.through == Min(current, c.from + MAX_HOURS_PER_CYCLE - 1)
  }

  lemma PlanOnGapless(db: Tables, p: Progress, now: int)
    requires IsProgress(db, p) && NoGap(db, p)
    ensures PlansOn(p, Plan(now, p), now / HOUR_SECONDS)
    ensures PlansWhole(Plan(now, p), now / HOUR_SECONDS)
    ensures Plan(now, p).WithoutWritten(p) == Plan(now, p)
  {
    assert p.lastTranche.Some? ==> p.lastTranche.value in db.ledger;
  }

  /** What a cycle does to the keys of its three ledgers. */
  ghost predicate KeysGrow(db: Tables, after: Tables, c: CycleWrite) {
    && (forall h :: h in after.hours <==> h in db.hours || c.from <= h <= c.through)
    && (forall h :: IsFrozen(after, h) <==>
                    IsFrozen(db, h) || (c.freezeThrough.Some? && c.from <= h <= c.freezeThrough.value))
    && (forall t :: t in after.ledger <==> t in db.ledger || c.tranchesFrom <= t <= c.tranchesThrough)
  }

  lemma CycleKeysGrow(db: Tables, c: CycleWrite, values: map<Slot, Fact>)
    requires Valid(db) && Trimmed(db, c) && ValidRows(values, db.pools)
    ensures KeysGrow(db, CycleTables(db, c, values), c)
  {
    hide CycleTables, FrozenWhole, HourSlots;
    RowsKeepKeys(db, c, values);
    forall h
      ensures h in CycleTables(db, c, values).hours <==> h in db.hours || c.from <= h <= c.through
      ensures IsFrozen(CycleTables(db, c, values), h)
         <==> IsFrozen(db, h) || (c.freezeThrough.Some? && c.from <= h <= c.freezeThrough.value)
    {
      CycleHours(db, c, values, h);
      FrozenAfter(db, c, values, h);
    }
  }

  /** The progress read after a planned cycle. */
  lemma NextProgressRead(db: Tables, after: Tables, p: Progress, c: CycleWrite, current: int)
    requires IsProgress(db, p) && NoGap(db, p) && PlansOn(p, c, current) && KeysGrow(db, after, c)
    requires Trimmed(db, c)
    ensures IsProgress(after, NextProgress(p, c))
  {
    assert forall h :: h in FrozenHours(after) <==> IsFrozen(after, h);
    assert forall h :: h in FrozenHours(db) <==> IsFrozen(db, h);
  }

  lemma NoGapKept(db: Tables, after: Tables, p: Progress, c: CycleWrite, current: int)
    requires IsProgress(db, p) && NoGap(db, p) && PlansOn(p, c, current) && KeysGrow(db, after, c)
    ensures NoGap(after, NextProgress(p, c))
  {
  }

  /** A cycle that goes on from where the tables end leaves no gap, whatever it was asked as. */
  lemma GaplessCycleKeeps(db: Tables, planned: CycleWrite, current: int, values: map<Slot, Fact>)
    requires DaemonState(db) && ValidRows(values, db.pools)
    requires PlansOn(ProgressOf(db), planned.WithoutWritten(ProgressOf(db)), current)
    ensures var c := planned.WithoutWritten(ProgressOf(db));
            var after := CycleTables(db, c, values);
            && !Collides(db, c, values) && KeysGrow(db, after, c) && after.pools == db.pools
            && ProgressOf(after) == NextProgress(ProgressOf(db), c)
            && (DaemonState(after) <==> LeavesNoneBehind(db, c, values))
  {
    hide CycleTables, CycleWrite.WithoutWritten, Valid, NoGap, ProgressOf, KeysGrow, AllRolled, Collides, PlansOn,
      IsProgress, HourUntouched, WrittenOnce, LeavesNoneBehind;
    var p := ProgressOf(db);
    var c := planned.WithoutWritten(p);
    var after := CycleTables(db, c, values);
    WithoutWrittenTrims(db, planned, p);
    AnyCycleKeeps(db, planned, values);
    CycleKeysGrow(db, c, values);
    NextProgressRead(db, after, p, c, current);
    NoGapKept(db, after, p, c, current);
    ProgressUnique(after, ProgressOf(after), NextProgress(p, c));
    RecordedHoursRolled(db, planned, values);
  }

  /**
   A cycle planned from the progress it finds, at any clock, even one running backwards: it keeps
   every recorded hour the sum of its tranches, and leaves no gap.
   */
  lemma PlannedCycleKeeps(db: Tables, now: int, values: map<Slot, Fact>)
    requires DaemonState(db) && ValidRows(values, db.pools)
    ensures var c := Plan(now, ProgressOf(db));
            && c.WithoutWritten(ProgressOf(db)) == c
            && !Collides(db, c, values)
            && DaemonState(CycleTables(db, c, values))
            && ProgressOf(CycleTables(db, c, values)) == NextProgress(ProgressOf(db), c)
  {
    hide CycleTables, Plan, CycleWrite.WithoutWritten, Valid, NoGap, ProgressOf, KeysGrow, AllRolled, Collides, PlansOn,
      PlansWhole, IsProgress, LeavesNoneBehind;
    var p := ProgressOf(db);
    var c := Plan(now, p);
    PlanOnGapless(db, p, now);
    GaplessCycleKeeps(db, c, now / HOUR_SECONDS, values);
    PlannedLeavesNoneBehind(db, p, c, now / HOUR_SECONDS, values);
  }

  lemma PlannedLeavesNoneBehind(db: Tables, p: Progress, c: CycleWrite, current: int, values: map<Slot, Fact>)
    requires IsProgress(db, p) && NoGap(db, p) && PlansOn(p, c, current) && PlansWhole(c, current)
    ensures LeavesNoneBehind(db, c, values)
  {
    forall s | s in values && c.tranchesFrom <= s.bucket <= c.tranchesThrough && HourOf(s.bucket) in db.hours
      ensures HourOf(s.bucket) <= c.through
    {
      assert HourOf(s.bucket) <= HourOf(c.tranchesThrough);
    }
  }

  datatype Tick = Tick(now: int, values: map<Slot, Fact>)

  ghost function RunDaemon(db: Tables, ticks: seq<Tick>): Tables
    decreases |ticks|
  {
    if ticks == [] then db
    else RunDaemon(CycleTables(db, Plan(ticks[0].now, ProgressOf(db)), ticks[0].values), ticks[1..])
  }

  /** Every run of the daemon from empty tables, at any instants: every recorded hour is whole, without a gap. */
  lemma {:induction false} DaemonRunKeeps(db: Tables, ticks: seq<Tick>)
    requires DaemonState(db) && forall i :: 0 <= i < |ticks| ==> ValidRows(ticks[i].values, db.pools)
    ensures DaemonState(RunDaemon(db, ticks))
    decreases |ticks|
  {
    hide DaemonState, CycleTables, Plan, ProgressOf, ValidRows, Collides;
    if ticks != [] {
      var c := Plan(ticks[0].now, ProgressOf(db));
      PlannedCycleKeeps(db, ticks[0].now, ticks[0].values);
      CycleFields(db, c, ticks[0].values);
      DaemonRunKeeps(CycleTables(db, c, ticks[0].values), ticks[1..]);
    }
  }

  lemma EmptyIsDaemonState(pools: nat)
    ensures DaemonState(Empty(pools))
  {
    var db := Empty(pools);
    EmptyIsValid(pools);
    ProgressUnique(db, ProgressOf(db), Progress(None, None, None));
  }

  /** In a run of the daemon, an hour is frozen only with its twelve tranches valued, and after every hour before it. */
  lemma FrozenIsComplete(db: Tables, hour: int)
    requires DaemonState(db) && IsFrozen(db, hour)
    ensures forall t :: HourOf(t) == hour ==> t in db.ledger
    ensures forall h :: h in db.hours && h <= hour ==> IsFrozen(db, h)
  {
  }

  // ---------------------------------------------------------------------
  // A stale plan
  // ---------------------------------------------------------------------

  predicate UpTo(a: Option<int>, b: Option<int>) {
    a.Some? ==> b.Some? && a.value <= b.value
  }

  /** What the tables had come to, and what they have come to since. */
  predicate Precedes(p: Progress, q: Progress) {
    p.firstHour == q.firstHour && UpTo(p.lastFrozen, q.lastFrozen) && UpTo(p.lastTranche, q.lastTranche)
  }

  /** What is left to write of a plan made at `now` from the progress `p`, once the tables are at `q`. */
  function Left(now: int, p: Progress, q: Progress): CycleWrite {
    Plan(now, p).WithoutWritten(q)
  }

  /** The next tranche to value. */
  function NextTranche(q: Progress, first: int): int {
    match q.lastTranche
    case Some(last) => last + 1
    case None => first * TRANCHES_PER_HOUR
  }

  lemma PlanFields(now: int, p: Progress)
    requires p.firstHour.Some?
    ensures var c, current, first := Plan(now, p), now / HOUR_SECONDS, p.firstHour.value;
            && c.from == NextHour(p, first) && c.through == Min(current, c.from + MAX_HOURS_PER_CYCLE - 1)
            && c.tranchesFrom <= Max(c.from * TRANCHES_PER_HOUR, NextTranche(p, first))
            && HourOf(c.tranchesThrough) <= current
  {
  }

  /** A freeze stops at the last hour, and before one whose last tranche is not written. */
  lemma TrimmedFreeze(planned: CycleWrite, q: Progress)
    ensures var c := planned.WithoutWritten(q);
            c.freezeThrough.Some? ==>
              && c.from <= c.freezeThrough.value <= c.through
              && (c.tranchesFrom <= c.tranchesThrough || q.lastTranche.Some?)
              && c.freezeThrough.value
                 < HourOf(1 + if c.tranchesFrom <= c.tranchesThrough then c.tranchesThrough else q.lastTranche.value)
  {
  }

  lemma TrimmedStart(planned: CycleWrite, q: Progress)
    ensures var c := planned.WithoutWritten(q);
            && c.from == (if q.lastFrozen.Some? then Max(planned.from, q.lastFrozen.value + 1) else planned.from)
            && c.through == planned.through && c.tranchesThrough == planned.tranchesThrough
            && c.tranchesFrom == Max(if q.lastTranche.Some? then Max(planned.tranchesFrom, q.lastTranche.value + 1)
                                     else planned.tranchesFrom,
                                     c.from * TRANCHES_PER_HOUR)
  {
  }

  /** Where gapless tables end, tranches and hours agree. */
  lemma GaplessFrontier(db: Tables, q: Progress)
    requires IsProgress(db, q) && NoGap(db, q) && q.firstHour.Some?
    ensures var first := q.firstHour.value;
            && NextHour(q, first) * TRANCHES_PER_HOUR <= NextTranche(q, first)
            && (q.lastTranche.None? ==> NextHour(q, first) == first)
            && first <= NextHour(q, first)
  {
    assert q.lastTranche.Some? ==> q.lastTranche.value in db.ledger;
  }

  lemma FrontiersFollow(p: Progress, q: Progress, first: int)
    requires Precedes(p, q) && first <= NextHour(q, first)
    requires NextHour(q, first) * TRANCHES_PER_HOUR <= NextTranche(q, first)
    ensures NextHour(p, first) <= NextHour(q, first) && NextTranche(p, first) <= NextTranche(q, first)
  {
  }

  lemma StalePlanOnGapless(db: Tables, p: Progress, q: Progress, now: int)
    requires IsProgress(db, q) && NoGap(db, q) && p.firstHour.Some? && Precedes(p, q)
    ensures var c, first := Left(now, p, q), p.firstHour.value;
            && PlansOn(q, c, now / HOUR_SECONDS)
            && c.tranchesFrom == NextTranche(q, first) && c.tranchesThrough == Plan(now, p).tranchesThrough
            && c.through == Min(now / HOUR_SECONDS, NextHour(p, first) + MAX_HOURS_PER_CYCLE - 1)
  {
    GaplessFrontier(db, q);
    PlanFields(now, p);
    TrimmedFreeze(Plan(now, p), q);
    TrimmedStart(Plan(now, p), q);
    hide Plan, IsProgress, NoGap, CycleWrite.WithoutWritten, HourOf;
    var first := p.firstHour.value;
    FrontiersFollow(p, q, first);
    assert Left(now, p, q).from == NextHour(q, first);
    hide NextHour, NextTranche;
  }

  /**
   A plan written when the tables have gone further than the progress it was made from, at any clock:
   it goes on from where they end, and leaves them whole and without a gap if and only if no tranche it
   values lies in a recorded hour past its last one.
   */
  lemma StalePlanKeeps(db: Tables, p: Progress, now: int, values: map<Slot, Fact>)
    requires DaemonState(db) && ValidRows(values, db.pools)
    requires p.firstHour.Some? && Precedes(p, ProgressOf(db))
    ensures var c := Left(now, p, ProgressOf(db));
            var after := CycleTables(db, c, values);
            && !Collides(db, c, values)
            && ProgressOf(after) == NextProgress(ProgressOf(db), c)
            && (DaemonState(after) <==> LeavesNoneBehind(db, c, values))
  {
    StalePlanOnGapless(db, p, ProgressOf(db), now);
    assert Left(now, p, ProgressOf(db)) == Plan(now, p).WithoutWritten(ProgressOf(db));
    hide *;
    GaplessCycleKeeps(db, Plan(now, p), now / HOUR_SECONDS, values);
  }

  // ---------------------------------------------------------------------
  // Any interleaving, under one clock
  // ---------------------------------------------------------------------

  /** A plan made and not written yet, by its instant and the progress it was made from. */
  datatype Reading = Reading(now: int, progress: Progress)

  /** The tables, the plans in flight, in the order they were made, and the clock. */
  datatype World = World(db: Tables, readings: seq<Reading>, clock: int)

  datatype Step =
    | Reads(now: int)
    | Writes(i: nat, values: map<Slot, Fact>)

  /** A daemon reads at an instant not before the clock's; or one writes the plan it made. */
  ghost predicate Allowed(w: World, s: Step) {
    match s
    case Reads(now) => now >= w.clock
    case Writes(i, values) => i < |w.readings| && ValidRows(values, w.db.pools)
  }

  ghost function After(w: World, s: Step): World
    requires Allowed(w, s)
  {
    match s
    case Reads(now) => World(w.db, w.readings + [Reading(now, ProgressOf(w.db))], now)
    case Writes(i, values) =>
      var r := w.readings[i];
      World(CycleTables(w.db, Left(r.now, r.progress, ProgressOf(w.db)), values),
            w.readings[..i] + w.readings[i + 1..], w.clock)
  }

  ghost predicate RunAllowed(w: World, steps: seq<Step>)
    decreases |steps|
  {
    steps == [] || (Allowed(w, steps[0]) && RunAllowed(After(w, steps[0]), steps[1..]))
  }

  ghost function RunAll(w: World, steps: seq<Step>): World
    requires RunAllowed(w, steps)
    decreases |steps|
  {
    if steps == [] then w else RunAll(After(w, steps[0]), steps[1..])
  }

  /** No cycle of the run violates a key. */
  ghost predicate NoneCollides(w: World, steps: seq<Step>)
    requires RunAllowed(w, steps)
    decreases |steps|
  {
    steps == [] ||
    (&& (steps[0].Writes? ==>
           var r := w.readings[steps[0].i];
           !Collides(w.db, Left(r.now, r.progress, ProgressOf(w.db)), steps[0].values))
     && NoneCollides(After(w, steps[0]), steps[1..]))
  }

  /** Nothing the plan has left to value can lie past its hours: none is recorded there, or no tranche is left. */
  ghost predicate Harmless(hours: set<int>, q: Progress, r: Reading) {
    r.progress.firstHour.Some? ==>
      var first := r.progress.firstHour.value;
      || (forall h :: h in hours ==> h <= NextHour(r.progress, first) + MAX_HOURS_PER_CYCLE - 1)
      || Plan(r.now, r.progress).tranchesThrough < NextTranche(q, first)
  }

  /** What gapless tables give as their progress. */
  predicate Coherent(p: Progress) {
    && (p.lastTranche.Some? ==> p.firstHour.Some? && p.firstHour.value * TRANCHES_PER_HOUR <= p.lastTranche.value)
    && (p.lastFrozen.Some? ==> p.lastTranche.Some? && p.firstHour.value <= p.lastFrozen.value + 1)
  }

  lemma GaplessIsCoherent(db: Tables, p: Progress)
    requires IsProgress(db, p) && NoGap(db, p)
    ensures Coherent(p)
  {
    assert p.lastTranche.Some? ==> p.lastTranche.value in db.ledger;
  }

  /** One reading after another. */
  predicate Follows(a: Reading, b: Reading) {
    a.now <= b.now && Precedes(a.progress, b.progress)
  }

  /** The plans in flight were made in turn, on tables that went this far, and harm nothing. */
  ghost predicate InTurn(hours: set<int>, q: Progress, readings: seq<Reading>, clock: int) {
    && q.firstHour.Some?
    && (forall i :: 0 <= i < |readings| ==>
          && readings[i].now <= clock && Coherent(readings[i].progress)
          && Precedes(readings[i].progress, q) && Harmless(hours, q, readings[i]))
    && (forall i, j :: 0 <= i < j < |readings| ==> Follows(readings[i], readings[j]))
  }

  ghost predicate Sound(w: World) {
    DaemonState(w.db) && InTurn(w.db.hours.Keys, ProgressOf(w.db), w.readings, w.clock)
  }

  lemma HarmlessLeavesNone(db: Tables, r: Reading, values: map<Slot, Fact>)
    requires DaemonState(db) && r.progress.firstHour.Some? && Precedes(r.progress, ProgressOf(db))
    requires Harmless(db.hours.Keys, ProgressOf(db), r)
    ensures LeavesNoneBehind(db, Left(r.now, r.progress, ProgressOf(db)), values)
  {
    var q := ProgressOf(db);
    StalePlanOnGapless(db, r.progress, q, r.now);
    hide Left, Plan, ProgressOf, Valid, AllRolled, NoGap;
    var c := Left(r.now, r.progress, q);
    forall s | s in values && c.tranchesFrom <= s.bucket <= c.tranchesThrough && HourOf(s.bucket) in db.hours
      ensures HourOf(s.bucket) <= c.through
    {
      assert HourOf(s.bucket) <= HourOf(c.tranchesThrough);
    }
  }

  /** A plan made later, from tables that went further, reaches no less far. */
  lemma LaterReachesFurther(a: Reading, b: Reading)
    requires Follows(a, b) && a.progress.firstHour.Some? && Coherent(a.progress) && Coherent(b.progress)
    ensures Plan(a.now, a.progress).tranchesThrough <= Plan(b.now, b.progress).tranchesThrough
  {
  }

  /** What a planned cycle leaves goes on from what it found. */
  lemma NextFollows(q: Progress, c: CycleWrite)
    requires q.firstHour.Some? && Coherent(q)
    requires c.tranchesFrom == NextTranche(q, q.firstHour.value)
    requires c.freezeThrough.Some? ==> UpTo(q.lastFrozen, c.freezeThrough)
    ensures Precedes(q, NextProgress(q, c))
    ensures NextTranche(NextProgress(q, c), q.firstHour.value) ==
            Max(NextTranche(q, q.firstHour.value), c.tranchesThrough + 1)
  {
  }

  lemma PrecedesThrough(p: Progress, q: Progress, r: Progress)
    requires Precedes(p, q) && Precedes(q, r)
    ensures Precedes(p, r)
  {
  }

  /** What writing `r` does, as far as the plans in flight see. */
  ghost predicate GoesOn(hours: set<int>, after: set<int>, q: Progress, c: CycleWrite, r: Reading) {
    && q.firstHour.Some?
    && c.tranchesFrom == NextTranche(q, q.firstHour.value)
    && c.tranchesThrough == Plan(r.now, r.progress).tranchesThrough
    && c.through <= NextHour(r.progress, q.firstHour.value) + MAX_HOURS_PER_CYCLE - 1
    && (forall h :: h in after ==> h in hours || h <= c.through)
    && (c.freezeThrough.Some? ==> UpTo(q.lastFrozen, c.freezeThrough))
  }

  /** Once another plan is written, one in flight still harms nothing. */
  lemma StaysHarmless(hours: set<int>, after: set<int>, q: Progress, c: CycleWrite, written: Reading, r: Reading)
    requires Harmless(hours, q, r) && GoesOn(hours, after, q, c, written)
    requires Coherent(q) && Coherent(r.progress) && Coherent(written.progress)
    requires Precedes(r.progress, q) && Precedes(written.progress, q) && (Follows(written, r) || Follows(r, written))
    ensures Harmless(after, NextProgress(q, c), r)
  {
    var first := q.firstHour.value;
    NextFollows(q, c);
    if Follows(r, written) {
      LaterReachesFurther(r, written);
      hide Plan;
    } else {
      hide Plan;
      assert NextHour(written.progress, first) <= NextHour(r.progress, first);
    }
  }

  lemma TurnKept(hours: set<int>, after: set<int>, q: Progress, c: CycleWrite, readings: seq<Reading>, i: nat,
                 clock: int)
    requires InTurn(hours, q, readings, clock) && i < |readings| && Coherent(q)
    requires GoesOn(hours, after, q, c, readings[i])
    ensures InTurn(after, NextProgress(q, c), readings[..i] + readings[i + 1..], clock)
  {
    var rest, next := readings[..i] + readings[i + 1..], NextProgress(q, c);
    NextFollows(q, c);
    hide Plan, Harmless, Follows, Precedes, NextProgress, Coherent;
    forall k | 0 <= k < |rest|
      ensures rest[k].now <= clock && Coherent(rest[k].progress)
      ensures Precedes(rest[k].progress, next) && Harmless(after, next, rest[k])
    {
      var r := readings[if k < i then k else k + 1];
      assert rest[k] == r;
      assert Follows(r, readings[i]) || Follows(readings[i], r);
      StaysHarmless(hours, after, q, c, readings[i], r);
      PrecedesThrough(r.progress, q, next);
    }
    FirstStays(q, next);
  }

  lemma FirstStays(q: Progress, next: Progress)
    requires Precedes(q, next)
    ensures q.firstHour == next.firstHour
  {
  }

  /** A plan in flight, written. */
  lemma WrittenTables(db: Tables, r: Reading, values: map<Slot, Fact>)
    requires DaemonState(db) && ValidRows(values, db.pools) && Harmless(db.hours.Keys, ProgressOf(db), r)
    requires r.progress.firstHour.Some? && Precedes(r.progress, ProgressOf(db))
    ensures var c := Left(r.now, r.progress, ProgressOf(db));
            var after := CycleTables(db, c, values);
            && !Collides(db, c, values) && DaemonState(after) && after.pools == db.pools
            && ProgressOf(after) == NextProgress(ProgressOf(db), c)
            && GoesOn(db.hours.Keys, after.hours.Keys, ProgressOf(db), c, r)
  {
    var q := ProgressOf(db);
    var c := Left(r.now, r.progress, q);
    StalePlanOnGapless(db, r.progress, q, r.now);
    HarmlessLeavesNone(db, r, values);
    assert c == Plan(r.now, r.progress).WithoutWritten(q);
    hide CycleTables, Left, Plan, CycleWrite.WithoutWritten, ProgressOf, Valid, AllRolled, NoGap, Harmless, ValidRows,
         LeavesNoneBehind, IsProgress, Collides;
    GaplessCycleKeeps(db, Plan(r.now, r.progress), r.now / HOUR_SECONDS, values);
  }

  lemma ReadKeeps(w: World, now: int)
    requires Sound(w) && now >= w.clock
    ensures Sound(After(w, Reads(now)))
  {
    var q := ProgressOf(w.db);
    GaplessIsCoherent(w.db, q);
    hide ProgressOf, Plan, Valid, AllRolled, Left, Coherent;
    var r := Reading(now, q);
    assert Harmless(w.db.hours.Keys, q, r);
    hide NoGap, Harmless;
    var readings := w.readings + [r];
    assert forall i :: 0 <= i < |w.readings| ==> readings[i] == w.readings[i] && Follows(w.readings[i], r);
  }

  lemma WriteKeeps(w: World, i: nat, values: map<Slot, Fact>)
    requires Sound(w) && i < |w.readings| && ValidRows(values, w.db.pools)
    ensures var r := w.readings[i];
            !Collides(w.db, Left(r.now, r.progress, ProgressOf(w.db)), values)
    ensures Sound(After(w, Writes(i, values))) && After(w, Writes(i, values)).db.pools == w.db.pools
  {
    var r, q := w.readings[i], ProgressOf(w.db);
    var c := Left(r.now, r.progress, q);
    assert DaemonState(w.db) && NoGap(w.db, q);
    assert InTurn(w.db.hours.Keys, q, w.readings, w.clock);
    assert Precedes(r.progress, q) && r.progress.firstHour.Some? && Harmless(w.db.hours.Keys, q, r);
    hide DaemonState, InTurn, Precedes, Left, ProgressOf, CycleTables, Collides, Harmless, ValidRows, NoGap, IsProgress,
         Coherent, GoesOn, Plan;
    GaplessIsCoherent(w.db, q);
    WrittenTables(w.db, r, values);
    var after := CycleTables(w.db, c, values);
    TurnKept(w.db.hours.Keys, after.hours.Keys, q, c, w.readings, i, w.clock);
  }

  /**
   Any number of daemons, planning and writing in any order under one clock that never runs backwards,
   keep every recorded hour the sum of its tranches and leave no gap, and none of their cycles
   violates a key, however stale a plan is when it is written.
   */
  lemma {:induction false} ConcurrentRunKeeps(w: World, steps: seq<Step>)
    requires Sound(w) && RunAllowed(w, steps)
    ensures Sound(RunAll(w, steps)) && NoneCollides(w, steps)
    decreases |steps|
  {
    hide Sound, Collides, Left, ProgressOf, CycleTables, ValidRows;
    if steps != [] {
      match steps[0] {
        case Reads(now) => ReadKeeps(w, now);
        case Writes(i, values) => WriteKeeps(w, i, values);
      }
      ConcurrentRunKeeps(After(w, steps[0]), steps[1..]);
    }
  }

  /** Such a run starts from tables the daemons have begun, with no plan in flight. */
  lemma StartIsSound(db: Tables, clock: int)
    requires DaemonState(db) && ProgressOf(db).firstHour.Some?
    ensures Sound(World(db, [], clock))
  {
  }

  // ---------------------------------------------------------------------
  // A plan made before the tables were begun
  // ---------------------------------------------------------------------

  const NOT_BEGUN := Progress(None, None, None)

  /** What a plan made on empty tables has left to write. */
  ghost predicate FirstWrite(q: Progress, now: int, c: CycleWrite) {
    var current := now / HOUR_SECONDS;
    && c.from == (if q.lastFrozen.Some? then Max(current, q.lastFrozen.value + 1) else current)
    && c.through == current && c.freezeThrough.None?
    && c.tranchesFrom == Max(c.from * TRANCHES_PER_HOUR,
                             if q.lastTranche.Some? then q.lastTranche.value + 1 else current * TRANCHES_PER_HOUR)
    && HourOf(c.tranchesThrough) <= current
    && (c.tranchesThrough >= current * TRANCHES_PER_HOUR <==>
        now % HOUR_SECONDS >= TRANCHE_SECONDS + FREEZE_MARGIN_SECONDS)
  }

  lemma NotBegunLeft(q: Progress, now: int)
    ensures FirstWrite(q, now, Left(now, NOT_BEGUN, q))
  {
    var c, current := Plan(now, NOT_BEGUN), now / HOUR_SECONDS;
    assert c.from == c.through == current && c.freezeThrough.None? && c.tranchesFrom == current * TRANCHES_PER_HOUR;
    TrimmedStart(c, q);
  }

  /**
   The tables begun meanwhile, what is left of such a plan leaves no gap: its hour is frozen already;
   or comes before the first, with no tranche valued and no hour recorded too far past it; or is
   reached by the hours and the tranches written, unless it has no tranche to value yet.
   */
  ghost predicate JoinsIn(hours: set<int>, q: Progress, now: int)
    requires q.firstHour.Some?
  {
    var current, first := now / HOUR_SECONDS, q.firstHour.value;
    || (q.lastFrozen.Some? && current <= q.lastFrozen.value)
    || (current < first && q.lastTranche.None?
        && forall h :: h in hours ==> h <= current + MAX_HOURS_PER_CYCLE - 1)
    || (first <= current <= NextHour(q, first) + MAX_HOURS_PER_CYCLE - 1
        && (current * TRANCHES_PER_HOUR <= NextTranche(q, first)
            || now % HOUR_SECONDS < TRANCHE_SECONDS + FREEZE_MARGIN_SECONDS))
  }

  function BegunProgress(q: Progress, c: CycleWrite): Progress {
    Progress(
      if q.firstHour.Some? && c.from <= c.through then Some(Min(q.firstHour.value, c.from)) else q.firstHour,
      q.lastFrozen,
      if c.tranchesFrom <= c.tranchesThrough then Some(c.tranchesThrough) else q.lastTranche)
  }

  lemma BegunProgressRead(db: Tables, after: Tables, q: Progress, now: int, c: CycleWrite)
    requires IsProgress(db, q) && q.firstHour.Some? && FirstWrite(q, now, c) && KeysGrow(db, after, c) && Trimmed(db, c)
    ensures IsProgress(after, BegunProgress(q, c))
  {
    assert forall h :: h in FrozenHours(after) <==> IsFrozen(after, h);
    assert forall h :: h in FrozenHours(db) <==> IsFrozen(db, h);
  }

  lemma FrozenAlready(db: Tables, after: Tables, q: Progress, now: int, c: CycleWrite)
    requires IsProgress(db, q) && NoGap(db, q) && q.firstHour.Some?
    requires FirstWrite(q, now, c) && KeysGrow(db, after, c)
    requires q.lastFrozen.Some? && now / HOUR_SECONDS <= q.lastFrozen.value
    ensures NoGap(after, BegunProgress(q, c))
  {
    assert c.from > c.through && c.tranchesFrom > c.tranchesThrough;
    assert BegunProgress(q, c) == q;
  }

  lemma BeforeTheFirst(db: Tables, after: Tables, q: Progress, now: int, c: CycleWrite)
    requires IsProgress(db, q) && NoGap(db, q) && q.firstHour.Some? && q.lastFrozen.None?
    requires FirstWrite(q, now, c) && KeysGrow(db, after, c)
    requires now / HOUR_SECONDS < q.firstHour.value
    ensures NoGap(after, BegunProgress(q, c)) <==> JoinsIn(db.hours.Keys, q, now)
  {
    var current, first := now / HOUR_SECONDS, q.firstHour.value;
    var next := BegunProgress(q, c);
    assert next.firstHour == Some(current) && next.lastFrozen.None?;
    if q.lastTranche.Some? {
      assert q.lastTranche.value in db.ledger && current * TRANCHES_PER_HOUR !in db.ledger;
      assert current * TRANCHES_PER_HOUR !in after.ledger;
    }
  }

  lemma FromTheFirst(db: Tables, after: Tables, q: Progress, now: int, c: CycleWrite)
    requires IsProgress(db, q) && NoGap(db, q) && q.firstHour.Some?
    requires FirstWrite(q, now, c) && KeysGrow(db, after, c)
    requires now / HOUR_SECONDS >= q.firstHour.value
    requires q.lastFrozen.Some? ==> now / HOUR_SECONDS > q.lastFrozen.value
    ensures NoGap(after, BegunProgress(q, c)) <==> JoinsIn(db.hours.Keys, q, now)
  {
    var current, first := now / HOUR_SECONDS, q.firstHour.value;
    var next, frontier := BegunProgress(q, c), NextTranche(q, first);
    GaplessFrontier(db, q);
    assert next.firstHour == Some(first) && NextHour(next, first) == NextHour(q, first);
    assert current in after.hours && frontier !in db.ledger;
    if NoGap(after, next) && frontier < current * TRANCHES_PER_HOUR {
      assert frontier !in after.ledger;
    }
  }

  lemma JoinsInExactly(db: Tables, after: Tables, q: Progress, now: int, c: CycleWrite)
    requires IsProgress(db, q) && NoGap(db, q) && q.firstHour.Some?
    requires FirstWrite(q, now, c) && KeysGrow(db, after, c)
    ensures NoGap(after, BegunProgress(q, c)) <==> JoinsIn(db.hours.Keys, q, now)
  {
    GaplessFrontier(db, q);
    hide NoGap, FirstWrite, KeysGrow, BegunProgress, IsProgress;
    if q.lastFrozen.Some? && now / HOUR_SECONDS <= q.lastFrozen.value {
      FrozenAlready(db, after, q, now, c);
    } else if now / HOUR_SECONDS < q.firstHour.value {
      BeforeTheFirst(db, after, q, now, c);
    } else {
      FromTheFirst(db, after, q, now, c);
    }
  }

  /**
   A plan made on empty tables and written once others began them: it leaves them whole, and without
   a gap if and only if it joins in.
   */
  lemma NotBegunPlanKeeps(db: Tables, now: int, values: map<Slot, Fact>)
    requires DaemonState(db) && ValidRows(values, db.pools) && ProgressOf(db).firstHour.Some?
    ensures var q := ProgressOf(db);
            var c := Left(now, NOT_BEGUN, q);
            && !Collides(db, c, values) && AllRolled(CycleTables(db, c, values))
            && (DaemonState(CycleTables(db, c, values)) <==> JoinsIn(db.hours.Keys, q, now))
  {
    var q, planned := ProgressOf(db), Plan(now, NOT_BEGUN);
    var c := Left(now, NOT_BEGUN, q);
    var after := CycleTables(db, c, values);
    NotBegunLeft(q, now);
    OwnHourOnly(db, q, now, c, values);
    assert c == planned.WithoutWritten(q) && NoGap(db, q);
    hide CycleTables, Left, Plan, CycleWrite.WithoutWritten, ProgressOf, Valid, AllRolled, NoGap, ValidRows, FirstWrite,
         LeavesNoneBehind, IsProgress, Collides, KeysGrow, BegunProgress, Trimmed, JoinsIn, WrittenOnce, HourUntouched;
    WithoutWrittenTrims(db, planned, q);
    AnyCycleKeeps(db, planned, values);
    CycleKeysGrow(db, c, values);
    RecordedHoursRolled(db, planned, values);
    BegunProgressRead(db, after, q, now, c);
    ProgressUnique(after, ProgressOf(after), BegunProgress(q, c));
    JoinsInExactly(db, after, q, now, c);
  }

  lemma OwnHourOnly(db: Tables, q: Progress, now: int, c: CycleWrite, values: map<Slot, Fact>)
    requires FirstWrite(q, now, c)
    ensures LeavesNoneBehind(db, c, values)
  {
    forall s | s in values && c.tranchesFrom <= s.bucket <= c.tranchesThrough && HourOf(s.bucket) in db.hours
      ensures HourOf(s.bucket) <= c.through
    {
      assert HourOf(s.bucket) <= HourOf(c.tranchesThrough);
    }
  }

  // ---------------------------------------------------------------------
  // Two plans that do not keep the tables
  // ---------------------------------------------------------------------

  const NO_ROWS: map<Slot, Fact> := map[]

  /** The tables once a daemon ran at each of these instants, on no swap at all. */
  ghost function RanAt(instants: seq<int>): Tables {
    if instants == [] then Empty(1)
    else
      var db := RanAt(instants[..|instants| - 1]);
      CycleTables(db, Plan(instants[|instants| - 1], ProgressOf(db)), NO_ROWS)
  }

  lemma RanOnce(instants: seq<int>, now: int, p: Progress)
    requires DaemonState(RanAt(instants)) && RanAt(instants).pools == 1 && ProgressOf(RanAt(instants)) == p
    ensures var db, c := RanAt(instants + [now]), Plan(now, p);
            && DaemonState(db) && db.pools == 1 && ProgressOf(db) == NextProgress(p, c)
            && (c.from <= c.through ==> c.through in db.hours)
  {
    hide *;
    var before, c := RanAt(instants), Plan(now, p);
    RanUnfolds(instants, now);
    NoRowsAreValid();
    PlannedCycleKeeps(before, now, NO_ROWS);
    CycleFields(before, c, NO_ROWS);
    CycleHours(before, c, NO_ROWS, c.through);
  }

  lemma RanUnfolds(instants: seq<int>, now: int)
    ensures var db := RanAt(instants);
            RanAt(instants + [now]) == CycleTables(db, Plan(now, ProgressOf(db)), NO_ROWS)
  {
    hide CycleTables, Plan, ProgressOf;
    assert (instants + [now])[..|instants|] == instants;
  }

  lemma NoRowsAreValid()
    ensures ValidRows(NO_ROWS, 1)
  {
  }

  lemma RanNever()
    ensures var db := RanAt([]);
            DaemonState(db) && db.pools == 1 && ProgressOf(db) == NOT_BEGUN
  {
    EmptyIsDaemonState(1);
    EmptyProgress(Empty(1));
  }

  /**
   Planned at 08:00 after a first cycle at 00:45, and written after cycles of a clock at 06:20 and
   06:21, a cycle values tranches of hour 6, which the last of them recorded, and rewrites none.
   */
  lemma AStalePlanLeavesAnHourBehind(swap: map<Slot, Fact>)
    requires ValidRows(swap, 1) && Slot(0, 74) in swap
    ensures var stale, db := ProgressOf(RanAt([2700])), RanAt([2700, 22800, 22860]);
            && DaemonState(db) && Precedes(stale, ProgressOf(db))
            && !DaemonState(CycleTables(db, Left(28800, stale, ProgressOf(db)), swap))
  {
    var first, second, third, late := 2700, 22800, 22860, 28800;
    var stale, q := Progress(Some(0), None, Some(6)), Progress(Some(0), Some(5), Some(73));
    var s := Slot(0, 74);
    assert HourOf(s.bucket) == 6 && Precedes(stale, q);
    hide *;
    FirstPlans(first, second, third, stale, q);
    RanFirst(first, second, third, stale, q);
    assert [first, second, third] == [2700, 22800, 22860] && [first] == [2700];
    var db := RanAt([first, second, third]);
    StalePlanKeeps(db, stale, late, swap);
    StaleLeft(late, stale, q);
    LeftBehindAt(db, Left(late, stale, q), swap, s);
  }

  lemma LeftBehindAt(db: Tables, c: CycleWrite, values: map<Slot, Fact>, s: Slot)
    requires s in values && c.tranchesFrom <= s.bucket <= c.tranchesThrough
    requires HourOf(s.bucket) in db.hours && HourOf(s.bucket) > c.through
    ensures !LeavesNoneBehind(db, c, values)
  {
  }

  lemma RanFirst(first: int, second: int, third: int, stale: Progress, q: Progress)
    requires NextProgress(NOT_BEGUN, Plan(first, NOT_BEGUN)) == stale
    requires NextProgress(stale, Plan(second, stale)) == q
    requires NextProgress(q, Plan(third, q)) == q && Plan(third, q).from == Plan(third, q).through == 6
    ensures ProgressOf(RanAt([first])) == stale
    ensures var db := RanAt([first, second, third]);
            DaemonState(db) && db.pools == 1 && ProgressOf(db) == q && 6 in db.hours
  {
    hide *;
    assert [] + [first] == [first] && [first] + [second] == [first, second];
    assert [first, second] + [third] == [first, second, third];
    RanNever();
    RanOnce([], first, NOT_BEGUN);
    RanOnce([first], second, stale);
    RanOnce([first, second], third, q);
  }

  lemma FirstPlans(first: int, second: int, third: int, stale: Progress, q: Progress)
    requires first == 2700 && second == 22800 && third == 22860
    requires stale == Progress(Some(0), None, Some(6)) && q == Progress(Some(0), Some(5), Some(73))
    ensures NextProgress(NOT_BEGUN, Plan(first, NOT_BEGUN)) == stale
    ensures NextProgress(stale, Plan(second, stale)) == q
    ensures NextProgress(q, Plan(third, q)) == q && Plan(third, q).from == Plan(third, q).through == 6
  {
  }

  lemma StaleLeft(late: int, stale: Progress, q: Progress)
    requires late == 28800
    requires stale == Progress(Some(0), None, Some(6)) && q == Progress(Some(0), Some(5), Some(73))
    ensures var c := Left(late, stale, q);
            c.tranchesFrom == 74 && c.tranchesThrough == 78 && c.through == 5
  {
  }

  /**
   Two daemons plan on empty tables, at 00:50 and 01:20; the second writes last, and the tranches from
   00:40 on are never valued.
   */
  lemma ALateFirstPlanLeavesAGap(values: map<Slot, Fact>)
    requires ValidRows(values, 1)
    ensures var db := RanAt([3000]);
            DaemonState(db) && !DaemonState(CycleTables(db, Left(4800, NOT_BEGUN, ProgressOf(db)), values))
  {
    var early, late, q := 3000, 4800, Progress(Some(0), None, Some(7));
    FirstPlan(early, q);
    assert [] + [early] == [early];
    hide RanAt, CycleTables, Plan, DaemonState, ProgressOf, NextProgress, Left, ValidRows;
    RanNever();
    RanOnce([], early, NOT_BEGUN);
    NotBegunPlanKeeps(RanAt([early]), late, values);
  }

  lemma FirstPlan(now: int, q: Progress)
    requires now == 3000 && q == Progress(Some(0), None, Some(7))
    ensures NextProgress(NOT_BEGUN, Plan(now, NOT_BEGUN)) == q
  {
  }
}
