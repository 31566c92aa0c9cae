/** The stop every daemon shares: one grace for all its stages, and the first error as verdict. */
module Shutdown {
  import opened Prelude

  /** In milliseconds. */
  const SHUTDOWN_GRACE := 5_000

  datatype TaskResult = Stopped | Errored(error: int) | Panicked | Cancelled

  datatype Failure = First(error: int) | TaskError(error: int) | TaskPanicked(name: string)

  /** A cancelled task is no failure: the runtime destroyed it, or it was aborted. */
  function HandleTaskResult(result: TaskResult, name: string): Option<Failure> {
    match result
    case Stopped => None
    case Errored(e) => Some(TaskError(e))
    case Panicked => Some(TaskPanicked(name))
    case Cancelled => None
  }

  /** A stage: when its task finishes, if it ever does, and with what. */
  datatype Stage = Stage(name: string, finishes: Option<int>, result: TaskResult)

  predicate FinishesBy(stage: Stage, instant: int) {
    stage.finishes.Some? && stage.finishes.value <= instant
  }

  /** A stage the drain waits for, and the grace is enough for. */
  predicate Joined(stage: Stage, collected: Option<string>, deadline: int) {
    collected != Some(stage.name) && FinishesBy(stage, deadline)
  }

  /** A stage the drain waits for in vain. */
  predicate Overran(stage: Stage, collected: Option<string>, deadline: int) {
    collected != Some(stage.name) && !FinishesBy(stage, deadline)
  }

  // ---------------------------------------------------------------------
  // What a drain learns, stage by stage
  // ---------------------------------------------------------------------

  function Polled(stages: seq<Stage>, collected: Option<string>): seq<string> {
    if stages == [] then []
    else
      var last := stages[|stages| - 1];
      Polled(stages[..|stages| - 1], collected) + if collected == Some(last.name) then [] else [last.name]
  }

  function Overrunning(stages: seq<Stage>, collected: Option<string>, deadline: int): seq<string> {
    if stages == [] then []
    else
      var last := stages[|stages| - 1];
      Overrunning(stages[..|stages| - 1], collected, deadline)
      + if Overran(last, collected, deadline) then [last.name] else []
  }

  function Verdict(first: Option<Failure>, stages: seq<Stage>, collected: Option<string>,
                   deadline: int): Option<Failure> {
    if stages == [] then first
    else
      var before, last := Verdict(first, stages[..|stages| - 1], collected, deadline), stages[|stages| - 1];
      if before.None? && Joined(last, collected, deadline) then HandleTaskResult(last.result, last.name) else before
  }

  // ---------------------------------------------------------------------
  // The stop
  // ---------------------------------------------------------------------

  class Stop {
    var outcome: Option<Failure>
    var stillRunning: seq<string>
    const deadline: int
    const collected: Option<string>
    /** The stages whose task was polled: polled once more, a collected one panics. */
    var polled: seq<string>

    constructor (first: Option<Failure>, collected: Option<string>, now: int)
      ensures outcome == first && stillRunning == [] && polled == []
      ensures deadline == now + SHUTDOWN_GRACE && this.collected == collected
    {
      outcome, stillRunning, polled := first, [], [];
      deadline, this.collected := now + SHUTDOWN_GRACE, collected;
    }

    /** Wait for a stage within what is left of the grace; the handle is polled before the clock. */
    method Settle(stage: Stage, now: int) returns (after: int)
      modifies this
      ensures var waited := collected != Some(stage.name);
              var joined := FinishesBy(stage, Max(now, deadline));
              && polled == old(polled) + (if waited then [stage.name] else [])
              && stillRunning == old(stillRunning) + (if waited && !joined then [stage.name] else [])
              && outcome == (if waited && joined && old(outcome).None? then HandleTaskResult(stage.result, stage.name)
                             else old(outcome))
              && after == (if !waited then now
                           else if joined then Max(now, stage.finishes.value)
                           else Max(now, deadline))
    {
      if collected == Some(stage.name) {
        return now;
      }
      polled := polled + [stage.name];
      if FinishesBy(stage, Max(now, deadline)) {
        if outcome.None? {
          outcome := HandleTaskResult(stage.result, stage.name);
        }
        after := Max(now, stage.finishes.value);
      } else {
        stillRunning := stillRunning + [stage.name];
        after := Max(now, deadline);
      }
    }

    /** Every stage in turn, each within what the ones before it left of the grace. */
    method Drain(stages: seq<Stage>, now: int) returns (after: int)
      requires now <= deadline
      modifies this
      ensures now <= after <= deadline
      ensures polled == old(polled) + Polled(stages, collected)
      ensures stillRunning == old(stillRunning) + Overrunning(stages, collected, deadline)
      ensures outcome == Verdict(old(outcome), stages, collected, deadline)
      ensures Overrunning(stages, collected, deadline) != [] ==> after == deadline
    {
      after := now;
      assert stages[..0] == [];
      for i := 0 to |stages|
        invariant now <= after <= deadline
        invariant polled == old(polled) + Polled(stages[..i], collected)
        invariant stillRunning == old(stillRunning) + Overrunning(stages[..i], collected, deadline)
        invariant outcome == Verdict(old(outcome), stages[..i], collected, deadline)
        invariant Overrunning(stages[..i], collected, deadline) != [] ==> after == deadline
      {
        assert stages[..i + 1][..i] == stages[..i];
        after := Settle(stages[i], after);
      }
      assert stages[..|stages|] == stages;
    }
  }

  // ---------------------------------------------------------------------
  // What a drain's result means
  // ---------------------------------------------------------------------

  /** A stage waited for and over by the deadline, with an error or a panic of its own. */
  predicate Fails(stage: Stage, collected: Option<string>, deadline: int) {
    && collected != Some(stage.name) && stage.finishes.Some? && stage.finishes.value <= deadline
    && (stage.result.Errored? || stage.result.Panicked?)
  }

  predicate IsItsFailure(stage: Stage, failure: Failure) {
    match stage.result
    case Errored(e) => failure == TaskError(e)
    case Panicked => failure == TaskPanicked(stage.name)
    case _ => false
  }

  lemma HandledOnFailure(stage: Stage, collected: Option<string>, deadline: int)
    ensures Fails(stage, collected, deadline) <==>
            Joined(stage, collected, deadline) && HandleTaskResult(stage.result, stage.name).Some?
    ensures HandleTaskResult(stage.result, stage.name).Some? ==>
              IsItsFailure(stage, HandleTaskResult(stage.result, stage.name).value)
  {
  }

  /**
   The verdict is the first error: the one the stop came with, else the first stage's to fail, its own
   error or its panic by name. A stage stopped or cancelled, late or collected, is none.
   */
  lemma {:induction false} VerdictIsTheFirstError(first: Option<Failure>, stages: seq<Stage>, collected: Option<string>,
                                                  deadline: int)
    ensures var verdict := Verdict(first, stages, collected, deadline);
            && (first.Some? ==> verdict == first)
            && (verdict.None? <==>
                first.None? && forall i :: 0 <= i < |stages| ==> !Fails(stages[i], collected, deadline))
            && (first.None? && verdict.Some? ==>
                  exists i :: 0 <= i < |stages| && Fails(stages[i], collected, deadline)
                              && (forall j :: 0 <= j < i ==> !Fails(stages[j], collected, deadline))
                              && IsItsFailure(stages[i], verdict.value))
  {
    hide Fails, Joined, HandleTaskResult, IsItsFailure;
    if stages != [] {
      var init, last := stages[..|stages| - 1], stages[|stages| - 1];
      VerdictIsTheFirstError(first, init, collected, deadline);
      HandledOnFailure(last, collected, deadline);
      assert forall i :: 0 <= i < |init| ==> init[i] == stages[i];
    }
  }

  lemma {:induction false} OverrunningOf(a: seq<Stage>, b: seq<Stage>, collected: Option<string>, deadline: int)
    ensures Overrunning(a + b, collected, deadline) ==
            Overrunning(a, collected, deadline) + Overrunning(b, collected, deadline)
  {
    if b == [] {
      assert a + b == a;
    } else {
      assert (a + b)[..|a + b| - 1] == a + b[..|b| - 1];
      OverrunningOf(a, b[..|b| - 1], collected, deadline);
    }
  }

  function Named(stages: seq<Stage>, collected: Option<string>, deadline: int): multiset<string> {
    multiset(Overrunning(stages, collected, deadline))
  }

  /** Whatever the order the stages are settled in, the same ones are named. */
  lemma {:induction false} NamedWhateverTheOrder(a: seq<Stage>, b: seq<Stage>, collected: Option<string>, deadline: int)
    requires Permuted(a, b)
    ensures Named(a, collected, deadline) == Named(b, collected, deadline)
    decreases |a|
  {
    hide Named, Permuted;
    if a == [] {
      PermutedNothing(b);
    } else {
      var i := WithoutOne(a, b);
      NamedWhateverTheOrder(a[1..], b[..i] + b[i + 1..], collected, deadline);
      MovedToTheFront(a, 0, collected, deadline);
      MovedToTheFront(b, i, collected, deadline);
      assert a[..0] + a[1..] == a[1..];
    }
  }

  predicate Permuted(a: seq<Stage>, b: seq<Stage>) {
    multiset(a) == multiset(b)
  }

  lemma PermutedNothing(b: seq<Stage>)
    requires Permuted([], b)
    ensures b == []
  {
    assert |multiset(b)| == 0;
  }

  lemma WithoutOne(a: seq<Stage>, b: seq<Stage>) returns (i: nat)
    requires a != [] && Permuted(a, b)
    ensures i < |b| && b[i] == a[0] && Permuted(a[1..], b[..i] + b[i + 1..])
  {
    assert a[0] in multiset(b);
    i :| i < |b| && b[i] == a[0];
    assert a == [a[0]] + a[1..];
    assert b == b[..i] + [b[i]] + b[i + 1..];
    assert multiset(a[1..]) == multiset(a) - multiset{a[0]};
    assert multiset(b[..i] + b[i + 1..]) == multiset(b) - multiset{b[i]};
  }

  lemma MovedToTheFront(stages: seq<Stage>, i: nat, collected: Option<string>, deadline: int)
    requires i < |stages|
    ensures Named(stages, collected, deadline) ==
            Named([stages[i]], collected, deadline) + Named(stages[..i] + stages[i + 1..], collected, deadline)
  {
    hide Overrunning;
    var front, one, back := stages[..i], [stages[i]], stages[i + 1..];
    assert stages == front + (one + back);
    OverrunningOf(front, one + back, collected, deadline);
    OverrunningOf(one, back, collected, deadline);
    OverrunningOf(front, back, collected, deadline);
  }

  /** The stages named are those waited for that do not finish by the deadline, the collected one never polled. */
  lemma {:induction false} NamedExactly(stages: seq<Stage>, collected: Option<string>, deadline: int)
    ensures forall n :: n in Overrunning(stages, collected, deadline) <==>
              collected != Some(n) && exists i :: 0 <= i < |stages| && stages[i].name == n
                                                  && (stages[i].finishes.None? || stages[i].finishes.value > deadline)
    ensures forall n :: n in Polled(stages, collected) <==>
              collected != Some(n) && exists i :: 0 <= i < |stages| && stages[i].name == n
  {
    if stages != [] {
      var init, last := stages[..|stages| - 1], stages[|stages| - 1];
      NamedExactly(init, collected, deadline);
      assert stages == init + [last];
    }
  }
}
