/** The archiver's cadence: a run at startup, then one an interval after each has ended. */
module ArchiveWorker {
  import opened Prelude
  import Shutdown

  /** How long a run takes, and whether it loses a tie with the end of the grace. */
  datatype Turn = Turn(takes: nat, losesTie: bool)

  /** A run's span; `left` when it outlived the grace. */
  datatype Span = Span(start: int, end: int, left: bool)

  predicate LeavesAt(start: int, turn: Turn, stop: Option<int>) {
    stop.Some? && (var over := stop.value + Shutdown.SHUTDOWN_GRACE;
                   over < start + turn.takes || (over == start + turn.takes && turn.losesTie))
  }

  /** A run starts before any stop, and takes its time or is left one grace after the stop. */
  predicate IsRun(span: Span, turn: Turn, stop: Option<int>) {
    && span.start <= span.end
    && (stop.Some? ==> span.start < stop.value && span.end <= stop.value + Shutdown.SHUTDOWN_GRACE)
    && (span.left <==> LeavesAt(span.start, turn, stop))
    && (!span.left ==> span.end == span.start + turn.takes)
    && (span.left ==> span.end == stop.value + Shutdown.SHUTDOWN_GRACE)
  }

  /** One run, raced against the grace; `false` when it was left. */
  method RunOnce(start: int, turn: Turn, stop: Option<int>) returns (span: Span, ended: bool)
    requires stop.Some? ==> start < stop.value
    ensures span.start == start && ended == !span.left && IsRun(span, turn, stop)
  {
    if LeavesAt(start, turn, stop) {
      return Span(start, stop.value + Shutdown.SHUTDOWN_GRACE, true), false;
    }
    return Span(start, start + turn.takes, false), true;
  }

  /** A full interval, from the end of a run that was not left. */
  predicate Follows(interval: nat, before: Span, after: Span) {
    !before.left && after.start == before.end + interval
  }

  /** A run of the worker: what holds of the runs so far. */
  predicate Cadence(interval: nat, now: int, stop: Option<int>, turns: seq<Turn>, spans: seq<Span>)
    requires |spans| <= |turns|
  {
    && (spans != [] ==> spans[0].start == now)
    && (forall i :: 0 < i < |spans| ==> Follows(interval, spans[i - 1], spans[i]))
    && (forall i :: 0 <= i < |spans| ==> IsRun(spans[i], turns[i], stop))
  }

  function Due(interval: nat, now: int, spans: seq<Span>): int {
    if spans == [] then now else spans[|spans| - 1].end + interval
  }

  lemma OneMoreRun(interval: nat, now: int, stop: Option<int>, turns: seq<Turn>, spans: seq<Span>, span: Span)
    requires |spans| < |turns| && Cadence(interval, now, stop, turns, spans)
    requires spans != [] ==> !spans[|spans| - 1].left
    requires span.start == Due(interval, now, spans) && IsRun(span, turns[|spans|], stop)
    ensures Cadence(interval, now, stop, turns, spans + [span])
  {
    var more := spans + [span];
    forall i | 0 < i < |more|
      ensures Follows(interval, more[i - 1], more[i])
    {
      assert i < |spans| ==> Follows(interval, spans[i - 1], spans[i]);
    }
    forall i | 0 <= i < |more|
      ensures IsRun(more[i], turns[i], stop)
    {
      assert i < |spans| ==> more[i] == spans[i];
    }
  }

  /**
   Runs until `stop`, or until the turns run out with the worker still waiting for the next. Between
   two runs passes one full interval from the end of the first; none starts once a stop was asked
   for, and the last is over one grace after it.
   */
  method Run(interval: nat, now: int, stop: Option<int>, turns: seq<Turn>) returns (spans: seq<Span>)
    requires interval > 0
    ensures |spans| <= |turns| && Cadence(interval, now, stop, turns, spans)
    ensures |spans| < |turns| ==>
              stop.Some? && ((spans != [] && spans[|spans| - 1].left) || stop.value <= Due(interval, now, spans))
  {
    spans := [];
    for i := 0 to |turns|
      invariant |spans| == i && Cadence(interval, now, stop, turns, spans)
      invariant spans != [] ==> !spans[|spans| - 1].left
    {
      var due := Due(interval, now, spans);
      // Biased: a stop that arrives with a tick due starts nothing.
      if stop.Some? && stop.value <= due {
        return;
      }
      var span, ended := RunOnce(due, turns[i], stop);
      OneMoreRun(interval, now, stop, turns, spans, span);
      spans := spans + [span];
      if !ended {
        return;
      }
    }
  }
}
