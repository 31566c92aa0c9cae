/**
 The Jupiter price client (`crates/context/src/infra/jupiter_price.rs`): mints asked chunk by
 chunk, paced under the key's rate limit, retried on 429, and cut short by a stop.

 Instants and durations are nanoseconds. HTTP and the scheduler are an oracle: for each request
 of a call, how late its task wakes, how long the answer takes, and what the answer is.
 */
module JupiterPrice {
  import opened Prelude

  const JUPITER_BATCH_MAX: nat := 50
  const RATE_LIMIT_MAX_ATTEMPTS: nat := 3
  const NANOS_PER_SECOND: nat := 1_000_000_000
  const RATE_LIMIT_BASE_BACKOFF: nat := NANOS_PER_SECOND
  const RATE_LIMIT_MAX_BACKOFF: nat := 10 * NANOS_PER_SECOND
  const SPACING_PER_REQUEST_ALLOWED: nat := 66 * NANOS_PER_SECOND
  const MINUTE: nat := 60 * NANOS_PER_SECOND

  type Mint = nat
  type RateLimit = n: int | 0 < n < 0x1_0000_0000 witness 1

  datatype FetchedPrice = FetchedPrice(mint: Mint, usd: real)

  datatype PriceAnswer = PriceAnswer(priced: seq<FetchedPrice>, unpriced: seq<Mint>)

  const NO_ANSWER := PriceAnswer([], [])

  /** What HTTP brings back: a 429, any other failure, or a body with its usable entries. */
  datatype Response =
    | TooManyRequests(retryAfter: Option<nat>)
    | Failed
    | Body(entries: seq<FetchedPrice>)

  datatype Exchange = Exchange(lateness: nat, latency: nat, response: Response)

  /** The exchanges of a call, in the order sent; past the end, a failure. */
  type Oracle = seq<Exchange>

  function At(oracle: Oracle, call: nat): Exchange {
    if call < |oracle| then oracle[call] else Exchange(0, 0, Failed)
  }

  datatype Fetched = Answered(answer: PriceAnswer) | RateLimited(retryAfter: Option<nat>) | Error

  // ---------------------------------------------------------------------
  // One chunk's answer
  // ---------------------------------------------------------------------

  ghost predicate IsPriced(m: Mint, priced: seq<FetchedPrice>) {
    exists p :: p in priced && p.mint == m
  }

  function WithPrice(priced: seq<FetchedPrice>): set<Mint> {
    set p | p in priced :: p.mint
  }

  predicate AnyOf(asked: seq<Mint>, known: set<Mint>) {
    asked != [] && (asked[0] in known || AnyOf(asked[1..], known))
  }

  function Without(asked: seq<Mint>, known: set<Mint>): seq<Mint> {
    if asked == [] then []
    else (if asked[0] in known then [] else [asked[0]]) + Without(asked[1..], known)
  }

  function ChunkAnswer(asked: seq<Mint>, priced: seq<FetchedPrice>): Option<PriceAnswer> {
    var known := WithPrice(priced);
    if AnyOf(asked, known) then Some(PriceAnswer(priced, Without(asked, known))) else None
  }

  /** One call, read: a degraded body is an empty answer. */
  function FetchChunk(asked: seq<Mint>, response: Response): Fetched {
    match response
    case TooManyRequests(after) => RateLimited(after)
    case Failed => Error
    case Body(entries) =>
      match ChunkAnswer(asked, entries)
      case Some(answer) => Answered(answer)
      case None => Answered(NO_ANSWER)
  }

  /** A chunk's answer says of each mint asked that it is priced or unpriced, never both. */
  lemma ChunkAnswerClassifies(asked: seq<Mint>, priced: seq<FetchedPrice>)
    ensures ChunkAnswer(asked, priced).None? <==> forall m :: m in asked ==> !IsPriced(m, priced)
    ensures ChunkAnswer(asked, priced).Some? ==>
              var a := ChunkAnswer(asked, priced).value;
              && a.priced == priced
              && (forall m :: m in asked ==> (IsPriced(m, a.priced) <==> m !in a.unpriced))
              && (forall m :: m in a.unpriced ==> m in asked && !IsPriced(m, a.priced))
  {
    var known := WithPrice(priced);
    assert forall m :: m in known <==> IsPriced(m, priced);
    SplitByKnown(asked, known);
  }

  lemma {:induction false} SplitByKnown(asked: seq<Mint>, known: set<Mint>)
    ensures AnyOf(asked, known) <==> exists m :: m in asked && m in known
    ensures forall m :: m in Without(asked, known) <==> m in asked && m !in known
  {
    if asked != [] {
      SplitByKnown(asked[1..], known);
      assert forall m :: m in asked <==> m == asked[0] || m in asked[1..];
    }
  }

  // ---------------------------------------------------------------------
  // Pacing
  // ---------------------------------------------------------------------

  /** The least time between two requests, truncated to the nanosecond. */
  function SpacingUnder(rateLimit: RateLimit): nat {
    SPACING_PER_REQUEST_ALLOWED / rateLimit
  }

  function RateLimitBackoff(attempt: nat, retryAfter: Option<nat>): (r: nat)
    ensures r <= RATE_LIMIT_MAX_BACKOFF
    ensures retryAfter.Some? ==> r == Min(retryAfter.value, RATE_LIMIT_MAX_BACKOFF)
  {
    Min(match retryAfter
        case Some(after) => after
        case None => RATE_LIMIT_BASE_BACKOFF * Pow2(attempt), RATE_LIMIT_MAX_BACKOFF)
  }

  function Pow2(n: nat): nat {
    if n == 0 then 1 else 2 * Pow2(n - 1)
  }

  /** Without an announced delay, a second before the first retry and twice as long before each next, up to the cap. */
  lemma BackoffDoubles(attempt: nat)
    ensures RateLimitBackoff(0, None) == RATE_LIMIT_BASE_BACKOFF
    ensures RateLimitBackoff(attempt + 1, None) == Min(2 * RateLimitBackoff(attempt, None), RATE_LIMIT_MAX_BACKOFF)
    ensures RateLimitBackoff(attempt, None) == RATE_LIMIT_MAX_BACKOFF <==> attempt > 3
  {
    PowersPassTen(attempt);
  }

  lemma {:induction false} PowersPassTen(n: nat)
    ensures Pow2(n) > 9 <==> n > 3
  {
    if n > 3 {
      assert Pow2(n) == 2 * Pow2(n - 1);
      PowersPassTen(n - 1);
    }
  }

  /** When a retry is sent, on waking: after its backoff, and never before the next slot. */
  function RetryStart(attempt: nat, retryAfter: Option<nat>, at: nat, answered: nat, spacing: nat, lateness: nat): nat {
    answered + Max(RateLimitBackoff(attempt, retryAfter), Max(0, at + spacing - answered)) + lateness
  }

  /** A retry waits its backoff from the answer, and its slot from the request. */
  lemma RetryWaits(attempt: nat, retryAfter: Option<nat>, at: nat, answered: nat, spacing: nat, lateness: nat)
    ensures var retry := RetryStart(attempt, retryAfter, at, answered, spacing, lateness);
            retry >= answered + RateLimitBackoff(attempt, retryAfter) && retry >= at + spacing
  {
    hide RateLimitBackoff;
  }

  // ---------------------------------------------------------------------
  // The run without a stop
  // ---------------------------------------------------------------------

  /** One chunk through: when each of its requests started, when it was over, what came of it. */
  datatype ChunkRun = ChunkRun(starts: seq<nat>, finish: nat, fetched: Fetched)

  predicate Retried(fetched: Fetched, attempt: nat) {
    fetched.RateLimited? && attempt + 1 < RATE_LIMIT_MAX_ATTEMPTS
  }

  /** The attempts of a chunk from number `attempt` on, sent at `at`. */
  function Attempts(oracle: Oracle, spacing: nat, asked: seq<Mint>, call: nat, attempt: nat, at: nat): (r: ChunkRun)
    ensures |r.starts| > 0 && r.starts[0] == at
    decreases RATE_LIMIT_MAX_ATTEMPTS - attempt, 1
  {
    var next := Following(oracle, spacing, asked, call, attempt, at);
    ChunkRun([at] + next.starts, next.finish, next.fetched)
  }

  /** What follows the request sent at `at`: its retries, or its own end. */
  function Following(oracle: Oracle, spacing: nat, asked: seq<Mint>, call: nat, attempt: nat, at: nat): ChunkRun
    decreases RATE_LIMIT_MAX_ATTEMPTS - attempt, 0
  {
    var answered := at + At(oracle, call).latency;
    var fetched := FetchChunk(asked, At(oracle, call).response);
    if Retried(fetched, attempt) then
      Attempts(oracle, spacing, asked, call + 1, attempt + 1,
               RetryStart(attempt, fetched.retryAfter, at, answered, spacing, At(oracle, call + 1).lateness))
    else ChunkRun([], answered, fetched)
  }

  function ChunkRunAt(oracle: Oracle, spacing: nat, asked: seq<Mint>, call: nat, now: nat, nextStart: nat): ChunkRun {
    Attempts(oracle, spacing, asked, call, 0, Max(now, nextStart) + At(oracle, call).lateness)
  }

  function NextStart(run: ChunkRun, spacing: nat): nat
    requires |run.starts| > 0
  {
    run.starts[|run.starts| - 1] + spacing
  }

  function Run(oracle: Oracle, spacing: nat, chunks: seq<seq<Mint>>, call: nat, now: nat,
               nextStart: nat): (r: seq<ChunkRun>)
    ensures |r| == |chunks|
  {
    if chunks == [] then []
    else
      var first := ChunkRunAt(oracle, spacing, chunks[0], call, now, nextStart);
      [first] + Run(oracle, spacing, chunks[1..], call + |first.starts|, first.finish, NextStart(first, spacing))
  }

  function Starts(run: seq<ChunkRun>): seq<nat> {
    if run == [] then [] else run[0].starts + Starts(run[1..])
  }

  function Chunks(mints: seq<Mint>): seq<seq<Mint>> {
    if |mints| <= JUPITER_BATCH_MAX then (if mints == [] then [] else [mints])
    else [mints[..JUPITER_BATCH_MAX]] + Chunks(mints[JUPITER_BATCH_MAX..])
  }

  // ---------------------------------------------------------------------
  // The stop
  // ---------------------------------------------------------------------

  /** The biased race: at an instant where both are ready, the stop wins. */
  predicate Stopped(stop: Option<nat>, at: nat) {
    stop.Some? && stop.value <= at
  }

  /** The instants before the stop. */
  function Before(stop: Option<nat>, instants: seq<nat>): seq<nat> {
    if instants == [] then []
    else (if Stopped(stop, instants[0]) then [] else [instants[0]]) + Before(stop, instants[1..])
  }

  /** The chunks over before the stop. */
  function Completed(stop: Option<nat>, run: seq<ChunkRun>): seq<ChunkRun> {
    if run == [] then []
    else (if Stopped(stop, run[0].finish) then [] else [run[0]]) + Completed(stop, run[1..])
  }

  function AddChunk(answer: PriceAnswer, fetched: Fetched): PriceAnswer {
    match fetched
    case Answered(a) => PriceAnswer(answer.priced + a.priced, answer.unpriced + a.unpriced)
    case _ => answer
  }

  function Fold(answer: PriceAnswer, runs: seq<ChunkRun>): PriceAnswer
    decreases |runs|
  {
    if runs == [] then answer else Fold(AddChunk(answer, runs[0].fetched), runs[1..])
  }

  // ---------------------------------------------------------------------
  // The client's loops
  // ---------------------------------------------------------------------

  /** `fetch_chunk_with_retry`, its awaits raced against the stop: `None` once it is dropped. */
  method FetchChunkWithRetry(oracle: Oracle, spacing: nat, asked: seq<Mint>, firstCall: nat, at: nat, stop: Option<nat>)
    returns (fetched: Option<Fetched>, finish: nat, nextStart: nat, sent: seq<nat>)
    ensures var run := Attempts(oracle, spacing, asked, firstCall, 0, at);
            && sent == Before(stop, run.starts)
            && (fetched.None? <==> Stopped(stop, run.finish))
            && (fetched.Some? ==> fetched.value == run.fetched && finish == run.finish
                                  && nextStart == NextStart(run, spacing) && sent == run.starts)
  {
    hide Attempts, Following, Before, FetchChunk, RetryStart, At, Resumes, Stopped;
    ghost var whole := Attempts(oracle, spacing, asked, firstCall, 0, at);
    ghost var rest := whole;
    var attempt, call: nat, now: nat := 0, firstCall, at;
    fetched, finish, nextStart, sent := None, at, at, [];
    ResumesItself(whole, stop);
    while true
      invariant attempt < RATE_LIMIT_MAX_ATTEMPTS
      invariant rest == Attempts(oracle, spacing, asked, call, attempt, now)
      invariant Resumes(whole, rest, sent, stop)
      decreases RATE_LIMIT_MAX_ATTEMPTS - attempt
    {
      var answered := now + At(oracle, call).latency;
      ghost var next := Following(oracle, spacing, asked, call, attempt, now);
      AttemptStep(oracle, spacing, asked, call, attempt, now, stop);
      if Stopped(stop, now) {
        StoppedHere(whole, rest, sent, stop);
        return;
      }
      Sent(whole, rest, next, now, sent, stop);
      nextStart := now + spacing;
      sent := sent + [now];
      if Stopped(stop, answered) {
        StoppedHere(whole, next, sent, stop);
        return;
      }
      var result := FetchChunk(asked, At(oracle, call).response);
      if !Retried(result, attempt) {
        fetched, finish := Some(result), answered;
        OverHere(whole, next, sent, stop, now);
        return;
      }
      now := RetryStart(attempt, result.retryAfter, now, answered, spacing, At(oracle, call + 1).lateness);
      attempt, call, rest := attempt + 1, call + 1, next;
    }
  }

  /** The attempts of a chunk, some sent, the rest to come. */
  ghost predicate Resumes(whole: ChunkRun, rest: ChunkRun, sent: seq<nat>, stop: Option<nat>) {
    && whole.starts == sent + rest.starts
    && whole.finish == rest.finish && whole.fetched == rest.fetched
    && Before(stop, whole.starts) == sent + Before(stop, rest.starts)
  }

  lemma ResumesItself(whole: ChunkRun, stop: Option<nat>)
    ensures Resumes(whole, whole, [], stop)
  {
    assert [] + whole.starts == whole.starts && [] + Before(stop, whole.starts) == Before(stop, whole.starts);
  }

  /** The attempt in hand is sent. */
  lemma Sent(whole: ChunkRun, rest: ChunkRun, next: ChunkRun, at: nat, sent: seq<nat>, stop: Option<nat>)
    requires Resumes(whole, rest, sent, stop) && rest == ChunkRun([at] + next.starts, next.finish, next.fetched)
    requires Before(stop, rest.starts) == [at] + Before(stop, next.starts)
    ensures Resumes(whole, next, sent + [at], stop)
  {
    hide Before;
    Associate(sent, at, next.starts);
    Associate(sent, at, Before(stop, next.starts));
  }

  lemma StoppedHere(whole: ChunkRun, rest: ChunkRun, sent: seq<nat>, stop: Option<nat>)
    requires Resumes(whole, rest, sent, stop) && Before(stop, rest.starts) == []
    ensures sent == Before(stop, whole.starts) && whole.finish == rest.finish
  {
    hide Before;
    assert sent + [] == sent;
  }

  lemma OverHere(whole: ChunkRun, rest: ChunkRun, sent: seq<nat>, stop: Option<nat>, at: nat)
    requires Resumes(whole, rest, sent, stop) && rest.starts == [] && Before(stop, rest.starts) == []
    requires sent != [] && sent[|sent| - 1] == at
    ensures sent == Before(stop, whole.starts) == whole.starts && whole.starts[|whole.starts| - 1] == at
    ensures whole.finish == rest.finish && whole.fetched == rest.fetched
  {
    hide Before;
    assert sent + [] == sent;
  }

  lemma Associate(a: seq<nat>, t: nat, b: seq<nat>)
    ensures a + ([t] + b) == (a + [t]) + b
    ensures a + [] == a
  {
  }

  /**
   `fetch_prices`: the stop truncates the run it would have been, and changes nothing before it.
   What is sent is what would have been sent before the stop, and the answer folds the chunks
   that would have been over before it.
   */
  method FetchPrices(oracle: Oracle, spacing: nat, mints: seq<Mint>, start: nat, stop: Option<nat>)
    returns (answer: PriceAnswer, sent: seq<nat>)
    ensures var run := Run(oracle, spacing, Chunks(mints), 0, start, start);
            && sent == Before(stop, Starts(run))
            && answer == Fold(NO_ANSWER, Completed(stop, run))
  {
    hide Attempts, Following, Chunks, Run, Starts, Before, Completed, AddChunk;
    ghost var whole := Run(oracle, spacing, Chunks(mints), 0, start, start);
    ghost var run := whole;
    answer, sent := NO_ANSWER, [];
    var rest, call: nat, now: nat, nextStart: nat := mints, 0, start, start;
    while rest != []
      invariant run == Run(oracle, spacing, Chunks(rest), call, now, nextStart)
      invariant Before(stop, Starts(whole)) == sent + Before(stop, Starts(run))
      invariant Fold(NO_ANSWER, Completed(stop, whole)) == Fold(answer, Completed(stop, run))
      decreases |rest|
    {
      var chunk := rest[..Min(JUPITER_BATCH_MAX, |rest|)];
      ghost var tail := FirstChunk(oracle, spacing, rest, call, now, nextStart, stop);

      // The slot, then the request and its retries, all inside the race.
      var slot := Max(now, nextStart) + At(oracle, call).lateness;
      var fetched, finish, next, requests := FetchChunkWithRetry(oracle, spacing, chunk, call, slot, stop);
      AssociateAll(sent, requests, Before(stop, Starts(tail)));
      sent := sent + requests;
      if fetched.None? {
        return;
      }
      answer := AddChunk(answer, fetched.value);
      call, now, nextStart, rest, run := call + |requests|, finish, next, rest[|chunk|..], tail;
    }
    EmptyRun(oracle, spacing, call, now, nextStart, stop);
    AssociateAll(sent, [], []);
  }

  lemma AssociateAll(a: seq<nat>, b: seq<nat>, c: seq<nat>)
    ensures a + (b + c) == (a + b) + c
    ensures a + [] == a
  {
  }

  lemma EmptyRun(oracle: Oracle, spacing: nat, call: nat, now: nat, nextStart: nat, stop: Option<nat>)
    ensures var run := Run(oracle, spacing, Chunks([]), call, now, nextStart);
            Before(stop, Starts(run)) == [] && Completed(stop, run) == []
  {
  }

  /** The first chunk of what is left, and the run of the others; once it is cut, they send nothing. */
  lemma FirstChunk(oracle: Oracle, spacing: nat, rest: seq<Mint>, call: nat, now: nat, nextStart: nat,
                   stop: Option<nat>)
    returns (tail: seq<ChunkRun>)
    requires rest != []
    ensures var size := Min(JUPITER_BATCH_MAX, |rest|);
            var first := ChunkRunAt(oracle, spacing, rest[..size], call, now, nextStart);
            var run := Run(oracle, spacing, Chunks(rest), call, now, nextStart);
            && tail == Run(oracle, spacing, Chunks(rest[size..]), call + |first.starts|, first.finish,
                           NextStart(first, spacing))
            && Before(stop, Starts(run)) == Before(stop, first.starts) + Before(stop, Starts(tail))
            && Completed(stop, run) == (if Stopped(stop, first.finish) then [] else [first] + Completed(stop, tail))
            && (Stopped(stop, first.finish) ==> Before(stop, Starts(tail)) == [])
  {
    hide Attempts, At, Chunks, Run;
    var size := Min(JUPITER_BATCH_MAX, |rest|);
    var first := ChunkRunAt(oracle, spacing, rest[..size], call, now, nextStart);
    tail := Run(oracle, spacing, Chunks(rest[size..]), call + |first.starts|, first.finish, NextStart(first, spacing));
    ChunksStep(rest);
    RunCons(oracle, spacing, rest[..size], Chunks(rest[size..]), call, now, nextStart);
    assert ([first] + tail)[1..] == tail;
    BeforeConcat(stop, first.starts, Starts(tail));
    if Stopped(stop, first.finish) {
      RunOrdered(oracle, spacing, Chunks(rest[size..]), call + |first.starts|, first.finish, NextStart(first, spacing));
      BeforeNone(stop, Starts(tail), first.finish);
      CompletedNone(stop, tail, first.finish);
    }
  }

  lemma ChunksStep(rest: seq<Mint>)
    requires rest != []
    ensures var size := Min(JUPITER_BATCH_MAX, |rest|);
            Chunks(rest) == [rest[..size]] + Chunks(rest[size..])
  {
    if |rest| <= JUPITER_BATCH_MAX {
      assert rest[..|rest|] == rest;
      assert rest[|rest|..] == [];
    }
  }

  lemma RunCons(oracle: Oracle, spacing: nat, chunk: seq<Mint>, chunks: seq<seq<Mint>>, call: nat, now: nat,
                nextStart: nat)
    ensures var first := ChunkRunAt(oracle, spacing, chunk, call, now, nextStart);
            Run(oracle, spacing, [chunk] + chunks, call, now, nextStart)
            == [first] + Run(oracle, spacing, chunks, call + |first.starts|, first.finish, NextStart(first, spacing))
  {
    hide Attempts;
    assert ([chunk] + chunks)[1..] == chunks;
  }

  // ---------------------------------------------------------------------
  // Order of a run
  // ---------------------------------------------------------------------

  /** Any instant is at least `spacing` past every one before it. */
  ghost predicate Spaced(instants: seq<nat>, spacing: nat) {
    forall i, j :: 0 <= i < j < |instants| ==> instants[i] + spacing <= instants[j]
  }

  ghost predicate AllFrom(instants: seq<nat>, low: nat) {
    forall i :: 0 <= i < |instants| ==> low <= instants[i]
  }

  ghost predicate AllUpTo(instants: seq<nat>, high: nat) {
    forall i :: 0 <= i < |instants| ==> instants[i] <= high
  }

  /** A chunk sent from `at` on, first answered at `answered`: in order, spaced, and at most `left` times. */
  ghost predicate ChunkOrdered(run: ChunkRun, at: nat, answered: nat, spacing: nat, left: int) {
    && answered <= run.finish
    && AllFrom(run.starts, at)
    && AllFrom(run.starts[if |run.starts| > 0 then 1 else 0..], answered)
    && AllUpTo(run.starts, run.finish)
    && Spaced(run.starts, spacing)
    && |run.starts| <= left
  }

  /** One attempt, and what follows it: its own end, or a retry after its backoff. */
  lemma AttemptUnfolds(oracle: Oracle, spacing: nat, asked: seq<Mint>, call: nat, attempt: nat, at: nat,
                       exchange: Exchange)
    returns (next: ChunkRun, again: nat)
    requires attempt < RATE_LIMIT_MAX_ATTEMPTS && exchange == At(oracle, call)
    ensures Attempts(oracle, spacing, asked, call, attempt, at) ==
            ChunkRun([at] + next.starts, next.finish, next.fetched)
    ensures var answered, fetched := at + exchange.latency, FetchChunk(asked, exchange.response);
            && (!Retried(fetched, attempt) ==> next == ChunkRun([], answered, fetched))
            && (Retried(fetched, attempt) ==>
                  && next == Attempts(oracle, spacing, asked, call + 1, attempt + 1, again)
                  && again >= answered + RateLimitBackoff(attempt, fetched.retryAfter) && again >= at + spacing)
  {
    hide FetchChunk, RetryStart, At, RateLimitBackoff;
    next, again := Following(oracle, spacing, asked, call, attempt, at), at;
    var fetched := FetchChunk(asked, exchange.response);
    if Retried(fetched, attempt) {
      again := RetryStart(attempt, fetched.retryAfter, at, at + exchange.latency, spacing,
                          At(oracle, call + 1).lateness);
      RetryWaits(attempt, fetched.retryAfter, at, at + exchange.latency, spacing, At(oracle, call + 1).lateness);
    }
  }

  /** A request answered 429, and its retry: not before the backoff has passed since the answer. */
  predicate BackedOff(exchange: Exchange, attempt: nat, start: nat, retry: nat) {
    && exchange.response.TooManyRequests?
    && retry >= start + exchange.latency + RateLimitBackoff(attempt, exchange.response.retryAfter)
  }

  /**
   A chunk is retried on a 429 only, after its backoff; what comes of it is what its last request
   brought back, and it is given up to a 429 only after the third.
   */
  lemma {:induction false} RetriedOnlyOn429(oracle: Oracle, spacing: nat, asked: seq<Mint>, call: nat, attempt: nat,
                                            at: nat)
    requires attempt < RATE_LIMIT_MAX_ATTEMPTS
    ensures var run := Attempts(oracle, spacing, asked, call, attempt, at);
            var n := |run.starts|;
            && n <= RATE_LIMIT_MAX_ATTEMPTS - attempt
            && run.fetched == FetchChunk(asked, At(oracle, call + n - 1).response)
            && run.finish == run.starts[n - 1] + At(oracle, call + n - 1).latency
            && (run.fetched.RateLimited? ==> n == RATE_LIMIT_MAX_ATTEMPTS - attempt)
            && (forall k :: 0 < k < n ==>
                  BackedOff(At(oracle, call + k - 1), attempt + k - 1, run.starts[k - 1], run.starts[k]))
    decreases RATE_LIMIT_MAX_ATTEMPTS - attempt
  {
    hide RateLimitBackoff, Attempts, FetchChunk;
    var exchange := At(oracle, call);
    var next, again := AttemptUnfolds(oracle, spacing, asked, call, attempt, at, exchange);
    if Retried(FetchChunk(asked, exchange.response), attempt) {
      RetriedOnlyOn429(oracle, spacing, asked, call + 1, attempt + 1, again);
      RateLimitedIs429(asked, exchange.response);
      assert BackedOff(exchange, attempt, at, again);
      hide BackedOff, At;
      BackoffsFollow(oracle, call, attempt, at, next.starts);
    }
  }

  lemma RateLimitedIs429(asked: seq<Mint>, response: Response)
    ensures FetchChunk(asked, response).RateLimited? ==>
              response == TooManyRequests(FetchChunk(asked, response).retryAfter)
  {
  }

  lemma BackoffsFollow(oracle: Oracle, call: nat, attempt: nat, at: nat, starts: seq<nat>)
    requires starts != [] && BackedOff(At(oracle, call), attempt, at, starts[0])
    requires forall k :: 0 < k < |starts| ==>
                           BackedOff(At(oracle, call + 1 + k - 1), attempt + 1 + k - 1, starts[k - 1], starts[k])
    ensures var all := [at] + starts;
            forall k :: 0 < k < |all| ==> BackedOff(At(oracle, call + k - 1), attempt + k - 1, all[k - 1], all[k])
  {
    hide BackedOff, At;
    var all := [at] + starts;
    forall k | 0 < k < |all|
      ensures BackedOff(At(oracle, call + k - 1), attempt + k - 1, all[k - 1], all[k])
    {
      if k > 1 {
        var j := k - 1;
        assert BackedOff(At(oracle, call + 1 + j - 1), attempt + 1 + j - 1, starts[j - 1], starts[j]);
        assert all[k - 1] == starts[j - 1] && all[k] == starts[j] && call + 1 + j - 1 == call + k - 1;
      }
    }
  }

  lemma {:induction false} AttemptsOrdered(oracle: Oracle, spacing: nat, asked: seq<Mint>, call: nat, attempt: nat,
                                           at: nat)
    requires attempt < RATE_LIMIT_MAX_ATTEMPTS
    ensures ChunkOrdered(Attempts(oracle, spacing, asked, call, attempt, at), at, at + At(oracle, call).latency,
                         spacing, RATE_LIMIT_MAX_ATTEMPTS - attempt)
    decreases RATE_LIMIT_MAX_ATTEMPTS - attempt
  {
    hide FetchChunk, At, ChunkOrdered, RateLimitBackoff, Attempts;
    var left, exchange := RATE_LIMIT_MAX_ATTEMPTS - attempt, At(oracle, call);
    var next, again := AttemptUnfolds(oracle, spacing, asked, call, attempt, at, exchange);
    if Retried(FetchChunk(asked, exchange.response), attempt) {
      AttemptsOrdered(oracle, spacing, asked, call + 1, attempt + 1, again);
      ChunkRetried(next, at, at + exchange.latency, again, again + At(oracle, call + 1).latency, spacing, left - 1);
    } else {
      ChunkOver(next, at, at + exchange.latency, spacing, left);
    }
  }

  lemma ChunkRetried(rest: ChunkRun, at: nat, answered: nat, again: nat, answeredAgain: nat, spacing: nat, left: int)
    requires ChunkOrdered(rest, again, answeredAgain, spacing, left)
    requires at <= answered <= again && at + spacing <= again <= answeredAgain
    ensures ChunkOrdered(ChunkRun([at] + rest.starts, rest.finish, rest.fetched), at, answered, spacing, left + 1)
  {
    assert ([at] + rest.starts)[1..] == rest.starts;
    SpacedConcat([at], rest.starts, spacing);
  }

  lemma ChunkOver(rest: ChunkRun, at: nat, answered: nat, spacing: nat, left: int)
    requires rest.starts == [] && at <= answered == rest.finish && 1 <= left
    ensures ChunkOrdered(ChunkRun([at] + rest.starts, rest.finish, rest.fetched), at, answered, spacing, left)
  {
  }

  /** A run is ordered: nothing before it is due, its starts spaced, at most 3 to a chunk. */
  lemma {:induction false} RunOrdered(oracle: Oracle, spacing: nat, chunks: seq<seq<Mint>>, call: nat, now: nat,
                                      nextStart: nat)
    ensures RunFrom(Run(oracle, spacing, chunks, call, now, nextStart), now, nextStart, spacing)
  {
    hide Attempts, RunFrom, ChunkOrdered, At;
    if chunks == [] {
      NoRun(now, nextStart, spacing);
    } else {
      var slot := Max(now, nextStart) + At(oracle, call).lateness;
      var first := Attempts(oracle, spacing, chunks[0], call, 0, slot);
      AttemptsOrdered(oracle, spacing, chunks[0], call, 0, slot);
      RunOrdered(oracle, spacing, chunks[1..], call + |first.starts|, first.finish, NextStart(first, spacing));
      RunExtended(first, Run(oracle, spacing, chunks[1..], call + |first.starts|, first.finish,
                             NextStart(first, spacing)),
                  slot, slot + At(oracle, call).latency, now, nextStart, spacing);
    }
  }

  lemma NoRun(now: nat, nextStart: nat, spacing: nat)
    ensures RunFrom([], now, nextStart, spacing)
  {
  }

  ghost predicate RunFrom(run: seq<ChunkRun>, now: nat, nextStart: nat, spacing: nat) {
    && AllFrom(Starts(run), now)
    && AllFrom(Starts(run), nextStart)
    && Spaced(Starts(run), spacing)
    && forall k :: 0 <= k < |run| ==> now <= run[k].finish && 1 <= |run[k].starts| <= RATE_LIMIT_MAX_ATTEMPTS
  }

  lemma RunExtended(first: ChunkRun, tail: seq<ChunkRun>, slot: nat, answered: nat, now: nat, nextStart: nat,
                    spacing: nat)
    requires |first.starts| > 0 && ChunkOrdered(first, slot, answered, spacing, RATE_LIMIT_MAX_ATTEMPTS)
    requires now <= slot && nextStart <= slot
    requires RunFrom(tail, first.finish, NextStart(first, spacing), spacing)
    ensures RunFrom([first] + tail, now, nextStart, spacing)
  {
    assert ([first] + tail)[1..] == tail;
    assert first.starts[0] <= first.finish;
    SpacedConcat(first.starts, Starts(tail), spacing);
  }

  lemma SpacedConcat(a: seq<nat>, b: seq<nat>, spacing: nat)
    requires Spaced(a, spacing) && Spaced(b, spacing) && |a| > 0
    requires AllFrom(b, a[|a| - 1] + spacing)
    ensures Spaced(a + b, spacing)
  {
  }

  lemma {:induction false} BeforeConcat(stop: Option<nat>, a: seq<nat>, b: seq<nat>)
    ensures Before(stop, a + b) == Before(stop, a) + Before(stop, b)
  {
    if a == [] {
      assert a + b == b;
    } else {
      assert (a + b)[1..] == a[1..] + b;
      BeforeConcat(stop, a[1..], b);
    }
  }

  lemma {:induction false} BeforeNone(stop: Option<nat>, instants: seq<nat>, now: nat)
    requires Stopped(stop, now) && AllFrom(instants, now)
    ensures Before(stop, instants) == []
  {
    if instants != [] {
      BeforeNone(stop, instants[1..], now);
    }
  }

  /** One request, and what follows it; a stop before it, or before its answer, drops what follows. */
  lemma AttemptStep(oracle: Oracle, spacing: nat, asked: seq<Mint>, call: nat, attempt: nat, at: nat, stop: Option<nat>)
    requires attempt < RATE_LIMIT_MAX_ATTEMPTS
    ensures var rest := Attempts(oracle, spacing, asked, call, attempt, at);
            var next := Following(oracle, spacing, asked, call, attempt, at);
            var answered := at + At(oracle, call).latency;
            var fetched := FetchChunk(asked, At(oracle, call).response);
            && rest == ChunkRun([at] + next.starts, next.finish, next.fetched)
            && (Retried(fetched, attempt) ==> next == Attempts(oracle, spacing, asked, call + 1, attempt + 1,
                  RetryStart(attempt, fetched.retryAfter, at, answered, spacing, At(oracle, call + 1).lateness)))
            && (!Retried(fetched, attempt) ==>
                  next == ChunkRun([], answered, fetched) && Before(stop, next.starts) == [])
            && (Stopped(stop, at) ==> Before(stop, rest.starts) == [] && Stopped(stop, rest.finish))
            && (!Stopped(stop, at) ==> Before(stop, rest.starts) == [at] + Before(stop, next.starts))
            && (Stopped(stop, answered) ==> Before(stop, next.starts) == [] && Stopped(stop, rest.finish))
  {
    hide FetchChunk, RetryStart, At;
    var rest := Attempts(oracle, spacing, asked, call, attempt, at);
    AttemptsOrdered(oracle, spacing, asked, call, attempt, at);
    assert rest.starts[1..] == Following(oracle, spacing, asked, call, attempt, at).starts;
    if Stopped(stop, at) {
      BeforeNone(stop, rest.starts, at);
    }
    if Stopped(stop, at + At(oracle, call).latency) {
      BeforeNone(stop, rest.starts[1..], at + At(oracle, call).latency);
    }
  }

  lemma {:induction false} CompletedNone(stop: Option<nat>, run: seq<ChunkRun>, now: nat)
    requires Stopped(stop, now)
    requires forall k :: 0 <= k < |run| ==> now <= run[k].finish
    ensures Completed(stop, run) == []
  {
    if run != [] {
      CompletedNone(stop, run[1..], now);
    }
  }

  lemma {:induction false} BeforeIsPrefix(stop: Option<nat>, instants: seq<nat>, spacing: nat)
    requires Spaced(instants, spacing)
    ensures Before(stop, instants) <= instants
    ensures forall i :: 0 <= i < |instants| ==> (i < |Before(stop, instants)| <==> !Stopped(stop, instants[i]))
  {
    if instants != [] {
      var first, rest := instants[0], instants[1..];
      assert instants == [first] + rest;
      if Stopped(stop, first) {
        BeforeNone(stop, instants, first);
      } else {
        assert Before(stop, instants) == [first] + Before(stop, rest);
        BeforeIsPrefix(stop, rest, spacing);
        hide Before, Spaced, Stopped;
        ConsPrefix(first, Before(stop, rest), rest);
        assert forall i :: 0 < i < |instants| ==> instants[i] == rest[i - 1];
      }
    }
  }

  lemma ConsPrefix<T>(x: T, a: seq<T>, b: seq<T>)
    requires a <= b
    ensures [x] + a <= [x] + b
  {
  }

  /** What a call sends, whatever the stop: spaced, at most 3 requests a chunk, none after it. */
  lemma SentIsPaced(oracle: Oracle, spacing: nat, mints: seq<Mint>, start: nat, stop: Option<nat>)
    ensures var run := Run(oracle, spacing, Chunks(mints), 0, start, start);
            var sent := Before(stop, Starts(run));
            && Spaced(sent, spacing)
            && sent <= Starts(run)
            && (forall i :: 0 <= i < |Starts(run)| ==> start <= Starts(run)[i])
            && (stop.None? ==> sent == Starts(run))
            && (stop.Some? ==> forall i :: 0 <= i < |Starts(run)| ==> (i < |sent| <==> Starts(run)[i] < stop.value))
            && (forall k :: 0 <= k < |run| ==> 1 <= |run[k].starts| <= RATE_LIMIT_MAX_ATTEMPTS)
  {
    var chunks := Chunks(mints);
    var run := Run(oracle, spacing, chunks, 0, start, start);
    RunOrdered(oracle, spacing, chunks, 0, start, start);
    hide Before, Run, Chunks;
    SentBeforeTheStop(stop, Starts(run), spacing);
  }

  lemma SentBeforeTheStop(stop: Option<nat>, instants: seq<nat>, spacing: nat)
    requires Spaced(instants, spacing)
    ensures Before(stop, instants) <= instants
    ensures stop.None? ==> Before(stop, instants) == instants
    ensures stop.Some? ==>
              forall i :: 0 <= i < |instants| ==> (i < |Before(stop, instants)| <==> instants[i] < stop.value)
  {
    hide Before;
    BeforeIsPrefix(stop, instants, spacing);
    var n := |Before(stop, instants)|;
    if n < |instants| {
      assert Stopped(stop, instants[n]);
    }
  }

  // ---------------------------------------------------------------------
  // The sliding window
  // ---------------------------------------------------------------------

  function CountWithin(instants: seq<nat>, low: nat, high: nat): nat {
    if instants == [] then 0
    else (if low <= instants[0] <= high then 1 else 0) + CountWithin(instants[1..], low, high)
  }

  lemma {:induction false} CountPastHigh(instants: seq<nat>, low: nat, high: nat)
    requires AllFrom(instants, high + 1)
    ensures CountWithin(instants, low, high) == 0
  {
    if instants != [] {
      CountPastHigh(instants[1..], low, high);
    }
  }

  /** Counted from an instant inside: each one more takes the window `spacing` further. */
  lemma {:induction false} CountFrom(instants: seq<nat>, low: nat, high: nat, spacing: nat)
    requires Spaced(instants, spacing) && instants != [] && low <= instants[0]
    ensures CountWithin(instants, low, high) > 0 ==>
              instants[0] + (CountWithin(instants, low, high) - 1) * spacing <= high
  {
    if instants[0] > high {
      CountPastHigh(instants, low, high);
    } else if |instants| > 1 {
      var rest := CountWithin(instants[1..], low, high);
      assert CountWithin(instants, low, high) == 1 + rest && instants[1] == instants[1..][0];
      hide CountWithin;
      CountFrom(instants[1..], low, high, spacing);
      OneMoreFits(instants[0], instants[1], rest, spacing, high);
    } else {
      assert instants[1..] == [];
    }
  }

  lemma OneMoreFits(first: nat, second: nat, rest: nat, spacing: nat, high: nat)
    requires first <= high && first + spacing <= second
    requires rest > 0 ==> second + (rest - 1) * spacing <= high
    ensures first + (1 + rest - 1) * spacing <= high
  {
    if rest > 0 {
      assert rest * spacing == (rest - 1) * spacing + spacing;
    }
  }

  lemma {:induction false} CountBound(instants: seq<nat>, low: nat, high: nat, spacing: nat)
    requires Spaced(instants, spacing)
    ensures CountWithin(instants, low, high) > 0 ==> low + (CountWithin(instants, low, high) - 1) * spacing <= high
  {
    if instants != [] {
      if low <= instants[0] {
        CountFrom(instants, low, high, spacing);
      } else {
        CountBound(instants[1..], low, high, spacing);
      }
    }
  }

  /** The truncated spacing still keeps `rate_limit` of them past a minute. */
  lemma SpacingCoversTheMinute(rateLimit: RateLimit)
    ensures rateLimit * SpacingUnder(rateLimit) > MINUTE
  {
    var s := SpacingUnder(rateLimit);
    assert SPACING_PER_REQUEST_ALLOWED < (s + 1) * rateLimit;
    assert (s + 1) * rateLimit == rateLimit * s + rateLimit;
  }

  /**
   Every closed 60 s window of a call holds at most `rate_limit` requests, retries included, for
   every `u32` limit, whatever Jupiter answers and whenever the stop comes.
   */
  lemma NeverOverTheRateLimit(oracle: Oracle, rateLimit: RateLimit, mints: seq<Mint>, start: nat, stop: Option<nat>,
                              low: nat)
    ensures var run := Run(oracle, SpacingUnder(rateLimit), Chunks(mints), 0, start, start);
            CountWithin(Before(stop, Starts(run)), low, low + MINUTE) <= rateLimit
  {
    var spacing := SpacingUnder(rateLimit);
    SentIsPaced(oracle, spacing, mints, start, stop);
    SpacedUnderTheLimit(Before(stop, Starts(Run(oracle, spacing, Chunks(mints), 0, start, start))), rateLimit, low);
  }

  lemma SpacedUnderTheLimit(instants: seq<nat>, rateLimit: RateLimit, low: nat)
    requires Spaced(instants, SpacingUnder(rateLimit))
    ensures CountWithin(instants, low, low + MINUTE) <= rateLimit
  {
    CountBound(instants, low, low + MINUTE, SpacingUnder(rateLimit));
    SpacingCoversTheMinute(rateLimit);
    var n := CountWithin(instants, low, low + MINUTE);
    if n > rateLimit {
      MulMonotone(rateLimit, SpacingUnder(rateLimit), n - 1, SpacingUnder(rateLimit));
    }
  }

  // ---------------------------------------------------------------------
  // The answer, mint by mint
  // ---------------------------------------------------------------------

  lemma {:induction false} ChunksPartition(mints: seq<Mint>)
    ensures Flat(Chunks(mints)) == mints
    ensures forall c :: c in Chunks(mints) ==> 0 < |c| <= JUPITER_BATCH_MAX
  {
    if |mints| > JUPITER_BATCH_MAX {
      ChunksPartition(mints[JUPITER_BATCH_MAX..]);
      assert Chunks(mints)[1..] == Chunks(mints[JUPITER_BATCH_MAX..]);
    } else if mints != [] {
      assert Flat([mints]) == mints + Flat([]);
    }
  }

  function Flat(chunks: seq<seq<Mint>>): seq<Mint> {
    if chunks == [] then [] else chunks[0] + Flat(chunks[1..])
  }

  /** What came of a chunk: nothing added, or each mint asked priced or unpriced, never both. */
  ghost predicate Classifies(asked: seq<Mint>, fetched: Fetched) {
    fetched.Answered? ==>
      var a := fetched.answer;
      || a == NO_ANSWER
      || ((forall m :: m in asked ==> (IsPriced(m, a.priced) <==> m !in a.unpriced))
          && (forall m :: m in a.unpriced ==> m in asked && !IsPriced(m, a.priced)))
  }

  lemma FetchChunkClassifies(asked: seq<Mint>, response: Response)
    ensures Classifies(asked, FetchChunk(asked, response))
  {
    if response.Body? {
      ChunkAnswerClassifies(asked, response.entries);
    }
  }

  lemma {:induction false} AttemptsClassify(oracle: Oracle, spacing: nat, asked: seq<Mint>, call: nat, attempt: nat,
                                            at: nat)
    ensures Classifies(asked, Attempts(oracle, spacing, asked, call, attempt, at).fetched)
    decreases RATE_LIMIT_MAX_ATTEMPTS - attempt
  {
    hide FetchChunk, At, Classifies, RetryStart;
    var answered := at + At(oracle, call).latency;
    var fetched := FetchChunk(asked, At(oracle, call).response);
    FetchChunkClassifies(asked, At(oracle, call).response);
    if Retried(fetched, attempt) {
      AttemptsClassify(oracle, spacing, asked, call + 1, attempt + 1,
                       RetryStart(attempt, fetched.retryAfter, at, answered, spacing, At(oracle, call + 1).lateness));
    }
  }

  lemma {:induction false} RunClassifies(oracle: Oracle, spacing: nat, chunks: seq<seq<Mint>>, call: nat, now: nat,
                                         nextStart: nat)
    ensures var run := Run(oracle, spacing, chunks, call, now, nextStart);
            forall k :: 0 <= k < |run| ==> Classifies(chunks[k], run[k].fetched)
  {
    hide Attempts, At, Classifies;
    if chunks != [] {
      var slot := Max(now, nextStart) + At(oracle, call).lateness;
      var first := Attempts(oracle, spacing, chunks[0], call, 0, slot);
      AttemptsClassify(oracle, spacing, chunks[0], call, 0, slot);
      RunClassifies(oracle, spacing, chunks[1..], call + |first.starts|, first.finish, NextStart(first, spacing));
    }
  }

  /** The chunks over before the stop come first: a later one is over later. */
  ghost predicate CompletedFirst(stop: Option<nat>, run: seq<ChunkRun>) {
    && Completed(stop, run) <= run
    && forall k :: 0 <= k < |run| ==> (k < |Completed(stop, run)| <==> !Stopped(stop, run[k].finish))
  }

  /** Chunks are over in their order. */
  ghost predicate Ascending(run: seq<ChunkRun>) {
    forall i, j :: 0 <= i < j < |run| ==> run[i].finish <= run[j].finish
  }

  lemma {:induction false} RunAscends(oracle: Oracle, spacing: nat, chunks: seq<seq<Mint>>, call: nat, now: nat,
                                      nextStart: nat)
    ensures Ascending(Run(oracle, spacing, chunks, call, now, nextStart))
  {
    hide Run, ChunkRunAt, RunFrom, Ascending;
    if chunks == [] {
      NoRunAscends(oracle, spacing, call, now, nextStart);
    } else {
      var first := ChunkRunAt(oracle, spacing, chunks[0], call, now, nextStart);
      FirstHasAStart(oracle, spacing, chunks[0], call, now, nextStart);
      RunCons(oracle, spacing, chunks[0], chunks[1..], call, now, nextStart);
      assert chunks == [chunks[0]] + chunks[1..];
      var next := NextStart(first, spacing);
      RunAscends(oracle, spacing, chunks[1..], call + |first.starts|, first.finish, next);
      RunOrdered(oracle, spacing, chunks[1..], call + |first.starts|, first.finish, next);
      LaterAscends(first, Run(oracle, spacing, chunks[1..], call + |first.starts|, first.finish, next), next, spacing);
    }
  }

  lemma NoRunAscends(oracle: Oracle, spacing: nat, call: nat, now: nat, nextStart: nat)
    ensures Ascending(Run(oracle, spacing, [], call, now, nextStart))
  {
  }

  lemma FirstHasAStart(oracle: Oracle, spacing: nat, asked: seq<Mint>, call: nat, now: nat, nextStart: nat)
    ensures |ChunkRunAt(oracle, spacing, asked, call, now, nextStart).starts| > 0
  {
    hide Attempts;
  }

  lemma LaterAscends(first: ChunkRun, tail: seq<ChunkRun>, nextStart: nat, spacing: nat)
    requires Ascending(tail) && RunFrom(tail, first.finish, nextStart, spacing)
    ensures Ascending([first] + tail)
  {
  }

  lemma {:induction false} AscendingCompleteFirst(stop: Option<nat>, run: seq<ChunkRun>)
    requires Ascending(run)
    ensures CompletedFirst(stop, run)
    decreases |run|
  {
    if run != [] {
      var first, tail := run[0], run[1..];
      assert run == [first] + tail;
      if Stopped(stop, first.finish) {
        CompletedNone(stop, tail, first.finish);
      } else {
        AscendingCompleteFirst(stop, tail);
        assert Completed(stop, run) == [first] + Completed(stop, tail);
        hide Completed;
        ConsPrefix(first, Completed(stop, tail), tail);
      }
    }
  }

  lemma CompletedComeFirst(oracle: Oracle, spacing: nat, chunks: seq<seq<Mint>>, call: nat, now: nat, nextStart: nat,
                           stop: Option<nat>)
    ensures CompletedFirst(stop, Run(oracle, spacing, chunks, call, now, nextStart))
  {
    hide Run, CompletedFirst, Ascending;
    RunAscends(oracle, spacing, chunks, call, now, nextStart);
    AscendingCompleteFirst(stop, Run(oracle, spacing, chunks, call, now, nextStart));
  }

  ghost predicate SaysPriced(fetched: Fetched, p: FetchedPrice) {
    fetched.Answered? && p in fetched.answer.priced
  }

  ghost predicate SaysUnpriced(fetched: Fetched, m: Mint) {
    fetched.Answered? && m in fetched.answer.unpriced
  }

  lemma {:induction false} FoldMembers(answer: PriceAnswer, runs: seq<ChunkRun>)
    ensures forall p :: p in Fold(answer, runs).priced <==>
              p in answer.priced || exists k :: 0 <= k < |runs| && SaysPriced(runs[k].fetched, p)
    ensures forall m :: m in Fold(answer, runs).unpriced <==>
              m in answer.unpriced || exists k :: 0 <= k < |runs| && SaysUnpriced(runs[k].fetched, m)
    decreases |runs|
  {
    if runs != [] {
      var next := AddChunk(answer, runs[0].fetched);
      FoldMembers(next, runs[1..]);
      forall p
        ensures (exists k :: 0 <= k < |runs| && SaysPriced(runs[k].fetched, p)) <==>
                || SaysPriced(runs[0].fetched, p)
                || exists k :: 0 <= k < |runs[1..]| && SaysPriced(runs[1..][k].fetched, p)
      {
        assert forall k :: 0 <= k < |runs[1..]| ==> runs[1..][k] == runs[k + 1];
        if k :| 0 < k < |runs| && SaysPriced(runs[k].fetched, p) {
          assert runs[1..][k - 1] == runs[k];
        }
      }
      forall m
        ensures (exists k :: 0 <= k < |runs| && SaysUnpriced(runs[k].fetched, m)) <==>
                || SaysUnpriced(runs[0].fetched, m)
                || exists k :: 0 <= k < |runs[1..]| && SaysUnpriced(runs[1..][k].fetched, m)
      {
        assert forall k :: 0 <= k < |runs[1..]| ==> runs[1..][k] == runs[k + 1];
        if k :| 0 < k < |runs| && SaysUnpriced(runs[k].fetched, m) {
          assert runs[1..][k - 1] == runs[k];
        }
      }
    }
  }

  /**
   What `fetch_prices` answers, over the chunks over before the stop, the first `n`: a mint is in
   a list exactly when one of those chunks put it there, and each such chunk that answered
   without being degraded classifies every mint it asked, once. All the other chunks add nothing.
   */
  lemma AnswerIsWhatTheChunksSaid(oracle: Oracle, spacing: nat, mints: seq<Mint>, start: nat, stop: Option<nat>)
    ensures var chunks := Chunks(mints);
            var run := Run(oracle, spacing, chunks, 0, start, start);
            var n := |Completed(stop, run)|;
            var answer := Fold(NO_ANSWER, Completed(stop, run));
            && n <= |run|
            && (forall k :: 0 <= k < |run| ==> (k < n <==> !Stopped(stop, run[k].finish)))
            && (forall k :: 0 <= k < |run| ==> Classifies(chunks[k], run[k].fetched))
            && (forall p :: p in answer.priced <==> exists k :: 0 <= k < n && SaysPriced(run[k].fetched, p))
            && (forall m :: m in answer.unpriced <==> exists k :: 0 <= k < n && SaysUnpriced(run[k].fetched, m))
  {
    hide Run, Chunks, Fold, Classifies, Completed;
    var chunks := Chunks(mints);
    var run := Run(oracle, spacing, chunks, 0, start, start);
    var completed := Completed(stop, run);
    RunClassifies(oracle, spacing, chunks, 0, start, start);
    CompletedComeFirst(oracle, spacing, chunks, 0, start, start, stop);
    FoldMembers(NO_ANSWER, completed);
    assert forall k :: 0 <= k < |completed| ==> completed[k] == run[k];
  }

  ghost predicate Prices(fetched: Fetched, m: Mint) {
    fetched.Answered? && IsPriced(m, fetched.answer.priced)
  }

  /** A chunk answered without `m`, which it was asked. */
  ghost predicate LeavesUnpriced(asked: seq<Mint>, fetched: Fetched, m: Mint) {
    fetched.Answered? && fetched.answer != NO_ANSWER && m in asked && !IsPriced(m, fetched.answer.priced)
  }

  lemma UnpricedIsLeft(asked: seq<Mint>, fetched: Fetched, m: Mint)
    requires Classifies(asked, fetched)
    ensures SaysUnpriced(fetched, m) <==> LeavesUnpriced(asked, fetched, m)
  {
  }

  /**
   A mint is in both lists of an answer if and only if, of the chunks over before the stop, the body
   of one prices it and another, asked for it and answered, does not.
   */
  lemma InBothListsExactly(oracle: Oracle, spacing: nat, mints: seq<Mint>, start: nat, stop: Option<nat>, m: Mint)
    ensures var chunks := Chunks(mints);
            var run := Run(oracle, spacing, chunks, 0, start, start);
            var completed := Completed(stop, run);
            var answer := Fold(NO_ANSWER, completed);
            && completed <= run
            && (IsPriced(m, answer.priced) && m in answer.unpriced <==>
                exists k, l :: 0 <= k < |completed| && 0 <= l < |completed| && k != l
                               && Prices(completed[k].fetched, m)
                               && LeavesUnpriced(chunks[l], completed[l].fetched, m))
  {
    var chunks := Chunks(mints);
    var run := Run(oracle, spacing, chunks, 0, start, start);
    var completed := Completed(stop, run);
    hide Run, Chunks, Completed, Fold, Classifies, Prices, LeavesUnpriced;
    CompletedComeFirst(oracle, spacing, chunks, 0, start, start, stop);
    RunClassifies(oracle, spacing, chunks, 0, start, start);
    hide *;
    InBothOfTheFold(chunks, completed, m);
  }

  lemma InBothOfTheFold(chunks: seq<seq<Mint>>, runs: seq<ChunkRun>, m: Mint)
    requires |runs| <= |chunks| && forall k :: 0 <= k < |runs| ==> Classifies(chunks[k], runs[k].fetched)
    ensures var answer := Fold(NO_ANSWER, runs);
            IsPriced(m, answer.priced) && m in answer.unpriced <==>
            exists k, l :: 0 <= k < |runs| && 0 <= l < |runs| && k != l
                           && Prices(runs[k].fetched, m) && LeavesUnpriced(chunks[l], runs[l].fetched, m)
  {
    FoldMembers(NO_ANSWER, runs);
    PricedSomewhere(Fold(NO_ANSWER, runs).priced, runs, m);
    hide *;
    forall k | 0 <= k < |runs|
      ensures SaysUnpriced(runs[k].fetched, m) <==> LeavesUnpriced(chunks[k], runs[k].fetched, m)
      ensures !(Prices(runs[k].fetched, m) && LeavesUnpriced(chunks[k], runs[k].fetched, m))
    {
      UnpricedIsLeft(chunks[k], runs[k].fetched, m);
      NeverBothInAChunk(chunks[k], runs[k].fetched, m);
    }
  }

  lemma NeverBothInAChunk(asked: seq<Mint>, fetched: Fetched, m: Mint)
    ensures !(Prices(fetched, m) && LeavesUnpriced(asked, fetched, m))
  {
  }

  lemma PricedSomewhere(priced: seq<FetchedPrice>, runs: seq<ChunkRun>, m: Mint)
    requires forall p :: p in priced <==> exists k :: 0 <= k < |runs| && SaysPriced(runs[k].fetched, p)
    ensures IsPriced(m, priced) <==> exists k :: 0 <= k < |runs| && Prices(runs[k].fetched, m)
  {
    if p :| p in priced && p.mint == m {
      var k :| 0 <= k < |runs| && SaysPriced(runs[k].fetched, p);
      assert Prices(runs[k].fetched, m);
    }
    if k :| 0 <= k < |runs| && Prices(runs[k].fetched, m) {
      var p :| p in runs[k].fetched.answer.priced && p.mint == m;
      assert SaysPriced(runs[k].fetched, p);
    }
  }

  /** The first body of two prices a mint of the second chunk, whose own body does not. */
  lemma PricedByAnotherChunk(first: seq<Mint>, m: Mint, other: Mint, spacing: nat, start: nat)
    requires |first| == JUPITER_BATCH_MAX && m != other
    ensures var oracle := [Exchange(0, 0, Body([FetchedPrice(first[0], 1.0), FetchedPrice(m, 1.0)])),
                           Exchange(0, 0, Body([FetchedPrice(other, 1.0)]))];
            var run := Run(oracle, spacing, Chunks(first + [m, other]), 0, start, start);
            var answer := Fold(NO_ANSWER, Completed(None, run));
            IsPriced(m, answer.priced) && m in answer.unpriced
  {
    var one, two := Body([FetchedPrice(first[0], 1.0), FetchedPrice(m, 1.0)]), Body([FetchedPrice(other, 1.0)]);
    var oracle, mints := [Exchange(0, 0, one), Exchange(0, 0, two)], first + [m, other];
    TwoChunks(first, [m, other]);
    var run := Run(oracle, spacing, Chunks(mints), 0, start, start);
    TwoRuns(oracle, spacing, first, [m, other], start);
    AnsweredBody(first, one.entries, first[0]);
    AnsweredBody([m, other], two.entries, other);
    AllComplete(run);
    assert one.entries[1] in one.entries;
    InBothListsExactly(oracle, spacing, mints, start, None, m);
    hide *;
    assert Prices(run[0].fetched, m) && LeavesUnpriced(Chunks(mints)[1], run[1].fetched, m);
  }

  lemma TwoChunks(a: seq<Mint>, b: seq<Mint>)
    requires |a| == JUPITER_BATCH_MAX && 0 < |b| <= JUPITER_BATCH_MAX
    ensures Chunks(a + b) == [a, b]
  {
    assert (a + b)[..JUPITER_BATCH_MAX] == a && (a + b)[JUPITER_BATCH_MAX..] == b;
    assert Chunks(b) == [b];
  }

  /** Two chunks answered at once, each on its first attempt. */
  lemma TwoRuns(oracle: Oracle, spacing: nat, a: seq<Mint>, b: seq<Mint>, start: nat)
    requires |oracle| == 2 && oracle[0].response.Body? && oracle[1].response.Body?
    ensures var run := Run(oracle, spacing, [a, b], 0, start, start);
            && run[0].fetched == FetchChunk(a, oracle[0].response)
            && run[1].fetched == FetchChunk(b, oracle[1].response)
  {
    assert FetchChunk(a, oracle[0].response).Answered? && FetchChunk(b, oracle[1].response).Answered?;
    hide FetchChunk;
    assert [a, b][1..] == [b];
  }

  lemma AnsweredBody(asked: seq<Mint>, entries: seq<FetchedPrice>, m: Mint)
    requires m in asked && IsPriced(m, entries)
    ensures var fetched := FetchChunk(asked, Body(entries));
            fetched.Answered? && fetched.answer != NO_ANSWER && fetched.answer.priced == entries
  {
    ChunkAnswerClassifies(asked, entries);
  }

  lemma {:induction false} AllComplete(run: seq<ChunkRun>)
    ensures Completed(None, run) == run
  {
    if run != [] {
      AllComplete(run[1..]);
    }
  }

  // ---------------------------------------------------------------------
  // The run and its answer, from the exchanges alone
  // ---------------------------------------------------------------------

  /** A request sent again: after a 429 only, its backoff over and its slot come. */
  ghost predicate SentAgain(last: Exchange, lateness: nat, spacing: nat, attempt: nat, before: nat, start: nat) {
    && last.response.TooManyRequests?
    && start == Max(before + last.latency + RateLimitBackoff(attempt, last.response.retryAfter),
                    before + Max(last.latency, spacing)) + lateness
  }

  /** One chunk from its first request on: every instant, and why the last request is the last. */
  ghost predicate FollowsTheOracle(oracle: Oracle, spacing: nat, call: nat, attempt: nat, at: nat, run: ChunkRun) {
    var n := |run.starts|;
    && 0 < n <= RATE_LIMIT_MAX_ATTEMPTS - attempt && run.starts[0] == at
    && (forall j :: 0 < j < n ==> SentAgain(At(oracle, call + j - 1), At(oracle, call + j).lateness, spacing,
                                            attempt + j - 1, run.starts[j - 1], run.starts[j]))
    && (At(oracle, call + n - 1).response.TooManyRequests? ==> n == RATE_LIMIT_MAX_ATTEMPTS - attempt)
    && run.finish == run.starts[n - 1] + At(oracle, call + n - 1).latency
  }

  lemma FetchedIs429(asked: seq<Mint>, response: Response)
    ensures FetchChunk(asked, response).RateLimited? <==> response.TooManyRequests?
    ensures response.TooManyRequests? ==> FetchChunk(asked, response).retryAfter == response.retryAfter
  {
  }

  lemma {:induction false} AttemptsFollowTheOracle(oracle: Oracle, spacing: nat, asked: seq<Mint>, call: nat,
                                                   attempt: nat, at: nat)
    requires attempt < RATE_LIMIT_MAX_ATTEMPTS
    ensures var run := Attempts(oracle, spacing, asked, call, attempt, at);
            && FollowsTheOracle(oracle, spacing, call, attempt, at, run)
            && run.fetched == FetchChunk(asked, At(oracle, call + |run.starts| - 1).response)
    decreases RATE_LIMIT_MAX_ATTEMPTS - attempt
  {
    hide RateLimitBackoff, FetchChunk, At;
    var exchange := At(oracle, call);
    FetchedIs429(asked, exchange.response);
    if Retried(FetchChunk(asked, exchange.response), attempt) {
      var again := RetryStart(attempt, FetchChunk(asked, exchange.response).retryAfter, at, at + exchange.latency,
                              spacing, At(oracle, call + 1).lateness);
      var next := Attempts(oracle, spacing, asked, call + 1, attempt + 1, again);
      var run := Attempts(oracle, spacing, asked, call, attempt, at);
      assert run == ChunkRun([at] + next.starts, next.finish, next.fetched);
      hide Attempts;
      RetryIsSentAgain(exchange, At(oracle, call + 1).lateness, spacing, attempt, at);
      hide RetryStart, SentAgain, FollowsTheOracle, Retried;
      AttemptsFollowTheOracle(oracle, spacing, asked, call + 1, attempt + 1, again);
      OneMoreAttempt(oracle, spacing, call, attempt, at, again, run, next);
    }
  }

  lemma RetryIsSentAgain(last: Exchange, lateness: nat, spacing: nat, attempt: nat, before: nat)
    requires last.response.TooManyRequests?
    ensures SentAgain(last, lateness, spacing, attempt, before,
                      RetryStart(attempt, last.response.retryAfter, before, before + last.latency, spacing, lateness))
  {
    hide RateLimitBackoff;
  }

  lemma OneMoreAttempt(oracle: Oracle, spacing: nat, call: nat, attempt: nat, at: nat, again: nat, run: ChunkRun,
                       next: ChunkRun)
    requires run == ChunkRun([at] + next.starts, next.finish, next.fetched)
    requires FollowsTheOracle(oracle, spacing, call + 1, attempt + 1, again, next)
    requires SentAgain(At(oracle, call), At(oracle, call + 1).lateness, spacing, attempt, at, again)
    ensures FollowsTheOracle(oracle, spacing, call, attempt, at, run)
  {
    hide SentAgain, At;
    forall j | 0 < j < |run.starts|
      ensures SentAgain(At(oracle, call + j - 1), At(oracle, call + j).lateness, spacing, attempt + j - 1,
                        run.starts[j - 1], run.starts[j])
    {
      if j > 1 {
        var i := j - 1;
        assert run.starts[j] == next.starts[i] && run.starts[j - 1] == next.starts[i - 1];
        assert SentAgain(At(oracle, call + 1 + i - 1), At(oracle, call + 1 + i).lateness, spacing, attempt + 1 + i - 1,
                         next.starts[i - 1], next.starts[i]);
      }
    }
  }

  /** A chunk from the instant it is ready; what came of it is what its last request brought back. */
  ghost predicate ChunkFollows(oracle: Oracle, spacing: nat, asked: seq<Mint>, call: nat, ready: nat, run: ChunkRun) {
    && FollowsTheOracle(oracle, spacing, call, 0, ready + At(oracle, call).lateness, run)
    && run.fetched == FetchChunk(asked, At(oracle, call + |run.starts| - 1).response)
  }

  /** A run, chunk by chunk: each is ready once the one before is over and its last request a spacing ago. */
  ghost predicate RunFollowsTheOracle(oracle: Oracle, spacing: nat, chunks: seq<seq<Mint>>, call: nat, start: nat,
                                      run: seq<ChunkRun>)
  {
    if chunks == [] then run == []
    else
      && run != [] && run[0].starts != [] && ChunkFollows(oracle, spacing, chunks[0], call, start, run[0])
      && RunFollowsTheOracle(oracle, spacing, chunks[1..], call + |run[0].starts|,
                             Max(run[0].finish, run[0].starts[|run[0].starts| - 1] + spacing), run[1..])
  }

  lemma {:induction false} RunFollows(oracle: Oracle, spacing: nat, chunks: seq<seq<Mint>>, call: nat, now: nat,
                                      nextStart: nat)
    ensures RunFollowsTheOracle(oracle, spacing, chunks, call, Max(now, nextStart),
                                Run(oracle, spacing, chunks, call, now, nextStart))
  {
    hide Run, ChunkRunAt, ChunkFollows;
    if chunks == [] {
      assert Run(oracle, spacing, chunks, call, now, nextStart) == [];
    } else {
      var first := FirstFollows(oracle, spacing, chunks[0], call, now, nextStart);
      var next := NextStart(first, spacing);
      assert chunks == [chunks[0]] + chunks[1..];
      RunCons(oracle, spacing, chunks[0], chunks[1..], call, now, nextStart);
      RunFollows(oracle, spacing, chunks[1..], call + |first.starts|, first.finish, next);
      var tail := Run(oracle, spacing, chunks[1..], call + |first.starts|, first.finish, next);
      assert ([first] + tail)[1..] == tail;
    }
  }

  lemma FirstFollows(oracle: Oracle, spacing: nat, asked: seq<Mint>, call: nat, now: nat, nextStart: nat)
    returns (first: ChunkRun)
    ensures first == ChunkRunAt(oracle, spacing, asked, call, now, nextStart) && first.starts != []
    ensures ChunkFollows(oracle, spacing, asked, call, Max(now, nextStart), first)
  {
    first := ChunkRunAt(oracle, spacing, asked, call, now, nextStart);
    hide Attempts, FetchChunk;
    AttemptsFollowTheOracle(oracle, spacing, asked, call, 0, Max(now, nextStart) + At(oracle, call).lateness);
  }

  /** A body that prices some mint of those asked for; any other says nothing. */
  ghost predicate Speaks(asked: seq<Mint>, response: Response) {
    response.Body? && exists m :: m in asked && IsPriced(m, response.entries)
  }

  ghost predicate PricedBy(asked: seq<Mint>, response: Response, p: FetchedPrice) {
    Speaks(asked, response) && p in response.entries
  }

  ghost predicate UnpricedBy(asked: seq<Mint>, response: Response, m: Mint) {
    Speaks(asked, response) && m in asked && !IsPriced(m, response.entries)
  }

  lemma FetchChunkSays(asked: seq<Mint>, response: Response)
    ensures forall p :: SaysPriced(FetchChunk(asked, response), p) <==> PricedBy(asked, response, p)
    ensures forall m :: SaysUnpriced(FetchChunk(asked, response), m) <==> UnpricedBy(asked, response, m)
  {
    if response.Body? {
      ChunkAnswerClassifies(asked, response.entries);
      SplitByKnown(asked, WithPrice(response.entries));
    }
  }

  /** The responses the chunks of a run ended on. */
  function LastResponses(oracle: Oracle, call: nat, run: seq<ChunkRun>): (r: seq<Response>)
    ensures |r| == |run|
    decreases |run|
  {
    if run == [] then []
    else
      var calls := call + |run[0].starts|;
      [At(oracle, Max(0, calls - 1)).response] + LastResponses(oracle, calls, run[1..])
  }

  /**
   What `fetch_prices` answers, over the chunks over before the stop, from the responses they ended on:
   the entries of the bodies that price a mint they were asked, and the mints asked that such a body
   does not price. A degraded body, a failure and a last 429 add nothing.
   */
  lemma AnswerFromResponses(oracle: Oracle, spacing: nat, mints: seq<Mint>, start: nat, stop: Option<nat>)
    ensures var chunks := Chunks(mints);
            var run := Run(oracle, spacing, chunks, 0, start, start);
            var done := Completed(stop, run);
            && RunFollowsTheOracle(oracle, spacing, chunks, 0, start, run)
            && done <= run
            && (stop.None? ==> done == run)
            && (stop.Some? ==> forall k :: 0 <= k < |run| ==> (k < |done| <==> run[k].finish < stop.value))
            && AnswersFrom(chunks, LastResponses(oracle, 0, done), Fold(NO_ANSWER, done))
  {
    var chunks := Chunks(mints);
    var run := Run(oracle, spacing, chunks, 0, start, start);
    var done := Completed(stop, run);
    hide Run, Chunks, Fold, Completed, RunFollowsTheOracle, AnswersFrom, LastResponses;
    RunFollows(oracle, spacing, chunks, 0, start, start);
    CompletedComeFirst(oracle, spacing, chunks, 0, start, start, stop);
    OverBeforeTheStop(stop, run, done);
    FollowedFold(oracle, spacing, chunks, start, run, done);
  }

  lemma OverBeforeTheStop(stop: Option<nat>, run: seq<ChunkRun>, done: seq<ChunkRun>)
    requires done == Completed(stop, run) && CompletedFirst(stop, run)
    ensures done <= run
    ensures stop.None? ==> done == run
    ensures stop.Some? ==> forall k :: 0 <= k < |run| ==> (k < |done| <==> run[k].finish < stop.value)
  {
    hide Completed;
    if |done| < |run| {
      assert Stopped(stop, run[|done|].finish);
    }
  }

  /** Both lists of an answer, from the last responses of the chunks over. */
  ghost predicate AnswersFrom(chunks: seq<seq<Mint>>, responses: seq<Response>, answer: PriceAnswer) {
    && |responses| <= |chunks|
    && (forall p :: p in answer.priced <==>
          exists k :: 0 <= k < |responses| && PricedBy(chunks[k], responses[k], p))
    && (forall m :: m in answer.unpriced <==>
          exists k :: 0 <= k < |responses| && UnpricedBy(chunks[k], responses[k], m))
  }

  lemma FollowedFold(oracle: Oracle, spacing: nat, chunks: seq<seq<Mint>>, start: nat, run: seq<ChunkRun>,
                     done: seq<ChunkRun>)
    requires RunFollowsTheOracle(oracle, spacing, chunks, 0, start, run) && done <= run
    ensures AnswersFrom(chunks, LastResponses(oracle, 0, done), Fold(NO_ANSWER, done))
  {
    hide RunFollowsTheOracle, Fold, FetchChunk, LastResponses, PricedBy, UnpricedBy, SaysPriced, SaysUnpriced;
    FollowedFetch(oracle, spacing, chunks, 0, start, run, done);
    FoldMembers(NO_ANSWER, done);
    var responses := LastResponses(oracle, 0, done);
    forall k | 0 <= k < |done|
      ensures forall p :: SaysPriced(done[k].fetched, p) <==> PricedBy(chunks[k], responses[k], p)
      ensures forall m :: SaysUnpriced(done[k].fetched, m) <==> UnpricedBy(chunks[k], responses[k], m)
    {
      FetchChunkSays(chunks[k], responses[k]);
    }
  }

  lemma {:induction false} FollowedFetch(oracle: Oracle, spacing: nat, chunks: seq<seq<Mint>>, call: nat, start: nat,
                                         run: seq<ChunkRun>, done: seq<ChunkRun>)
    requires RunFollowsTheOracle(oracle, spacing, chunks, call, start, run) && done <= run
    ensures |done| <= |chunks|
    ensures forall k :: 0 <= k < |done| ==>
              done[k].fetched == FetchChunk(chunks[k], LastResponses(oracle, call, done)[k])
  {
    if done != [] {
      hide FetchChunk, FollowsTheOracle, At;
      var next := call + |run[0].starts|;
      assert done[1..] <= run[1..];
      FollowedFetch(oracle, spacing, chunks[1..], next,
                    Max(run[0].finish, run[0].starts[|run[0].starts| - 1] + spacing), run[1..], done[1..]);
    }
  }
}
