/** One archiving run, against whatever its environment answers. */
module Archive {
  import opened Prelude

  type Bytes = seq<bv8>

  datatype FailureKind = Refused | DumpFailed | Unreadable | StoreFailed

  /**
   What one `await` resolves to. Where the answers run out, the run is dropped at that `await`:
   the worker left it when the shutdown grace expired.
   */
  datatype Answer = Answer(ok: bool, stop: bool, data: Bytes)

  datatype Event =
    | UploadOpened
    | DumpStarted
    | CheckStarted
    | Read(data: Bytes)
    | Handed(data: Bytes)      // to `feed`
    | Accepted(data: Bytes)    // by the check's input
    | PipeBroken
    | Written(data: Bytes)
    | DumpExited(ok: bool)
    | CheckExited(ok: bool)
    | DumpKilled
    | CheckKilled
    | UploadCompleted
    | CompletionRefused
    | UploadAborted
    | ReportedSuccess
    | ReportedFailure(kind: FailureKind)

  /** How a run ends; `Left` when it is dropped before it does. */
  datatype Outcome = Archived(bytes: nat) | Cancelled | Failed(kind: FailureKind) | Left

  datatype Part = Part(outcome: Outcome, rest: seq<Answer>, log: seq<Event>)

  // ---------------------------------------------------------------------
  // What a run does, as a function of its answers
  // ---------------------------------------------------------------------

  function ReadLoop(answers: seq<Answer>, piped: bool, bytes: nat, log: seq<Event>): Part
    decreases |answers|
  {
    if answers == [] then Part(Left, [], log)
    else
      var read, rest := answers[0], answers[1..];
      if read.stop then Part(Cancelled, rest, log)
      else if !read.ok then Part(Failed(DumpFailed), rest, log)
      else if read.data == [] then Part(Archived(bytes), rest, log)
      else
        var handed := log + [Read(read.data)] + [Handed(read.data)];
        if piped && rest == [] then Part(Left, [], handed)
        else
          var holds := piped && rest[0].ok;
          var fed := if !piped then handed
                     else if holds then handed + [Accepted(read.data)] else handed + [PipeBroken];
          var left := if piped then rest[1..] else rest;
          if left == [] then Part(Left, [], fed)
          else if !left[0].ok then Part(Failed(StoreFailed), left[1..], fed)
          else ReadLoop(left[1..], holds, bytes + |read.data|, fed + [Written(read.data)])
  }

  /** The two programs are locals: leaving drops, so kills, whichever still runs. */
  function Streamed(dumpStarts: bool, checkStarts: bool, answers: seq<Answer>, log: seq<Event>): Part {
    if !dumpStarts then Part(Failed(DumpFailed), answers, log)
    else if !checkStarts then Part(Failed(Unreadable), answers, log + [DumpStarted] + [DumpKilled])
    else
      Finished(ReadLoop(answers, true, 0, log + [DumpStarted] + [CheckStarted]))
  }

  /** Once the reading is over: the dump's exit, then the check's. */
  function Finished(read: Part): Part {
    if !read.outcome.Archived? then read.(log := read.log + [CheckKilled] + [DumpKilled])
    else if read.rest == [] then Part(Left, [], read.log + [DumpKilled] + [CheckKilled])
    else
      var dump, rest := read.rest[0], read.rest[1..];
      if dump.stop then Part(Cancelled, rest, read.log + [DumpKilled] + [CheckKilled])
      else if !dump.ok then Part(Failed(DumpFailed), rest, read.log + [DumpExited(false)] + [CheckKilled])
      else
        var dumped := read.log + [DumpExited(true)];
        if rest == [] then Part(Left, [], dumped + [CheckKilled])
        else if !rest[0].ok then Part(Failed(Unreadable), rest[1..], dumped + [CheckExited(false)])
        else Part(read.outcome, rest[1..], dumped + [CheckExited(true)])
  }

  function Tried(dumpStarts: bool, checkStarts: bool, answers: seq<Answer>): Part {
    if answers == [] then Part(Left, [], [])
    else if !answers[0].ok then Part(Failed(Refused), answers[1..], [])
    else if |answers| == 1 then Part(Left, [], [])
    else if !answers[1].ok then Part(Failed(Refused), answers[2..], [])
    else if |answers| == 2 then Part(Left, [], [])
    else if !answers[2].ok then Part(Failed(StoreFailed), answers[3..], [])
    else
      Settle(Streamed(dumpStarts, checkStarts, answers[3..], [UploadOpened]))
  }

  /** The upload, after the stream. */
  function Settle(s: Part): Part {
    if s.outcome.Left? || s.rest == [] then Part(Left, [], s.log)
    else if !s.outcome.Archived? then Part(s.outcome, s.rest[1..], s.log + [UploadAborted])
    else if !s.rest[0].ok then Part(Failed(StoreFailed), s.rest[1..], s.log + [CompletionRefused])
    else Part(s.outcome, s.rest[1..], s.log + [UploadCompleted])
  }

  function Ran(dumpStarts: bool, checkStarts: bool, answers: seq<Answer>): Part {
    var t := Tried(dumpStarts, checkStarts, answers);
    match t.outcome
    case Left => t
    case Cancelled => t
    case Archived(_) =>
      if t.rest == [] then Part(Left, [], t.log) else Part(t.outcome, t.rest[1..], t.log + [ReportedSuccess])
    case Failed(kind) =>
      if t.rest == [] then Part(Left, [], t.log) else Part(t.outcome, t.rest[1..], t.log + [ReportedFailure(kind)])
  }

  // ---------------------------------------------------------------------
  // The run itself
  // ---------------------------------------------------------------------

  class Archiver {
    const dumpStarts: bool
    const checkStarts: bool
    /** What is left of the environment's answers, and what has been done. */
    var answers: seq<Answer>
    var log: seq<Event>

    constructor (dumpStarts: bool, checkStarts: bool, answers: seq<Answer>)
      ensures this.dumpStarts == dumpStarts && this.checkStarts == checkStarts
      ensures this.answers == answers && log == []
    {
      this.dumpStarts, this.checkStarts, this.answers, log := dumpStarts, checkStarts, answers, [];
    }

    method Await() returns (a: Answer)
      requires answers != []
      modifies this`answers
      ensures a == old(answers[0]) && answers == old(answers[1..])
    {
      a, answers := answers[0], answers[1..];
    }

    method Stream() returns (outcome: Outcome)
      modifies this
      ensures Part(outcome, answers, log) == Streamed(dumpStarts, checkStarts, old(answers), old(log))
    {
      if !dumpStarts {
        return Failed(DumpFailed);
      }
      if !checkStarts {
        log := log + [DumpStarted] + [DumpKilled];
        return Failed(Unreadable);
      }
      log := log + [DumpStarted] + [CheckStarted];
      outcome := ReadAll();
      if !outcome.Archived? {
        log := log + [CheckKilled] + [DumpKilled];
        return;
      }
      if answers == [] {
        log := log + [DumpKilled] + [CheckKilled];
        return Left;
      }
      var dump := Await();
      if dump.stop {
        log := log + [DumpKilled] + [CheckKilled];
        return Cancelled;
      }
      log := log + [DumpExited(dump.ok)];
      if !dump.ok || answers == [] {
        log := log + [CheckKilled];
        return if !dump.ok then Failed(DumpFailed) else Left;
      }
      var check := Await();
      log := log + [CheckExited(check.ok)];
      if !check.ok {
        return Failed(Unreadable);
      }
    }

    method ReadAll() returns (outcome: Outcome)
      modifies this
      ensures Part(outcome, answers, log) == ReadLoop(old(answers), true, 0, old(log))
    {
      var bytes: nat, piped := 0, true;
      while true
        invariant ReadLoop(old(answers), true, 0, old(log)) == ReadLoop(answers, piped, bytes, log)
        decreases |answers|
      {
        if answers == [] {
          return Left;
        }
        var read := Await();
        if read.stop {
          return Cancelled;
        }
        if !read.ok {
          return Failed(DumpFailed);
        }
        if read.data == [] {
          return Archived(bytes);
        }
        log := log + [Read(read.data)] + [Handed(read.data)];
        if piped {
          if answers == [] {
            return Left;
          }
          var fed := Await();
          piped := fed.ok;
          log := log + if piped then [Accepted(read.data)] else [PipeBroken];
        }
        if answers == [] {
          return Left;
        }
        var capacity := Await();
        if !capacity.ok {
          return Failed(StoreFailed);
        }
        log := log + [Written(read.data)];
        bytes := bytes + |read.data|;
      }
    }

    method TryArchive() returns (outcome: Outcome)
      requires log == []
      modifies this
      ensures Part(outcome, answers, log) == Tried(dumpStarts, checkStarts, old(answers))
    {
      if answers == [] { return Left; }
      var versions := Await();
      if !versions.ok { return Failed(Refused); }
      if answers == [] { return Left; }
      var matches := Await();
      if !matches.ok { return Failed(Refused); }
      if answers == [] { return Left; }
      var upload := Await();
      if !upload.ok { return Failed(StoreFailed); }
      log := [UploadOpened];
      outcome := Stream();
      if outcome.Left? || answers == [] {
        answers := [];
        return Left;
      }
      var settled := Await();
      if !outcome.Archived? {
        log := log + [UploadAborted];
      } else if !settled.ok {
        log := log + [CompletionRefused];
        return Failed(StoreFailed);
      } else {
        log := log + [UploadCompleted];
      }
    }

    method Run() returns (outcome: Outcome)
      requires log == []
      modifies this
      ensures Part(outcome, answers, log) == Ran(dumpStarts, checkStarts, old(answers))
    {
      outcome := TryArchive();
      if outcome.Archived? || outcome.Failed? {
        if answers == [] { return Left; }
        var _ := Await();
        log := log + if outcome.Archived? then [ReportedSuccess] else [ReportedFailure(outcome.kind)];
      }
    }
  }

  // ---------------------------------------------------------------------
  // The protocol
  // ---------------------------------------------------------------------

  datatype Program = Idle | Running | Exited(ok: bool) | Killed
  datatype Upload = Unopened | Open | Completed | Incomplete | Aborted

  datatype State = State(
    upload: Upload, dump: Program, check: Program,
    read: Bytes, handed: Bytes, accepted: Bytes, written: Bytes, broken: bool,
    reports: seq<Event>)

  const INITIAL := State(Unopened, Idle, Idle, [], [], [], [], false, [])

  /** What the protocol allows next. */
  predicate Allowed(s: State, e: Event) {
    match e
    case UploadOpened => s.upload == Unopened
    case DumpStarted => s.upload == Open && s.dump == Idle
    case CheckStarted => s.dump == Running && s.check == Idle
    case Read(_) => s.dump == Running && s.check == Running && s.read == s.handed == s.written
    case Handed(data) => s.check == Running && s.read == s.handed + data
    case Accepted(data) => s.check == Running && !s.broken && s.handed == s.accepted + data
    case PipeBroken => !s.broken
    case Written(data) => s.upload == Open && s.read == s.handed == s.written + data
    case DumpExited(_) => s.dump == Running
    case DumpKilled => s.dump == Running
    case CheckExited(_) => s.check == Running && s.dump == Exited(true)
    case CheckKilled => s.check == Running
    // An upload is given up only once neither program runs, and completed only
    // once both succeeded on every byte read.
    case UploadAborted => s.upload == Open && s.dump != Running && s.check != Running
    case UploadCompleted => Sound(s)
    case CompletionRefused => Sound(s)
    case ReportedSuccess => s.upload == Completed && s.reports == []
    case ReportedFailure(_) => s.upload !in {Open, Completed} && s.reports == []
  }

  predicate Sound(s: State) {
    s.upload == Open && s.dump == Exited(true) && s.check == Exited(true) && s.read == s.handed == s.written
  }

  function Next(s: State, e: Event): State {
    match e
    case UploadOpened => s.(upload := Open)
    case DumpStarted => s.(dump := Running)
    case CheckStarted => s.(check := Running)
    case Read(data) => s.(read := s.read + data)
    case Handed(data) => s.(handed := s.handed + data)
    case Accepted(data) => s.(accepted := s.accepted + data)
    case PipeBroken => s.(broken := true)
    case Written(data) => s.(written := s.written + data)
    case DumpExited(ok) => s.(dump := Exited(ok))
    case DumpKilled => s.(dump := Killed)
    case CheckExited(ok) => s.(check := Exited(ok))
    case CheckKilled => s.(check := Killed)
    case UploadAborted => s.(upload := Aborted)
    case UploadCompleted => s.(upload := Completed)
    case CompletionRefused => s.(upload := Incomplete)
    case ReportedSuccess => s.(reports := s.reports + [e])
    case ReportedFailure(_) => s.(reports := s.reports + [e])
  }

  /** The log ends in `s`, each of its events allowed when it came. */
  predicate Reaches(log: seq<Event>, s: State) {
    if log == [] then s == INITIAL
    else
      var before := After(log[..|log| - 1]);
      Reaches(log[..|log| - 1], before) && Allowed(before, log[|log| - 1]) && s == Next(before, log[|log| - 1])
  }

  function After(log: seq<Event>): State {
    if log == [] then INITIAL else Next(After(log[..|log| - 1]), log[|log| - 1])
  }

  lemma ReachesAfter(log: seq<Event>, s: State)
    requires Reaches(log, s)
    ensures s == After(log)
  {
  }

  lemma Observe(log: seq<Event>, s: State, e: Event)
    requires Reaches(log, s) && Allowed(s, e)
    ensures Reaches(log + [e], Next(s, e))
  {
    assert (log + [e])[..|log|] == log;
    ReachesAfter(log, s);
  }

  /** Between two chunks: every byte read was handed on and written. */
  predicate Flowing(s: State, piped: bool, bytes: nat) {
    && s.upload == Open && s.dump == Running && s.check == Running && s.reports == []
    && s.read == s.handed == s.written && |s.written| == bytes
    && s.broken == !piped
    && (piped ==> s.accepted == s.written)
    && (!piped ==> s.accepted < s.written)
  }

  /** Inside or between chunks: what a stop, a failure or a drop finds. */
  predicate Interrupted(s: State) {
    s.upload == Open && s.dump == Running && s.check == Running && s.reports == []
  }

  lemma {:induction false} ReadLoopFlows(answers: seq<Answer>, piped: bool, bytes: nat, log: seq<Event>, s: State)
    requires Reaches(log, s) && Flowing(s, piped, bytes)
    ensures var r := ReadLoop(answers, piped, bytes, log);
            var t := After(r.log);
            Reaches(r.log, t) && Interrupted(t) && (r.outcome.Archived? ==> Flowing(t, !t.broken, r.outcome.bytes))
    decreases |answers|
  {
    hide Reaches, After;
    ReachesAfter(log, s);
    if answers != [] && !answers[0].stop && answers[0].ok && answers[0].data != [] {
      var data, rest := answers[0].data, answers[1..];
      Observe(log, s, Read(data));
      var s1 := Next(s, Read(data));
      Observe(log + [Read(data)], s1, Handed(data));
      var handed, s2 := log + [Read(data)] + [Handed(data)], Next(s1, Handed(data));
      ReachesAfter(handed, s2);
      if !piped {
        WriteFlows(rest, false, bytes, handed, s2, data);
      } else if rest != [] {
        var e := if rest[0].ok then Accepted(data) else PipeBroken;
        Observe(handed, s2, e);
        ReachesAfter(handed + [e], Next(s2, e));
        WriteFlows(rest[1..], rest[0].ok, bytes, handed + [e], Next(s2, e), data);
      }
    }
  }

  lemma {:induction false} WriteFlows(answers: seq<Answer>, piped: bool, bytes: nat, log: seq<Event>, s: State,
                                      data: Bytes)
    requires Reaches(log, s) && s == After(log) && Interrupted(s) && data != []
    requires s.read == s.handed == s.written + data && |s.written| == bytes
    requires s.broken == !piped && (if piped then s.accepted == s.written + data else s.accepted <= s.written)
    ensures answers != [] && answers[0].ok ==>
              var r := ReadLoop(answers[1..], piped, bytes + |data|, log + [Written(data)]);
              var t := After(r.log);
              Reaches(r.log, t) && Interrupted(t) && (r.outcome.Archived? ==> Flowing(t, !t.broken, r.outcome.bytes))
    decreases |answers|
  {
    hide Reaches, After, ReadLoop;
    Observe(log, s, Written(data));
    if answers != [] && answers[0].ok {
      ReadLoopFlows(answers[1..], piped, bytes + |data|, log + [Written(data)], Next(s, Written(data)));
    }
  }

  lemma Extend(log: seq<Event>, e: Event)
    requires Reaches(log, After(log)) && Allowed(After(log), e)
    ensures Reaches(log + [e], After(log + [e])) && After(log + [e]) == Next(After(log), e)
  {
    Observe(log, After(log), e);
    ReachesAfter(log + [e], Next(After(log), e));
  }

  lemma Opening()
    ensures Reaches([UploadOpened], After([UploadOpened])) && After([UploadOpened]) == INITIAL.(upload := Open)
  {
    Extend([], UploadOpened);
    assert [] + [UploadOpened] == [UploadOpened];
  }

  /** Everything reached the check, unless its input broke: then a part of it, which it took. */
  predicate Fed(s: State) {
    s.accepted <= s.written && (s.broken <==> s.accepted != s.written)
  }

  /** What a stream leaves: no program running, and what its end says of them. */
  predicate StreamLeft(s: State, outcome: Outcome) {
    && s.upload == Open && s.reports == [] && s.dump != Running && s.check != Running
    && (outcome.Archived? ==> Sound(s) && |s.written| == outcome.bytes && Fed(s))
  }

  lemma StreamSettlesItsPrograms(dumpStarts: bool, checkStarts: bool, answers: seq<Answer>)
    ensures var r := Streamed(dumpStarts, checkStarts, answers, [UploadOpened]);
            Reaches(r.log, After(r.log)) && StreamLeft(After(r.log), r.outcome) && r.outcome != Failed(Refused)
  {
    hide Reaches, After, ReadLoop;
    Opening();
    if dumpStarts {
      var log := [UploadOpened] + [DumpStarted];
      Extend([UploadOpened], DumpStarted);
      if !checkStarts {
        Extend(log, DumpKilled);
      } else {
        Extend(log, CheckStarted);
        ReadLoopFlows(answers, true, 0, log + [CheckStarted], After(log + [CheckStarted]));
        ReadLoopRefusesNothing(answers, true, 0, log + [CheckStarted]);
        var read := ReadLoop(answers, true, 0, log + [CheckStarted]);
        CutShort(read.log);
        if read.outcome.Archived? {
          Dumped(read);
        }
      }
    }
  }

  lemma {:induction false} ReadLoopRefusesNothing(answers: seq<Answer>, piped: bool, bytes: nat, log: seq<Event>)
    ensures ReadLoop(answers, piped, bytes, log).outcome != Failed(Refused)
    decreases |answers|
  {
    if |answers| > 1 && !piped && answers[0].data != [] {
      ReadLoopRefusesNothing(answers[2..], false, bytes + |answers[0].data|,
                             log + [Read(answers[0].data)] + [Handed(answers[0].data)] + [Written(answers[0].data)]);
    } else if |answers| > 2 && piped && answers[0].data != [] {
      var fed := if answers[1].ok then Accepted(answers[0].data) else PipeBroken;
      ReadLoopRefusesNothing(answers[3..], answers[1].ok, bytes + |answers[0].data|,
                             log + [Read(answers[0].data)] + [Handed(answers[0].data)] + [fed] +
                             [Written(answers[0].data)]);
    }
  }

  /** The ways out of a stream whose programs both run. */
  lemma CutShort(log: seq<Event>)
    requires Reaches(log, After(log)) && Interrupted(After(log))
    ensures Stands(log + [CheckKilled] + [DumpKilled]) && Stands(log + [DumpKilled] + [CheckKilled])
    ensures Stands(log + [DumpExited(false)] + [CheckKilled])
  {
    hide Reaches, After;
    Extend(log, CheckKilled);
    Extend(log + [CheckKilled], DumpKilled);
    Extend(log, DumpKilled);
    Extend(log + [DumpKilled], CheckKilled);
    Extend(log, DumpExited(false));
    Extend(log + [DumpExited(false)], CheckKilled);
  }

  /** The ways out once the dump exited well. */
  lemma Dumped(read: Part)
    requires Reaches(read.log, After(read.log)) && read.outcome.Archived?
    requires Flowing(After(read.log), !After(read.log).broken, read.outcome.bytes)
    ensures Stands(read.log + [DumpExited(true)] + [CheckKilled])
    ensures Stands(read.log + [DumpExited(true)] + [CheckExited(false)])
    ensures var last := read.log + [DumpExited(true)] + [CheckExited(true)];
            Reaches(last, After(last)) && StreamLeft(After(last), read.outcome)
  {
    hide Reaches, After;
    var dumped := read.log + [DumpExited(true)];
    Extend(read.log, DumpExited(true));
    Extend(dumped, CheckKilled);
    Extend(dumped, CheckExited(false));
    Extend(dumped, CheckExited(true));
  }

  predicate Stands(log: seq<Event>) {
    Reaches(log, After(log)) && StreamLeft(After(log), Left)
  }

  /** Before the report: how the outcome and the upload agree. */
  predicate Agrees(outcome: Outcome, s: State) {
    && s.dump != Running && s.check != Running
    && match outcome
       case Archived(bytes) =>
         && s.upload == Completed && s.dump == Exited(true) && s.check == Exited(true)
         && s.read == s.handed == s.written && |s.written| == bytes && Fed(s)
       case Cancelled => s.upload == Aborted
       case Failed(kind) =>
         && (s.upload == Unopened || s.upload == Aborted || s.upload == Incomplete)
         && (s.upload == Unopened ==> kind == Refused || kind == StoreFailed)
         && (s.upload == Incomplete ==> kind == StoreFailed)
         && (kind == Refused ==> s.upload == Unopened)
       case Left => true
  }

  lemma TryingAgrees(dumpStarts: bool, checkStarts: bool, answers: seq<Answer>)
    ensures var r := Tried(dumpStarts, checkStarts, answers);
            Reaches(r.log, After(r.log)) && Agrees(r.outcome, After(r.log)) && After(r.log).reports == []
  {
    hide Streamed, Settle;
    assert Reaches([], After([])) && After([]) == INITIAL;
    hide Reaches, After;
    if |answers| > 2 && answers[0].ok && answers[1].ok && answers[2].ok {
      StreamSettlesItsPrograms(dumpStarts, checkStarts, answers[3..]);
      SettlingAgrees(Streamed(dumpStarts, checkStarts, answers[3..], [UploadOpened]));
    }
  }

  lemma SettlingAgrees(s: Part)
    requires Reaches(s.log, After(s.log)) && StreamLeft(After(s.log), s.outcome) && s.outcome != Failed(Refused)
    ensures var r := Settle(s);
            Reaches(r.log, After(r.log)) && Agrees(r.outcome, After(r.log)) && After(r.log).reports == []
  {
    hide Reaches, After;
    if !s.outcome.Left? && s.rest != [] {
      if !s.outcome.Archived? {
        Extend(s.log, UploadAborted);
      } else if !s.rest[0].ok {
        Extend(s.log, CompletionRefused);
      } else {
        Extend(s.log, UploadCompleted);
      }
    }
  }

  /**
   Every event of a run is allowed when it comes, and its end says what became of the upload, of
   both programs and of the bytes, and what was reported.
   */
  lemma EveryRunIsAllowed(dumpStarts: bool, checkStarts: bool, answers: seq<Answer>)
    ensures var r := Ran(dumpStarts, checkStarts, answers);
            var s := After(r.log);
            && Reaches(r.log, s)
            && (r.outcome.Left? || Agrees(r.outcome, s))
            && s.dump != Running && s.check != Running
            && s.reports == (match r.outcome
                             case Archived(_) => [ReportedSuccess]
                             case Failed(kind) => [ReportedFailure(kind)]
                             case Cancelled => []
                             case Left => [])
  {
    hide Reaches, After, Tried;
    var t := Tried(dumpStarts, checkStarts, answers);
    TryingAgrees(dumpStarts, checkStarts, answers);
    if t.rest != [] {
      match t.outcome
      case Archived(_) => Extend(t.log, ReportedSuccess);
      case Failed(kind) => Extend(t.log, ReportedFailure(kind));
      case Cancelled =>
      case Left =>
    }
  }

  function Times(log: seq<Event>, events: set<Event>): nat {
    if log == [] then 0
    else Times(log[..|log| - 1], events) + if log[|log| - 1] in events then 1 else 0
  }

  /** An allowed log settles an upload it opened at most once, and once exactly when it leaves none open. */
  lemma {:induction false} SettlesOnce(log: seq<Event>)
    requires Reaches(log, After(log))
    ensures var upload := After(log).upload;
            && Times(log, {UploadOpened}) == (if upload == Unopened then 0 else 1)
            && Times(log, {UploadAborted, UploadCompleted, CompletionRefused}) ==
               (if upload == Unopened || upload == Open then 0 else 1)
  {
    if log != [] {
      var before := log[..|log| - 1];
      ReachesAfter(before, After(before));
      SettlesOnce(before);
    }
  }

  /** A run that ends settles the upload it opened, once; a run that is left, at most once. */
  lemma AnEndedRunSettlesItsUpload(dumpStarts: bool, checkStarts: bool, answers: seq<Answer>)
    ensures var r := Ran(dumpStarts, checkStarts, answers);
            var settled := Times(r.log, {UploadAborted, UploadCompleted, CompletionRefused});
            && settled <= Times(r.log, {UploadOpened}) <= 1
            && (!r.outcome.Left? ==> settled == Times(r.log, {UploadOpened}))
  {
    hide Ran, Reaches, After, Times;
    EveryRunIsAllowed(dumpStarts, checkStarts, answers);
    SettlesOnce(Ran(dumpStarts, checkStarts, answers).log);
  }

  // ---------------------------------------------------------------------
  // A run cut short
  // ---------------------------------------------------------------------

  /** `cut` is `whole` on the first `n` answers: the same where they suffice, left where they do not. */
  predicate IsCut(full: seq<Answer>, n: nat, whole: Part, cut: Part) {
    && |whole.rest| <= |full|
    && var used := |full| - |whole.rest|;
       && whole.rest == full[used..]
       && (if used <= n <= |full| then cut == whole.(rest := full[used..n]) else cut.outcome.Left? && cut.rest == [])
  }

  lemma CutLater(full: seq<Answer>, j: nat, n: nat, whole: Part, cut: Part)
    requires j <= n <= |full| && IsCut(full[j..], n - j, whole, cut)
    ensures IsCut(full, n, whole, cut)
  {
    var used := |full[j..]| - |whole.rest|;
    assert full[j..][used..] == full[j + used..];
    if used <= n - j {
      assert full[j..][used..n - j] == full[j + used..n];
    }
  }

  /** The answers a chunk takes: the read, the check's input while it holds, the upload's room. */
  function ChunkAnswers(piped: bool): nat {
    if piped then 3 else 2
  }

  predicate GivesAChunk(read: Answer) {
    !read.stop && read.ok && read.data != []
  }

  /** One chunk of the loop. */
  lemma OneChunk(answers: seq<Answer>, piped: bool, bytes: nat, log: seq<Event>) returns (fed: seq<Event>, holds: bool)
    requires answers != [] && GivesAChunk(answers[0])
    ensures var j, r := ChunkAnswers(piped), ReadLoop(answers, piped, bytes, log);
            && (|answers| < j ==> r.outcome.Left? && r.rest == [])
            && (|answers| >= j ==> fed == ChunkFed(answers, piped, log) && holds == (piped && answers[1].ok))
            && (|answers| >= j && !answers[j - 1].ok ==> r == Part(Failed(StoreFailed), answers[j..], fed))
            && (|answers| >= j && answers[j - 1].ok ==>
                  r == ReadLoop(answers[j..], holds, bytes + |answers[0].data|, fed + [Written(answers[0].data)]))
  {
    fed, holds := log, false;
    if |answers| >= ChunkAnswers(piped) {
      fed, holds := ChunkFed(answers, piped, log), piped && answers[1].ok;
      assert answers[1..][1..] == answers[2..];
      if piped {
        assert answers[2..][1..] == answers[3..];
      }
    }
  }

  function ChunkFed(answers: seq<Answer>, piped: bool, log: seq<Event>): seq<Event>
    requires |answers| > 1
  {
    var data := answers[0].data;
    var handed := log + [Read(data)] + [Handed(data)];
    if !piped then handed else if answers[1].ok then handed + [Accepted(data)] else handed + [PipeBroken]
  }

  /** What ends at the read itself. */
  lemma NoChunk(answers: seq<Answer>, n: nat, piped: bool, bytes: nat, log: seq<Event>)
    requires n <= |answers| && answers != [] && !GivesAChunk(answers[0])
    ensures var whole, cut := ReadLoop(answers, piped, bytes, log), ReadLoop(answers[..n], piped, bytes, log);
            && whole.rest == answers[1..]
            && (if n == 0 then cut.outcome.Left? && cut.rest == [] else cut == whole.(rest := answers[..n][1..]))
  {
  }

  lemma NothingAnswered(answers: seq<Answer>, piped: bool, bytes: nat, log: seq<Event>)
    ensures var r := ReadLoop(answers, piped, bytes, log);
            answers == [] ==> r.outcome.Left? && r.rest == []
  {
  }

  lemma {:induction false} ReadLoopCut(full: seq<Answer>, n: nat, piped: bool, bytes: nat, log: seq<Event>)
    requires n <= |full| && !ReadLoop(full, piped, bytes, log).outcome.Left?
    ensures IsCut(full, n, ReadLoop(full, piped, bytes, log), ReadLoop(full[..n], piped, bytes, log))
    decreases |full|
  {
    var whole, cut, j := ReadLoop(full, piped, bytes, log), ReadLoop(full[..n], piped, bytes, log), ChunkAnswers(piped);
    assert j > 0;
    hide *;
    NothingAnswered(full, piped, bytes, log);
    NothingAnswered(full[..n], piped, bytes, log);
    if !GivesAChunk(full[0]) {
      NoChunk(full, n, piped, bytes, log);
      EndsWithin(full, 1, n, whole, cut);
    } else {
      var fed, holds := OneChunk(full, piped, bytes, log);
      if n > 0 {
        CutChunk(full, n, piped, bytes, log, fed, holds);
      }
      if !full[j - 1].ok {
        EndsWithin(full, j, n, whole, cut);
      } else {
        var bytes', log' := bytes + |full[0].data|, fed + [Written(full[0].data)];
        var m := if n >= j then n - j else 0;
        ReadLoopCut(full[j..], m, holds, bytes', log');
        RestCut(full, j, n, whole, ReadLoop(full[j..][..m], holds, bytes', log'), cut);
      }
    }
  }

  /** A part cut before or after its `j`th answer, where another goes on. */
  lemma RestCut(full: seq<Answer>, j: nat, n: nat, whole: Part, later: Part, cut: Part)
    requires n <= |full| && j <= |full| && IsCut(full[j..], if n >= j then n - j else 0, whole, later)
    requires n < j ==> cut.outcome.Left? && cut.rest == []
    requires n >= j ==> full[j..][..n - j] == full[..n][j..] ==> cut == later
    ensures IsCut(full, n, whole, cut)
  {
    hide IsCut;
    if n >= j {
      assert full[j..][..n - j] == full[..n][j..];
      CutLater(full, j, n, whole, cut);
    } else {
      CutBefore(full, j, n, whole, cut, later);
    }
  }

  /** One chunk of the loop, cut. */
  lemma CutChunk(full: seq<Answer>, n: nat, piped: bool, bytes: nat, log: seq<Event>, fed: seq<Event>, holds: bool)
    requires 0 < n <= |full| && GivesAChunk(full[0])
    requires |full| >= ChunkAnswers(piped) ==> fed == ChunkFed(full, piped, log) && holds == (piped && full[1].ok)
    ensures var j, cut := ChunkAnswers(piped), ReadLoop(full[..n], piped, bytes, log);
            && (n < j ==> cut.outcome.Left? && cut.rest == [])
            && (n >= j && !full[j - 1].ok ==> cut == Part(Failed(StoreFailed), full[..n][j..], fed))
            && (n >= j && full[j - 1].ok ==>
                  cut == ReadLoop(full[..n][j..], holds, bytes + |full[0].data|, fed + [Written(full[0].data)]))
  {
    hide ReadLoop, ChunkFed;
    var _, _ := OneChunk(full[..n], piped, bytes, log);
    if n >= ChunkAnswers(piped) {
      SameFed(full, full[..n], piped, log);
    }
  }

  lemma SameFed(a: seq<Answer>, b: seq<Answer>, piped: bool, log: seq<Event>)
    requires |a| > 1 && |b| > 1 && a[0] == b[0] && a[1] == b[1]
    ensures ChunkFed(a, piped, log) == ChunkFed(b, piped, log)
  {
  }

  /** A part over at its `j`th answer. */
  lemma EndsWithin(full: seq<Answer>, j: nat, n: nat, whole: Part, cut: Part)
    requires n <= |full| && j <= |full| && whole.rest == full[j..]
    requires if n < j then cut.outcome.Left? && cut.rest == [] else cut == whole.(rest := full[..n][j..])
    ensures IsCut(full, n, whole, cut)
  {
    if n >= j {
      assert full[..n][j..] == full[j..n];
    }
  }

  /** A part left before its `j`th answer, which goes on past it. */
  lemma CutBefore(full: seq<Answer>, j: nat, n: nat, whole: Part, cut: Part, later: Part)
    requires n < j <= |full| && IsCut(full[j..], 0, whole, later)
    requires cut.outcome.Left? && cut.rest == []
    ensures IsCut(full, n, whole, cut)
  {
    var used := |full[j..]| - |whole.rest|;
    assert full[j..][used..] == full[j + used..];
  }

  /** The answers the exits take: the dump's, and the check's once the dump did well. */
  function ExitAnswers(dump: Answer): nat {
    if dump.stop || !dump.ok then 1 else 2
  }

  lemma ExitsTaken(read: Part, n: nat)
    requires read.outcome.Archived? && n <= |read.rest| && !Finished(read).outcome.Left?
    ensures read.rest != [] && ExitAnswers(read.rest[0]) <= |read.rest|
    ensures var j, whole, cut := ExitAnswers(read.rest[0]), Finished(read), Finished(read.(rest := read.rest[..n]));
            && whole.rest == read.rest[j..]
            && (if n < j then cut.outcome.Left? && cut.rest == [] else cut == whole.(rest := read.rest[..n][j..]))
  {
    assert read.rest[1..] != [] ==> read.rest[1..][1..] == read.rest[2..];
    assert n > 1 ==> read.rest[..n][1..][1..] == read.rest[..n][2..];
  }

  lemma FinishedCut(full: seq<Answer>, n: nat, read: Part, readCut: Part)
    requires n <= |full| && IsCut(full, n, read, readCut) && !Finished(read).outcome.Left?
    ensures IsCut(full, n, Finished(read), Finished(readCut))
  {
    hide Finished, IsCut;
    if read.outcome.Archived? {
      ExitsCut(full, n, read, readCut);
    } else {
      InterruptedCut(full, n, read, readCut);
    }
  }

  lemma InterruptedCut(full: seq<Answer>, n: nat, read: Part, readCut: Part)
    requires n <= |full| && IsCut(full, n, read, readCut) && !read.outcome.Archived?
    ensures IsCut(full, n, Finished(read), Finished(readCut))
  {
  }

  lemma ExitsCut(full: seq<Answer>, n: nat, read: Part, readCut: Part)
    requires n <= |full| && IsCut(full, n, read, readCut) && !Finished(read).outcome.Left? && read.outcome.Archived?
    ensures IsCut(full, n, Finished(read), Finished(readCut))
  {
    var used := |full| - |read.rest|;
    var m := if n >= used then n - used else 0;
    CutParts(full, n, read, readCut, m);
    FinishedLeft(readCut);
    hide *;
    ExitsTaken(read, m);
    EndsWithin(read.rest, ExitAnswers(read.rest[0]), m, Finished(read), Finished(read.(rest := read.rest[..m])));
    RestCut(full, used, n, Finished(read), Finished(read.(rest := read.rest[..m])), Finished(readCut));
  }

  lemma CutParts(full: seq<Answer>, n: nat, read: Part, readCut: Part, m: nat)
    requires n <= |full| && IsCut(full, n, read, readCut)
    requires var used := |full| - |read.rest|; m == if n >= used then n - used else 0
    ensures var used := |full| - |read.rest|;
            && 0 <= used && read.rest == full[used..] && m <= |read.rest|
            && (n >= used ==> readCut == read.(rest := read.rest[..m]))
            && (n < used ==> readCut.outcome.Left? && readCut.rest == [])
  {
  }

  lemma FinishedLeft(read: Part)
    ensures read.outcome.Left? && read.rest == [] ==> Finished(read).outcome.Left? && Finished(read).rest == []
  {
  }

  lemma StreamedCut(dumpStarts: bool, checkStarts: bool, full: seq<Answer>, n: nat, log: seq<Event>)
    requires n <= |full| && !Streamed(dumpStarts, checkStarts, full, log).outcome.Left?
    ensures IsCut(full, n, Streamed(dumpStarts, checkStarts, full, log),
                  Streamed(dumpStarts, checkStarts, full[..n], log))
  {
    if dumpStarts && checkStarts {
      var started := log + [DumpStarted] + [CheckStarted];
      assert Finished(Part(Left, [], started)).outcome.Left?;
      ReadLoopCut(full, n, true, 0, started);
      FinishedCut(full, n, ReadLoop(full, true, 0, started), ReadLoop(full[..n], true, 0, started));
    }
  }

  predicate Opens(answers: seq<Answer>) {
    |answers| > 2 && answers[0].ok && answers[1].ok && answers[2].ok
  }

  lemma UnopenedRun(dumpStarts: bool, checkStarts: bool, answers: seq<Answer>)
    requires !Opens(answers)
    ensures After(Ran(dumpStarts, checkStarts, answers).log).upload == Unopened
  {
    var t := Tried(dumpStarts, checkStarts, answers);
    UnopenedTry(dumpStarts, checkStarts, answers);
    assert After([]) == INITIAL;
    hide Tried, After;
    if t.outcome.Failed? {
      ReportKeepsTheUpload([], ReportedFailure(t.outcome.kind));
    }
  }

  lemma UnopenedTry(dumpStarts: bool, checkStarts: bool, answers: seq<Answer>)
    requires !Opens(answers)
    ensures var t := Tried(dumpStarts, checkStarts, answers);
            t.log == [] && (t.outcome.Left? || t.outcome.Failed?)
  {
  }

  /** The stream of an opened upload, settled. */
  lemma SettledUpload(s: Part)
    requires Reaches(s.log, After(s.log)) && StreamLeft(After(s.log), s.outcome) && !s.outcome.Left? && s.rest != []
    ensures After(Settle(s).log).upload !in {Open, Unopened}
  {
    hide Reaches, After;
    if !s.outcome.Archived? {
      Extend(s.log, UploadAborted);
    } else if !s.rest[0].ok {
      Extend(s.log, CompletionRefused);
    } else {
      Extend(s.log, UploadCompleted);
    }
  }

  lemma ReportKeepsTheUpload(log: seq<Event>, e: Event)
    requires e.ReportedSuccess? || e.ReportedFailure?
    ensures After(log + [e]).upload == After(log).upload
  {
    assert (log + [e])[..|log|] == log;
  }

  /** An opened run's upload, read from its stream. */
  lemma OpenedRun(dumpStarts: bool, checkStarts: bool, answers: seq<Answer>)
    requires Opens(answers)
    ensures var s := Streamed(dumpStarts, checkStarts, answers[3..], [UploadOpened]);
            var upload := After(Ran(dumpStarts, checkStarts, answers).log).upload;
            if s.outcome.Left? || s.rest == [] then upload == Open
            else upload == After(Settle(s).log).upload && upload !in {Open, Unopened}
  {
    hide Streamed, After, Reaches;
    StreamSettlesItsPrograms(dumpStarts, checkStarts, answers[3..]);
    var s := Streamed(dumpStarts, checkStarts, answers[3..], [UploadOpened]);
    var t := Tried(dumpStarts, checkStarts, answers);
    if !s.outcome.Left? && s.rest != [] {
      SettledUpload(s);
      ReportKeepsTheUpload(t.log, ReportedSuccess);
      if t.outcome.Failed? {
        ReportKeepsTheUpload(t.log, ReportedFailure(t.outcome.kind));
      }
    }
  }

  /** The answer that settles an ended run's upload: its last, or the last before that of its report. */
  function SettlingAnswer(dumpStarts: bool, checkStarts: bool, full: seq<Answer>): int {
    var r := Ran(dumpStarts, checkStarts, full);
    |full| - |r.rest| - if r.outcome.Cancelled? then 1 else 2
  }

  /**
   Left after `n` of the answers of a run that would have ended, a run holds its upload open exactly
   from the answer that opens it until the one that settles it; past that, it is settled as it would
   have been.
   */
  lemma LeftOpenExactly(dumpStarts: bool, checkStarts: bool, full: seq<Answer>, n: nat)
    requires n <= |full| && !Ran(dumpStarts, checkStarts, full).outcome.Left?
    ensures var whole := After(Ran(dumpStarts, checkStarts, full).log).upload;
            var cut := After(Ran(dumpStarts, checkStarts, full[..n]).log).upload;
            var settling := SettlingAnswer(dumpStarts, checkStarts, full);
            && (cut == Open <==> whole != Unopened && 3 <= n <= settling)
            && (whole != Unopened && n > settling ==> cut == whole)
  {
    hide Ran, Streamed, After, Settle;
    if !Opens(full) {
      UnopenedRun(dumpStarts, checkStarts, full);
      UnopenedRun(dumpStarts, checkStarts, full[..n]);
    } else {
      OpenedRun(dumpStarts, checkStarts, full);
      SettlingFollowsTheStream(dumpStarts, checkStarts, full);
      if n < 3 {
        UnopenedRun(dumpStarts, checkStarts, full[..n]);
      } else {
        CutOpened(dumpStarts, checkStarts, full, n);
      }
    }
  }

  lemma CutOpened(dumpStarts: bool, checkStarts: bool, full: seq<Answer>, n: nat)
    requires Opens(full) && 3 <= n <= |full|
    requires var s := Streamed(dumpStarts, checkStarts, full[3..], [UploadOpened]);
             !s.outcome.Left? && s.rest != []
    ensures var s := Streamed(dumpStarts, checkStarts, full[3..], [UploadOpened]);
            var cut := After(Ran(dumpStarts, checkStarts, full[..n]).log).upload;
            && (cut == Open <==> n <= |full| - |s.rest|)
            && (n > |full| - |s.rest| ==> cut == After(Settle(s).log).upload)
  {
    hide Ran, Streamed, After, Settle, IsCut;
    OpenedRun(dumpStarts, checkStarts, full[..n]);
    assert full[..n][3..] == full[3..][..n - 3];
    StreamedCut(dumpStarts, checkStarts, full[3..], n - 3, [UploadOpened]);
    SettledAlike(full[3..], n - 3, Streamed(dumpStarts, checkStarts, full[3..], [UploadOpened]),
                 Streamed(dumpStarts, checkStarts, full[3..][..n - 3], [UploadOpened]));
  }

  lemma SettledAlike(full: seq<Answer>, n: nat, s: Part, cut: Part)
    requires n <= |full| && IsCut(full, n, s, cut) && !s.outcome.Left? && s.rest != []
    ensures |s.rest| <= |full|
    ensures n <= |full| - |s.rest| <==> cut.outcome.Left? || cut.rest == []
    ensures n > |full| - |s.rest| ==> Settle(cut).log == Settle(s).log
  {
  }

  lemma SettlingFollowsTheStream(dumpStarts: bool, checkStarts: bool, full: seq<Answer>)
    requires Opens(full) && !Ran(dumpStarts, checkStarts, full).outcome.Left?
    ensures var s := Streamed(dumpStarts, checkStarts, full[3..], [UploadOpened]);
            && !s.outcome.Left? && 0 < |s.rest| <= |full| - 3
            && SettlingAnswer(dumpStarts, checkStarts, full) == |full| - |s.rest|
  {
    var s := Streamed(dumpStarts, checkStarts, full[3..], [UploadOpened]);
    assert Tried(dumpStarts, checkStarts, full) == Settle(s);
    hide Streamed, Tried;
    ReportTakesOne(dumpStarts, checkStarts, full, s);
    hide Ran, Settle, IsCut;
    StreamedCut(dumpStarts, checkStarts, full[3..], 0, [UploadOpened]);
    RestWithin(full[3..], 0, s, Streamed(dumpStarts, checkStarts, full[3..][..0], [UploadOpened]));
  }

  lemma RestWithin(full: seq<Answer>, n: nat, whole: Part, cut: Part)
    requires IsCut(full, n, whole, cut)
    ensures |whole.rest| <= |full|
  {
  }

  /** An ended run takes one answer to settle its upload, and one more to report unless it is cancelled. */
  lemma ReportTakesOne(dumpStarts: bool, checkStarts: bool, full: seq<Answer>, s: Part)
    requires Tried(dumpStarts, checkStarts, full) == Settle(s) && !Ran(dumpStarts, checkStarts, full).outcome.Left?
    ensures !s.outcome.Left? && s.rest != []
    ensures var r := Ran(dumpStarts, checkStarts, full);
            |r.rest| + (if r.outcome.Cancelled? then 1 else 2) == |s.rest|
  {
    hide Tried;
  }

  /** Answers that refuse whatever is awaited. */
  predicate Refusals(tail: seq<Answer>) {
    forall i :: 0 <= i < |tail| ==> !tail[i].ok
  }

  lemma {:induction false} RefusedLoopEnds(answers: seq<Answer>, tail: seq<Answer>, piped: bool, bytes: nat,
                                           log: seq<Event>)
    requires |tail| > 1 && Refusals(tail)
    ensures var r := ReadLoop(answers + tail, piped, bytes, log);
            && !r.outcome.Left? && |r.rest| >= |tail| - 2
            && (r.outcome.Archived? ==> |r.rest| >= |tail|)
    decreases |answers|
  {
    var all, j := answers + tail, ChunkAnswers(piped);
    if GivesAChunk(all[0]) {
      hide ReadLoop, ChunkFed;
      var fed, holds := OneChunk(all, piped, bytes, log);
      if |answers| < j {
        assert all[j - 1] == tail[j - 1 - |answers|];
      } else {
        assert all[j..] == answers[j..] + tail;
        RefusedLoopEnds(answers[j..], tail, holds, bytes + |all[0].data|, fed + [Written(all[0].data)]);
      }
    }
  }

  /** Any run that is left is the cut of one that ends. */
  lemma EveryLeftRunIsACut(dumpStarts: bool, checkStarts: bool, answers: seq<Answer>) returns (full: seq<Answer>)
    ensures |answers| <= |full| && full[..|answers|] == answers
    ensures !Ran(dumpStarts, checkStarts, full).outcome.Left?
  {
    var tail := [NO, NO, NO, NO, NO];
    full := answers + tail;
    if Opens(full) {
      assert |answers| >= 3 && full[3..] == answers[3..] + tail;
      hide Streamed, Opens;
      RefusedStreamEnds(dumpStarts, checkStarts, answers[3..], tail);
    } else {
      hide Streamed, Settle;
    }
  }

  lemma RefusedStreamEnds(dumpStarts: bool, checkStarts: bool, answers: seq<Answer>, tail: seq<Answer>)
    requires |tail| > 1 && Refusals(tail)
    ensures var s := Streamed(dumpStarts, checkStarts, answers + tail, [UploadOpened]);
            !s.outcome.Left? && |s.rest| >= |tail| - 2
  {
    RefusedLoopEnds(answers, tail, true, 0, [UploadOpened] + [DumpStarted] + [CheckStarted]);
    hide ReadLoop;
  }

  /** A stop asked for before the reading: nothing is read, and nothing archived. */
  lemma StoppedBeforeReading(dumpStarts: bool, checkStarts: bool, answers: seq<Answer>)
    requires forall i :: 3 <= i < |answers| ==> answers[i].stop
    ensures var r := Ran(dumpStarts, checkStarts, answers);
            && !r.outcome.Archived?
            && (forall e :: e in r.log ==> !e.Read?)
            && (dumpStarts && checkStarts && |answers| > 4 && answers[0].ok && answers[1].ok && answers[2].ok ==>
                  r.outcome.Cancelled?)
  {
    hide Streamed;
    if |answers| > 2 {
      StoppedStream(dumpStarts, checkStarts, answers[3..]);
    }
  }

  lemma StoppedStream(dumpStarts: bool, checkStarts: bool, answers: seq<Answer>)
    requires forall i :: 0 <= i < |answers| ==> answers[i].stop
    ensures var s := Streamed(dumpStarts, checkStarts, answers, [UploadOpened]);
            && !s.outcome.Archived?
            && (forall e :: e in s.log ==> !e.Read?)
            && (dumpStarts && checkStarts && answers != [] ==> s.outcome.Cancelled? && s.rest == answers[1..])
  {
  }

  /** Nothing but a stop cancels a run. */
  lemma {:induction false} OnlyAStopCancels(answers: seq<Answer>, piped: bool, bytes: nat, log: seq<Event>)
    requires forall i :: 0 <= i < |answers| ==> !answers[i].stop
    ensures var r := ReadLoop(answers, piped, bytes, log);
            !r.outcome.Cancelled? && forall i :: 0 <= i < |r.rest| ==> !r.rest[i].stop
    decreases |answers|
  {
    if answers != [] && answers[0].ok && answers[0].data != [] {
      var data, rest := answers[0].data, answers[1..];
      var handed := log + [Read(data)] + [Handed(data)];
      if !piped && rest != [] {
        OnlyAStopCancels(rest[1..], false, bytes + |data|, handed + [Written(data)]);
      } else if piped && |rest| > 1 {
        OnlyAStopCancels(rest[2..], rest[0].ok, bytes + |data|,
                         handed + [if rest[0].ok then Accepted(data) else PipeBroken] + [Written(data)]);
      }
    }
  }

  lemma UnstoppedIsNotCancelled(dumpStarts: bool, checkStarts: bool, answers: seq<Answer>)
    requires forall i :: 0 <= i < |answers| ==> !answers[i].stop
    ensures !Ran(dumpStarts, checkStarts, answers).outcome.Cancelled?
  {
    hide ReadLoop;
    if |answers| > 2 {
      OnlyAStopCancels(answers[3..], true, 0, [UploadOpened] + [DumpStarted] + [CheckStarted]);
    }
  }

  const YES := Answer(true, false, [])
  const NO := Answer(false, false, [])

  /** Left at the first read: both programs are killed, the upload neither completed nor given up. */
  lemma LeftWithAnUploadOpen()
    ensures var r := Ran(true, true, [YES, YES, YES]);
            r.outcome.Left? && After(r.log).upload == Open
  {
    StreamSettlesItsPrograms(true, true, []);
    assert [YES, YES, YES][3..] == [];
    hide Streamed, After;
  }

  /** A check that stops reading and exits well lets an archive through of which it read nothing. */
  lemma ArchivedUnread(data: Bytes)
    requires data != []
    ensures exists answers ::
              var r := Ran(true, true, answers);
              r.outcome == Archived(|data|) && After(r.log).accepted == [] && After(r.log).written == data
  {
    var chunk := Answer(true, false, data);
    var ends := [YES, YES, YES, YES, YES];
    var answers := [YES, YES, YES, chunk, NO, YES] + ends;
    assert answers[3..][0] == chunk && answers[3..][1..] == [NO, YES] + ends;
    assert ([NO, YES] + ends)[1..] == [YES] + ends && ([YES] + ends)[1..] == ends;
    var log := [UploadOpened] + [DumpStarted] + [CheckStarted] + [Read(data)] + [Handed(data)] + [PipeBroken] +
               [Written(data)];
    assert ReadLoop(ends, false, |data|, log) == Part(Archived(|data|), ends[1..], log);
    log := log + [DumpExited(true)] + [CheckExited(true)] + [UploadCompleted] + [ReportedSuccess];
    assert Ran(true, true, answers) == Part(Archived(|data|), [], log);
    UnreadLog(data);
  }

  lemma UnreadLog(data: Bytes)
    ensures var log := [UploadOpened] + [DumpStarted] + [CheckStarted] + [Read(data)] + [Handed(data)] + [PipeBroken]
                       + [Written(data)] + [DumpExited(true)] + [CheckExited(true)] + [UploadCompleted]
                       + [ReportedSuccess];
            After(log).accepted == [] && After(log).written == data
  {
    Opening();
    hide Reaches, After;
    var log := [UploadOpened];
    Extend(log, DumpStarted);
    log := log + [DumpStarted];
    Extend(log, CheckStarted);
    log := log + [CheckStarted];
    Extend(log, Read(data));
    log := log + [Read(data)];
    Extend(log, Handed(data));
    log := log + [Handed(data)];
    Extend(log, PipeBroken);
    log := log + [PipeBroken];
    Extend(log, Written(data));
    log := log + [Written(data)];
    Extend(log, DumpExited(true));
    log := log + [DumpExited(true)];
    Extend(log, CheckExited(true));
    log := log + [CheckExited(true)];
    Extend(log, UploadCompleted);
    Extend(log + [UploadCompleted], ReportedSuccess);
  }

  // ---------------------------------------------------------------------
  // A whole run, from what was answered
  // ---------------------------------------------------------------------

  /** A chunk read, whether the check's input took it, and its part accepted. */
  datatype Chunk = Chunk(data: Bytes, fed: bool)

  /** The answers of chunks that all went through; once the check's input breaks, nothing more is fed to it. */
  ghost predicate Through(answers: seq<Answer>, chunks: seq<Chunk>, piped: bool)
    decreases |chunks|
  {
    if chunks == [] then answers == []
    else
      var j := ChunkAnswers(piped);
      && |answers| >= j && GivesAChunk(answers[0]) && answers[0].data == chunks[0].data
      && (piped ==> answers[1].ok == chunks[0].fed) && answers[j - 1].ok
      && Through(answers[j..], chunks[1..], piped && chunks[0].fed)
  }

  function Feeding(chunks: seq<Chunk>, piped: bool): bool {
    if chunks == [] then piped else Feeding(chunks[1..], piped && chunks[0].fed)
  }

  function BytesOf(chunks: seq<Chunk>): nat {
    if chunks == [] then 0 else |chunks[0].data| + BytesOf(chunks[1..])
  }

  function EventsOf(chunks: seq<Chunk>, piped: bool): seq<Event> {
    if chunks == [] then []
    else
      var Chunk(data, fed) := chunks[0];
      [Read(data), Handed(data)] + (if piped then [if fed then Accepted(data) else PipeBroken] else [])
      + [Written(data)] + EventsOf(chunks[1..], piped && fed)
  }

  lemma {:induction false} LoopThrough(answers: seq<Answer>, rest: seq<Answer>, chunks: seq<Chunk>, piped: bool,
                                       bytes: nat, log: seq<Event>)
    requires Through(answers, chunks, piped)
    ensures ReadLoop(answers + rest, piped, bytes, log) ==
            ReadLoop(rest, Feeding(chunks, piped), bytes + BytesOf(chunks), log + EventsOf(chunks, piped))
    decreases |chunks|
  {
    hide ReadLoop;
    if chunks == [] {
      assert answers + rest == rest && log + [] == log;
    } else {
      var all, j, data := answers + rest, ChunkAnswers(piped), chunks[0].data;
      var fed, holds := OneChunk(all, piped, bytes, log);
      assert all[j..] == answers[j..] + rest;
      LoopThrough(answers[j..], rest, chunks[1..], holds, bytes + |data|, fed + [Written(data)]);
      assert chunks == [chunks[0]] + chunks[1..];
      EventsOneMore(all, chunks[0], chunks[1..], piped, log);
    }
  }

  lemma EventsOneMore(all: seq<Answer>, first: Chunk, later: seq<Chunk>, piped: bool, log: seq<Event>)
    requires |all| > 1 && all[0].data == first.data && (piped ==> all[1].ok == first.fed)
    ensures ChunkFed(all, piped, log) + [Written(first.data)] + EventsOf(later, piped && first.fed) ==
            log + EventsOf([first] + later, piped)
  {
    var more := EventsOf(later, piped && first.fed);
    assert ([first] + later)[1..] == later;
    hide EventsOf;
    if !piped {
      assert log + [Read(first.data)] + [Handed(first.data)] + [Written(first.data)] + more ==
             log + ([Read(first.data), Handed(first.data)] + [] + [Written(first.data)] + more);
    } else {
      var e := if first.fed then Accepted(first.data) else PipeBroken;
      assert log + [Read(first.data)] + [Handed(first.data)] + [e] + [Written(first.data)] + more ==
             log + ([Read(first.data), Handed(first.data)] + [e] + [Written(first.data)] + more);
    }
  }

  /** How a run whose programs both started ends, after its chunks. */
  datatype Ending =
    | StoppedReading
    | ReadFailed
    | PartRefused(data: Bytes, fed: Option<bool>)
    | StoppedAtExit
    | DumpFailedAtExit
    | CheckFailedAtExit
    | CompletionFailed
    | Whole

  /** What follows the last chunk through. */
  ghost predicate Ends(rest: seq<Answer>, ending: Ending, piped: bool) {
    match ending
    case StoppedReading => |rest| > 1 && rest[0].stop
    case ReadFailed => |rest| > 2 && !rest[0].stop && !rest[0].ok
    case PartRefused(data, fed) =>
      && |rest| > ChunkAnswers(piped) + 1 && GivesAChunk(rest[0]) && rest[0].data == data
      && fed == (if piped then Some(rest[1].ok) else None) && !rest[ChunkAnswers(piped) - 1].ok
    case StoppedAtExit => |rest| > 2 && ReadsTheEnd(rest[0]) && rest[1].stop
    case DumpFailedAtExit => |rest| > 3 && ReadsTheEnd(rest[0]) && !rest[1].stop && !rest[1].ok
    case CheckFailedAtExit => |rest| > 4 && ReadsTheEnd(rest[0]) && ExitsWell(rest[1]) && !rest[2].ok
    case CompletionFailed =>
      |rest| > 4 && ReadsTheEnd(rest[0]) && ExitsWell(rest[1]) && rest[2].ok && !rest[3].ok
    case Whole =>
      |rest| > 4 && ReadsTheEnd(rest[0]) && ExitsWell(rest[1]) && rest[2].ok && rest[3].ok
  }

  predicate ReadsTheEnd(read: Answer) {
    !read.stop && read.ok && read.data == []
  }

  predicate ExitsWell(dump: Answer) {
    !dump.stop && dump.ok
  }

  /** What the run comes to. */
  function EndOf(ending: Ending, bytes: nat): Outcome {
    match ending
    case StoppedReading => Cancelled
    case StoppedAtExit => Cancelled
    case ReadFailed => Failed(DumpFailed)
    case DumpFailedAtExit => Failed(DumpFailed)
    case CheckFailedAtExit => Failed(Unreadable)
    case PartRefused(_, _) => Failed(StoreFailed)
    case CompletionFailed => Failed(StoreFailed)
    case Whole => Archived(bytes)
  }

  /** What is done after the last chunk through: nothing is reported of a stop. */
  function LastEvents(ending: Ending): seq<Event> {
    match ending
    case StoppedReading => [CheckKilled, DumpKilled, UploadAborted]
    case StoppedAtExit => [DumpKilled, CheckKilled, UploadAborted]
    case ReadFailed => [CheckKilled, DumpKilled, UploadAborted, ReportedFailure(DumpFailed)]
    case PartRefused(data, fed) =>
      [Read(data), Handed(data)]
      + (match fed
         case Some(true) => [Accepted(data)]
         case Some(false) => [PipeBroken]
         case None => [])
      + [CheckKilled, DumpKilled, UploadAborted, ReportedFailure(StoreFailed)]
    case DumpFailedAtExit => [DumpExited(false), CheckKilled, UploadAborted, ReportedFailure(DumpFailed)]
    case CheckFailedAtExit => [DumpExited(true), CheckExited(false), UploadAborted, ReportedFailure(Unreadable)]
    case CompletionFailed =>
      [DumpExited(true), CheckExited(true), CompletionRefused, ReportedFailure(StoreFailed)]
    case Whole => [DumpExited(true), CheckExited(true), UploadCompleted, ReportedSuccess]
  }

  /** The stream's own part of an end. */
  function StreamEndOf(ending: Ending, bytes: nat): Outcome {
    if ending.CompletionFailed? then Archived(bytes) else EndOf(ending, bytes)
  }

  function StreamEvents(ending: Ending): seq<Event> {
    var events := LastEvents(ending);
    if ending.StoppedReading? || ending.StoppedAtExit? then events[..|events| - 1] else events[..|events| - 2]
  }

  /** What the stream leaves at its end. */
  ghost predicate Leaves(s: Part, ending: Ending, bytes: nat, log: seq<Event>) {
    && s.outcome == StreamEndOf(ending, bytes) && s.log == log + StreamEvents(ending)
    && |s.rest| >= (if s.outcome.Cancelled? then 1 else 2)
    && (s.outcome.Archived? ==> (s.rest[0].ok <==> ending.Whole?))
  }

  lemma EndedStream(rest: seq<Answer>, ending: Ending, piped: bool, bytes: nat, log: seq<Event>)
    requires Ends(rest, ending, piped)
    ensures Leaves(Finished(ReadLoop(rest, piped, bytes, log)), ending, bytes, log)
  {
    hide ReadLoop, Finished, Leaves;
    if ending.StoppedReading? || ending.ReadFailed? {
      ReadEnds(rest, piped, bytes, log);
      CutShortLeaves(ReadLoop(rest, piped, bytes, log), ending, bytes, log);
    } else if ending.PartRefused? {
      PartRefusedLeaves(rest, ending, piped, bytes, log);
    } else {
      ReadEnds(rest, piped, bytes, log);
      ExitLeaves(ReadLoop(rest, piped, bytes, log), ending, bytes, log);
    }
  }

  /** A read that gives no chunk. */
  lemma ReadEnds(rest: seq<Answer>, piped: bool, bytes: nat, log: seq<Event>)
    requires rest != [] && !GivesAChunk(rest[0])
    ensures var outcome := if rest[0].stop then Cancelled
                           else if !rest[0].ok then Failed(DumpFailed) else Archived(bytes);
            ReadLoop(rest, piped, bytes, log) == Part(outcome, rest[1..], log)
  {
  }

  lemma CutShortLeaves(read: Part, ending: Ending, bytes: nat, log: seq<Event>)
    requires (ending.StoppedReading? && read.outcome == Cancelled && |read.rest| > 0)
             || (ending.ReadFailed? && read.outcome == Failed(DumpFailed) && |read.rest| > 1)
    requires read.log == log
    ensures Leaves(Finished(read), ending, bytes, log)
  {
  }

  lemma PartRefusedLeaves(rest: seq<Answer>, ending: Ending, piped: bool, bytes: nat, log: seq<Event>)
    requires Ends(rest, ending, piped) && ending.PartRefused?
    ensures Leaves(Finished(ReadLoop(rest, piped, bytes, log)), ending, bytes, log)
  {
    hide ReadLoop;
    var fed, holds := OneChunk(rest, piped, bytes, log);
    assert StreamEvents(ending) == LastEvents(ending)[..|LastEvents(ending)| - 2];
  }

  /** Once the dump is read to its end. */
  lemma ExitLeaves(read: Part, ending: Ending, bytes: nat, log: seq<Event>)
    requires read.outcome == Archived(bytes) && read.log == log && |read.rest| > 1
    requires match ending
             case StoppedAtExit => read.rest[0].stop
             case DumpFailedAtExit => |read.rest| > 2 && !read.rest[0].stop && !read.rest[0].ok
             case CheckFailedAtExit => |read.rest| > 3 && ExitsWell(read.rest[0]) && !read.rest[1].ok
             case CompletionFailed =>
               |read.rest| > 3 && ExitsWell(read.rest[0]) && read.rest[1].ok && !read.rest[2].ok
             case Whole => |read.rest| > 3 && ExitsWell(read.rest[0]) && read.rest[1].ok && read.rest[2].ok
             case _ => false
    ensures Leaves(Finished(read), ending, bytes, log)
  {
    assert read.rest[1..][0] == read.rest[1] && read.rest[1..][1..] == read.rest[2..];
  }

  /** The stream, settled and reported. */
  lemma EndedRun(s: Part, ending: Ending, bytes: nat, log: seq<Event>, dumpStarts: bool, checkStarts: bool,
                 full: seq<Answer>)
    requires Leaves(s, ending, bytes, log) && Tried(dumpStarts, checkStarts, full) == Settle(s)
    ensures var r := Ran(dumpStarts, checkStarts, full);
            r.outcome == EndOf(ending, bytes) && r.log == log + LastEvents(ending)
  {
    hide Tried;
  }

  /**
   A run whose upload opened and whose programs started, from what it was answered: its outcome, and
   everything it did, in order.
   */
  lemma RunFromItsAnswers(opening: seq<Answer>, answers: seq<Answer>, chunks: seq<Chunk>, rest: seq<Answer>,
                          ending: Ending)
    requires |opening| == 3 && Opens(opening) && Through(answers, chunks, true)
    requires Ends(rest, ending, Feeding(chunks, true))
    ensures var r := Ran(true, true, opening + answers + rest);
            && r.outcome == EndOf(ending, BytesOf(chunks))
            && r.log == [UploadOpened, DumpStarted, CheckStarted] + EventsOf(chunks, true) + LastEvents(ending)
  {
    var full, log := opening + answers + rest, [UploadOpened, DumpStarted, CheckStarted] + EventsOf(chunks, true);
    hide *;
    OpenedBy(opening, answers, rest);
    LoopThrough(answers, rest, chunks, true, 0, [UploadOpened, DumpStarted, CheckStarted]);
    OpenedTry(full);
    EndedStream(rest, ending, Feeding(chunks, true), BytesOf(chunks), log);
    EndedRun(Finished(ReadLoop(rest, Feeding(chunks, true), BytesOf(chunks), log)), ending, BytesOf(chunks), log, true,
             true, full);
  }

  lemma OpenedBy(opening: seq<Answer>, answers: seq<Answer>, rest: seq<Answer>)
    requires |opening| == 3 && Opens(opening)
    ensures Opens(opening + answers + rest) && (opening + answers + rest)[3..] == answers + rest
  {
  }

  lemma OpenedTry(full: seq<Answer>)
    requires Opens(full)
    ensures Tried(true, true, full) ==
            Settle(Finished(ReadLoop(full[3..], true, 0, [UploadOpened, DumpStarted, CheckStarted])))
  {
    hide ReadLoop, Settle, Finished;
    assert [UploadOpened] + [DumpStarted] + [CheckStarted] == [UploadOpened, DumpStarted, CheckStarted];
  }

  /** A run refused before its upload opens, and one whose programs do not start. */
  lemma UnstartedRun(dumpStarts: bool, checkStarts: bool, answers: seq<Answer>)
    ensures var r := Ran(dumpStarts, checkStarts, answers);
            && ((|answers| > 1 && !answers[0].ok) || (|answers| > 2 && answers[0].ok && !answers[1].ok) ==>
                  r.outcome == Failed(Refused) && r.log == [ReportedFailure(Refused)])
            && (|answers| > 3 && answers[0].ok && answers[1].ok && !answers[2].ok ==>
                  r.outcome == Failed(StoreFailed) && r.log == [ReportedFailure(StoreFailed)])
            && (|answers| > 4 && Opens(answers) && !dumpStarts ==>
                  && r.outcome == Failed(DumpFailed)
                  && r.log == [UploadOpened, UploadAborted, ReportedFailure(DumpFailed)])
            && (|answers| > 4 && Opens(answers) && dumpStarts && !checkStarts ==>
                  && r.outcome == Failed(Unreadable)
                  && r.log == [UploadOpened, DumpStarted, DumpKilled, UploadAborted, ReportedFailure(Unreadable)])
  {
  }

  /** What is read ends, settled and with an answer left for its report. */
  predicate IsSettled(read: Part) {
    var t := Settle(Finished(read));
    !t.outcome.Left? && (t.outcome.Cancelled? || t.rest != [])
  }

  lemma NeverSettled(read: Part)
    ensures read.outcome.Left? ==> !IsSettled(read)
  {
  }

  lemma RefusedSettled(rest: seq<Answer>, log: seq<Event>)
    ensures IsSettled(Part(Failed(StoreFailed), rest, log)) ==> |rest| > 1
  {
  }

  /** The last answers of an ended run are those of one of the endings. */
  lemma {:induction false} EveryEndIsPlayed(answers: seq<Answer>, piped: bool, bytes: nat, log: seq<Event>)
    returns (played: seq<Answer>, chunks: seq<Chunk>, rest: seq<Answer>, ending: Ending)
    requires IsSettled(ReadLoop(answers, piped, bytes, log))
    ensures answers == played + rest && Through(played, chunks, piped) && Ends(rest, ending, Feeding(chunks, piped))
    decreases |answers|
  {
    var j := ChunkAnswers(piped);
    assert answers == [] ==> ReadLoop(answers, piped, bytes, log).outcome.Left?;
    NeverSettled(ReadLoop(answers, piped, bytes, log));
    hide ReadLoop, IsSettled, ChunkFed;
    played, chunks, rest := [], [], answers;
    if !GivesAChunk(answers[0]) {
      ending := EndAtRead(answers, piped, bytes, log);
    } else {
      var fed, holds := OneChunk(answers, piped, bytes, log);
      var data := answers[0].data;
      if !answers[j - 1].ok {
        ending := PartRefused(data, if piped then Some(answers[1].ok) else None);
        RefusedSettled(answers[j..], fed);
      } else {
        var first := Chunk(data, holds);
        var more, later;
        assert piped ==> answers[1].ok == holds;
        assert piped && holds <==> holds;
        more, later, rest, ending := EveryEndIsPlayed(answers[j..], holds, bytes + |data|, fed + [Written(data)]);
        played, chunks := answers[..j] + more, [first] + later;
        hide *;
        OneMoreThrough(answers, piped, first, more, later, rest);
      }
    }
  }

  lemma OneMoreThrough(answers: seq<Answer>, piped: bool, first: Chunk, more: seq<Answer>, later: seq<Chunk>,
                       rest: seq<Answer>)
    requires var j := ChunkAnswers(piped);
             && |answers| >= j && GivesAChunk(answers[0]) && answers[0].data == first.data
             && (piped ==> answers[1].ok == first.fed) && (first.fed ==> piped) && answers[j - 1].ok
             && answers[j..] == more + rest && Through(more, later, first.fed)
    ensures var j := ChunkAnswers(piped);
            && answers == answers[..j] + more + rest
            && Through(answers[..j] + more, [first] + later, piped)
            && Feeding([first] + later, piped) == Feeding(later, first.fed)
  {
    var j := ChunkAnswers(piped);
    var played, chunks := answers[..j] + more, [first] + later;
    assert played[j..] == more && chunks[1..] == later;
  }

  lemma EndAtRead(answers: seq<Answer>, piped: bool, bytes: nat, log: seq<Event>) returns (ending: Ending)
    requires answers != [] && !GivesAChunk(answers[0])
    requires IsSettled(ReadLoop(answers, piped, bytes, log))
    ensures Ends(answers, ending, piped)
  {
    ReadEnds(answers, piped, bytes, log);
    hide ReadLoop;
    ending := if answers[0].stop then StoppedReading
              else if !answers[0].ok then ReadFailed
              else if answers[1].stop then StoppedAtExit
              else if !answers[1].ok then DumpFailedAtExit
              else if !answers[2].ok then CheckFailedAtExit
              else if !answers[3].ok then CompletionFailed
              else Whole;
  }

  /** Every run that ends, once its upload is open and its programs started, is such a one. */
  lemma EndedRunIsPlayed(full: seq<Answer>)
    returns (played: seq<Answer>, chunks: seq<Chunk>, rest: seq<Answer>, ending: Ending)
    requires Opens(full) && !Ran(true, true, full).outcome.Left?
    ensures full == full[..3] + played + rest && Through(played, chunks, true)
    ensures Ends(rest, ending, Feeding(chunks, true))
  {
    OpenedTry(full);
    hide Tried, Settle, Finished, ReadLoop, Through, Ends, Feeding;
    played, chunks, rest, ending := EveryEndIsPlayed(full[3..], true, 0, [UploadOpened, DumpStarted, CheckStarted]);
    assert full == full[..3] + full[3..];
  }
}
