/** The life of an outbox row under one dispatcher, which is what the application wires:
    statuses, exact accounting of locks and attempts, a bound on the work, and the back-off. */
module OutboxLifecycle {
  import opened Prelude
  import opened OutboxModel
  import opened Projections
  import opened OutboxProtocol

  /** Only worker `d` drains; replays may run beside it. */
  predicate OneDispatcherAction(a: Action, d: WorkerId) {
    a.Fetch? ==> a.w == d
  }

  predicate OneDispatcher(run: seq<Action>, d: WorkerId) {
    forall i :: 0 <= i < |run| ==> OneDispatcherAction(run[i], d)
  }

  // ---- The dispatcher works on ready rows --------------------------------------

  predicate ReadyId(cfg: Config, s: State, id: string) {
    id in s.rows && Ready(s.rows[id], cfg.maxAttempts, s.now)
  }

  ghost predicate BatchSound(cfg: Config, s: State, batch: seq<Event>) {
    && (forall i :: 0 <= i < |batch| ==> ReadyId(cfg, s, batch[i].eventId))
    && (forall i, j :: 0 <= i < j < |batch| ==> batch[i].eventId != batch[j].eventId)
  }

  /** The row of the event at work: open, or SENT by a mark whose reply was lost. */
  predicate HeldSound(cfg: Config, s: State, id: string) {
    && id in s.rows && Ready(s.rows[id].(status := PENDING), cfg.maxAttempts, s.now)
    && s.rows[id].status != DEAD_LETTER && (s.rows[id].status == SENT ==> id in s.ledger.lost)
  }

  ghost predicate TaskSound(cfg: Config, s: State, v: Worker) {
    && (InTask(v.task) ==>
          && HeldSound(cfg, s, v.task.event.eventId)
          && forall i :: 0 <= i < |v.batch| ==> v.batch[i].eventId != v.task.event.eventId)
    && (v.task.Publishing? ==> ReadyId(cfg, s, v.task.event.eventId))
    && (v.task.Counted? ==> v.task.event.eventId in s.rows && v.task.count == s.rows[v.task.event.eventId].attempts + 1)
  }

  predicate AtRest(v: Worker) {
    v.batch == [] && !InTask(v.task)
  }

  ghost predicate Dispatching(cfg: Config, s: State, d: WorkerId) {
    && Consistent(s)
    && (forall w :: w in s.workers && w != d ==> AtRest(s.workers[w]))
    && BatchSound(cfg, s, WorkerOf(s, d).batch)
    && TaskSound(cfg, s, WorkerOf(s, d))
    && (forall id :: id in s.ledger.lost ==> id in s.rows && s.rows[id].status == SENT)
  }

  lemma QuietDispatching(cfg: Config, s: State, t: State, w: WorkerId, d: WorkerId)
    requires Dispatching(cfg, s, d) && Consistent(t)
    requires t.rows == s.rows && t.now == s.now && t.ledger.lost == s.ledger.lost
    requires forall v :: v in t.workers && v != w ==> v in s.workers && t.workers[v] == s.workers[v]
    requires w != d ==> AtRest(WorkerOf(t, w)) && WorkerOf(t, d) == WorkerOf(s, d)
    requires w == d ==> BatchSound(cfg, s, WorkerOf(t, d).batch) && TaskSound(cfg, s, WorkerOf(t, d))
    ensures Dispatching(cfg, t, d)
  {
  }

  lemma FetchDispatching(cfg: Config, s: State, w: WorkerId, batch: seq<Event>, d: WorkerId)
    requires Dispatching(cfg, s, d) && w == d
    ensures Dispatching(cfg, Step(cfg, s, Fetch(w, batch)), d)
  {
    hide ReplayStep, LockStep, HandleStep, MarkSentStep, MarkFailedStep, CrashStep, Consistent;
    FetchConsistent(cfg, s, w, batch);
    QuietDispatching(cfg, s, Step(cfg, s, Fetch(w, batch)), w, d);
  }

  lemma FetchSentDispatching(cfg: Config, s: State, w: WorkerId, batch: seq<Event>, d: WorkerId)
    requires Dispatching(cfg, s, d)
    ensures Dispatching(cfg, Step(cfg, s, FetchSent(w, batch)), d)
  {
    hide BatchSound, Consistent, ReplayStep, LockStep, HandleStep, MarkSentStep, MarkFailedStep, CrashStep;
    FetchSentConsistent(cfg, s, w, batch);
    QuietDispatching(cfg, s, Step(cfg, s, FetchSent(w, batch)), w, d);
  }

  lemma HandleDispatching(cfg: Config, s: State, w: WorkerId, outcome: Outcome, d: WorkerId)
    requires Dispatching(cfg, s, d)
    ensures Dispatching(cfg, HandleStep(cfg, s, w, outcome), d)
  {
    HandleConsistent(cfg, s, w, outcome);
    QuietDispatching(cfg, s, HandleStep(cfg, s, w, outcome), w, d);
  }

  lemma ReadAttemptsDispatching(cfg: Config, s: State, w: WorkerId, d: WorkerId)
    requires Dispatching(cfg, s, d)
    ensures Dispatching(cfg, ReadAttemptsStep(s, w), d)
  {
    ReadAttemptsConsistent(cfg, s, w);
    QuietDispatching(cfg, s, ReadAttemptsStep(s, w), w, d);
  }

  lemma CrashDispatching(cfg: Config, s: State, w: WorkerId, d: WorkerId)
    requires Dispatching(cfg, s, d)
    ensures Dispatching(cfg, CrashStep(s, w), d)
  {
    CrashConsistent(cfg, s, w);
    QuietDispatching(cfg, s, CrashStep(s, w), w, d);
  }

  lemma ReplayDispatching(cfg: Config, s: State, w: WorkerId, outcome: Outcome, d: WorkerId)
    requires Dispatching(cfg, s, d)
    ensures Dispatching(cfg, ReplayStep(cfg, s, w, outcome), d)
  {
    ReplayConsistent(cfg, s, w, outcome);
    ReplayShape(cfg, s, w, outcome);
    QuietDispatching(cfg, s, ReplayStep(cfg, s, w, outcome), w, d);
  }

  /** A replay step moves its own worker and the read models only. */
  lemma ReplayShape(cfg: Config, s: State, w: WorkerId, outcome: Outcome)
    ensures var t := ReplayStep(cfg, s, w, outcome);
      && t.rows == s.rows && t.now == s.now && t.ledger == s.ledger.(delivered := t.ledger.delivered)
      && (forall v :: v in t.workers && v != w ==> v in s.workers && t.workers[v] == s.workers[v])
      && (forall v :: v != w ==> WorkerOf(t, v) == WorkerOf(s, v))
      && (t == s || (WorkerOf(t, w).batch == WorkerOf(s, w).batch && !InTask(WorkerOf(t, w).task)))
  {
  }

  lemma LockDispatching(cfg: Config, s: State, w: WorkerId, d: WorkerId)
    requires Dispatching(cfg, s, d)
    ensures Dispatching(cfg, LockStep(s, w), d)
  {
    var t := LockStep(s, w);
    LockConsistent(cfg, s, w);
    if t != s {
      assert w == d;
      assert ReadyId(cfg, s, WorkerOf(s, d).batch[0].eventId);
      assert forall id :: ReadyId(cfg, s, id) ==> ReadyId(cfg, t, id);
      assert WorkerOf(t, d).batch == WorkerOf(s, d).batch[1..];
    }
  }

  /** Marking the held row leaves the rest of the batch ready. */
  lemma MarkedDispatching(cfg: Config, s: State, t: State, d: WorkerId)
    requires Dispatching(cfg, s, d) && Consistent(t) && InTask(WorkerOf(s, d).task)
    requires forall id :: id in s.rows && id != WorkerOf(s, d).task.event.eventId ==>
      id in t.rows && t.rows[id] == s.rows[id]
    requires t.now == s.now && t.workers == s.workers[d := WorkerOf(t, d)]
      && WorkerOf(t, d).batch == WorkerOf(s, d).batch
    requires TaskSound(cfg, t, WorkerOf(t, d))
    requires forall id :: id in t.ledger.lost ==> id in t.rows && t.rows[id].status == SENT
    ensures Dispatching(cfg, t, d)
  {
    assert forall id :: id != WorkerOf(s, d).task.event.eventId && ReadyId(cfg, s, id) ==> ReadyId(cfg, t, id);
  }

  lemma MarkSentDispatching(cfg: Config, s: State, w: WorkerId, outcome: Outcome, d: WorkerId)
    requires Dispatching(cfg, s, d)
    ensures Dispatching(cfg, MarkSentStep(cfg, s, w, outcome), d)
  {
    var t := MarkSentStep(cfg, s, w, outcome);
    MarkSentConsistent(cfg, s, w, outcome);
    if t != s {
      assert w == d;
      if outcome.RaisedBefore? { QuietDispatching(cfg, s, t, w, d); } else { MarkedDispatching(cfg, s, t, d); }
    }
  }

  lemma MarkFailedDispatching(cfg: Config, s: State, w: WorkerId, d: WorkerId)
    requires Dispatching(cfg, s, d)
    ensures Dispatching(cfg, MarkFailedStep(cfg, s, w), d)
  {
    var t := MarkFailedStep(cfg, s, w);
    MarkFailedConsistent(cfg, s, w);
    if t != s {
      assert w == d;
      MarkedDispatching(cfg, s, t, d);
    }
  }

  lemma AddDispatching(cfg: Config, s: State, e: Event, d: WorkerId)
    requires Dispatching(cfg, s, d)
    ensures Dispatching(cfg, s.(rows := Added(s.rows, e)), d)
  {
    var t := s.(rows := Added(s.rows, e));
    AddConsistent(s, e);
    assert forall id :: ReadyId(cfg, s, id) ==> ReadyId(cfg, t, id);
    assert forall id :: id in s.rows ==> id in t.rows && t.rows[id] == s.rows[id];
  }

  lemma TickDispatching(cfg: Config, s: State, elapsed: nat, d: WorkerId)
    requires Dispatching(cfg, s, d)
    ensures Dispatching(cfg, s.(now := s.now + elapsed), d)
  {
    assert forall id :: ReadyId(cfg, s, id) ==> ReadyId(cfg, s.(now := s.now + elapsed), id);
  }

  lemma StepDispatching(cfg: Config, s: State, a: Action, d: WorkerId)
    requires Dispatching(cfg, s, d) && OneDispatcherAction(a, d)
    ensures Dispatching(cfg, Step(cfg, s, a), d)
  {
    hide Dispatching, LockStep, HandleStep, MarkSentStep, ReadAttemptsStep, MarkFailedStep, CrashStep, ReplayStep;
    match a {
      case Tick(elapsed) => TickDispatching(cfg, s, elapsed, d);
      case Add(e) => AddDispatching(cfg, s, e, d);
      case Fetch(w, batch) => FetchDispatching(cfg, s, w, batch, d);
      case Lock(w) => LockDispatching(cfg, s, w, d);
      case Handle(w, outcome) => HandleDispatching(cfg, s, w, outcome, d);
      case MarkSent(w, outcome) => MarkSentDispatching(cfg, s, w, outcome, d);
      case ReadAttempts(w) => ReadAttemptsDispatching(cfg, s, w, d);
      case MarkFailed(w) => MarkFailedDispatching(cfg, s, w, d);
      case Crash(w) => CrashDispatching(cfg, s, w, d);
      case FetchSent(w, batch) => FetchSentDispatching(cfg, s, w, batch, d);
      case ReplayHandle(w, outcome) => ReplayDispatching(cfg, s, w, outcome, d);
    }
  }

  // ---- One row -----------------------------------------------------------------

  predicate StatusFitsAttempts(row: Row, maxAttempts: nat) {
    match row.status
    case PENDING => row.attempts == 0 && row.nextAttemptAt.None?
    case FAILED => 1 <= row.attempts < maxAttempts && row.nextAttemptAt.Some?
    case DEAD_LETTER => row.attempts == maxAttempts && row.nextAttemptAt.None?
    case SENT => row.attempts < maxAttempts
  }

  /** Completed attempts that this row records. */
  function Spent(row: Row): int {
    row.attempts + if row.status == SENT then 1 else 0
  }

  function One(b: bool): nat {
    if b then 1 else 0
  }

  /** A mark whose reply was lost counts twice on the right: as SENT, and as held or interrupted. */
  predicate LocksAccounted(s: State, d: WorkerId, id: string)
    requires id in s.rows
  {
    CountOf(s.ledger.locks, id) + One(id in s.ledger.lost) ==
      Spent(s.rows[id]) + CountOf(s.ledger.interrupted, id) + One(Holds(s, d, id))
  }

  predicate BackedOff(cfg: Config, s: State, id: string)
    requires id in s.rows
  {
    var row := s.rows[id];
    if row.status == DEAD_LETTER then
      && id in s.ledger.firstFailure && id in s.ledger.deadAt && cfg.maxAttempts >= 1
      && s.ledger.firstFailure[id] + Seconds(TotalBackoff(cfg.maxAttempts - 1)) <= s.ledger.deadAt[id]
    else if row.attempts == 0 then id !in s.ledger.firstFailure
    else
      && id in s.ledger.firstFailure && row.nextAttemptAt.Some?
      && s.ledger.firstFailure[id] + Seconds(TotalBackoff(row.attempts)) <= row.nextAttemptAt.value
  }

  predicate Unheard(s: State, id: string) {
    id !in s.ledger.locks && id !in s.ledger.interrupted && id !in s.ledger.firstFailure && id !in s.ledger.lost
  }

  /** Holds of every identifier, in the outbox or not. */
  predicate RowSound(cfg: Config, s: State, d: WorkerId, id: string) {
    if id in s.rows
      then StatusFitsAttempts(s.rows[id], cfg.maxAttempts) && LocksAccounted(s, d, id) && BackedOff(cfg, s, id)
    else Unheard(s, id)
  }

  lemma LockRowSound(cfg: Config, s: State, w: WorkerId, d: WorkerId, id: string)
    requires Dispatching(cfg, s, d) && RowSound(cfg, s, d, id)
    ensures RowSound(cfg, LockStep(s, w), d, id)
  {
    if LockStep(s, w) != s { assert w == d; }
  }

  lemma HandleRowSound(cfg: Config, s: State, w: WorkerId, outcome: Outcome, d: WorkerId, id: string)
    requires RowSound(cfg, s, d, id)
    ensures RowSound(cfg, HandleStep(cfg, s, w, outcome), d, id)
  {
    var t := HandleStep(cfg, s, w, outcome);
    assert t.rows == s.rows && t.ledger == s.ledger.(delivered := t.ledger.delivered);
    assert Holds(t, d, id) == Holds(s, d, id);
  }

  lemma ReplayRowSound(cfg: Config, s: State, w: WorkerId, outcome: Outcome, d: WorkerId, id: string)
    requires RowSound(cfg, s, d, id)
    ensures RowSound(cfg, ReplayStep(cfg, s, w, outcome), d, id)
  {
    hide Deliver, HandlersFor;
    var t := ReplayStep(cfg, s, w, outcome);
    assert t.rows == s.rows && t.ledger == s.ledger.(delivered := t.ledger.delivered);
    assert Holds(t, d, id) == Holds(s, d, id);
  }

  lemma MarkSentRowSound(cfg: Config, s: State, w: WorkerId, outcome: Outcome, d: WorkerId, id: string)
    requires Dispatching(cfg, s, d) && RowSound(cfg, s, d, id)
    ensures RowSound(cfg, MarkSentStep(cfg, s, w, outcome), d, id)
  {
    if MarkSentStep(cfg, s, w, outcome) != s { assert w == d; }
  }

  /** The whole back-off up to the coming failure lies behind the first one. */
  lemma FailureDates(cfg: Config, s: State, id: string)
    requires HeldSound(cfg, s, id) && StatusFitsAttempts(s.rows[id], cfg.maxAttempts) && BackedOff(cfg, s, id)
    ensures var n, first := s.rows[id].attempts,
        if id in s.ledger.firstFailure then s.ledger.firstFailure[id] else s.now;
      && first + Seconds(TotalBackoff(n)) <= s.now
      && first + Seconds(TotalBackoff(n + 1)) <= s.now + Seconds(BackoffSeconds(n + 1))
  {
    hide BackoffSeconds;
  }

  lemma MarkFailedRowSound(cfg: Config, s: State, w: WorkerId, d: WorkerId, id: string)
    requires Dispatching(cfg, s, d) && RowSound(cfg, s, d, id)
    ensures RowSound(cfg, MarkFailedStep(cfg, s, w), d, id)
  {
    hide BatchSound, Consistent, HandlersFor, TotalBackoff, BackoffSeconds, Seconds;
    var t := MarkFailedStep(cfg, s, w);
    if t != s {
      assert w == d;
      if Holds(s, d, id) {
        FailureDates(cfg, s, id);
      }
    }
  }

  lemma CrashRowSound(cfg: Config, s: State, w: WorkerId, d: WorkerId, id: string)
    requires Dispatching(cfg, s, d) && RowSound(cfg, s, d, id)
    ensures RowSound(cfg, CrashStep(s, w), d, id)
  {
    if InTask(WorkerOf(s, w).task) {
      assert w == d;
      assert TaskKnown(s.rows, WorkerOf(s, d));
    }
  }

  lemma AddRowSound(cfg: Config, s: State, e: Event, d: WorkerId, id: string)
    requires Dispatching(cfg, s, d) && RowSound(cfg, s, d, id)
    ensures RowSound(cfg, s.(rows := Added(s.rows, e)), d, id)
  {
    var t := s.(rows := Added(s.rows, e));
    assert Holds(t, d, id) == Holds(s, d, id);
    assert Holds(s, d, id) ==> HeldSound(cfg, s, id);
  }

  lemma QuietRowSound(cfg: Config, s: State, t: State, d: WorkerId, id: string)
    requires RowSound(cfg, s, d, id)
    requires t.rows == s.rows && t.ledger == s.ledger && Holds(t, d, id) == Holds(s, d, id)
    ensures RowSound(cfg, t, d, id)
  {
  }

  lemma FetchRowSound(cfg: Config, s: State, w: WorkerId, batch: seq<Event>, d: WorkerId, id: string)
    requires RowSound(cfg, s, d, id)
    ensures RowSound(cfg, Step(cfg, s, Fetch(w, batch)), d, id)
  {
    QuietRowSound(cfg, s, Step(cfg, s, Fetch(w, batch)), d, id);
  }

  lemma FetchSentRowSound(cfg: Config, s: State, w: WorkerId, batch: seq<Event>, d: WorkerId, id: string)
    requires RowSound(cfg, s, d, id)
    ensures RowSound(cfg, Step(cfg, s, FetchSent(w, batch)), d, id)
  {
    QuietRowSound(cfg, s, Step(cfg, s, FetchSent(w, batch)), d, id);
  }

  lemma ReadAttemptsRowSound(cfg: Config, s: State, w: WorkerId, d: WorkerId, id: string)
    requires RowSound(cfg, s, d, id)
    ensures RowSound(cfg, ReadAttemptsStep(s, w), d, id)
  {
    QuietRowSound(cfg, s, ReadAttemptsStep(s, w), d, id);
  }

  lemma StepRowSound(cfg: Config, s: State, a: Action, d: WorkerId, id: string)
    requires Dispatching(cfg, s, d) && RowSound(cfg, s, d, id) && OneDispatcherAction(a, d)
    ensures RowSound(cfg, Step(cfg, s, a), d, id)
  {
    hide Dispatching, RowSound, LockStep, HandleStep, MarkSentStep, ReadAttemptsStep, MarkFailedStep, CrashStep,
      ReplayStep;
    match a {
      case Tick(elapsed) => QuietRowSound(cfg, s, s.(now := s.now + elapsed), d, id);
      case Add(e) => AddRowSound(cfg, s, e, d, id);
      case Fetch(w, batch) => FetchRowSound(cfg, s, w, batch, d, id);
      case Lock(w) => LockRowSound(cfg, s, w, d, id);
      case Handle(w, outcome) => HandleRowSound(cfg, s, w, outcome, d, id);
      case MarkSent(w, outcome) => MarkSentRowSound(cfg, s, w, outcome, d, id);
      case ReadAttempts(w) => ReadAttemptsRowSound(cfg, s, w, d, id);
      case MarkFailed(w) => MarkFailedRowSound(cfg, s, w, d, id);
      case Crash(w) => CrashRowSound(cfg, s, w, d, id);
      case FetchSent(w, batch) => FetchSentRowSound(cfg, s, w, batch, d, id);
      case ReplayHandle(w, outcome) => ReplayRowSound(cfg, s, w, outcome, d, id);
    }
  }

  lemma {:induction false} RunSound(cfg: Config, run: seq<Action>, d: WorkerId, id: string)
    requires OneDispatcher(run, d)
    ensures Dispatching(cfg, Run(cfg, INITIAL, run), d)
    ensures RowSound(cfg, Run(cfg, INITIAL, run), d, id)
  {
    if run != [] {
      var before, a := run[..|run| - 1], run[|run| - 1];
      RunSound(cfg, before, d, id);
      StepDispatching(cfg, Run(cfg, INITIAL, before), a, d);
      StepRowSound(cfg, Run(cfg, INITIAL, before), a, d, id);
    }
  }

  /** Statuses and attempts fit; and locks = attempts + (1 if SENT) + interrupted + (1 if held now), less one
      where a mark as SENT took effect, raised and stands. Without such a mark the count is plain. */
  lemma RowAccounting(cfg: Config, run: seq<Action>, d: WorkerId, id: string)
    requires OneDispatcher(run, d) && id in Run(cfg, INITIAL, run).rows
    ensures var s := Run(cfg, INITIAL, run);
      && StatusFitsAttempts(s.rows[id], cfg.maxAttempts)
      && CountOf(s.ledger.locks, id) ==
           s.rows[id].attempts + One(s.rows[id].status == SENT) + CountOf(s.ledger.interrupted, id)
           + One(Holds(s, d, id)) - One(id in s.ledger.lost)
      && (id in s.ledger.lost ==> s.rows[id].status == SENT)
      && (s.rows[id].status == SENT && Holds(s, d, id) ==> id in s.ledger.lost)
  {
    RunSound(cfg, run, d, id);
  }

  /** A reply of `mark_sent` lost after its write. */
  predicate LosesReply(a: Action) {
    a.MarkSent? && a.outcome.RaisedAfter?
  }

  lemma OnlyLostReplies(cfg: Config, s: State, a: Action)
    requires !LosesReply(a) && s.ledger.lost == {}
    ensures Step(cfg, s, a).ledger.lost == {}
  {
    hide Deliver, HandlersFor;
    match a {
      case Handle(w, outcome) => assert HandleStep(cfg, s, w, outcome).ledger.lost == s.ledger.lost;
      case ReplayHandle(w, outcome) => ReplayShape(cfg, s, w, outcome);
      case _ =>
    }
  }

  /** Without a lost reply no mark stands in the way of the plain count. */
  lemma {:induction false} NothingLost(cfg: Config, run: seq<Action>)
    requires forall i :: 0 <= i < |run| ==> !LosesReply(run[i])
    ensures Run(cfg, INITIAL, run).ledger.lost == {}
  {
    if run != [] {
      NothingLost(cfg, run[..|run| - 1]);
      OnlyLostReplies(cfg, Run(cfg, INITIAL, run[..|run| - 1]), run[|run| - 1]);
    }
  }

  /** A dead letter comes no sooner after its first failure than the whole back-off. */
  lemma DeadLetterTakesTheWholeBackoff(cfg: Config, run: seq<Action>, d: WorkerId, id: string)
    requires OneDispatcher(run, d)
    requires id in Run(cfg, INITIAL, run).rows && Run(cfg, INITIAL, run).rows[id].status == DEAD_LETTER
    ensures var l := Run(cfg, INITIAL, run).ledger;
      && id in l.firstFailure && id in l.deadAt && cfg.maxAttempts >= 1
      && l.deadAt[id] - l.firstFailure[id] >= Seconds(TotalBackoff(cfg.maxAttempts - 1))
      && (cfg.maxAttempts <= 13 ==> l.deadAt[id] - l.firstFailure[id] >= Seconds(Pow2(cfg.maxAttempts - 1) - 1))
      && (cfg.maxAttempts > 13 ==> l.deadAt[id] - l.firstFailure[id] >= Seconds(4095 + 3600 * (cfg.maxAttempts - 13)))
  {
    hide Run, TotalBackoff, Pow2;
    RunSound(cfg, run, d, id);
    TotalBackoffClosedForm(cfg.maxAttempts);
  }

  // ---- Failures come back -----------------------------------------------------

  /** A row that has failed and is not dead carries the date that its last failure gave it. */
  predicate Dated(s: State, id: string) {
    id in s.rows && s.rows[id].attempts >= 1 && s.rows[id].status != DEAD_LETTER ==>
      && id in s.ledger.lastFailure
      && s.rows[id].nextAttemptAt == Some(s.ledger.lastFailure[id] + Seconds(BackoffSeconds(s.rows[id].attempts)))
  }

  lemma MarkFailedDated(cfg: Config, s: State, w: WorkerId, d: WorkerId, id: string)
    requires Dispatching(cfg, s, d) && Dated(s, id)
    ensures Dated(MarkFailedStep(cfg, s, w), id)
  {
    hide BackoffSeconds, Seconds, Consistent, BatchSound;
    if MarkFailedStep(cfg, s, w) != s { assert w == d; }
  }

  /** The other steps of a worker record no failure and move no date. */
  lemma StepsKeepDates(cfg: Config, s: State, w: WorkerId, outcome: Outcome, id: string)
    requires Dated(s, id)
    ensures Dated(LockStep(s, w), id)
    ensures Dated(HandleStep(cfg, s, w, outcome), id)
  {
    hide Deliver, HandlersFor, BackoffSeconds, Seconds;
  }

  lemma MarkSentDated(cfg: Config, s: State, w: WorkerId, outcome: Outcome, d: WorkerId, id: string)
    requires Dispatching(cfg, s, d) && Dated(s, id)
    ensures Dated(MarkSentStep(cfg, s, w, outcome), id)
  {
    hide BackoffSeconds, Seconds, Consistent, BatchSound, HandlersFor;
    var t := MarkSentStep(cfg, s, w, outcome);
    if t != s {
      assert w == d;
      if id in s.rows && s.rows[id].status == DEAD_LETTER { assert t.rows[id] == s.rows[id]; }
    }
  }

  lemma StepDated(cfg: Config, s: State, a: Action, d: WorkerId, id: string)
    requires Dispatching(cfg, s, d) && Dated(s, id) && OneDispatcherAction(a, d)
    ensures Dated(Step(cfg, s, a), id)
  {
    hide Deliver, HandlersFor, BackoffSeconds, Seconds, Dispatching, LockStep, HandleStep, MarkSentStep, MarkFailedStep,
      ReplayStep;
    match a {
      case Lock(w) => StepsKeepDates(cfg, s, w, Completed, id);
      case Handle(w, outcome) => StepsKeepDates(cfg, s, w, outcome, id);
      case MarkSent(w, outcome) => MarkSentDated(cfg, s, w, outcome, d, id);
      case MarkFailed(w) => MarkFailedDated(cfg, s, w, d, id);
      case ReplayHandle(w, outcome) => ReplayShape(cfg, s, w, outcome);
      case _ =>
    }
  }

  lemma {:induction false} RunDated(cfg: Config, run: seq<Action>, d: WorkerId, id: string)
    requires OneDispatcher(run, d)
    ensures Dated(Run(cfg, INITIAL, run), id)
  {
    if run != [] {
      var before := run[..|run| - 1];
      RunDated(cfg, before, d, id);
      RunSound(cfg, before, d, id);
      StepDated(cfg, Run(cfg, INITIAL, before), run[|run| - 1], d, id);
    }
  }

  /** In every run a FAILED row carries a date: the time of its last failure and then one second, doubled with
      every further failure, up to an hour. */
  lemma FailedRowIsDated(cfg: Config, run: seq<Action>, d: WorkerId, id: string)
    requires OneDispatcher(run, d)
    requires id in Run(cfg, INITIAL, run).rows && Run(cfg, INITIAL, run).rows[id].status == FAILED
    ensures 1 <= Run(cfg, INITIAL, run).rows[id].attempts < cfg.maxAttempts
    ensures var s := Run(cfg, INITIAL, run);
      var wait := Pow2(s.rows[id].attempts - 1);
      && id in s.ledger.lastFailure
      && s.rows[id].nextAttemptAt == Some(s.ledger.lastFailure[id] + 1_000_000 * if wait < 3600 then wait else 3600)
  {
    hide Dispatching, LocksAccounted, BackedOff, Pow2, Run;
    RunSound(cfg, run, d, id);
    RunDated(cfg, run, d, id);
  }

  /** Unless a lock is in force, an idle dispatcher may fetch the row from that date on, and not before. */
  lemma FailedRowComesBack(cfg: Config, run: seq<Action>, d: WorkerId, id: string)
    requires OneDispatcher(run, d) && cfg.batchSize >= 1
    requires id in Run(cfg, INITIAL, run).rows && Run(cfg, INITIAL, run).rows[id].status == FAILED
    requires var s := Run(cfg, INITIAL, run);
      WorkerOf(s, d) == RESTED && (s.rows[id].lockedUntil.Some? ==> s.rows[id].lockedUntil.value < s.now)
    ensures 1 <= Run(cfg, INITIAL, run).rows[id].attempts && id in Run(cfg, INITIAL, run).ledger.lastFailure
    ensures var s := Run(cfg, INITIAL, run);
      var wait := Pow2(s.rows[id].attempts - 1);
      WorkerOf(Step(cfg, s, Fetch(d, [s.rows[id].event])), d).batch == [s.rows[id].event] <==>
        s.ledger.lastFailure[id] + 1_000_000 * (if wait < 3600 then wait else 3600) <= s.now
  {
    hide Dispatching, LocksAccounted, BackedOff, Pow2, Run, Step;
    FailedRowIsDated(cfg, run, d, id);
    RunConsistent(cfg, INITIAL, run);
    FetchOne(cfg, Run(cfg, INITIAL, run), d, id);
  }

  /** A batch of one row, as an idle dispatcher may fetch it. */
  lemma FetchOne(cfg: Config, s: State, d: WorkerId, id: string)
    requires Consistent(s) && id in s.rows && cfg.batchSize >= 1 && WorkerOf(s, d) == RESTED
    ensures WorkerOf(Step(cfg, s, Fetch(d, [s.rows[id].event])), d).batch == [s.rows[id].event] <==>
      Due(s.rows[id], cfg.maxAttempts, s.now)
  {
    hide Due;
    var batch := [s.rows[id].event];
    assert batch[0] == s.rows[id].event;
    assert PendingBatch(cfg, s, batch) <==> Due(s.rows[id], cfg.maxAttempts, s.now);
  }

  /** In every run a row that is neither SENT nor DEAD_LETTER, under no lock in force and with its next date, if
      any, reached, may be fetched by an idle dispatcher. */
  lemma OpenRowIsFetched(cfg: Config, run: seq<Action>, d: WorkerId, id: string)
    requires OneDispatcher(run, d) && cfg.batchSize >= 1 && cfg.maxAttempts >= 1
    requires id in Run(cfg, INITIAL, run).rows && WorkerOf(Run(cfg, INITIAL, run), d) == RESTED
    requires var s := Run(cfg, INITIAL, run);
      && s.rows[id].status != SENT && s.rows[id].status != DEAD_LETTER
      && (s.rows[id].lockedUntil.Some? ==> s.rows[id].lockedUntil.value < s.now)
      && (s.rows[id].nextAttemptAt.Some? ==> s.rows[id].nextAttemptAt.value <= s.now)
    ensures var s := Run(cfg, INITIAL, run);
      WorkerOf(Step(cfg, s, Fetch(d, [s.rows[id].event])), d).batch == [s.rows[id].event]
  {
    RunSound(cfg, run, d, id);
    FetchOne(cfg, Run(cfg, INITIAL, run), d, id);
  }

  // ---- Terminal statuses ---------------------------------------------------------

  predicate Terminal(row: Row) {
    row.status == SENT || row.status == DEAD_LETTER
  }

  /** A terminal row that the dispatcher does not hold is left alone by every step. */
  lemma TerminalIsFinal(cfg: Config, s: State, a: Action, d: WorkerId, id: string)
    requires Dispatching(cfg, s, d) && OneDispatcherAction(a, d)
    requires id in s.rows && Terminal(s.rows[id]) && !Holds(s, d, id)
    ensures var t := Step(cfg, s, a); id in t.rows && t.rows[id] == s.rows[id] && !Holds(t, d, id)
  {
    hide Dispatching, LockStep, MarkSentStep, MarkFailedStep, Deliver, HandlersFor;
    assert !ReadyId(cfg, s, id);
    match a {
      case Lock(w) => LockSparesTerminal(cfg, s, w, d, id);
      case MarkSent(w, outcome) => MarkSentSparesTerminal(cfg, s, w, outcome, d, id);
      case MarkFailed(w) => MarkFailedSparesTerminal(cfg, s, w, d, id);
      case Handle(w, outcome) => HandleSparesTerminal(cfg, s, w, outcome, d, id);
      case ReplayHandle(w, outcome) => ReplayShape(cfg, s, w, outcome);
      case _ =>
    }
  }

  lemma HandleSparesTerminal(cfg: Config, s: State, w: WorkerId, outcome: Outcome, d: WorkerId, id: string)
    requires !Holds(s, d, id)
    ensures HandleStep(cfg, s, w, outcome).rows == s.rows && !Holds(HandleStep(cfg, s, w, outcome), d, id)
  {
  }

  lemma LockSparesTerminal(cfg: Config, s: State, w: WorkerId, d: WorkerId, id: string)
    requires Dispatching(cfg, s, d) && id in s.rows && !ReadyId(cfg, s, id) && !Holds(s, d, id)
    ensures var t := LockStep(s, w); id in t.rows && t.rows[id] == s.rows[id] && !Holds(t, d, id)
  {
    if LockStep(s, w) != s { assert w == d; assert ReadyId(cfg, s, WorkerOf(s, d).batch[0].eventId); }
  }

  lemma MarkSentSparesTerminal(cfg: Config, s: State, w: WorkerId, outcome: Outcome, d: WorkerId, id: string)
    requires Dispatching(cfg, s, d) && id in s.rows && !Holds(s, d, id)
    ensures var t := MarkSentStep(cfg, s, w, outcome); id in t.rows && t.rows[id] == s.rows[id] && !Holds(t, d, id)
  {
    if MarkSentStep(cfg, s, w, outcome) != s { assert w == d; }
  }

  lemma MarkFailedSparesTerminal(cfg: Config, s: State, w: WorkerId, d: WorkerId, id: string)
    requires Dispatching(cfg, s, d) && id in s.rows && !Holds(s, d, id)
    ensures var t := MarkFailedStep(cfg, s, w); id in t.rows && t.rows[id] == s.rows[id] && !Holds(t, d, id)
  {
    if MarkFailedStep(cfg, s, w) != s { assert w == d; }
  }

  /** A terminal row that the dispatcher does not hold never changes again, in any run. */
  lemma {:induction false} UnheldTerminalForever(cfg: Config, run: seq<Action>, more: seq<Action>, d: WorkerId,
      id: string)
    requires OneDispatcher(run, d) && OneDispatcher(more, d)
    requires var s := Run(cfg, INITIAL, run); id in s.rows && Terminal(s.rows[id]) && !Holds(s, d, id)
    ensures var t := Run(cfg, Run(cfg, INITIAL, run), more);
      id in t.rows && t.rows[id] == Run(cfg, INITIAL, run).rows[id] && !Holds(t, d, id)
    decreases |more|
  {
    if more != [] {
      var less := more[..|more| - 1];
      UnheldTerminalForever(cfg, run, less, d, id);
      RunSound(cfg, run + less, d, id);
      RunConcat(cfg, INITIAL, run, less);
      TerminalIsFinal(cfg, Run(cfg, Run(cfg, INITIAL, run), less), more[|more| - 1], d, id);
    }
  }

  /** A dead letter never changes again. */
  lemma DeadLetterForever(cfg: Config, run: seq<Action>, more: seq<Action>, d: WorkerId, id: string)
    requires OneDispatcher(run, d) && OneDispatcher(more, d)
    requires id in Run(cfg, INITIAL, run).rows && Run(cfg, INITIAL, run).rows[id].status == DEAD_LETTER
    ensures var t := Run(cfg, Run(cfg, INITIAL, run), more);
      id in t.rows && t.rows[id] == Run(cfg, INITIAL, run).rows[id]
  {
    RunSound(cfg, run, d, id);
    UnheldTerminalForever(cfg, run, more, d, id);
  }

  /** The row is SENT now and some continuation makes it anything else. */
  ghost predicate LeavesSent(cfg: Config, s: State, d: WorkerId, id: string) {
    exists more ::
      OneDispatcher(more, d) && (id !in Run(cfg, s, more).rows || Run(cfg, s, more).rows[id].status != SENT)
  }

  /** SENT is left if and only if the dispatcher still holds the row, after a mark whose reply was lost. */
  lemma SentIsLeftIffHeld(cfg: Config, run: seq<Action>, d: WorkerId, id: string)
    requires OneDispatcher(run, d)
    requires id in Run(cfg, INITIAL, run).rows && Run(cfg, INITIAL, run).rows[id].status == SENT
    ensures LeavesSent(cfg, Run(cfg, INITIAL, run), d, id) <==> Holds(Run(cfg, INITIAL, run), d, id)
    ensures Holds(Run(cfg, INITIAL, run), d, id) ==> id in Run(cfg, INITIAL, run).ledger.lost
  {
    var s := Run(cfg, INITIAL, run);
    RunSound(cfg, run, d, id);
    if Holds(s, d, id) {
      FailingHeld(cfg, s, d, id);
    } else if LeavesSent(cfg, s, d, id) {
      var more :| OneDispatcher(more, d)
        && (id !in Run(cfg, s, more).rows || Run(cfg, s, more).rows[id].status != SENT);
      UnheldTerminalForever(cfg, run, more, d, id);
    }
  }

  /** The dispatcher fails the SENT row that it holds. */
  lemma FailingHeld(cfg: Config, s: State, d: WorkerId, id: string)
    requires Dispatching(cfg, s, d) && Holds(s, d, id) && s.rows[id].status == SENT
    ensures LeavesSent(cfg, s, d, id)
  {
    var none, read, mark, both: seq<Action> := [], [ReadAttempts(d)], [MarkFailed(d)], [ReadAttempts(d), MarkFailed(d)];
    assert both[..1] == read && read[..0] == none && mark[..0] == none && Run(cfg, s, none) == s;
    assert Run(cfg, s, read) == ReadAttemptsStep(s, d);
    if WorkerOf(s, d).task.Raised? {
      assert Run(cfg, s, both) == MarkFailedStep(cfg, ReadAttemptsStep(s, d), d);
      assert OneDispatcher(both, d) && Run(cfg, s, both).rows[id].status != SENT;
    } else {
      assert Run(cfg, s, mark) == MarkFailedStep(cfg, s, d);
      assert OneDispatcher(mark, d) && Run(cfg, s, mark).rows[id].status != SENT;
    }
  }

  /** While no reply of `mark_sent` is lost, terminal rows never change again. */
  lemma TerminalForever(cfg: Config, run: seq<Action>, more: seq<Action>, d: WorkerId, id: string)
    requires OneDispatcher(run, d) && OneDispatcher(more, d) && forall i :: 0 <= i < |run| ==> !LosesReply(run[i])
    requires id in Run(cfg, INITIAL, run).rows && Terminal(Run(cfg, INITIAL, run).rows[id])
    ensures var t := Run(cfg, Run(cfg, INITIAL, run), more);
      id in t.rows && t.rows[id] == Run(cfg, INITIAL, run).rows[id]
  {
    NothingLost(cfg, run);
    RunSound(cfg, run, d, id);
    UnheldTerminalForever(cfg, run, more, d, id);
  }

  /** Why the reply of `mark_sent` matters: lost after its write, it turns a SENT row into a failure. */
  lemma LostReplyUndoesSent(cfg: Config, s: State, w: WorkerId, err: string)
    requires Consistent(s) && WorkerOf(s, w).task.Publishing?
    requires WorkerOf(s, w).task.done == |HandlersFor(cfg, WorkerOf(s, w).task.event.name)|
    ensures var id := WorkerOf(s, w).task.event.eventId;
      var sent := MarkSentStep(cfg, s, w, RaisedAfter(err));
      var failed := MarkFailedStep(cfg, ReadAttemptsStep(sent, w), w);
      && id in sent.rows && sent.rows[id].status == SENT
      && id in failed.rows && failed.rows[id].status in {FAILED, DEAD_LETTER}
  {
    assert TaskKnown(s.rows, WorkerOf(s, w));
  }

  // ---- Sums over the rows --------------------------------------------------------

  ghost function Total(f: Row -> int, rows: Rows): int
    decreases |rows|
  {
    if rows == map[] then 0 else var id :| id in rows; f(rows[id]) + Total(f, rows - {id})
  }

  lemma {:induction false} TotalSplit(f: Row -> int, rows: Rows, id: string)
    requires id in rows
    ensures Total(f, rows) == f(rows[id]) + Total(f, rows - {id})
    decreases |rows|
  {
    var k :| k in rows && Total(f, rows) == f(rows[k]) + Total(f, rows - {k});
    if k != id {
      TotalSplit(f, rows - {k}, id);
      TotalSplit(f, rows - {id}, k);
      assert rows - {k} - {id} == rows - {id} - {k};
    }
  }

  lemma TotalUpdate(f: Row -> int, rows: Rows, id: string, row: Row)
    ensures id in rows ==> Total(f, rows[id := row]) == Total(f, rows) - f(rows[id]) + f(row)
    ensures id !in rows ==> Total(f, rows[id := row]) == Total(f, rows) + f(row)
  {
    TotalSplit(f, rows[id := row], id);
    assert rows[id := row] - {id} == rows - {id};
    if id in rows { TotalSplit(f, rows, id); } else { assert rows - {id} == rows; }
  }

  lemma OneMore(b: int, n: int)
    ensures b * n == b * (n - 1) + b
  {
  }

  lemma {:induction false} TotalBound(f: Row -> int, rows: Rows, bound: nat)
    requires forall id :: id in rows ==> f(rows[id]) <= bound
    ensures Total(f, rows) <= bound * |rows|
    decreases |rows|
  {
    if rows != map[] {
      var id :| id in rows;
      TotalSplit(f, rows, id);
      TotalBound(f, rows - {id}, bound);
      assert rows.Keys == (rows - {id}).Keys + {id};
      OneMore(bound, |rows|);
    }
  }

  // ---- A bound on the work -----------------------------------------------------------

  /** Attempts that an event may still use. */
  function Left(maxAttempts: nat): Row -> int {
    (row: Row) => if Terminal(row) then 0 else maxAttempts - row.attempts
  }

  /** What the row at work has left although a lost reply shows it as SENT. */
  function HeldLeft(cfg: Config, s: State, d: WorkerId): int {
    var task := WorkerOf(s, d).task;
    if InTask(task) && task.event.eventId in s.rows && s.rows[task.event.eventId].status == SENT then
      cfg.maxAttempts - s.rows[task.event.eventId].attempts
    else 0
  }

  ghost function Potential(cfg: Config, s: State, d: WorkerId): int {
    Total(Left(cfg.maxAttempts), s.rows) + HeldLeft(cfg, s, d)
  }

  lemma LockTotals(s: State, w: WorkerId, maxAttempts: nat)
    ensures Total(Spent, LockStep(s, w).rows) == Total(Spent, s.rows)
    ensures Total(Left(maxAttempts), LockStep(s, w).rows) == Total(Left(maxAttempts), s.rows)
    ensures LockStep(s, w).ledger.completed == s.ledger.completed
  {
    var t := LockStep(s, w);
    if t.rows != s.rows {
      var id := WorkerOf(s, w).batch[0].eventId;
      TotalUpdate(Left(maxAttempts), s.rows, id, t.rows[id]);
      TotalUpdate(Spent, s.rows, id, t.rows[id]);
    }
  }

  /** A completed attempt, sent or failed, lowers what is left; no other step raises it. */
  ghost predicate UsesPotential(cfg: Config, s: State, t: State, d: WorkerId) {
    || (t.ledger.completed == s.ledger.completed && Potential(cfg, t, d) <= Potential(cfg, s, d))
    || (t.ledger.completed == s.ledger.completed + 1 && Potential(cfg, t, d) < Potential(cfg, s, d))
  }

  /** Attempts recorded in the rows are the completed ones and the standing marks whose reply was lost. */
  ghost predicate Balanced(s: State) {
    s.ledger.completed + |s.ledger.lost| == Total(Spent, s.rows)
  }

  lemma MarkSentTotals(cfg: Config, s: State, w: WorkerId, outcome: Outcome, d: WorkerId)
    requires Dispatching(cfg, s, d)
    ensures UsesPotential(cfg, s, MarkSentStep(cfg, s, w, outcome), d)
    ensures Balanced(s) ==> Balanced(MarkSentStep(cfg, s, w, outcome))
  {
    var t := MarkSentStep(cfg, s, w, outcome);
    if t != s {
      assert w == d;
      var id := WorkerOf(s, w).task.event.eventId;
      assert ReadyId(cfg, s, id);
      TotalUpdate(Left(cfg.maxAttempts), s.rows, id, SentRow(s.rows[id]));
      TotalUpdate(Spent, s.rows, id, SentRow(s.rows[id]));
      assert id !in s.ledger.lost;
    }
  }

  lemma MarkFailedTotals(cfg: Config, s: State, w: WorkerId, d: WorkerId)
    requires Dispatching(cfg, s, d)
    ensures UsesPotential(cfg, s, MarkFailedStep(cfg, s, w), d)
    ensures Balanced(s) ==> Balanced(MarkFailedStep(cfg, s, w))
  {
    var t := MarkFailedStep(cfg, s, w);
    if t != s {
      assert w == d;
      var id := WorkerOf(s, w).task.event.eventId;
      assert HeldSound(cfg, s, id);
      TotalUpdate(Left(cfg.maxAttempts), s.rows, id, t.rows[id]);
      TotalUpdate(Spent, s.rows, id, t.rows[id]);
      assert id in s.ledger.lost <==> s.rows[id].status == SENT;
    }
  }

  lemma AddTotals(cfg: Config, s: State, e: Event, d: WorkerId)
    requires Dispatching(cfg, s, d)
    ensures Total(Spent, Added(s.rows, e)) == Total(Spent, s.rows)
    ensures var before, after := Potential(cfg, s, d), Potential(cfg, s.(rows := Added(s.rows, e)), d);
      before <= after <= before + cfg.maxAttempts
  {
    assert HeldLeft(cfg, s.(rows := Added(s.rows, e)), d) == HeldLeft(cfg, s, d);
    if !AlreadyAdded(s.rows, e) {
      TotalUpdate(Left(cfg.maxAttempts), s.rows, e.eventId, NewRow(e));
      TotalUpdate(Spent, s.rows, e.eventId, NewRow(e));
    }
  }

  lemma OtherStepsKeepTotals(cfg: Config, s: State, a: Action, d: WorkerId)
    requires Dispatching(cfg, s, d) && !a.Lock? && !a.MarkSent? && !a.MarkFailed? && !a.Add?
    ensures var t := Step(cfg, s, a);
      && t.rows == s.rows && t.ledger.completed == s.ledger.completed && t.ledger.lost == s.ledger.lost
      && HeldLeft(cfg, t, d) <= HeldLeft(cfg, s, d)
  {
    hide Deliver, HandlersFor, BatchSound, Consistent;
    match a {
      case Handle(w, outcome) => HandleTotals(cfg, s, w, outcome, d);
      case ReplayHandle(w, outcome) => ReplayShape(cfg, s, w, outcome);
      case _ =>
    }
  }

  lemma HandleTotals(cfg: Config, s: State, w: WorkerId, outcome: Outcome, d: WorkerId)
    ensures var t := HandleStep(cfg, s, w, outcome);
      && t.rows == s.rows && t.ledger.completed == s.ledger.completed && t.ledger.lost == s.ledger.lost
      && HeldLeft(cfg, t, d) == HeldLeft(cfg, s, d)
  {
  }

  lemma LockKeepsHeldLeft(cfg: Config, s: State, w: WorkerId, d: WorkerId)
    requires Dispatching(cfg, s, d)
    ensures HeldLeft(cfg, LockStep(s, w), d) == HeldLeft(cfg, s, d) && LockStep(s, w).ledger.lost == s.ledger.lost
  {
    if LockStep(s, w) != s { assert w == d; assert ReadyId(cfg, s, WorkerOf(s, d).batch[0].eventId); }
  }

  /** Each completed attempt uses up potential; only a new event adds to it, at most `maxAttempts`. */
  lemma AttemptsUsePotential(cfg: Config, s: State, a: Action, d: WorkerId)
    requires Dispatching(cfg, s, d)
    ensures Balanced(s) ==> Balanced(Step(cfg, s, a))
    ensures !a.Add? ==> UsesPotential(cfg, s, Step(cfg, s, a), d)
    ensures a.Add? ==>
      && Step(cfg, s, a).ledger.completed == s.ledger.completed
      && Potential(cfg, s, d) <= Potential(cfg, Step(cfg, s, a), d) <= Potential(cfg, s, d) + cfg.maxAttempts
  {
    hide Dispatching, Total, LockStep, MarkSentStep, MarkFailedStep, HeldLeft;
    if a.Add? { AddTotals(cfg, s, a.event, d); }
    else if a.Lock? { LockTotals(s, a.w, cfg.maxAttempts); LockKeepsHeldLeft(cfg, s, a.w, d); }
    else if a.MarkSent? { MarkSentTotals(cfg, s, a.w, a.outcome, d); }
    else if a.MarkFailed? { MarkFailedTotals(cfg, s, a.w, d); }
    else { OtherStepsKeepTotals(cfg, s, a, d); }
  }

  lemma {:induction false} RunBalanced(cfg: Config, run: seq<Action>, d: WorkerId)
    requires OneDispatcher(run, d)
    ensures Balanced(Run(cfg, INITIAL, run))
  {
    if run != [] {
      var before := run[..|run| - 1];
      RunBalanced(cfg, before, d);
      RunSound(cfg, before, d, "");
      AttemptsUsePotential(cfg, Run(cfg, INITIAL, before), run[|run| - 1], d);
    }
  }

  /** N events cost at most N * max completed attempts, lost replies included, however long the run. */
  lemma WorkIsBounded(cfg: Config, run: seq<Action>, d: WorkerId)
    requires OneDispatcher(run, d)
    ensures var s := Run(cfg, INITIAL, run); s.ledger.completed + |s.ledger.lost| <= cfg.maxAttempts * |s.rows|
  {
    var s := Run(cfg, INITIAL, run);
    forall id | id in s.rows ensures Spent(s.rows[id]) <= cfg.maxAttempts {
      RunSound(cfg, run, d, id);
    }
    RunBalanced(cfg, run, d);
    TotalBound(Spent, s.rows, cfg.maxAttempts);
  }
}
