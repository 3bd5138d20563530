/** The outbox as a step system: any number of dispatchers and replays over one collection,
    one monotone clock, handlers that may raise before or after their write, and crashes.
    A disabled action changes nothing, so every sequence of actions is a run. */
module OutboxProtocol {
  import opened Prelude
  import opened OutboxModel
  import opened Projections

  type WorkerId = nat

  datatype Config = Config(maxAttempts: nat, batchSize: nat, subscriptions: map<string, seq<Handler>>)

  /** How an awaited call ends: it may raise with its write lost or with its write done. */
  datatype Outcome = Completed | RaisedBefore(err: string) | RaisedAfter(err: string)

  /** Where a worker stands. `until` is the deadline that its own lock wrote. */
  datatype Task =
    | Idle
    | Publishing(event: Event, until: Time, done: nat)
    | Raised(event: Event, until: Time, err: string)
    | Counted(event: Event, until: Time, err: string, count: nat)
    | Replaying(queue: seq<Event>, done: nat)

  datatype Worker = Worker(batch: seq<Event>, task: Task)

  const RESTED: Worker := Worker([], Idle)

  /** History, read by no step: what was delivered, whose locks were abandoned, counts, and the events
      whose mark as SENT took effect, raised and has not been undone. */
  datatype Ledger = Ledger(
    delivered: set<Delivery>, orphans: map<string, Time>, locks: map<string, nat>, interrupted: map<string, nat>,
    completed: nat, firstFailure: map<string, Time>, deadAt: map<string, Time>, lost: set<string>,
    lastFailure: map<string, Time>)

  datatype State = State(now: Time, rows: Rows, workers: map<WorkerId, Worker>, models: ReadModels, ledger: Ledger)

  datatype Action =
    | Tick(elapsed: nat)
    | Add(event: Event)
    | Fetch(w: WorkerId, batch: seq<Event>)
    | Lock(w: WorkerId)
    | Handle(w: WorkerId, outcome: Outcome)
    | MarkSent(w: WorkerId, outcome: Outcome)
    | ReadAttempts(w: WorkerId)
    | MarkFailed(w: WorkerId)
    | Crash(w: WorkerId)
    | FetchSent(w: WorkerId, batch: seq<Event>)
    | ReplayHandle(w: WorkerId, outcome: Outcome)

  function HandlersFor(cfg: Config, name: string): seq<Handler> {
    if name in cfg.subscriptions then cfg.subscriptions[name] else []
  }

  function WorkerOf(s: State, w: WorkerId): Worker {
    if w in s.workers then s.workers[w] else RESTED
  }

  function SetWorker(s: State, w: WorkerId, v: Worker): State {
    s.(workers := s.workers[w := v])
  }

  function CountOf(m: map<string, nat>, id: string): nat {
    if id in m then m[id] else 0
  }

  function Bump(m: map<string, nat>, id: string): map<string, nat> {
    m[id := CountOf(m, id) + 1]
  }

  predicate InTask(t: Task) {
    t.Publishing? || t.Raised? || t.Counted?
  }

  /** Worker `w` has locked event `id` and has not finished with it. */
  predicate Holds(s: State, w: WorkerId, id: string) {
    InTask(WorkerOf(s, w).task) && WorkerOf(s, w).task.event.eventId == id
  }

  predicate Known(rows: Rows, e: Event) {
    e.eventId in rows && rows[e.eventId].event == e
  }

  ghost predicate PendingBatch(cfg: Config, s: State, batch: seq<Event>) {
    && |batch| <= cfg.batchSize
    && (forall i :: 0 <= i < |batch| ==>
      Known(s.rows, batch[i]) && Due(s.rows[batch[i].eventId], cfg.maxAttempts, s.now))
    && (forall i, j :: 0 <= i < j < |batch| ==> batch[i].eventId != batch[j].eventId)
  }

  ghost predicate SentBatch(s: State, batch: seq<Event>) {
    forall i :: 0 <= i < |batch| ==> Known(s.rows, batch[i]) && s.rows[batch[i].eventId].status == SENT
  }

  // ---- Steps ----------------------------------------------------------------

  function LockStep(s: State, w: WorkerId): State {
    var me := WorkerOf(s, w);
    if me.task.Idle? && me.batch != [] then
      var e, rest := me.batch[0], me.batch[1..];
      var id := e.eventId;
      if id == "" || id !in s.rows || !Lockable(s.rows[id], s.now) then
        SetWorker(s, w, Worker(rest, Idle))
      else
        var until := Deadline(s.now, LOCK_TTL_SECONDS);
        SetWorker(s, w, Worker(rest, Publishing(e, until, 0))).(
          rows := s.rows[id := s.rows[id].(lockedUntil := Some(until))],
          ledger := s.ledger.(locks := Bump(s.ledger.locks, id), orphans := s.ledger.orphans - {id}))
    else s
  }

  function Delivered(s: State, h: Handler, e: Event): State {
    s.(models := Deliver(s.models, h, e),
       ledger := s.ledger.(delivered := s.ledger.delivered + {Delivery(h, e)}))
  }

  function HandleStep(cfg: Config, s: State, w: WorkerId, outcome: Outcome): State {
    var me := WorkerOf(s, w);
    if me.task.Publishing? && me.task.done < |HandlersFor(cfg, me.task.event.name)| then
      var e := me.task.event;
      var h := HandlersFor(cfg, e.name)[me.task.done];
      match outcome
      case Completed => SetWorker(Delivered(s, h, e), w, me.(task := Publishing(e, me.task.until, me.task.done + 1)))
      case RaisedBefore(err) => SetWorker(s, w, me.(task := Raised(e, me.task.until, err)))
      case RaisedAfter(err) => SetWorker(Delivered(s, h, e), w, me.(task := Raised(e, me.task.until, err)))
    else s
  }

  function MarkSentStep(cfg: Config, s: State, w: WorkerId, outcome: Outcome): State {
    var me := WorkerOf(s, w);
    if me.task.Publishing? && me.task.done == |HandlersFor(cfg, me.task.event.name)|
      && me.task.event.eventId in s.rows then
      var e := me.task.event;
      var sent := s.rows[e.eventId := SentRow(s.rows[e.eventId])];
      match outcome
      case Completed =>
        SetWorker(s, w, me.(task := Idle)).(rows := sent, ledger := s.ledger.(completed := s.ledger.completed + 1))
      case RaisedBefore(err) => SetWorker(s, w, me.(task := Raised(e, me.task.until, err)))
      case RaisedAfter(err) =>
        SetWorker(s, w, me.(task := Raised(e, me.task.until, err))).(
          rows := sent, ledger := s.ledger.(lost := s.ledger.lost + {e.eventId}))
    else s
  }

  function ReadAttemptsStep(s: State, w: WorkerId): State {
    var me := WorkerOf(s, w);
    if me.task.Raised? then
      var e := me.task.event;
      var attempts := if e.eventId in s.rows then s.rows[e.eventId].attempts else 0;
      SetWorker(s, w, me.(task := Counted(e, me.task.until, me.task.err, attempts + 1)))
    else s
  }

  function MarkFailedStep(cfg: Config, s: State, w: WorkerId): State {
    var me := WorkerOf(s, w);
    if me.task.Counted? && me.task.event.eventId in s.rows then
      var id := me.task.event.eventId;
      var row := FailedRow(s.rows[id], me.task.err, me.task.count, cfg.maxAttempts, s.now);
      var first := if id in s.ledger.firstFailure then s.ledger.firstFailure else s.ledger.firstFailure[id := s.now];
      var dead := if row.status == DEAD_LETTER then s.ledger.deadAt[id := s.now] else s.ledger.deadAt;
      SetWorker(s, w, me.(task := Idle)).(
        rows := s.rows[id := row],
        ledger := s.ledger.(
          completed := s.ledger.completed + 1, firstFailure := first, deadAt := dead, lost := s.ledger.lost - {id},
          lastFailure := s.ledger.lastFailure[id := s.now]))
    else s
  }

  /** A crash, or `stop()` cancelling the drain: the lock stays in the row. */
  function CrashStep(s: State, w: WorkerId): State {
    var me := WorkerOf(s, w);
    if InTask(me.task) then
      var id := me.task.event.eventId;
      SetWorker(s, w, RESTED).(ledger := s.ledger.(
        orphans := s.ledger.orphans[id := me.task.until], interrupted := Bump(s.ledger.interrupted, id)))
    else SetWorker(s, w, RESTED)
  }

  function ReplayStep(cfg: Config, s: State, w: WorkerId, outcome: Outcome): State {
    var me := WorkerOf(s, w);
    if me.task.Replaying? then
      if me.task.queue == [] then SetWorker(s, w, me.(task := Idle))
      else
        var e := me.task.queue[0];
        var skip := me.(task := Replaying(me.task.queue[1..], 0));
        if e.eventId == "" || me.task.done >= |HandlersFor(cfg, e.name)| then SetWorker(s, w, skip)
        else
          var h := HandlersFor(cfg, e.name)[me.task.done];
          match outcome
          case Completed => SetWorker(Delivered(s, h, e), w, me.(task := Replaying(me.task.queue, me.task.done + 1)))
          case RaisedBefore(_) => SetWorker(s, w, skip)
          case RaisedAfter(_) => SetWorker(Delivered(s, h, e), w, skip)
    else s
  }

  ghost function Step(cfg: Config, s: State, a: Action): State {
    match a
    case Tick(d) => s.(now := s.now + d)
    case Add(e) => s.(rows := Added(s.rows, e))
    case Fetch(w, batch) =>
      if WorkerOf(s, w) == RESTED && PendingBatch(cfg, s, batch) then SetWorker(s, w, Worker(batch, Idle)) else s
    case Lock(w) => LockStep(s, w)
    case Handle(w, outcome) => HandleStep(cfg, s, w, outcome)
    case MarkSent(w, outcome) => MarkSentStep(cfg, s, w, outcome)
    case ReadAttempts(w) => ReadAttemptsStep(s, w)
    case MarkFailed(w) => MarkFailedStep(cfg, s, w)
    case Crash(w) => CrashStep(s, w)
    case FetchSent(w, batch) =>
      if WorkerOf(s, w) == RESTED && SentBatch(s, batch) then SetWorker(s, w, Worker([], Replaying(batch, 0))) else s
    case ReplayHandle(w, outcome) => ReplayStep(cfg, s, w, outcome)
  }

  ghost function Run(cfg: Config, s: State, run: seq<Action>): State {
    if run == [] then s else Step(cfg, Run(cfg, s, run[..|run| - 1]), run[|run| - 1])
  }

  lemma {:induction false} RunConcat(cfg: Config, s: State, a: seq<Action>, b: seq<Action>)
    ensures Run(cfg, s, a + b) == Run(cfg, Run(cfg, s, a), b)
    decreases |b|
  {
    if b == [] {
      assert a + b == a;
    } else {
      var b' := b[..|b| - 1];
      assert (a + b)[..|a + b| - 1] == a + b';
      RunConcat(cfg, s, a, b');
    }
  }

  const EMPTY_LEDGER: Ledger := Ledger({}, map[], map[], map[], 0, map[], map[], {}, map[])

  const INITIAL: State := State(0, map[], map[], ReadModels([], []), EMPTY_LEDGER)

  // ---- Every run: rows are never lost, and every copy of an event is its row's event ----

  ghost predicate TaskKnown(rows: Rows, v: Worker) {
    && (forall i :: 0 <= i < |v.batch| ==> Known(rows, v.batch[i]))
    && (InTask(v.task) ==> Known(rows, v.task.event) && v.task.event.eventId != "")
    && (v.task.Replaying? ==> forall i :: 0 <= i < |v.task.queue| ==> Known(rows, v.task.queue[i]))
  }

  ghost predicate Consistent(s: State) {
    && (forall id :: id in s.rows ==> s.rows[id].event.eventId == id)
    && (forall w :: w in s.workers ==> TaskKnown(s.rows, s.workers[w]))
    && (forall d :: d in s.ledger.delivered ==> Known(s.rows, d.event) && d.event.eventId != "")
  }

  /** Rows keep their event for ever. */
  ghost predicate Extends(before: Rows, after: Rows) {
    forall id :: id in before ==> id in after && after[id].event == before[id].event
  }

  lemma KnownExtends(before: Rows, after: Rows, v: Worker)
    requires Extends(before, after) && TaskKnown(before, v)
    ensures TaskKnown(after, v)
  {
  }

  lemma ConsistentFrame(s: State, t: State, w: WorkerId)
    requires Consistent(s) && Extends(s.rows, t.rows)
    requires forall id :: id in t.rows ==> t.rows[id].event.eventId == id
    requires TaskKnown(t.rows, WorkerOf(t, w))
    requires forall v :: v in t.workers && v != w ==> v in s.workers && t.workers[v] == s.workers[v]
    requires forall d :: d in t.ledger.delivered ==>
      d in s.ledger.delivered || (Known(t.rows, d.event) && d.event.eventId != "")
    ensures Consistent(t)
  {
    forall v | v in t.workers ensures TaskKnown(t.rows, t.workers[v]) {
      if v != w { KnownExtends(s.rows, t.rows, s.workers[v]); }
    }
  }

  lemma AddConsistent(s: State, e: Event)
    requires Consistent(s)
    ensures Consistent(s.(rows := Added(s.rows, e))) && Extends(s.rows, Added(s.rows, e))
  {
    var t := s.(rows := Added(s.rows, e));
    forall v | v in t.workers ensures TaskKnown(t.rows, t.workers[v]) { KnownExtends(s.rows, t.rows, s.workers[v]); }
  }

  lemma FetchConsistent(cfg: Config, s: State, w: WorkerId, batch: seq<Event>)
    requires Consistent(s)
    ensures Consistent(Step(cfg, s, Fetch(w, batch))) && Extends(s.rows, Step(cfg, s, Fetch(w, batch)).rows)
  {
    ConsistentFrame(s, Step(cfg, s, Fetch(w, batch)), w);
  }

  lemma LockConsistent(cfg: Config, s: State, w: WorkerId)
    requires Consistent(s)
    ensures Consistent(LockStep(s, w)) && Extends(s.rows, LockStep(s, w).rows)
  {
    ConsistentFrame(s, LockStep(s, w), w);
  }

  lemma HandleConsistent(cfg: Config, s: State, w: WorkerId, outcome: Outcome)
    requires Consistent(s)
    ensures Consistent(HandleStep(cfg, s, w, outcome)) && Extends(s.rows, HandleStep(cfg, s, w, outcome).rows)
  {
    ConsistentFrame(s, HandleStep(cfg, s, w, outcome), w);
  }

  lemma MarkSentConsistent(cfg: Config, s: State, w: WorkerId, outcome: Outcome)
    requires Consistent(s)
    ensures Consistent(MarkSentStep(cfg, s, w, outcome)) && Extends(s.rows, MarkSentStep(cfg, s, w, outcome).rows)
  {
    ConsistentFrame(s, MarkSentStep(cfg, s, w, outcome), w);
  }

  lemma ReadAttemptsConsistent(cfg: Config, s: State, w: WorkerId)
    requires Consistent(s)
    ensures Consistent(ReadAttemptsStep(s, w)) && Extends(s.rows, ReadAttemptsStep(s, w).rows)
  {
    ConsistentFrame(s, ReadAttemptsStep(s, w), w);
  }

  lemma MarkFailedConsistent(cfg: Config, s: State, w: WorkerId)
    requires Consistent(s)
    ensures Consistent(MarkFailedStep(cfg, s, w)) && Extends(s.rows, MarkFailedStep(cfg, s, w).rows)
  {
    ConsistentFrame(s, MarkFailedStep(cfg, s, w), w);
  }

  lemma CrashConsistent(cfg: Config, s: State, w: WorkerId)
    requires Consistent(s)
    ensures Consistent(CrashStep(s, w)) && Extends(s.rows, CrashStep(s, w).rows)
  {
    ConsistentFrame(s, CrashStep(s, w), w);
  }

  lemma FetchSentConsistent(cfg: Config, s: State, w: WorkerId, batch: seq<Event>)
    requires Consistent(s)
    ensures Consistent(Step(cfg, s, FetchSent(w, batch))) && Extends(s.rows, Step(cfg, s, FetchSent(w, batch)).rows)
  {
    hide ReplayStep, LockStep, HandleStep, MarkSentStep, MarkFailedStep, CrashStep;
    ConsistentFrame(s, Step(cfg, s, FetchSent(w, batch)), w);
  }

  lemma ReplayConsistent(cfg: Config, s: State, w: WorkerId, outcome: Outcome)
    requires Consistent(s)
    ensures Consistent(ReplayStep(cfg, s, w, outcome)) && Extends(s.rows, ReplayStep(cfg, s, w, outcome).rows)
  {
    hide Deliver, HandlersFor;
    var t := ReplayStep(cfg, s, w, outcome);
    assert t.rows == s.rows;
    assert TaskKnown(s.rows, WorkerOf(s, w));
    assert TaskKnown(t.rows, WorkerOf(t, w));
    ConsistentFrame(s, t, w);
  }

  lemma StepConsistent(cfg: Config, s: State, a: Action)
    requires Consistent(s)
    ensures Consistent(Step(cfg, s, a)) && Extends(s.rows, Step(cfg, s, a).rows)
  {
    match a {
      case Tick(_) =>
      case Add(e) => AddConsistent(s, e);
      case Fetch(w, batch) => FetchConsistent(cfg, s, w, batch);
      case Lock(w) => LockConsistent(cfg, s, w);
      case Handle(w, outcome) => HandleConsistent(cfg, s, w, outcome);
      case MarkSent(w, outcome) => MarkSentConsistent(cfg, s, w, outcome);
      case ReadAttempts(w) => ReadAttemptsConsistent(cfg, s, w);
      case MarkFailed(w) => MarkFailedConsistent(cfg, s, w);
      case Crash(w) => CrashConsistent(cfg, s, w);
      case FetchSent(w, batch) => FetchSentConsistent(cfg, s, w, batch);
      case ReplayHandle(w, outcome) => ReplayConsistent(cfg, s, w, outcome);
    }
  }

  lemma {:induction false} RunConsistent(cfg: Config, s: State, run: seq<Action>)
    requires Consistent(s)
    ensures Consistent(Run(cfg, s, run)) && Extends(s.rows, Run(cfg, s, run).rows)
  {
    if run != [] {
      RunConsistent(cfg, s, run[..|run| - 1]);
      StepConsistent(cfg, Run(cfg, s, run[..|run| - 1]), run[|run| - 1]);
    }
  }
}
