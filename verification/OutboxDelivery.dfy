/** At-least-once dispatch becomes exactly one read-model row per event: over every run of
    the outbox, with any number of dispatchers, failures, crashes, lock expiries and replays. */
module OutboxDelivery {
  import opened Prelude
  import opened OutboxModel
  import opened Projections
  import opened OutboxProtocol

  /** The first `n` subscribers of the event have had their write go through. */
  ghost predicate HandledUpTo(cfg: Config, delivered: set<Delivery>, e: Event, n: nat) {
    && n <= |HandlersFor(cfg, e.name)|
    && forall i :: 0 <= i < n ==> Delivery(HandlersFor(cfg, e.name)[i], e) in delivered
  }

  ghost predicate FullyHandled(cfg: Config, delivered: set<Delivery>, e: Event) {
    HandledUpTo(cfg, delivered, e, |HandlersFor(cfg, e.name)|)
  }

  ghost predicate Progress(cfg: Config, delivered: set<Delivery>, v: Worker) {
    v.task.Publishing? ==> HandledUpTo(cfg, delivered, v.task.event, v.task.done)
  }

  ghost predicate DeliveryInvariant(cfg: Config, s: State) {
    && Consistent(s)
    && Projected(s.models, s.ledger.delivered)
    && (forall w :: w in s.workers ==> Progress(cfg, s.ledger.delivered, s.workers[w]))
    && (forall id :: id in s.rows && s.rows[id].status == SENT ==>
      FullyHandled(cfg, s.ledger.delivered, s.rows[id].event))
  }

  lemma KnownEventsById(s: State)
    requires Consistent(s)
    ensures EventsById(s.ledger.delivered)
  {
  }

  /** One delivery, wherever it comes from, keeps the read models right and loses nothing. */
  lemma DeliveredKeeps(s: State, h: Handler, e: Event)
    requires Consistent(s) && Known(s.rows, e) && e.eventId != ""
    requires Projected(s.models, s.ledger.delivered)
    ensures Projected(Delivered(s, h, e).models, Delivered(s, h, e).ledger.delivered)
  {
    KnownEventsById(Delivered(s, h, e));
    DeliverKeepsProjected(s.models, s.ledger.delivered, h, e);
  }

  lemma Frame(cfg: Config, s: State, t: State, w: WorkerId)
    requires DeliveryInvariant(cfg, s) && Consistent(t)
    requires Projected(t.models, t.ledger.delivered) && s.ledger.delivered <= t.ledger.delivered
    requires forall v :: v in t.workers && v != w ==> v in s.workers && t.workers[v] == s.workers[v]
    requires Progress(cfg, t.ledger.delivered, WorkerOf(t, w))
    requires forall id :: id in t.rows && t.rows[id].status == SENT ==>
      || (id in s.rows && s.rows[id].status == SENT && s.rows[id].event == t.rows[id].event)
      || FullyHandled(cfg, t.ledger.delivered, t.rows[id].event)
    ensures DeliveryInvariant(cfg, t)
  {
    forall v | v in t.workers ensures Progress(cfg, t.ledger.delivered, t.workers[v]) {
      if v != w { assert Progress(cfg, s.ledger.delivered, s.workers[v]); }
    }
  }

  lemma HandleKeeps(cfg: Config, s: State, w: WorkerId, outcome: Outcome)
    requires DeliveryInvariant(cfg, s)
    ensures DeliveryInvariant(cfg, HandleStep(cfg, s, w, outcome))
  {
    hide Deliver, Projected;
    var t := HandleStep(cfg, s, w, outcome);
    HandleConsistent(cfg, s, w, outcome);
    var me := WorkerOf(s, w);
    if me.task.Publishing? && me.task.done < |HandlersFor(cfg, me.task.event.name)| {
      assert w in s.workers && TaskKnown(s.rows, s.workers[w]) && Progress(cfg, s.ledger.delivered, me);
      DeliveredKeeps(s, HandlersFor(cfg, me.task.event.name)[me.task.done], me.task.event);
      Frame(cfg, s, t, w);
    }
  }

  lemma WorkerKnown(s: State, w: WorkerId)
    requires Consistent(s)
    ensures TaskKnown(s.rows, WorkerOf(s, w))
  {
  }

  lemma ReplayKeeps(cfg: Config, s: State, w: WorkerId, outcome: Outcome)
    requires DeliveryInvariant(cfg, s)
    ensures DeliveryInvariant(cfg, ReplayStep(cfg, s, w, outcome))
  {
    hide Deliver, Projected, Consistent, HandlersFor;
    var t := ReplayStep(cfg, s, w, outcome);
    ReplayConsistent(cfg, s, w, outcome);
    WorkerKnown(s, w);
    var me := WorkerOf(s, w);
    if me.task.Replaying? && me.task.queue != [] {
      var e := me.task.queue[0];
      if e.eventId != "" && me.task.done < |HandlersFor(cfg, e.name)| {
        DeliveredKeeps(s, HandlersFor(cfg, e.name)[me.task.done], e);
      }
      Frame(cfg, s, t, w);
    } else if me.task.Replaying? {
      Frame(cfg, s, t, w);
    }
  }

  lemma MarkSentKeeps(cfg: Config, s: State, w: WorkerId, outcome: Outcome)
    requires DeliveryInvariant(cfg, s)
    ensures DeliveryInvariant(cfg, MarkSentStep(cfg, s, w, outcome))
  {
    hide Deliver, SentRow;
    var t := MarkSentStep(cfg, s, w, outcome);
    MarkSentConsistent(cfg, s, w, outcome);
    var me := WorkerOf(s, w);
    if t != s {
      assert w in s.workers && TaskKnown(s.rows, s.workers[w]) && Progress(cfg, s.ledger.delivered, me);
      Frame(cfg, s, t, w);
    }
  }

  lemma LockKeeps(cfg: Config, s: State, w: WorkerId)
    requires DeliveryInvariant(cfg, s)
    ensures DeliveryInvariant(cfg, LockStep(s, w))
  {
    LockConsistent(cfg, s, w);
    if LockStep(s, w) != s { Frame(cfg, s, LockStep(s, w), w); }
  }

  lemma MarkFailedKeeps(cfg: Config, s: State, w: WorkerId)
    requires DeliveryInvariant(cfg, s)
    ensures DeliveryInvariant(cfg, MarkFailedStep(cfg, s, w))
  {
    MarkFailedConsistent(cfg, s, w);
    if MarkFailedStep(cfg, s, w) != s { Frame(cfg, s, MarkFailedStep(cfg, s, w), w); }
  }

  /** Steps that touch neither rows nor read models. */
  lemma WorkerOnlyKeeps(cfg: Config, s: State, t: State, w: WorkerId)
    requires DeliveryInvariant(cfg, s) && Consistent(t)
    requires t.rows == s.rows && t.models == s.models && t.ledger.delivered == s.ledger.delivered
    requires forall v :: v in t.workers && v != w ==> v in s.workers && t.workers[v] == s.workers[v]
    requires !WorkerOf(t, w).task.Publishing? || WorkerOf(t, w) == WorkerOf(s, w)
    ensures DeliveryInvariant(cfg, t)
  {
    assert Progress(cfg, s.ledger.delivered, WorkerOf(s, w));
    Frame(cfg, s, t, w);
  }

  lemma AddKeeps(cfg: Config, s: State, e: Event)
    requires DeliveryInvariant(cfg, s)
    ensures DeliveryInvariant(cfg, s.(rows := Added(s.rows, e)))
  {
    AddConsistent(s, e);
  }

  lemma FetchKeeps(cfg: Config, s: State, w: WorkerId, batch: seq<Event>)
    requires DeliveryInvariant(cfg, s)
    ensures DeliveryInvariant(cfg, Step(cfg, s, Fetch(w, batch)))
  {
    FetchConsistent(cfg, s, w, batch);
    WorkerOnlyKeeps(cfg, s, Step(cfg, s, Fetch(w, batch)), w);
  }

  lemma ReadAttemptsKeeps(cfg: Config, s: State, w: WorkerId)
    requires DeliveryInvariant(cfg, s)
    ensures DeliveryInvariant(cfg, ReadAttemptsStep(s, w))
  {
    ReadAttemptsConsistent(cfg, s, w);
    WorkerOnlyKeeps(cfg, s, ReadAttemptsStep(s, w), w);
  }

  lemma CrashKeeps(cfg: Config, s: State, w: WorkerId)
    requires DeliveryInvariant(cfg, s)
    ensures DeliveryInvariant(cfg, CrashStep(s, w))
  {
    CrashConsistent(cfg, s, w);
    WorkerOnlyKeeps(cfg, s, CrashStep(s, w), w);
  }

  lemma FetchSentKeeps(cfg: Config, s: State, w: WorkerId, batch: seq<Event>)
    requires DeliveryInvariant(cfg, s)
    ensures DeliveryInvariant(cfg, Step(cfg, s, FetchSent(w, batch)))
  {
    FetchSentConsistent(cfg, s, w, batch);
    WorkerOnlyKeeps(cfg, s, Step(cfg, s, FetchSent(w, batch)), w);
  }

  lemma StepKeeps(cfg: Config, s: State, a: Action)
    requires DeliveryInvariant(cfg, s)
    ensures DeliveryInvariant(cfg, Step(cfg, s, a))
  {
    match a {
      case Tick(_) =>
      case Add(e) => AddKeeps(cfg, s, e);
      case Fetch(w, batch) => FetchKeeps(cfg, s, w, batch);
      case Lock(w) => LockKeeps(cfg, s, w);
      case Handle(w, outcome) => HandleKeeps(cfg, s, w, outcome);
      case MarkSent(w, outcome) => MarkSentKeeps(cfg, s, w, outcome);
      case ReadAttempts(w) => ReadAttemptsKeeps(cfg, s, w);
      case MarkFailed(w) => MarkFailedKeeps(cfg, s, w);
      case Crash(w) => CrashKeeps(cfg, s, w);
      case FetchSent(w, batch) => FetchSentKeeps(cfg, s, w, batch);
      case ReplayHandle(w, outcome) => ReplayKeeps(cfg, s, w, outcome);
    }
  }

  lemma {:induction false} RunKeeps(cfg: Config, s: State, run: seq<Action>)
    requires DeliveryInvariant(cfg, s)
    ensures DeliveryInvariant(cfg, Run(cfg, s, run))
  {
    if run != [] {
      RunKeeps(cfg, s, run[..|run| - 1]);
      StepKeeps(cfg, Run(cfg, s, run[..|run| - 1]), run[|run| - 1]);
    }
  }

  /** Main result. After any run: each read-model key has one row; each row names an outbox event and tells of
      it; every event that a subscriber has taken is told of, unless it names no document for the timeline; and a
      SENT event has had every subscriber complete. */
  lemma ExactlyOncePerEvent(cfg: Config, run: seq<Action>)
    ensures var s := Run(cfg, INITIAL, run);
      && TimelineKeysUnique(s.models.timeline) && AuditKeysUnique(s.models.audit)
      && Elements(s.models.timeline) == TimelineImage(s.ledger.delivered)
      && Elements(s.models.audit) == AuditImage(s.ledger.delivered)
      && (forall r :: r in s.models.timeline ==>
        r.sourceEventId in s.rows && ShowsTimeline(r, s.rows[r.sourceEventId].event))
      && (forall r :: r in s.models.audit ==>
        r.sourceEventId in s.rows && ShowsAudit(r, s.rows[r.sourceEventId].event))
      && (forall d :: d in s.ledger.delivered && d.handler == TimelineHandler && NamesDocument(d.event.payload) ==>
        exists r :: r in s.models.timeline && ShowsTimeline(r, d.event))
      && (forall d :: d in s.ledger.delivered && d.handler == AuditHandler ==>
        exists r :: r in s.models.audit && ShowsAudit(r, d.event))
      && (forall id :: id in s.rows && s.rows[id].status == SENT ==>
        FullyHandled(cfg, s.ledger.delivered, s.rows[id].event))
  {
    hide ShowsTimeline, ShowsAudit, TimelineRowOf, AuditRowOf, Run, NamesDocument;
    RunKeeps(cfg, INITIAL, run);
    RowsTell(Run(cfg, INITIAL, run));
  }

  /** The image of the deliveries, row by row. */
  lemma RowsTell(s: State)
    requires Consistent(s) && Projected(s.models, s.ledger.delivered)
    ensures forall r :: r in s.models.timeline ==>
      r.sourceEventId in s.rows && ShowsTimeline(r, s.rows[r.sourceEventId].event)
    ensures forall r :: r in s.models.audit ==>
      r.sourceEventId in s.rows && ShowsAudit(r, s.rows[r.sourceEventId].event)
    ensures forall d :: d in s.ledger.delivered && d.handler == TimelineHandler && NamesDocument(d.event.payload) ==>
      exists r :: r in s.models.timeline && ShowsTimeline(r, d.event)
    ensures forall d :: d in s.ledger.delivered && d.handler == AuditHandler ==>
      exists r :: r in s.models.audit && ShowsAudit(r, d.event)
  {
    hide ShowsTimeline, ShowsAudit, TimelineRowOf, AuditRowOf, NamesDocument;
    forall r | r in s.models.timeline
      ensures r.sourceEventId in s.rows && ShowsTimeline(r, s.rows[r.sourceEventId].event)
    {
      assert r in TimelineImage(s.ledger.delivered);
      var d :| d in s.ledger.delivered && d.handler == TimelineHandler && TimelineRowOf(d.event) == Some(r);
      TimelineRowShows(d.event, r);
      RowNamesEvent(d.event, r);
    }
    forall r | r in s.models.audit
      ensures r.sourceEventId in s.rows && ShowsAudit(r, s.rows[r.sourceEventId].event)
    {
      assert r in AuditImage(s.ledger.delivered);
      var d :| d in s.ledger.delivered && d.handler == AuditHandler && AuditRowOf(d.event) == r;
      AuditRowShows(d.event, r);
      AuditNamesEvent(d.event, r);
    }
    forall d | d in s.ledger.delivered && d.handler == TimelineHandler && NamesDocument(d.event.payload)
      ensures exists r :: r in s.models.timeline && ShowsTimeline(r, d.event)
    {
      TimelineImageHolds(s.models, s.ledger.delivered, d);
    }
    forall d | d in s.ledger.delivered && d.handler == AuditHandler
      ensures exists r :: r in s.models.audit && ShowsAudit(r, d.event)
    {
      var r := AuditRowOf(d.event);
      assert r in AuditImage(s.ledger.delivered);
      assert r in Elements(s.models.audit);
      AuditRowShows(d.event, r);
    }
  }

  lemma TimelineImageHolds(m: ReadModels, delivered: set<Delivery>, d: Delivery)
    requires Projected(m, delivered) && d in delivered && d.handler == TimelineHandler && NamesDocument(d.event.payload)
    ensures exists r :: r in m.timeline && ShowsTimeline(r, d.event)
  {
    hide ShowsTimeline, TimelineRowOf, NamesDocument;
    RowIsThere(d.event);
    var r := TimelineRowOf(d.event).value;
    TimelineRowShows(d.event, r);
    assert r in TimelineImage(delivered);
    assert r in Elements(m.timeline);
  }

  lemma RowNamesEvent(e: Event, r: TimelineRow)
    requires ShowsTimeline(r, e)
    ensures r.sourceEventId == e.eventId
  {
  }

  lemma AuditNamesEvent(e: Event, r: AuditRow)
    requires ShowsAudit(r, e)
    ensures r.sourceEventId == e.eventId
  {
  }

  /** A SENT document event whose timeline handler is subscribed has its timeline row. */
  lemma SentEventIsOnTheTimeline(cfg: Config, run: seq<Action>, id: string)
    requires id in Run(cfg, INITIAL, run).rows && Run(cfg, INITIAL, run).rows[id].status == SENT
    requires TimelineHandler in HandlersFor(cfg, Run(cfg, INITIAL, run).rows[id].event.name)
    requires NamesDocument(Run(cfg, INITIAL, run).rows[id].event.payload)
    ensures exists r ::
      r in Run(cfg, INITIAL, run).models.timeline && ShowsTimeline(r, Run(cfg, INITIAL, run).rows[id].event)
  {
    hide ShowsTimeline, ShowsAudit, NamesDocument;
    var s := Run(cfg, INITIAL, run);
    ExactlyOncePerEvent(cfg, run);
    var e := s.rows[id].event;
    var i :| 0 <= i < |HandlersFor(cfg, e.name)| && HandlersFor(cfg, e.name)[i] == TimelineHandler;
    assert Delivery(TimelineHandler, e) in s.ledger.delivered;
  }

  /** Likewise for the audit log, which takes every event that its handler is subscribed to. */
  lemma SentEventIsAudited(cfg: Config, run: seq<Action>, id: string)
    requires id in Run(cfg, INITIAL, run).rows && Run(cfg, INITIAL, run).rows[id].status == SENT
    requires AuditHandler in HandlersFor(cfg, Run(cfg, INITIAL, run).rows[id].event.name)
    ensures exists r ::
      r in Run(cfg, INITIAL, run).models.audit && ShowsAudit(r, Run(cfg, INITIAL, run).rows[id].event)
  {
    hide ShowsTimeline, ShowsAudit, NamesDocument;
    var s := Run(cfg, INITIAL, run);
    ExactlyOncePerEvent(cfg, run);
    var e := s.rows[id].event;
    var i :| 0 <= i < |HandlersFor(cfg, e.name)| && HandlersFor(cfg, e.name)[i] == AuditHandler;
    assert Delivery(AuditHandler, e) in s.ledger.delivered;
  }

  /** Two runs that delivered the same set have the same read models, up to order. */
  lemma OrderAndRepetitionDoNotMatter(cfg: Config, a: seq<Action>, b: seq<Action>)
    requires Run(cfg, INITIAL, a).ledger.delivered == Run(cfg, INITIAL, b).ledger.delivered
    ensures multiset(Run(cfg, INITIAL, a).models.timeline) == multiset(Run(cfg, INITIAL, b).models.timeline)
    ensures multiset(Run(cfg, INITIAL, a).models.audit) == multiset(Run(cfg, INITIAL, b).models.audit)
  {
    RunKeeps(cfg, INITIAL, a);
    RunKeeps(cfg, INITIAL, b);
    SameDeliveriesSameReadModels(Run(cfg, INITIAL, a).models, Run(cfg, INITIAL, b).models,
      Run(cfg, INITIAL, a).ledger.delivered);
  }

  // ---- Replays ----------------------------------------------------------------

  /** Every event that a replay still has to publish has had every subscriber complete. */
  ghost predicate QueueHandled(cfg: Config, delivered: set<Delivery>, v: Worker) {
    v.task.Replaying? ==> forall i :: 0 <= i < |v.task.queue| ==> FullyHandled(cfg, delivered, v.task.queue[i])
  }

  ghost predicate ReplaysSound(cfg: Config, s: State) {
    forall w :: w in s.workers ==> QueueHandled(cfg, s.ledger.delivered, s.workers[w])
  }

  /** Deliveries only grow, and a queue only starts with SENT events and only shrinks. */
  lemma ReplayFrame(cfg: Config, s: State, t: State, w: WorkerId)
    requires ReplaysSound(cfg, s) && s.ledger.delivered <= t.ledger.delivered
    requires forall v :: v in t.workers && v != w ==> v in s.workers && t.workers[v] == s.workers[v]
    requires QueueHandled(cfg, t.ledger.delivered, WorkerOf(t, w))
    ensures ReplaysSound(cfg, t)
  {
    forall v | v in t.workers ensures QueueHandled(cfg, t.ledger.delivered, t.workers[v]) {
      if v != w { assert QueueHandled(cfg, s.ledger.delivered, s.workers[v]); }
    }
  }

  /** What a step of a worker that does not replay leaves alone. */
  ghost predicate KeepsReplays(s: State, t: State, w: WorkerId) {
    && s.ledger.delivered <= t.ledger.delivered
    && (forall v :: v in t.workers && v != w ==> v in s.workers && t.workers[v] == s.workers[v])
    && (WorkerOf(t, w) == WorkerOf(s, w) || !WorkerOf(t, w).task.Replaying?)
  }

  lemma HandleKeepsReplays(cfg: Config, s: State, w: WorkerId, outcome: Outcome)
    ensures KeepsReplays(s, HandleStep(cfg, s, w, outcome), w)
  {
    hide Deliver, HandlersFor;
  }

  lemma MarksKeepReplays(cfg: Config, s: State, w: WorkerId, outcome: Outcome)
    ensures KeepsReplays(s, MarkSentStep(cfg, s, w, outcome), w)
    ensures KeepsReplays(s, MarkFailedStep(cfg, s, w), w)
  {
    hide HandlersFor, SentRow, FailedRow;
  }

  lemma NonReplayStep(cfg: Config, s: State, a: Action)
    requires !a.Tick? && !a.Add? && !a.FetchSent? && !a.ReplayHandle?
    ensures KeepsReplays(s, Step(cfg, s, a), a.w)
  {
    hide HandleStep, MarkSentStep, MarkFailedStep, ReplayStep;
    match a {
      case Handle(w, outcome) => HandleKeepsReplays(cfg, s, w, outcome);
      case MarkSent(w, outcome) => MarksKeepReplays(cfg, s, w, outcome);
      case MarkFailed(w) => MarksKeepReplays(cfg, s, w, Completed);
      case _ =>
    }
  }

  lemma FetchSentReplays(cfg: Config, s: State, w: WorkerId, batch: seq<Event>)
    requires DeliveryInvariant(cfg, s) && ReplaysSound(cfg, s)
    ensures ReplaysSound(cfg, Step(cfg, s, FetchSent(w, batch)))
  {
    hide ReplayStep, LockStep, HandleStep, MarkSentStep, MarkFailedStep, CrashStep, HandledUpTo;
    var t := Step(cfg, s, FetchSent(w, batch));
    if t != s {
      forall i | 0 <= i < |batch| ensures FullyHandled(cfg, t.ledger.delivered, batch[i]) {
        assert Known(s.rows, batch[i]);
      }
      ReplayFrame(cfg, s, t, w);
    }
  }

  lemma ReplayStepReplays(cfg: Config, s: State, w: WorkerId, outcome: Outcome)
    requires ReplaysSound(cfg, s)
    ensures ReplaysSound(cfg, ReplayStep(cfg, s, w, outcome))
  {
    hide Deliver, HandlersFor;
    var t := ReplayStep(cfg, s, w, outcome);
    if t != s {
      assert QueueHandled(cfg, s.ledger.delivered, WorkerOf(s, w));
      ReplayFrame(cfg, s, t, w);
    }
  }

  lemma StepReplays(cfg: Config, s: State, a: Action)
    requires DeliveryInvariant(cfg, s) && ReplaysSound(cfg, s)
    ensures ReplaysSound(cfg, Step(cfg, s, a))
  {
    hide DeliveryInvariant, ReplayStep, LockStep, HandleStep, MarkSentStep, MarkFailedStep, CrashStep;
    match a {
      case Tick(_) =>
      case Add(_) =>
      case FetchSent(w, batch) => FetchSentReplays(cfg, s, w, batch);
      case ReplayHandle(w, outcome) => ReplayStepReplays(cfg, s, w, outcome);
      case _ =>
        NonReplayStep(cfg, s, a);
        if a.w in s.workers { assert QueueHandled(cfg, s.ledger.delivered, s.workers[a.w]); }
        ReplayFrame(cfg, s, Step(cfg, s, a), a.w);
    }
  }

  lemma {:induction false} RunReplays(cfg: Config, run: seq<Action>)
    ensures ReplaysSound(cfg, Run(cfg, INITIAL, run))
  {
    if run != [] {
      var before := run[..|run| - 1];
      RunReplays(cfg, before);
      RunKeeps(cfg, INITIAL, before);
      StepReplays(cfg, Run(cfg, INITIAL, before), run[|run| - 1]);
    }
  }

  /** In every run, every step of every replaying worker is invisible to the read models and to the outbox,
      whichever handlers raise, and whatever became of the rows since they were fetched as SENT. */
  lemma ReplayOfSentIsInvisible(cfg: Config, run: seq<Action>, w: WorkerId, outcome: Outcome)
    requires WorkerOf(Run(cfg, INITIAL, run), w).task.Replaying?
    ensures var s := Run(cfg, INITIAL, run);
      ReplayStep(cfg, s, w, outcome).models == s.models && ReplayStep(cfg, s, w, outcome).rows == s.rows
  {
    RunReplays(cfg, run);
    RunKeeps(cfg, INITIAL, run);
    ReplayStepInvisible(cfg, Run(cfg, INITIAL, run), w, outcome);
  }

  lemma ReplayStepInvisible(cfg: Config, s: State, w: WorkerId, outcome: Outcome)
    requires DeliveryInvariant(cfg, s) && ReplaysSound(cfg, s)
    ensures ReplayStep(cfg, s, w, outcome).models == s.models && ReplayStep(cfg, s, w, outcome).rows == s.rows
  {
    hide Deliver;
    var me := WorkerOf(s, w);
    if me.task.Replaying? && me.task.queue != [] {
      var e := me.task.queue[0];
      assert QueueHandled(cfg, s.ledger.delivered, s.workers[w]) && FullyHandled(cfg, s.ledger.delivered, e);
      if me.task.done < |HandlersFor(cfg, e.name)| {
        KnownEventsById(s);
        RedeliveryChangesNothing(s.models, s.ledger.delivered, HandlersFor(cfg, e.name)[me.task.done], e);
      }
    }
  }

  // ---- Idempotency keys ------------------------------------------------------

  /** At most one row for each (name, version, idempotency key). */
  ghost predicate KeysUnique(rows: Rows) {
    forall a, b :: a in rows && b in rows && a != b && HasKey(rows[a].event) ==> !SameKey(rows[a].event, rows[b].event)
  }

  lemma AddKeepsKeysUnique(rows: Rows, e: Event)
    requires KeysUnique(rows)
    ensures KeysUnique(Added(rows, e))
  {
  }

  lemma OnlyAddAddsRows(cfg: Config, s: State, a: Action)
    requires !a.Add?
    ensures Step(cfg, s, a).rows.Keys == s.rows.Keys
  {
  }

  lemma SameEventsKeepKeysUnique(before: Rows, after: Rows)
    requires KeysUnique(before) && after.Keys == before.Keys && Extends(before, after)
    ensures KeysUnique(after)
  {
  }

  lemma {:induction false} IdempotencyKeysStayUnique(cfg: Config, run: seq<Action>)
    ensures KeysUnique(Run(cfg, INITIAL, run).rows)
  {
    if run != [] {
      var before := run[..|run| - 1];
      var s := Run(cfg, INITIAL, before);
      var a := run[|run| - 1];
      IdempotencyKeysStayUnique(cfg, before);
      if a.Add? {
        AddKeepsKeysUnique(s.rows, a.event);
      } else {
        RunConsistent(cfg, INITIAL, before);
        StepConsistent(cfg, s, a);
        OnlyAddAddsRows(cfg, s, a);
        SameEventsKeepKeysUnique(s.rows, Step(cfg, s, a).rows);
      }
    }
  }
}
