/** The repository, the event bus and the dispatcher as objects that update collections in place.
    The dispatcher keeps a history, a run of the step system of OutboxProtocol from the empty outbox that
    ends in the present collections; adding an event, draining and replaying extend it. */
module OutboxDispatcher {
  import opened Prelude
  import opened Text
  import opened OutboxModel
  import opened Projections
  import opened OutboxProtocol
  import Lifecycle = OutboxLifecycle
  import Deliveries = OutboxDelivery

  /** The UTC clock: it never goes back. */
  class Clock {
    var now: Time

    constructor (now: Time)
      ensures this.now == now
    {
      this.now := now;
    }

    method Now() returns (t: Time)
      modifies this
      ensures old(now) <= now && t == now
    {
      var elapsed: nat :| 0 <= elapsed;
      now := now + elapsed;
      t := now;
    }

    /** `asyncio.sleep`: it may take longer. */
    method Sleep(seconds: nat)
      modifies this
      ensures old(now) + Seconds(seconds) <= now
    {
      var elapsed: nat :| Seconds(seconds) <= elapsed;
      now := now + elapsed;
    }
  }

  // ---- app_platform/outbox/repo.py ------------------------------------------------

  /** No later than every row of `ids`. */
  ghost predicate EarliestOf(rows: Rows, ids: set<string>, id: string) {
    id in ids && id in rows && forall k :: k in ids && k in rows ==>
      LessEq(rows[id].event.occurredAt, rows[k].event.occurredAt)
  }

  ghost predicate InOrder(batch: seq<Event>) {
    forall i, j :: 0 <= i < j < |batch| ==> LessEq(batch[i].occurredAt, batch[j].occurredAt)
  }

  /** The first `limit` rows of `wanted` by time of occurrence; ties in any order. */
  ghost predicate FirstByTime(rows: Rows, wanted: set<string>, limit: nat, batch: seq<Event>) {
    && wanted <= rows.Keys && |batch| <= limit && InOrder(batch)
    && (forall i :: 0 <= i < |batch| ==> batch[i].eventId in wanted && Known(rows, batch[i]))
    && (forall i, j :: 0 <= i < j < |batch| ==> batch[i].eventId != batch[j].eventId)
    && (forall id :: id in wanted && !Contains(batch, id) ==>
          |batch| == limit && forall i :: 0 <= i < |batch| ==> LessEq(batch[i].occurredAt, rows[id].event.occurredAt))
  }

  predicate Contains(batch: seq<Event>, id: string) {
    exists i :: 0 <= i < |batch| && batch[i].eventId == id
  }

  method Earliest(rows: Rows, ids: set<string>) returns (id: string)
    requires ids != {} && ids <= rows.Keys
    ensures EarliestOf(rows, ids, id)
  {
    id :| id in ids;
    LessEqIsTotalOrder(rows[id].event.occurredAt, "", "");
    var rest := ids - {id};
    while rest != {}
      invariant rest <= ids && id in ids
      invariant forall k :: k in ids && k !in rest ==> LessEq(rows[id].event.occurredAt, rows[k].event.occurredAt)
      decreases rest
    {
      var k :| k in rest;
      if Less(rows[k].event.occurredAt, rows[id].event.occurredAt) {
        forall j | j in ids && j !in rest ensures LessEq(rows[k].event.occurredAt, rows[j].event.occurredAt) {
          LessEqIsTotalOrder(rows[k].event.occurredAt, rows[id].event.occurredAt, rows[j].event.occurredAt);
        }
        LessEqIsTotalOrder(rows[k].event.occurredAt, "", "");
        id := k;
      } else {
        LessEqIsTotalOrder(rows[id].event.occurredAt, rows[k].event.occurredAt, "");
      }
      rest := rest - {k};
    }
  }

  /** `find(...).sort("occurred_at", 1).limit(limit)`. */
  method SortedByTime(rows: Rows, wanted: set<string>, limit: nat) returns (batch: seq<Event>)
    requires wanted <= rows.Keys
    requires forall id :: id in rows ==> rows[id].event.eventId == id
    ensures FirstByTime(rows, wanted, limit, batch)
  {
    batch := [];
    var left := wanted;
    while left != {} && |batch| < limit
      invariant left <= wanted && |batch| <= limit && InOrder(batch)
      invariant forall i :: 0 <= i < |batch| ==> batch[i].eventId in wanted - left && Known(rows, batch[i])
      invariant forall i, j :: 0 <= i < j < |batch| ==> batch[i].eventId != batch[j].eventId
      invariant forall id :: id in wanted && id !in left ==> Contains(batch, id)
      invariant forall i, id :: 0 <= i < |batch| && id in left ==>
        LessEq(batch[i].occurredAt, rows[id].event.occurredAt)
      decreases left
    {
      var id := Earliest(rows, left);
      ghost var before := batch;
      batch := batch + [rows[id].event];
      left := left - {id};
      assert batch[|before|].eventId == id;
      assert forall k :: Contains(before, k) ==> Contains(batch, k) by {
        forall k | Contains(before, k) ensures Contains(batch, k) {
          var i :| 0 <= i < |before| && before[i].eventId == k;
          assert batch[i].eventId == k;
        }
      }
    }
  }

  /** What the query asks for: PENDING or FAILED, attempts left, the next date reached, no lock in force. */
  function DueIds(rows: Rows, maxAttempts: nat, now: Time): (r: set<string>)
    ensures forall id :: id in r <==>
      && id in rows && rows[id].status in {PENDING, FAILED} && rows[id].attempts < maxAttempts
      && (rows[id].nextAttemptAt.Some? ==> rows[id].nextAttemptAt.value <= now)
      && (rows[id].lockedUntil.Some? ==> rows[id].lockedUntil.value < now)
  {
    set id | id in rows && Due(rows[id], maxAttempts, now)
  }

  /** All SENT rows, or those with one of the given names. */
  function SentIds(rows: Rows, names: set<string>): (r: set<string>)
    ensures names == {} ==> forall id :: id in r <==> id in rows && rows[id].status == SENT
    ensures names != {} ==>
      forall id :: id in r <==> id in rows && rows[id].status == SENT && rows[id].event.name in names
  {
    set id | id in rows && rows[id].status == SENT && (names == {} || rows[id].event.name in names)
  }

  class OutboxRepository {
    var rows: Rows
    const clock: Clock
    ghost var replies: seq<Outcome> // how the calls of MarkSent have ended

    constructor (clock: Clock)
      ensures rows == map[] && this.clock == clock && replies == []
    {
      rows := map[];
      this.clock := clock;
      replies := [];
    }

    ghost predicate Valid()
      reads this
    {
      forall id :: id in rows ==> rows[id].event.eventId == id
    }

    /** The filter is the idempotency key when there is one, and `_id` otherwise. */
    method AddEvent(event: Event) returns (duplicateId: bool)
      requires Valid()
      modifies this`rows
      ensures Valid() && rows == Added(old(rows), event)
      ensures duplicateId <==> HasKey(event) && event.eventId in old(rows) && forall id :: id in old(rows) ==>
        !SameKey(old(rows)[id].event, event)
      ensures rows == old(rows) || rows == old(rows)[event.eventId := Row(event, PENDING, 0, None, None, None)]
      ensures rows != old(rows) <==>
        && event.eventId !in old(rows)
        && (event.idempotencyKey in {None, Some("")} || forall id :: id in old(rows) ==>
              var e := old(rows)[id].event;
              (e.name, e.eventVersion, e.idempotencyKey) != (event.name, event.eventVersion, event.idempotencyKey))
    {
      var matched := if HasKey(event) then exists id :: id in rows && SameKey(rows[id].event, event)
        else event.eventId in rows;
      duplicateId := !matched && event.eventId in rows;
      if !matched && !duplicateId {
        rows := rows[event.eventId := NewRow(event)];
      }
    }

    method GetPending(batchSize: nat, maxAttempts: nat) returns (batch: seq<Event>)
      requires Valid()
      modifies clock
      ensures old(clock.now) <= clock.now
      ensures FirstByTime(rows, DueIds(rows, maxAttempts, clock.now), batchSize, batch)
    {
      var now := clock.Now();
      batch := SortedByTime(rows, DueIds(rows, maxAttempts, now), batchSize);
    }

    method GetSent(names: set<string>, batchSize: nat) returns (batch: seq<Event>)
      requires Valid()
      ensures FirstByTime(rows, SentIds(rows, names), batchSize, batch)
    {
      batch := SortedByTime(rows, SentIds(rows, names), batchSize);
    }

    /** Compare-and-set on the lock alone: the status is not looked at. */
    method LockForProcessing(id: string, ttlSeconds: int) returns (locked: bool)
      requires Valid()
      modifies clock, this`rows
      ensures Valid() && old(clock.now) <= clock.now
      ensures locked ==> id in old(rows) && Lockable(old(rows)[id], clock.now)
      ensures 0 <= ttlSeconds && id in old(rows) && Lockable(old(rows)[id], clock.now) ==> locked
      ensures rows ==
        if locked then old(rows)[id := old(rows)[id].(lockedUntil := Some(Deadline(clock.now, ttlSeconds)))]
        else old(rows)
    {
      var now := clock.Now();
      locked := false;
      if id in rows && Lockable(rows[id], now) {
        var updated := rows[id].(lockedUntil := Some(Deadline(now, ttlSeconds)));
        locked := updated != rows[id];
        rows := rows[id := updated];
      }
    }

    /** The call may raise, with its write lost or with its write done. */
    method MarkSent(id: string) returns (outcome: Outcome)
      requires Valid()
      modifies this`rows, this`replies
      ensures Valid() && replies == old(replies) + [outcome]
      ensures rows ==
        if id in old(rows) && !outcome.RaisedBefore? then old(rows)[id := SentRow(old(rows)[id])] else old(rows)
      ensures !outcome.RaisedBefore? && id in old(rows) ==>
        && rows[id].status == SENT && rows[id].lastError == None && rows[id].lockedUntil == None
        && rows[id].attempts == old(rows)[id].attempts && rows[id].event == old(rows)[id].event
        && rows[id].nextAttemptAt == old(rows)[id].nextAttemptAt
    {
      outcome := *;
      replies := replies + [outcome];
      if id in rows && !outcome.RaisedBefore? {
        rows := rows[id := SentRow(rows[id])];
      }
    }

    method MarkFailed(id: string, err: string, maxAttempts: nat)
      requires Valid()
      modifies clock, this`rows
      ensures Valid() && old(clock.now) <= clock.now
      ensures rows ==
        if id in old(rows)
          then old(rows)[id := FailedRow(old(rows)[id], err, old(rows)[id].attempts + 1, maxAttempts, clock.now)]
            else old(rows)
      ensures id in old(rows) ==>
        var row, n := rows[id], old(rows)[id].attempts;
        && row.status == (if n + 1 < maxAttempts then FAILED else DEAD_LETTER)
        && row.attempts == n + 1 && row.lastError == Some(err) && row.lockedUntil == None
        && row.event == old(rows)[id].event
        && row.nextAttemptAt ==
          if n + 1 < maxAttempts then Some(clock.now + 1_000_000 * if Pow2(n) < 3600 then Pow2(n) else 3600) else None
    {
      var attempts := if id in rows then rows[id].attempts else 0;
      var now := clock.Now();
      if id in rows {
        rows := rows[id := FailedRow(rows[id], err, attempts + 1, maxAttempts, now)];
      }
    }
  }

  // ---- The read models -------------------------------------------------------------

  class ReadModelStore {
    var timeline: seq<TimelineRow>
    var audit: seq<AuditRow>
    ghost var replies: seq<Outcome> // how the calls of Invoke have ended

    constructor ()
      ensures timeline == [] && audit == [] && replies == []
    {
      timeline, audit, replies := [], [], [];
    }

    function Models(): ReadModels
      reads this
    {
      ReadModels(timeline, audit)
    }

    /** `update_one(..., {"$setOnInsert": entry}, upsert=True)` keyed by the source event. */
    method AppendEntry(entry: TimelineRow)
      modifies this`timeline
      ensures timeline == AppendTimeline(old(timeline), entry)
      ensures timeline ==
        if entry.sourceEventId == "" || exists r :: r in old(timeline) && r.sourceEventId == entry.sourceEventId
        then old(timeline) else old(timeline) + [entry]
    {
      if entry.sourceEventId == "" {
        return;
      }
      var i := 0;
      while i < |timeline|
        invariant 0 <= i <= |timeline| && timeline == old(timeline)
        invariant forall j :: 0 <= j < i ==> timeline[j].sourceEventId != entry.sourceEventId
      {
        if timeline[i].sourceEventId == entry.sourceEventId {
          return;
        }
        i := i + 1;
      }
      timeline := timeline + [entry];
    }

    method InsertAuditLog(row: AuditRow)
      modifies this`audit
      ensures audit == InsertAudit(old(audit), row)
      ensures audit == old(audit) || audit == old(audit) + [row]
      ensures audit == old(audit) <==> row.sourceEventId != "" && exists r ::
        && r in old(audit)
        && r.sourceEventId == row.sourceEventId && r.action == row.action && r.resourceType == row.resourceType
    {
      if row.sourceEventId != "" {
        var i := 0;
        while i < |audit|
          invariant 0 <= i <= |audit| && audit == old(audit)
          invariant forall j :: 0 <= j < i ==> !SameAuditKey(audit[j], row)
        {
          if SameAuditKey(audit[i], row) {
            return;
          }
          i := i + 1;
        }
      }
      audit := audit + [row];
    }

    /** One handler call; the environment decides whether and where it raises. */
    method Invoke(h: Handler, event: Event) returns (outcome: Outcome)
      modifies this
      ensures Models() == if outcome.RaisedBefore? then old(Models()) else Deliver(old(Models()), h, event)
      ensures replies == old(replies) + [outcome]
    {
      outcome := *;
      replies := replies + [outcome];
      if !outcome.RaisedBefore? {
        match h {
          case TimelineHandler =>
            match TimelineRowOf(event) {
              case Some(entry) => AppendEntry(entry);
              case None =>
            }
          case AuditHandler => InsertAuditLog(AuditRowOf(event));
          case OtherHandler(_) =>
        }
      }
    }
  }

  // ---- app_platform/event_bus/bus.py -----------------------------------------------

  /** What a publish did: every call but the last completed, and it stopped at a raise or at the end. */
  ghost predicate PublishOutcomes(outcomes: seq<Outcome>, handlers: nat) {
    && |outcomes| <= handlers
    && (forall i :: 0 <= i < |outcomes| - 1 ==> outcomes[i].Completed?)
    && (|outcomes| < handlers ==> outcomes != [] && !outcomes[|outcomes| - 1].Completed?)
  }

  ghost function RaisedIn(outcomes: seq<Outcome>): Option<string> {
    if outcomes == [] || outcomes[|outcomes| - 1].Completed? then None else Some(outcomes[|outcomes| - 1].err)
  }

  /** The read models after the first calls of a publish. */
  ghost function AfterCalls(m: ReadModels, handlers: seq<Handler>, e: Event, outcomes: seq<Outcome>): ReadModels
    requires |outcomes| <= |handlers|
  {
    if outcomes == [] then m
    else
      var n := |outcomes| - 1;
      var before := AfterCalls(m, handlers, e, outcomes[..n]);
      if outcomes[n].RaisedBefore? then before else Deliver(before, handlers[n], e)
  }

  class EventBus {
    var subscriptions: map<string, seq<Handler>>

    constructor ()
      ensures subscriptions == map[]
    {
      subscriptions := map[];
    }

    function Handlers(name: string): seq<Handler>
      reads this
    {
      if name in subscriptions then subscriptions[name] else []
    }

    method Subscribe(name: string, h: Handler)
      modifies this
      ensures Handlers(name) == old(Handlers(name)) + [h]
      ensures forall other :: other != name ==> Handlers(other) == old(Handlers(other))
    {
      subscriptions := subscriptions[name := Handlers(name) + [h]];
    }

    /** Handlers in order of subscription; the first exception ends the publish. */
    method Publish(event: Event, store: ReadModelStore) returns (raised: Option<string>, ghost outcomes: seq<Outcome>)
      modifies store
      ensures PublishOutcomes(outcomes, |Handlers(event.name)|)
      ensures raised == RaisedIn(outcomes) && store.replies == old(store.replies) + outcomes
      ensures store.Models() == AfterCalls(old(store.Models()), Handlers(event.name), event, outcomes)
    {
      var handlers := Handlers(event.name);
      raised, outcomes := None, [];
      var i := 0;
      while i < |handlers|
        invariant 0 <= i <= |handlers| && |outcomes| == i && raised == None
        invariant store.replies == old(store.replies) + outcomes
        invariant forall j :: 0 <= j < i ==> outcomes[j].Completed?
        invariant store.Models() == AfterCalls(old(store.Models()), handlers, event, outcomes)
      {
        var outcome := store.Invoke(handlers[i], event);
        ghost var before := outcomes;
        outcomes := outcomes + [outcome];
        assert outcomes[..i] == before;
        if !outcome.Completed? {
          raised := Some(outcome.err);
          return;
        }
        i := i + 1;
      }
    }
  }

  const TIMELINE_EVENT_NAMES: seq<string> := [
    "DocumentUploaded", "DocumentLocked", "DocumentMetadataUpdated", "DocumentDeleted",
    "DocumentLegalHoldApplied", "DocumentLegalHoldReleased", "DocumentAccessed", "DocumentArchived",
    "DocumentScanCompleted", "DocumentExpiringSoon", "DocumentExpired"]

  function WithTimeline(handlers: seq<Handler>, name: string, names: seq<string>): seq<Handler> {
    if name in names then handlers + [TimelineHandler] else handlers
  }

  lemma TimelineNames()
    ensures NoRepeats(TIMELINE_EVENT_NAMES)
    ensures forall name :: name in TIMELINE_EVENT_NAMES <==>
      name in {"DocumentUploaded", "DocumentLocked", "DocumentMetadataUpdated", "DocumentDeleted",
        "DocumentLegalHoldApplied", "DocumentLegalHoldReleased", "DocumentAccessed", "DocumentArchived",
        "DocumentScanCompleted", "DocumentExpiringSoon", "DocumentExpired"}
  {
  }

  lemma NotAmongEarlier(names: seq<string>, i: nat)
    requires NoRepeats(names) && i < |names|
    ensures names[i] !in names[..i]
  {
  }

  /** `for event_name in _TIMELINE_EVENT_NAMES: event_bus.subscribe(event_name, _on_event)`. */
  method RegisterDocumentsSubscribers(bus: EventBus)
    modifies bus
    ensures forall name :: bus.Handlers(name) == WithTimeline(old(bus.Handlers(name)), name, TIMELINE_EVENT_NAMES)
    ensures forall name :: TimelineHandler in bus.Handlers(name) <==>
      || TimelineHandler in old(bus.Handlers(name))
      || name in {"DocumentUploaded", "DocumentLocked", "DocumentMetadataUpdated", "DocumentDeleted",
           "DocumentLegalHoldApplied", "DocumentLegalHoldReleased", "DocumentAccessed", "DocumentArchived",
           "DocumentScanCompleted", "DocumentExpiringSoon", "DocumentExpired"}
  {
    hide NoRepeats;
    TimelineNames();
    var i := 0;
    while i < |TIMELINE_EVENT_NAMES|
      invariant 0 <= i <= |TIMELINE_EVENT_NAMES|
      invariant forall name ::
        bus.Handlers(name) == WithTimeline(old(bus.Handlers(name)), name, TIMELINE_EVENT_NAMES[..i])
    {
      assert TIMELINE_EVENT_NAMES[..i + 1] == TIMELINE_EVENT_NAMES[..i] + [TIMELINE_EVENT_NAMES[i]];
      NotAmongEarlier(TIMELINE_EVENT_NAMES, i);
      bus.Subscribe(TIMELINE_EVENT_NAMES[i], TimelineHandler);
      i := i + 1;
    }
  }

  // ---- Publishes as runs of the step system ------------------------------------------

  ghost function HandleActions(w: WorkerId, outcomes: seq<Outcome>): (r: seq<Action>)
    ensures |r| == |outcomes| && forall i :: 0 <= i < |r| ==> r[i] == Handle(w, outcomes[i])
  {
    seq(|outcomes|, i requires 0 <= i < |outcomes| => Handle(w, outcomes[i]))
  }

  /** Rows and clock as before, the calls delivered, and the worker where the last call left it. */
  ghost predicate Published(cfg: Config, s: State, t: State, w: WorkerId, outcomes: seq<Outcome>)
    requires WorkerOf(s, w).task.Publishing?
    requires |outcomes| <= |HandlersFor(cfg, WorkerOf(s, w).task.event.name)|
  {
    var me := WorkerOf(s, w);
    && t.rows == s.rows && t.now == s.now && t.ledger.completed == s.ledger.completed
    && (forall v :: v != w ==> WorkerOf(t, v) == WorkerOf(s, v))
    && t.models == AfterCalls(s.models, HandlersFor(cfg, me.task.event.name), me.task.event, outcomes)
    && WorkerOf(t, w) == me.(task := match RaisedIn(outcomes)
                                     case None => Publishing(me.task.event, me.task.until, |outcomes|)
                                     case Some(err) => Raised(me.task.event, me.task.until, err))
  }

  lemma HandleActionsStep(w: WorkerId, outcomes: seq<Outcome>)
    requires outcomes != []
    ensures var n, r := |outcomes| - 1, HandleActions(w, outcomes);
      |r| == n + 1 && r[..n] == HandleActions(w, outcomes[..n]) && r[n] == Handle(w, outcomes[n])
  {
  }

  lemma HandleMoves(cfg: Config, s: State, w: WorkerId, outcome: Outcome)
    requires WorkerOf(s, w).task.Publishing?
    requires WorkerOf(s, w).task.done < |HandlersFor(cfg, WorkerOf(s, w).task.event.name)|
    ensures var t, me := HandleStep(cfg, s, w, outcome), WorkerOf(s, w);
      var h := HandlersFor(cfg, me.task.event.name)[me.task.done];
      && t.rows == s.rows && t.now == s.now && t.ledger.completed == s.ledger.completed
      && (forall v :: v != w ==> WorkerOf(t, v) == WorkerOf(s, v))
      && t.models == (if outcome.RaisedBefore? then s.models else Deliver(s.models, h, me.task.event))
      && WorkerOf(t, w) == me.(task :=
           if outcome.Completed? then Publishing(me.task.event, me.task.until, me.task.done + 1)
           else Raised(me.task.event, me.task.until, outcome.err))
  {
    hide Deliver, HandlersFor;
  }

  lemma {:induction false} PublishedCall(cfg: Config, s: State, t: State, w: WorkerId, outcomes: seq<Outcome>)
    requires WorkerOf(s, w).task.Publishing? && WorkerOf(s, w).task.done == 0 && outcomes != []
    requires |outcomes| <= |HandlersFor(cfg, WorkerOf(s, w).task.event.name)|
    requires Published(cfg, s, t, w, outcomes[..|outcomes| - 1]) && RaisedIn(outcomes[..|outcomes| - 1]).None?
    ensures Published(cfg, s, HandleStep(cfg, t, w, outcomes[|outcomes| - 1]), w, outcomes)
  {
    hide HandleStep, Deliver, HandlersFor;
    HandleMoves(cfg, t, w, outcomes[|outcomes| - 1]);
  }

  lemma {:induction false} PublishIsRun(cfg: Config, s: State, w: WorkerId, outcomes: seq<Outcome>)
    requires WorkerOf(s, w).task.Publishing? && WorkerOf(s, w).task.done == 0
    requires |outcomes| <= |HandlersFor(cfg, WorkerOf(s, w).task.event.name)|
    requires forall i :: 0 <= i < |outcomes| - 1 ==> outcomes[i].Completed?
    ensures Published(cfg, s, Run(cfg, s, HandleActions(w, outcomes)), w, outcomes)
    decreases |outcomes|
  {
    if outcomes != [] {
      hide HandleStep, HandlersFor, Published, HandleActions, AfterCalls;
      var n := |outcomes| - 1;
      PublishIsRun(cfg, s, w, outcomes[..n]);
      HandleActionsStep(w, outcomes);
      PublishedCall(cfg, s, Run(cfg, s, HandleActions(w, outcomes[..n])), w, outcomes);
    } else {
      hide Step;
    }
  }

  /** Reading the attempts and writing the failure, with nothing of this worker in between. */
  lemma FailureSteps(cfg: Config, s: State, w: WorkerId, elapsed: nat)
    requires WorkerOf(s, w).task.Raised? && WorkerOf(s, w).task.event.eventId in s.rows
    ensures var t := Run(cfg, s, [ReadAttempts(w), Tick(elapsed), MarkFailed(w)]);
      var me, id := WorkerOf(s, w), WorkerOf(s, w).task.event.eventId;
      && t.rows ==
        s.rows[id := FailedRow(s.rows[id], me.task.err, s.rows[id].attempts + 1, cfg.maxAttempts, s.now + elapsed)]
      && t.now == s.now + elapsed && t.models == s.models && t.ledger.completed == s.ledger.completed + 1
      && WorkerOf(t, w) == me.(task := Idle) && forall v :: v != w ==> WorkerOf(t, v) == WorkerOf(s, v)
  {
    var none, one, two: seq<Action> := [], [ReadAttempts(w)], [ReadAttempts(w), Tick(elapsed)];
    assert [ReadAttempts(w), Tick(elapsed), MarkFailed(w)][..2] == two && two[..1] == one && one[..0] == none;
    assert Run(cfg, s, none) == s;
    assert Run(cfg, s, one) == ReadAttemptsStep(s, w);
    assert Run(cfg, s, two) == ReadAttemptsStep(s, w).(now := s.now + elapsed);
  }

  // ---- A replayed publish as a run ---------------------------------------------------

  /** One action for each call, and one more to go on to the next event when none raised. */
  ghost function ReplayActions(w: WorkerId, outcomes: seq<Outcome>): seq<Action> {
    if outcomes == [] then []
    else ReplayActions(w, outcomes[..|outcomes| - 1]) + [ReplayHandle(w, outcomes[|outcomes| - 1])]
  }

  /** Nothing but the read models and the queue of `w` has moved. */
  ghost predicate Replayed(cfg: Config, s: State, t: State, w: WorkerId, queue: seq<Event>, done: nat) {
    && t.rows == s.rows && t.now == s.now && t.ledger.completed == s.ledger.completed
    && (forall v :: v != w ==> WorkerOf(t, v) == WorkerOf(s, v))
    && WorkerOf(t, w) == Worker(WorkerOf(s, w).batch, Replaying(queue, done))
  }

  /** `t` is `s` after the first calls of the event at the head of the queue. */
  ghost predicate CallsReplayed(cfg: Config, s: State, t: State, w: WorkerId, queue: seq<Event>, outcomes: seq<Outcome>)
    requires queue != [] && |outcomes| <= |HandlersFor(cfg, queue[0].name)|
  {
    && t.models == AfterCalls(s.models, HandlersFor(cfg, queue[0].name), queue[0], outcomes)
    && (if RaisedIn(outcomes).None?
      then Replayed(cfg, s, t, w, queue, |outcomes|) else Replayed(cfg, s, t, w, queue[1..], 0))
  }

  lemma ReplayedCall(cfg: Config, s: State, t: State, w: WorkerId, queue: seq<Event>, outcomes: seq<Outcome>)
    requires queue != [] && queue[0].eventId != "" && outcomes != [] && |outcomes| <= |HandlersFor(cfg, queue[0].name)|
    requires CallsReplayed(cfg, s, t, w, queue, outcomes[..|outcomes| - 1])
      && RaisedIn(outcomes[..|outcomes| - 1]).None?
    ensures CallsReplayed(cfg, s, ReplayStep(cfg, t, w, outcomes[|outcomes| - 1]), w, queue, outcomes)
  {
    hide ReplayStep, Deliver, HandlersFor;
    ReplayMoves(cfg, t, w, outcomes[|outcomes| - 1]);
  }

  lemma ReplayMoves(cfg: Config, s: State, w: WorkerId, outcome: Outcome)
    requires WorkerOf(s, w).task.Replaying? && WorkerOf(s, w).task.queue != []
      && WorkerOf(s, w).task.queue[0].eventId != ""
    requires WorkerOf(s, w).task.done < |HandlersFor(cfg, WorkerOf(s, w).task.queue[0].name)|
    ensures var t, task := ReplayStep(cfg, s, w, outcome), WorkerOf(s, w).task;
      var h := HandlersFor(cfg, task.queue[0].name)[task.done];
      && t.models == (if outcome.RaisedBefore? then s.models else Deliver(s.models, h, task.queue[0]))
      && (if outcome.Completed?
        then Replayed(cfg, s, t, w, task.queue, task.done + 1) else Replayed(cfg, s, t, w, task.queue[1..], 0))
  {
    hide Deliver, HandlersFor;
  }

  lemma {:induction false} ReplayedCalls(cfg: Config, s: State, w: WorkerId, outcomes: seq<Outcome>)
    requires WorkerOf(s, w).task.Replaying? && WorkerOf(s, w).task.done == 0
    requires WorkerOf(s, w).task.queue != [] && WorkerOf(s, w).task.queue[0].eventId != ""
    requires |outcomes| <= |HandlersFor(cfg, WorkerOf(s, w).task.queue[0].name)|
    requires forall i :: 0 <= i < |outcomes| - 1 ==> outcomes[i].Completed?
    ensures CallsReplayed(cfg, s, Run(cfg, s, ReplayActions(w, outcomes)), w, WorkerOf(s, w).task.queue, outcomes)
    decreases |outcomes|
  {
    hide Deliver, ReplayStep, HandlersFor, LockStep, HandleStep, MarkSentStep, ReadAttemptsStep, MarkFailedStep,
      CrashStep;
    if outcomes != [] {
      hide CallsReplayed;
      var n := |outcomes| - 1;
      var before := ReplayActions(w, outcomes[..n]);
      ReplayedCalls(cfg, s, w, outcomes[..n]);
      assert (before + [ReplayHandle(w, outcomes[n])])[..|before|] == before;
      ReplayedCall(cfg, s, Run(cfg, s, before), w, WorkerOf(s, w).task.queue, outcomes);
    }
  }

  // ---- app_platform/outbox/dispatcher.py ---------------------------------------------

  predicate FailedAt(before: Row, after: Row, maxAttempts: nat, err: string, now: Time) {
    after == FailedRow(before, err, before.attempts + 1, maxAttempts, now)
  }

  /** One attempt at an event: how its handlers ended, and how `mark_sent` did if none of them raised. */
  datatype Attempt = Attempt(event: Event, calls: seq<Outcome>, mark: Option<Outcome>)

  ghost predicate Answered(a: Attempt, handlers: nat) {
    PublishOutcomes(a.calls, handlers) && (a.mark.Some? <==> RaisedIn(a.calls).None?)
  }

  lemma AnsweredWithin(a: Attempt, handlers: nat)
    requires Answered(a, handlers)
    ensures |a.calls| <= handlers
  {
  }

  /** What raised in an attempt, if anything. */
  ghost function Failure(a: Attempt): Option<string> {
    if RaisedIn(a.calls).Some? then RaisedIn(a.calls)
    else if a.mark.Some? && !a.mark.value.Completed? then Some(a.mark.value.err)
    else None
  }

  /** The row is SENT if nothing raised, and otherwise failed with that error, at a time not before `since`. */
  ghost predicate Attempted(before: Row, after: Row, failure: Option<string>, maxAttempts: nat, since: Time) {
    match failure
    case None => after == SentRow(before)
    case Some(err) => exists now :: since <= now && FailedAt(before, after, maxAttempts, err, now)
  }

  /** Each attempt has left its mark on its row, and no other row has changed. */
  ghost predicate Drained(before: Rows, after: Rows, attempts: seq<Attempt>, maxAttempts: nat, since: Time) {
    && after.Keys == before.Keys
    && (forall i :: 0 <= i < |attempts| ==> var id := attempts[i].event.eventId;
          id in before && Attempted(before[id], after[id], Failure(attempts[i]), maxAttempts, since))
    && (forall id :: id in before && (forall i :: 0 <= i < |attempts| ==> attempts[i].event.eventId != id) ==>
          after[id] == before[id])
  }

  /** The collections, and how all calls have ended that were made on them. */
  datatype Seen = Seen(rows: Rows, models: ReadModels, calls: seq<Outcome>, marks: seq<Outcome>)

  /** What attempts, one after another, make of the collections: each is answered by the calls made for it, and
      rows and read models are what these answers make of them. */
  ghost predicate Follows(bus: EventBus, before: Seen, after: Seen, attempts: seq<Attempt>, maxAttempts: nat,
      since: Time)
    reads bus
  {
    && (forall i :: 0 <= i < |attempts| ==> Answered(attempts[i], |bus.Handlers(attempts[i].event.name)|))
    && Drained(before.rows, after.rows, attempts, maxAttempts, since)
    && after.models == AfterPublishes(bus, before.models, Publishes(attempts))
    && after.calls == before.calls + Replies(Publishes(attempts))
    && after.marks == before.marks + Marks(attempts)
  }

  /** The attempts as publishes. */
  ghost function Publishes(attempts: seq<Attempt>): (r: seq<(Event, seq<Outcome>)>)
    ensures |r| == |attempts|
  {
    seq(|attempts|, i requires 0 <= i < |attempts| => (attempts[i].event, attempts[i].calls))
  }

  /** How the calls of `mark_sent` ended, in order. */
  ghost function Marks(attempts: seq<Attempt>): seq<Outcome> {
    if attempts == [] then []
    else
      var last := attempts[|attempts| - 1];
      Marks(attempts[..|attempts| - 1]) + if last.mark.Some? then [last.mark.value] else []
  }

  /** The events of a batch that have an identifier. */
  function Identified(batch: seq<Event>): seq<Event> {
    if batch == [] then []
    else Identified(batch[..|batch| - 1]) + if batch[|batch| - 1].eventId == "" then [] else [batch[|batch| - 1]]
  }

  lemma NothingFollows(bus: EventBus, seen: Seen, maxAttempts: nat, since: Time)
    ensures Follows(bus, seen, seen, [], maxAttempts, since) && EventsOf(Publishes([])) == Identified([])
  {
    assert Publishes([]) == [];
  }

  /** One drain: what it found, took and left. */
  datatype Drain = Drain(before: Rows, after: Rows, fetched: Time, batch: seq<Event>, attempts: seq<Attempt>)

  ghost predicate IsDrain(d: Drain, maxAttempts: nat, batchSize: nat) {
    && FirstByTime(d.before, DueIds(d.before, maxAttempts, d.fetched), batchSize, d.batch)
    && EventsOf(Publishes(d.attempts)) == Identified(d.batch)
    && Drained(d.before, d.after, d.attempts, maxAttempts, d.fetched)
  }

  /** The batch was not full, and every row that is neither SENT nor DEAD_LETTER had its next date reached and
      no lock in force. */
  ghost predicate Quiet(d: Drain, batchSize: nat) {
    && |d.batch| < batchSize
    && forall id :: id in d.before && d.before[id].status in {PENDING, FAILED} ==>
      && (d.before[id].nextAttemptAt.Some? ==> d.before[id].nextAttemptAt.value <= d.fetched)
      && (d.before[id].lockedUntil.Some? ==> d.before[id].lockedUntil.value < d.fetched)
  }

  ghost function QuietDrains(drains: seq<Drain>, batchSize: nat): nat {
    if drains == [] then 0
    else QuietDrains(drains[..|drains| - 1], batchSize) + if Quiet(drains[|drains| - 1], batchSize) then 1 else 0
  }

  function AddedAll(rows: Rows, events: seq<Event>): Rows {
    if events == [] then rows else Added(AddedAll(rows, events[..|events| - 1]), events[|events| - 1])
  }

  /** The rows after the drains and the arrivals. */
  ghost function AtEnd(rows: Rows, drains: seq<Drain>, arrivals: seq<seq<Event>>): Rows
    requires |drains| == |arrivals|
  {
    if drains == [] then rows else AddedAll(drains[|drains| - 1].after, arrivals[|drains| - 1])
  }

  /** Each drain finds what the drain before it and the arrivals after that have left. */
  ghost predicate Chained(rows: Rows, drains: seq<Drain>, arrivals: seq<seq<Event>>) {
    && |drains| == |arrivals|
    && (drains != [] ==>
          var n := |drains| - 1;
          Chained(rows, drains[..n], arrivals[..n]) && drains[n].before == AtEnd(rows, drains[..n], arrivals[..n]))
  }

  lemma {:induction false} AddedAllKeeps(rows: Rows, events: seq<Event>)
    ensures forall id :: id in rows ==> id in AddedAll(rows, events) && AddedAll(rows, events)[id] == rows[id]
  {
    if events != [] { AddedAllKeeps(rows, events[..|events| - 1]); }
  }

  /** A row that was neither SENT nor DEAD_LETTER, unlocked and with its next date reached, has been attempted
      unless the batch was full; a row that was SENT or DEAD_LETTER stays. */
  lemma OpenRowIsAttempted(d: Drain, maxAttempts: nat, batchSize: nat, id: string)
    requires IsDrain(d, maxAttempts, batchSize) && id in d.before && id != ""
    ensures d.before[id].status in {SENT, DEAD_LETTER} ==> id in d.after && d.after[id] == d.before[id]
    ensures
      && d.before[id].status in {PENDING, FAILED} && d.before[id].attempts < maxAttempts && |d.batch| < batchSize
      && (d.before[id].nextAttemptAt.Some? ==> d.before[id].nextAttemptAt.value <= d.fetched)
      && (d.before[id].lockedUntil.Some? ==> d.before[id].lockedUntil.value < d.fetched) ==>
        exists i :: 0 <= i < |d.attempts| && d.attempts[i].event.eventId == id
  {
    hide Attempted, Identified, Due;
    IdentifiedHolds(d.batch, id);
    var events := EventsOf(Publishes(d.attempts));
    forall i | 0 <= i < |d.attempts| ensures events[i] == d.attempts[i].event { }
    if Contains(d.batch, id) {
      var i :| 0 <= i < |events| && events[i].eventId == id;
      assert d.attempts[i].event.eventId == id;
      var k :| 0 <= k < |d.batch| && d.batch[k].eventId == id;
      assert id in DueIds(d.before, maxAttempts, d.fetched);
    } else {
      forall i | 0 <= i < |d.attempts| ensures d.attempts[i].event.eventId != id {
        assert events[i].eventId == d.attempts[i].event.eventId;
      }
    }
  }

  /** What one drain makes of a row. */
  lemma DrainMovesRow(d: Drain, maxAttempts: nat, batchSize: nat, id: string)
    requires IsDrain(d, maxAttempts, batchSize) && id in d.before && id != ""
    requires Lifecycle.StatusFitsAttempts(d.before[id], maxAttempts)
    ensures id in d.after && Lifecycle.StatusFitsAttempts(d.after[id], maxAttempts)
    ensures d.after[id].status in {SENT, DEAD_LETTER} || d.after[id].attempts >= d.before[id].attempts
    ensures d.before[id].status in {SENT, DEAD_LETTER} ==> d.after[id] == d.before[id]
    ensures Quiet(d, batchSize) && maxAttempts >= 1 ==>
      d.after[id].status in {SENT, DEAD_LETTER} || d.after[id].attempts == d.before[id].attempts + 1
  {
    hide FirstByTime, DueIds, Identified, Attempted, Failure, Lifecycle.StatusFitsAttempts;
    OpenRowIsAttempted(d, maxAttempts, batchSize, id);
    AttemptedIsOpen(d, maxAttempts, batchSize);
    if d.before[id].status in {PENDING, FAILED} && maxAttempts >= 1 { OpenHasAttemptsLeft(d.before[id], maxAttempts); }
    if exists i :: 0 <= i < |d.attempts| && d.attempts[i].event.eventId == id {
      var i :| 0 <= i < |d.attempts| && d.attempts[i].event.eventId == id;
      AttemptMovesRow(d.before[id], d.after[id], Failure(d.attempts[i]), maxAttempts, d.fetched);
    } else {
      assert d.after[id] == d.before[id];
      var row := d.before[id];
      assert row.status.PENDING? || row.status.FAILED? || row.status.SENT? || row.status.DEAD_LETTER?;
    }
  }

  lemma OpenHasAttemptsLeft(row: Row, maxAttempts: nat)
    requires Lifecycle.StatusFitsAttempts(row, maxAttempts) && row.status in {PENDING, FAILED} && maxAttempts >= 1
    ensures row.attempts < maxAttempts
  {
  }

  lemma AttemptMovesRow(before: Row, after: Row, failure: Option<string>, maxAttempts: nat, since: Time)
    requires Attempted(before, after, failure, maxAttempts, since)
    requires Lifecycle.StatusFitsAttempts(before, maxAttempts) && before.attempts < maxAttempts
    ensures Lifecycle.StatusFitsAttempts(after, maxAttempts)
    ensures after.status in {SENT, DEAD_LETTER} || after.attempts == before.attempts + 1
  {
    hide BackoffSeconds, Seconds;
  }

  /** Only rows with attempts left are attempted. */
  lemma AttemptedIsOpen(d: Drain, maxAttempts: nat, batchSize: nat)
    requires IsDrain(d, maxAttempts, batchSize)
    ensures forall i :: 0 <= i < |d.attempts| ==>
      var id := d.attempts[i].event.eventId;
      id in d.before && d.before[id].status in {PENDING, FAILED} && d.before[id].attempts < maxAttempts
  {
    hide Attempted, Identified, Due;
    var events := EventsOf(Publishes(d.attempts));
    forall i | 0 <= i < |d.attempts|
      ensures var id := d.attempts[i].event.eventId;
        id in d.before && d.before[id].status in {PENDING, FAILED} && d.before[id].attempts < maxAttempts
    {
      var id := d.attempts[i].event.eventId;
      assert events[i].eventId == id;
      IdentifiedHolds(d.batch, id);
      var k :| 0 <= k < |d.batch| && d.batch[k].eventId == id;
      assert id in DueIds(d.before, maxAttempts, d.fetched);
    }
  }

  /** After every quiet drain a row has one attempt more, or it is done. */
  lemma {:induction false} QuietDrainsCount(rows: Rows, drains: seq<Drain>, arrivals: seq<seq<Event>>, maxAttempts: nat,
      batchSize: nat, id: string)
    requires Chained(rows, drains, arrivals) && forall i :: 0 <= i < |drains| ==>
      IsDrain(drains[i], maxAttempts, batchSize)
    requires id in rows && id != "" && Lifecycle.StatusFitsAttempts(rows[id], maxAttempts) && maxAttempts >= 1
    ensures var end := AtEnd(rows, drains, arrivals);
      && id in end && Lifecycle.StatusFitsAttempts(end[id], maxAttempts)
      && (end[id].status in {SENT, DEAD_LETTER} || end[id].attempts >= QuietDrains(drains, batchSize))
  {
    hide IsDrain, Quiet, Lifecycle.StatusFitsAttempts;
    if drains != [] {
      var n := |drains| - 1;
      assert forall i :: 0 <= i < n ==> drains[..n][i] == drains[i];
      QuietDrainsCount(rows, drains[..n], arrivals[..n], maxAttempts, batchSize, id);
      DrainMovesRow(drains[n], maxAttempts, batchSize, id);
      AddedAllKeeps(drains[n].after, arrivals[n]);
    }
  }

  /** Every failure comes back until it is done: as many quiet drains as there are attempts, among any others,
      leave every row that has an identifier SENT or DEAD_LETTER. */
  lemma {:induction false} RetriesEnd(rows: Rows, drains: seq<Drain>, arrivals: seq<seq<Event>>, maxAttempts: nat,
      batchSize: nat)
    requires forall id :: id in rows ==> Lifecycle.StatusFitsAttempts(rows[id], maxAttempts)
    requires Chained(rows, drains, arrivals) && forall i :: 0 <= i < |drains| ==>
      IsDrain(drains[i], maxAttempts, batchSize)
    requires QuietDrains(drains, batchSize) >= maxAttempts >= 1
    ensures var end := AtEnd(rows, drains, arrivals);
      forall id :: id in rows && id != "" ==> id in end && end[id].status in {SENT, DEAD_LETTER}
  {
    hide IsDrain, QuietDrains, AtEnd;
    forall id | id in rows && id != ""
      ensures var end := AtEnd(rows, drains, arrivals); id in end && end[id].status in {SENT, DEAD_LETTER}
    {
      QuietDrainsCount(rows, drains, arrivals, maxAttempts, batchSize, id);
    }
  }

  lemma {:induction false} DrainedOneMore(before: Rows, now: Rows, after: Rows, attempts: seq<Attempt>, a: Attempt,
      maxAttempts: nat, since: Time)
    requires forall i :: 0 <= i < |attempts| ==> attempts[i].event.eventId != a.event.eventId
    requires Drained(before, now, attempts, maxAttempts, since) && Drained(now, after, [a], maxAttempts, since)
    ensures Drained(before, after, attempts + [a], maxAttempts, since)
  {
    hide Attempted, Failure;
    var more, n := attempts + [a], |attempts|;
    assert more[n] == a && [a][0] == a;
    forall id | id in before && forall i :: 0 <= i < |more| ==> more[i].event.eventId != id
      ensures after[id] == before[id]
    {
      forall i | 0 <= i < n ensures attempts[i].event.eventId != id { assert more[i] == attempts[i]; }
      assert now[id] == before[id];
    }
  }

  lemma {:induction false} FollowsOneMore(bus: EventBus, before: Seen, now: Seen, after: Seen, attempts: seq<Attempt>,
      a: Attempt, maxAttempts: nat, since: Time)
    requires forall i :: 0 <= i < |attempts| ==> attempts[i].event.eventId != a.event.eventId
    requires Follows(bus, before, now, attempts, maxAttempts, since)
    requires Follows(bus, now, after, [a], maxAttempts, since)
    ensures Follows(bus, before, after, attempts + [a], maxAttempts, since)
    ensures EventsOf(Publishes(attempts + [a])) == EventsOf(Publishes(attempts)) + [a.event]
  {
    hide Attempted, Failure, Drained, AfterCalls, PublishOutcomes, RaisedIn, AfterPublishes, Replies, Marks, Publishes,
      EventsOf;
    var more := attempts + [a];
    DrainedOneMore(before.rows, now.rows, after.rows, attempts, a, maxAttempts, since);
    assert more[|attempts|] == a && [a][0] == a;
    AnsweredWithin(a, |bus.Handlers(a.event.name)|);
    OneAttempt(bus, now.models, a);
    AttemptsOneMore(bus, before.models, attempts, a);
    forall i | 0 <= i < |more| ensures Answered(more[i], |bus.Handlers(more[i].event.name)|) {
      if i < |attempts| { assert more[i] == attempts[i]; }
    }
  }

  lemma {:induction false} AttemptsOneMore(bus: EventBus, m: ReadModels, attempts: seq<Attempt>, a: Attempt)
    requires |a.calls| <= |bus.Handlers(a.event.name)|
    ensures AfterPublishes(bus, m, Publishes(attempts + [a])) ==
      AfterCalls(AfterPublishes(bus, m, Publishes(attempts)), bus.Handlers(a.event.name), a.event, a.calls)
    ensures Replies(Publishes(attempts + [a])) == Replies(Publishes(attempts)) + a.calls
    ensures Marks(attempts + [a]) == Marks(attempts) + if a.mark.Some? then [a.mark.value] else []
    ensures EventsOf(Publishes(attempts + [a])) == EventsOf(Publishes(attempts)) + [a.event]
  {
    hide AfterCalls, AfterPublishes, Replies, CleanPublishes, RaisedIn;
    var more := attempts + [a];
    assert more[..|attempts|] == attempts && more[|attempts|] == a;
    assert Publishes(more) == Publishes(attempts) + [(a.event, a.calls)];
    PublishedStep(bus, m, Publishes(attempts), a.event, a.calls);
  }

  /** One attempt is one publish and, if none of its handlers raised, one mark. */
  lemma OneAttempt(bus: EventBus, m: ReadModels, a: Attempt)
    requires |a.calls| <= |bus.Handlers(a.event.name)|
    ensures AfterPublishes(bus, m, Publishes([a])) == AfterCalls(m, bus.Handlers(a.event.name), a.event, a.calls)
    ensures Replies(Publishes([a])) == a.calls
    ensures Marks([a]) == if a.mark.Some? then [a.mark.value] else []
  {
    hide AfterCalls;
    var none: seq<(Event, seq<Outcome>)> := [];
    assert Publishes([a]) == none + [(a.event, a.calls)] && [a][..0] == [];
    NothingPublished(bus, m);
    PublishedStep(bus, m, none, a.event, a.calls);
  }

  lemma {:induction false} ContainsOneMore(batch: seq<Event>, i: nat, id: string)
    requires i < |batch|
    ensures Contains(batch[..i + 1], id) <==> Contains(batch[..i], id) || id == batch[i].eventId
    ensures (forall j, k :: 0 <= j < k < |batch| ==> batch[j].eventId != batch[k].eventId) ==>
      !Contains(batch[..i], batch[i].eventId)
  {
    if Contains(batch[..i], id) {
      var j :| 0 <= j < i && batch[..i][j].eventId == id;
      assert batch[..i + 1][j].eventId == id;
    }
    assert batch[..i + 1][i] == batch[i];
    if Contains(batch[..i + 1], id) && id != batch[i].eventId {
      var j :| 0 <= j < i + 1 && batch[..i + 1][j].eventId == id;
      assert batch[..i][j].eventId == id;
    }
  }

  /** Exactly the events with an identifier are in it. */
  lemma {:induction false} IdentifiedHolds(batch: seq<Event>, id: string)
    ensures Contains(Identified(batch), id) <==> id != "" && Contains(batch, id)
  {
    if batch != [] {
      var n := |batch| - 1;
      IdentifiedHolds(batch[..n], id);
      ContainsOneMore(batch, n, id);
      assert batch[..n + 1] == batch;
      if batch[n].eventId != "" {
        var more := Identified(batch);
        assert more[..|more| - 1] == Identified(batch[..n]) && more[..|more|] == more;
        ContainsOneMore(more, |more| - 1, id);
      }
    }
  }

  /** The single dispatcher is worker 0 of the step system; its replays are worker 1. The subscribers are
      registered before it is made. */
  class OutboxDispatcher {
    const repo: OutboxRepository
    const bus: EventBus
    const store: ReadModelStore
    const batchSize: nat
    const maxAttempts: nat
    ghost const cfg: Config
    ghost var model: State
    ghost var history: seq<Action>

    /** Starts on an empty outbox, or on what the runs before it left. */
    constructor (repo: OutboxRepository, bus: EventBus, store: ReadModelStore, batchSize: nat, maxAttempts: nat,
        ghost past: seq<Action>)
      requires repo.Valid() && Lifecycle.OneDispatcher(past, 0)
      requires var s := Run(Config(maxAttempts, batchSize, bus.subscriptions), INITIAL, past);
        && s.rows == repo.rows && s.now <= repo.clock.now && s.models == store.Models()
        && WorkerOf(s, 0) == RESTED && WorkerOf(s, 1) == RESTED
      ensures this.repo == repo && this.bus == bus && this.store == store
      ensures this.batchSize == batchSize && this.maxAttempts == maxAttempts
      ensures Valid() && history == past
    {
      this.repo := repo;
      this.bus := bus;
      this.store := store;
      this.batchSize := batchSize;
      this.maxAttempts := maxAttempts;
      cfg := Config(maxAttempts, batchSize, bus.subscriptions);
      model := Run(Config(maxAttempts, batchSize, bus.subscriptions), INITIAL, past);
      history := past;
    }

    /** The model is where the history leads from the empty outbox. */
    ghost predicate Historic()
      reads this
    {
      && cfg.maxAttempts == maxAttempts && cfg.batchSize == batchSize
      && model == Run(cfg, INITIAL, history) && Lifecycle.OneDispatcher(history, 0)
    }

    /** The collections are those of the model. */
    ghost predicate Agrees()
      reads this, repo, repo.clock, store, bus
    {
      && repo.Valid() && bus.subscriptions == cfg.subscriptions
      && model.rows == repo.rows && model.now <= repo.clock.now && model.models == store.Models()
    }

    ghost function SeenNow(): Seen
      reads repo, store
    {
      Seen(repo.rows, store.Models(), store.replies, repo.replies)
    }

    ghost predicate Valid()
      reads this, repo, repo.clock, store, bus
    {
      Historic() && Agrees() && WorkerOf(model, 0) == RESTED && WorkerOf(model, 1) == RESTED
    }

    /** Takes steps of the model; the caller has already updated the collections. */
    ghost method Extend(a: Action)
      requires Historic() && Lifecycle.OneDispatcherAction(a, 0)
      modifies this`model, this`history
      ensures Historic() && old(history) <= history && model == Step(cfg, old(model), a)
    {
      history := history + [a];
      assert history[..|history| - 1] == old(history);
      model := Step(cfg, model, a);
    }

    ghost method ExtendBy(steps: seq<Action>)
      requires Historic() && Lifecycle.OneDispatcher(steps, 0)
      modifies this`model, this`history
      ensures Historic() && old(history) <= history && model == Run(cfg, old(model), steps)
    {
      RunConcat(cfg, INITIAL, history, steps);
      history := history + steps;
      model := Run(cfg, model, steps);
    }

    /** A service adds an event. */
    method AddEvent(event: Event) returns (duplicateId: bool)
      requires Valid()
      modifies this`model, this`history, repo`rows
      ensures Valid() && old(history) <= history && repo.rows == Added(old(repo.rows), event)
    {
      hide Run, Lifecycle.OneDispatcher;
      duplicateId := repo.AddEvent(event);
      Extend(Add(event));
    }

    method FetchBatch() returns (todo: seq<Event>, ghost fetched: Time)
      requires Valid()
      modifies this`model, this`history, repo.clock
      ensures Historic() && Agrees() && old(history) <= history && model.ledger == old(model).ledger
      ensures old(repo.clock.now) <= fetched == repo.clock.now == model.now
      ensures FirstByTime(repo.rows, DueIds(repo.rows, maxAttempts, fetched), batchSize, todo)
      ensures forall i :: 0 <= i < |todo| ==>
        todo[i].eventId in repo.rows && Lockable(repo.rows[todo[i].eventId], fetched)
      ensures forall i, j :: 0 <= i < j < |todo| ==> todo[i].eventId != todo[j].eventId
      ensures WorkerOf(model, 0) == Worker(todo, Idle) && WorkerOf(model, 1) == RESTED
    {
      hide Run, Lifecycle.OneDispatcher, LockStep, HandleStep, MarkSentStep, MarkFailedStep, ReplayStep, CrashStep;
      todo := repo.GetPending(batchSize, maxAttempts);
      fetched := repo.clock.now;
      Extend(Tick(repo.clock.now - model.now));
      Extend(Fetch(0, todo));
    }

    /** One batch: lock, publish and mark each row in turn. The batch is the first of the due rows, all of
        them unless it is full; each of its events that has an identifier is attempted once, in order, and no
        other row changes. What becomes of a row and of the read models is what the calls answered. */
    method DrainOnce() returns (ghost batch: seq<Event>, ghost fetched: Time, ghost attempts: seq<Attempt>)
      requires Valid()
      modifies this`model, this`history, repo`rows, repo`replies, repo.clock, store
      ensures Valid() && old(history) <= history
      ensures old(repo.clock.now) <= fetched <= repo.clock.now
      ensures FirstByTime(old(repo.rows), DueIds(old(repo.rows), maxAttempts, fetched), batchSize, batch)
      ensures EventsOf(Publishes(attempts)) == Identified(batch)
      ensures Follows(bus, old(SeenNow()), SeenNow(), attempts, maxAttempts, fetched)
      ensures model.ledger.completed == old(model.ledger.completed) + |Identified(batch)|
    {
      hide Run, Lifecycle.OneDispatcher, Lockable, Step, Identified, EventsOf, Publishes, Follows;
      var todo, start := FetchBatch();
      batch, fetched, attempts := todo, start, [];
      ghost var seen := SeenNow();
      var i := 0;
      assert todo[0..] == todo && todo[..0] == [];
      NothingFollows(bus, seen, maxAttempts, fetched);
      while i < |todo|
        invariant 0 <= i <= |todo| && Historic() && Agrees() && old(history) <= history
        invariant fetched <= model.now
        invariant WorkerOf(model, 0) == Worker(todo[i..], Idle) && WorkerOf(model, 1) == RESTED
        invariant EventsOf(Publishes(attempts)) == Identified(todo[..i])
        invariant Follows(bus, seen, SeenNow(), attempts, maxAttempts, fetched)
        invariant model.ledger.completed == old(model.ledger.completed) + |Identified(todo[..i])|
      {
        assert todo[i..][0] == todo[i] && todo[i..][1..] == todo[i + 1..];
        IdentifiedStep(todo, i);
        if todo[i].eventId == "" {
          SkipUnnamed(todo[i]);
        } else {
          ghost var now := SeenNow();
          StillLockable(bus, seen, now, todo, i, attempts, maxAttempts, fetched);
          ghost var attempt := DispatchOne(todo[i], fetched);
          FollowsOneMore(bus, seen, now, SeenNow(), attempts, attempt, maxAttempts, fetched);
          attempts := attempts + [attempt];
        }
        i := i + 1;
      }
      assert todo[..i] == todo && todo[i..] == [];
    }

    /** `run_forever` until `stop`: a drain and a pause for each list of events that services add in between.
        If as many of the drains as there are attempts find every date reached, every lock run out and room in
        the batch, all that was there at the start is SENT or DEAD_LETTER. */
    method RunForever(arrivals: seq<seq<Event>>, pollSeconds: nat) returns (ghost drains: seq<Drain>)
      requires Valid()
      modifies this`model, this`history, repo`rows, repo`replies, repo.clock, store
      ensures Valid() && old(history) <= history
      ensures Chained(old(repo.rows), drains, arrivals) && repo.rows == AtEnd(old(repo.rows), drains, arrivals)
      ensures forall i :: 0 <= i < |drains| ==> IsDrain(drains[i], maxAttempts, batchSize)
      ensures forall i :: 0 < i < |drains| ==> drains[i - 1].fetched + Seconds(pollSeconds) <= drains[i].fetched
      ensures QuietDrains(drains, batchSize) >= maxAttempts >= 1 ==>
        forall id :: id in old(repo.rows) && id != "" ==> id in repo.rows && repo.rows[id].status in {SENT, DEAD_LETTER}
    {
      hide Run, Lifecycle.OneDispatcher, Quiet, IsDrain, Chained, AtEnd, QuietDrains, Lifecycle.StatusFitsAttempts;
      drains := [];
      ghost var rows, past := repo.rows, history;
      assert cfg.maxAttempts == maxAttempts && rows == Run(cfg, INITIAL, past).rows;
      RowsFit(cfg, past);
      var i := 0;
      NothingChained(rows, arrivals[..i]);
      while i < |arrivals|
        invariant 0 <= i <= |arrivals| && |drains| == i && Valid() && past <= history
        invariant Chained(rows, drains, arrivals[..i]) && repo.rows == AtEnd(rows, drains, arrivals[..i])
        invariant forall k :: 0 <= k < |drains| ==> IsDrain(drains[k], maxAttempts, batchSize)
        invariant forall k :: 0 < k < |drains| ==> drains[k - 1].fetched + Seconds(pollSeconds) <= drains[k].fetched
        invariant drains != [] ==> drains[|drains| - 1].fetched + Seconds(pollSeconds) <= repo.clock.now
      {
        ghost var d := Poll(arrivals[i], pollSeconds);
        ChainedOneMore(rows, drains, d, arrivals, i);
        drains := drains + [d];
        i := i + 1;
      }
      assert arrivals[..i] == arrivals;
      if QuietDrains(drains, batchSize) >= maxAttempts >= 1 {
        RetriesEnd(rows, drains, arrivals, maxAttempts, batchSize);
      }
    }

    /** One round of the loop, and what services add before the next. */
    method Poll(events: seq<Event>, pollSeconds: nat) returns (ghost d: Drain)
      requires Valid()
      modifies this`model, this`history, repo`rows, repo`replies, repo.clock, store
      ensures Valid() && old(history) <= history
      ensures IsDrain(d, maxAttempts, batchSize) && d.before == old(repo.rows) && repo.rows == AddedAll(d.after, events)
      ensures old(repo.clock.now) <= d.fetched && d.fetched + Seconds(pollSeconds) <= repo.clock.now
    {
      hide Run, Lifecycle.OneDispatcher, Step, AddedAll, FirstByTime, DueIds, Drained, Identified, Publishes, EventsOf,
        AfterPublishes, Answered, Replies, Marks;
      ghost var before := repo.rows;
      ghost var batch, fetched, attempts := DrainOnce();
      d := Drain(before, repo.rows, fetched, batch, attempts);
      repo.clock.Sleep(pollSeconds);
      AddEvents(events);
    }

    method AddEvents(events: seq<Event>)
      requires Valid()
      modifies this`model, this`history, repo`rows
      ensures Valid() && old(history) <= history && repo.rows == AddedAll(old(repo.rows), events)
    {
      hide Run, Lifecycle.OneDispatcher, Added;
      var i := 0;
      while i < |events|
        invariant 0 <= i <= |events| && Valid() && old(history) <= history
        invariant repo.rows == AddedAll(old(repo.rows), events[..i])
      {
        assert events[..i + 1][..i] == events[..i];
        var _ := AddEvent(events[i]);
        i := i + 1;
      }
      assert events[..i] == events;
    }

    /** `if not event_id: continue`. */
    ghost method SkipUnnamed(event: Event)
      requires Historic() && Agrees() && event.eventId == ""
      requires WorkerOf(model, 0).task == Idle && WorkerOf(model, 0).batch != [] && WorkerOf(model, 0).batch[0] == event
      modifies this`model, this`history
      ensures Historic() && Agrees() && old(history) <= history && model.now == old(model.now)
      ensures WorkerOf(model, 0) == Worker(old(WorkerOf(model, 0)).batch[1..], Idle)
      ensures WorkerOf(model, 1) == old(WorkerOf(model, 1))
      ensures model.ledger.completed == old(model.ledger.completed)
    {
      hide Run, Lifecycle.OneDispatcher, Step;
      LockEffect(cfg, model, 0);
      Extend(Lock(0));
    }

    /** The body of the loop over the batch. */
    method DispatchOne(event: Event, ghost since: Time) returns (ghost attempt: Attempt)
      requires Historic() && Agrees() && since <= model.now && WorkerOf(model, 1) == RESTED && event.eventId != ""
      requires WorkerOf(model, 0).task == Idle && WorkerOf(model, 0).batch != [] && WorkerOf(model, 0).batch[0] == event
      requires event.eventId in repo.rows && Lockable(repo.rows[event.eventId], since)
      modifies this`model, this`history, repo`rows, repo`replies, repo.clock, store
      ensures Historic() && Agrees() && old(history) <= history && since <= model.now && WorkerOf(model, 1) == RESTED
      ensures WorkerOf(model, 0) == Worker(old(WorkerOf(model, 0)).batch[1..], Idle)
      ensures attempt.event == event
      ensures Follows(bus, old(SeenNow()), SeenNow(), [attempt], maxAttempts, since)
      ensures model.ledger.completed == old(model.ledger.completed) + 1
    {
      hide Run, Lifecycle.OneDispatcher, Step, Attempted, Answered, AfterCalls, Failure;
      ghost var seen := SeenNow();
      var locked := repo.LockForProcessing(event.eventId, LOCK_TTL_SECONDS);
      assert locked;
      TickEffect(cfg, model, repo.clock.now - model.now);
      Extend(Tick(repo.clock.now - model.now));
      LockEffect(cfg, model, 0);
      Extend(Lock(0));
      ghost var row := repo.rows[event.eventId];
      attempt := PublishAndMark(event);
      AttemptedLocked(seen.rows[event.eventId], row, repo.rows[event.eventId], Failure(attempt), maxAttempts, since);
      OneFollows(bus, seen, SeenNow(), attempt, maxAttempts, since);
    }

    /** `try: publish; mark_sent  except Exception: mark_failed`. */
    method PublishAndMark(event: Event) returns (ghost attempt: Attempt)
      requires Historic() && Agrees() && model.now == repo.clock.now && event.eventId in repo.rows
        && WorkerOf(model, 1) == RESTED
      requires WorkerOf(model, 0).task.Publishing? && WorkerOf(model, 0).task.event == event
        && WorkerOf(model, 0).task.done == 0
      modifies this`model, this`history, repo`rows, repo`replies, repo.clock, store
      ensures Historic() && Agrees() && old(history) <= history && old(model.now) <= model.now
        && WorkerOf(model, 1) == RESTED
      ensures WorkerOf(model, 0) == old(WorkerOf(model, 0)).(task := Idle)
      ensures repo.rows.Keys == old(repo.rows).Keys && forall id :: id in repo.rows && id != event.eventId ==>
        repo.rows[id] == old(repo.rows)[id]
      ensures attempt.event == event && Answered(attempt, |bus.Handlers(event.name)|)
      ensures |attempt.calls| <= |bus.Handlers(event.name)|
      ensures Attempted(old(repo.rows)[event.eventId], repo.rows[event.eventId], Failure(attempt), maxAttempts,
        old(model.now))
      ensures store.Models() == AfterCalls(old(store.Models()), bus.Handlers(event.name), event, attempt.calls)
      ensures store.replies == old(store.replies) + attempt.calls
      ensures repo.replies == old(repo.replies) + if attempt.mark.Some? then [attempt.mark.value] else []
      ensures model.ledger.completed == old(model.ledger.completed) + 1
    {
      hide Run, Lifecycle.OneDispatcher, Step, SentRow, FailedRow, HandleActions, AfterCalls;
      ghost var row := repo.rows[event.eventId];
      var raised, outcomes := bus.Publish(event, store);
      PublishIsRun(cfg, model, 0, outcomes);
      HandlesOneDispatcher(outcomes);
      ExtendBy(HandleActions(0, outcomes));
      if raised.None? {
        ghost var mark := MarkOrFail(event);
        attempt := Attempt(event, outcomes, Some(mark));
      } else {
        RecordFailure(event, raised.value);
        FailedAfterMark(row, row, maxAttempts, raised.value, model.now);
        attempt := Attempt(event, outcomes, None);
      }
    }

    /** `mark_sent` after a publish that did not raise; if it raises, the attempt has failed. */
    method MarkOrFail(event: Event) returns (ghost mark: Outcome)
      requires Historic() && Agrees() && event.eventId in repo.rows && WorkerOf(model, 1) == RESTED
      requires WorkerOf(model, 0).task.Publishing? && WorkerOf(model, 0).task.event == event
      requires WorkerOf(model, 0).task.done == |HandlersFor(cfg, event.name)|
      modifies this`model, this`history, repo`rows, repo`replies, repo.clock
      ensures Historic() && Agrees() && old(history) <= history && old(model.now) <= model.now
        && WorkerOf(model, 1) == RESTED
      ensures WorkerOf(model, 0) == old(WorkerOf(model, 0)).(task := Idle)
      ensures repo.rows.Keys == old(repo.rows).Keys && forall id :: id in repo.rows && id != event.eventId ==>
        repo.rows[id] == old(repo.rows)[id]
      ensures Attempted(old(repo.rows)[event.eventId], repo.rows[event.eventId],
        if mark.Completed? then None else Some(mark.err), maxAttempts, old(model.now))
      ensures repo.replies == old(repo.replies) + [mark]
      ensures model.ledger.completed == old(model.ledger.completed) + 1
    {
      hide Run, Lifecycle.OneDispatcher, Step, SentRow, FailedRow;
      ghost var row := repo.rows[event.eventId];
      var outcome := repo.MarkSent(event.eventId);
      mark := outcome;
      MarkSentEffect(cfg, model, 0, outcome);
      Extend(MarkSent(0, outcome));
      if !outcome.Completed? {
        ghost var marked := repo.rows[event.eventId];
        RecordFailure(event, outcome.err);
        FailedAfterMark(row, marked, maxAttempts, outcome.err, model.now);
      }
    }

    method RecordFailure(event: Event, err: string)
      requires Historic() && Agrees() && event.eventId in repo.rows && WorkerOf(model, 1) == RESTED
      requires WorkerOf(model, 0).task.Raised? && WorkerOf(model, 0).task.event == event
        && WorkerOf(model, 0).task.err == err
      modifies this`model, this`history, repo`rows, repo.clock
      ensures Historic() && Agrees() && old(history) <= history && old(model.now) <= model.now
        && WorkerOf(model, 1) == RESTED
      ensures WorkerOf(model, 0) == old(WorkerOf(model, 0)).(task := Idle)
      ensures repo.rows == old(repo.rows)[event.eventId :=
        FailedRow(old(repo.rows)[event.eventId], err, old(repo.rows)[event.eventId].attempts + 1, maxAttempts,
          model.now)]
      ensures model.ledger.completed == old(model.ledger.completed) + 1
    {
      hide Run, Lifecycle.OneDispatcher;
      repo.MarkFailed(event.eventId, err, maxAttempts);
      ghost var elapsed: nat := repo.clock.now - model.now;
      FailureSteps(cfg, model, 0, elapsed);
      FailureOneDispatcher(elapsed);
      ExtendBy([ReadAttempts(0), Tick(elapsed), MarkFailed(0)]);
    }

    /** Re-publishes SENT events; a failing one is skipped. The batch is the first of the SENT rows of the
        wanted names, each of its events that has an identifier is published, the count is the number of
        publishes in which no handler raised, and neither outbox nor read models change. */
    method ReplaySent(names: set<string>, limit: nat)
        returns (replayed: nat, ghost batch: seq<Event>, ghost published: seq<(Event, seq<Outcome>)>)
      requires Valid()
      modifies this`model, this`history, store
      ensures Valid() && old(history) <= history
      ensures FirstByTime(repo.rows, SentIds(repo.rows, names), limit, batch)
      ensures EventsOf(published) == Identified(batch)
      ensures forall i :: 0 <= i < |published| ==> PublishOutcomes(published[i].1, |bus.Handlers(published[i].0.name)|)
      ensures replayed == CleanPublishes(published)
      ensures store.Models() == old(store.Models()) && store.replies == old(store.replies) + Replies(published)
    {
      hide Run, Lifecycle.OneDispatcher, Deliveries.DeliveryInvariant, AfterPublishes, AfterCalls, Identified, EventsOf,
        CleanPublishes, Replies, Step, FirstByTime, SentIds, Republished;
      var todo := repo.GetSent(names, limit);
      BatchIsSent(repo.rows, names, limit, todo);
      ghost var before, seen := model, SeenNow();
      batch, replayed, published := todo, 0, [];
      FetchSentEffect(cfg, model, 1, todo);
      Extend(FetchSent(1, todo));
      NothingRepublished(bus, seen);
      var i := 0;
      assert todo[0..] == todo && todo[..0] == [];
      while i < |todo|
        invariant 0 <= i <= |todo| && Historic() && Agrees() && old(history) <= history
        invariant WorkerOf(model, 0) == RESTED && WorkerOf(model, 1) == Worker([], Replaying(todo[i..], 0))
        invariant EventsOf(published) == Identified(todo[..i])
        invariant forall k :: 0 <= k < |published| ==>
          && Known(repo.rows, published[k].0) && repo.rows[published[k].0.eventId].status == SENT
          && PublishOutcomes(published[k].1, |bus.Handlers(published[k].0.name)|)
        invariant Republished(bus, seen, SeenNow(), published, replayed)
      {
        assert todo[i..][0] == todo[i] && todo[i..][1..] == todo[i + 1..];
        IdentifiedStep(todo, i);
        if todo[i].eventId == "" {
          Skip();
        } else {
          ghost var now := SeenNow();
          var raised, outcomes := ReplayOne(todo[i]);
          RepublishedOneMore(bus, seen, now, SeenNow(), published, replayed, todo[i], outcomes);
          published := published + [(todo[i], outcomes)];
          if raised == None {
            replayed := replayed + 1;
          }
        }
        i := i + 1;
      }
      assert todo[..i] == todo && todo[i..] == [];
      Skip();
      InvariantOf(cfg, old(history));
      RepublishedMeans(bus, seen, SeenNow(), published, replayed);
      ReplayIsInvisible(bus, cfg, before, published);
    }

    /** The replay goes on to the next event of its queue, or ends. */
    ghost method Skip()
      requires Historic() && WorkerOf(model, 1).task.Replaying?
      requires var task := WorkerOf(model, 1).task;
        task.queue == [] || task.queue[0].eventId == "" || task.done >= |HandlersFor(cfg, task.queue[0].name)|
      modifies this`model, this`history
      ensures Historic() && old(history) <= history
      ensures model.rows == old(model).rows && model.now == old(model).now && model.models == old(model).models
      ensures WorkerOf(model, 0) == WorkerOf(old(model), 0)
      ensures var me := WorkerOf(old(model), 1);
        WorkerOf(model, 1) == me.(task := if me.task.queue == [] then Idle else Replaying(me.task.queue[1..], 0))
    {
      hide Run, Lifecycle.OneDispatcher, Step;
      SkipStep(cfg, model, 1);
      Extend(ReplayHandle(1, Completed));
    }

    method ReplayOne(event: Event) returns (raised: Option<string>, ghost outcomes: seq<Outcome>)
      requires Historic() && Agrees() && WorkerOf(model, 0) == RESTED && event.eventId != ""
      requires WorkerOf(model, 1).task.Replaying? && WorkerOf(model, 1).task.done == 0 && WorkerOf(model, 1).batch == []
      requires WorkerOf(model, 1).task.queue != [] && WorkerOf(model, 1).task.queue[0] == event
      modifies this`model, this`history, store
      ensures Historic() && Agrees() && old(history) <= history && WorkerOf(model, 0) == RESTED
      ensures WorkerOf(model, 1) == Worker([], Replaying(old(WorkerOf(model, 1)).task.queue[1..], 0))
      ensures PublishOutcomes(outcomes, |bus.Handlers(event.name)|) && raised == RaisedIn(outcomes)
      ensures store.replies == old(store.replies) + outcomes
      ensures store.Models() == AfterCalls(old(store.Models()), bus.Handlers(event.name), event, outcomes)
    {
      hide Run, Lifecycle.OneDispatcher, LockStep, HandleStep, MarkSentStep, MarkFailedStep, ReplayStep, AfterCalls;
      raised, outcomes := bus.Publish(event, store);
      ReplayedCalls(cfg, model, 1, outcomes);
      ReplaysOneDispatcher(outcomes);
      ExtendBy(ReplayActions(1, outcomes));
      if raised.None? {
        Skip();
      }
    }
  }

  lemma LockEffect(cfg: Config, s: State, w: WorkerId)
    requires WorkerOf(s, w).task == Idle && WorkerOf(s, w).batch != []
    requires var id := WorkerOf(s, w).batch[0].eventId; id != "" ==> id in s.rows && Lockable(s.rows[id], s.now)
    ensures var t, me := Step(cfg, s, Lock(w)), WorkerOf(s, w);
      var id, until := me.batch[0].eventId, Deadline(s.now, LOCK_TTL_SECONDS);
      && t.now == s.now && t.models == s.models && t.ledger.completed == s.ledger.completed
      && t.rows == (if id == "" then s.rows else s.rows[id := s.rows[id].(lockedUntil := Some(until))])
      && WorkerOf(t, w) == Worker(me.batch[1..], if id == "" then Idle else Publishing(me.batch[0], until, 0))
      && forall v :: v != w ==> WorkerOf(t, v) == WorkerOf(s, v)
  {
    hide HandleStep, MarkSentStep, MarkFailedStep, ReplayStep, CrashStep;
  }

  lemma FetchSentEffect(cfg: Config, s: State, w: WorkerId, batch: seq<Event>)
    requires WorkerOf(s, w) == RESTED && SentBatch(s, batch)
    ensures Step(cfg, s, FetchSent(w, batch)) == SetWorker(s, w, Worker([], Replaying(batch, 0)))
  {
  }

  lemma BatchIsSent(rows: Rows, names: set<string>, limit: nat, batch: seq<Event>)
    requires FirstByTime(rows, SentIds(rows, names), limit, batch)
    ensures forall i :: 0 <= i < |batch| ==> Known(rows, batch[i]) && rows[batch[i].eventId].status == SENT
  {
  }

  lemma MarkSentEffect(cfg: Config, s: State, w: WorkerId, outcome: Outcome)
    requires WorkerOf(s, w).task.Publishing? && WorkerOf(s, w).task.event.eventId in s.rows
    requires WorkerOf(s, w).task.done == |HandlersFor(cfg, WorkerOf(s, w).task.event.name)|
    ensures var t, me := Step(cfg, s, MarkSent(w, outcome)), WorkerOf(s, w);
      var id := me.task.event.eventId;
      && t.now == s.now && t.models == s.models
      && t.ledger.completed == s.ledger.completed + (if outcome.Completed? then 1 else 0)
      && t.rows == (if outcome.RaisedBefore? then s.rows else s.rows[id := SentRow(s.rows[id])])
      && WorkerOf(t, w) ==
        me.(task := if outcome.Completed? then Idle else Raised(me.task.event, me.task.until, outcome.err))
      && forall v :: v != w ==> WorkerOf(t, v) == WorkerOf(s, v)
  {
    hide HandleStep, LockStep, MarkFailedStep, ReplayStep, CrashStep, SentRow;
  }

  /** A failure recorded after a mark that took effect is the failure of the row before it. */
  lemma FailedAfterMark(row: Row, marked: Row, maxAttempts: nat, err: string, now: Time)
    requires marked == row || marked == SentRow(row)
    ensures FailedAt(row, FailedRow(marked, err, marked.attempts + 1, maxAttempts, now), maxAttempts, err, now)
  {
  }

  /** Locking a row does not change what an attempt makes of it. */
  lemma AttemptedLocked(before: Row, locked: Row, after: Row, failure: Option<string>, maxAttempts: nat, since: Time)
    requires locked == before.(lockedUntil := locked.lockedUntil)
    requires exists now :: since <= now && Attempted(locked, after, failure, maxAttempts, now)
    ensures Attempted(before, after, failure, maxAttempts, since)
  {
    var now :| since <= now && Attempted(locked, after, failure, maxAttempts, now);
    if failure.Some? {
      var late :| now <= late && FailedAt(locked, after, maxAttempts, failure.value, late);
      assert FailedAt(before, after, maxAttempts, failure.value, late);
    }
  }

  lemma {:induction false} OneFollows(bus: EventBus, before: Seen, after: Seen, a: Attempt, maxAttempts: nat,
      since: Time)
    requires var id := a.event.eventId;
      && id in before.rows && after.rows.Keys == before.rows.Keys
      && Attempted(before.rows[id], after.rows[id], Failure(a), maxAttempts, since)
      && forall k :: k in before.rows && k != id ==> after.rows[k] == before.rows[k]
    requires Answered(a, |bus.Handlers(a.event.name)|) && |a.calls| <= |bus.Handlers(a.event.name)|
    requires after.models == AfterCalls(before.models, bus.Handlers(a.event.name), a.event, a.calls)
    requires after.calls == before.calls + a.calls
    requires after.marks == before.marks + if a.mark.Some? then [a.mark.value] else []
    ensures Follows(bus, before, after, [a], maxAttempts, since)
  {
    hide Attempted, Answered, AfterCalls, Failure, AfterPublishes, Replies, Marks, Publishes;
    assert [a][0] == a;
    OneAttempt(bus, before.models, a);
  }

  /** A row of the batch that has not had its turn is as it was when it was fetched. */
  lemma {:induction false} StillLockable(bus: EventBus, before: Seen, now: Seen, batch: seq<Event>, i: nat,
      attempts: seq<Attempt>, maxAttempts: nat, since: Time)
    requires Follows(bus, before, now, attempts, maxAttempts, since) && i < |batch|
    requires EventsOf(Publishes(attempts)) == Identified(batch[..i])
    requires forall j, k :: 0 <= j < k < |batch| ==> batch[j].eventId != batch[k].eventId
    requires batch[i].eventId in before.rows
    ensures batch[i].eventId in now.rows && now.rows[batch[i].eventId] == before.rows[batch[i].eventId]
    ensures forall k :: 0 <= k < |attempts| ==> attempts[k].event.eventId != batch[i].eventId
  {
    hide Attempted, Answered, AfterPublishes, Replies, Marks;
    ContainsOneMore(batch, i, batch[i].eventId);
    IdentifiedHolds(batch[..i], batch[i].eventId);
    forall k | 0 <= k < |attempts| ensures attempts[k].event.eventId != batch[i].eventId {
      assert EventsOf(Publishes(attempts))[k] == attempts[k].event;
    }
  }

  lemma {:induction false} ChainedOneMore(rows: Rows, drains: seq<Drain>, d: Drain, arrivals: seq<seq<Event>>, i: nat)
    requires i < |arrivals| && Chained(rows, drains, arrivals[..i]) && d.before == AtEnd(rows, drains, arrivals[..i])
    ensures Chained(rows, drains + [d], arrivals[..i + 1])
    ensures AtEnd(rows, drains + [d], arrivals[..i + 1]) == AddedAll(d.after, arrivals[i])
  {
    hide AddedAll;
    assert |drains| == i && arrivals[..i + 1][..i] == arrivals[..i] && (drains + [d])[..i] == drains;
  }

  lemma NothingChained(rows: Rows, none: seq<seq<Event>>)
    requires none == []
    ensures Chained(rows, [], none) && AtEnd(rows, [], none) == rows
  {
  }

  lemma RowsFit(cfg: Config, history: seq<Action>)
    requires Lifecycle.OneDispatcher(history, 0)
    ensures var rows := Run(cfg, INITIAL, history).rows;
      forall id :: id in rows ==> Lifecycle.StatusFitsAttempts(rows[id], cfg.maxAttempts)
  {
    hide Run, Lifecycle.OneDispatcher;
    var rows := Run(cfg, INITIAL, history).rows;
    forall id | id in rows ensures Lifecycle.StatusFitsAttempts(rows[id], cfg.maxAttempts) {
      Lifecycle.RowAccounting(cfg, history, 0, id);
    }
  }

  lemma TickEffect(cfg: Config, s: State, elapsed: nat)
    ensures Step(cfg, s, Tick(elapsed)) == s.(now := s.now + elapsed)
  {
  }

  /** A replay step past the last handler, without an identifier, or at the end of the queue. */
  lemma SkipStep(cfg: Config, s: State, w: WorkerId)
    requires WorkerOf(s, w).task.Replaying?
    requires var task := WorkerOf(s, w).task;
      task.queue == [] || task.queue[0].eventId == "" || task.done >= |HandlersFor(cfg, task.queue[0].name)|
    ensures var t, me := Step(cfg, s, ReplayHandle(w, Completed)), WorkerOf(s, w);
      && t.rows == s.rows && t.now == s.now && t.models == s.models && t.ledger == s.ledger
      && (forall v :: v != w ==> WorkerOf(t, v) == WorkerOf(s, v))
      && WorkerOf(t, w) == me.(task := if me.task.queue == [] then Idle else Replaying(me.task.queue[1..], 0))
  {
  }

  lemma HandlesOneDispatcher(outcomes: seq<Outcome>)
    ensures Lifecycle.OneDispatcher(HandleActions(0, outcomes), 0)
  {
  }

  lemma FailureOneDispatcher(elapsed: nat)
    ensures Lifecycle.OneDispatcher([ReadAttempts(0), Tick(elapsed), MarkFailed(0)], 0)
  {
  }

  lemma {:induction false} ReplaysOneDispatcher(outcomes: seq<Outcome>)
    ensures Lifecycle.OneDispatcher(ReplayActions(1, outcomes), 0)
  {
    if outcomes != [] { ReplaysOneDispatcher(outcomes[..|outcomes| - 1]); }
  }

  lemma InvariantOf(cfg: Config, history: seq<Action>)
    ensures Deliveries.DeliveryInvariant(cfg, Run(cfg, INITIAL, history))
  {
    Deliveries.RunKeeps(cfg, INITIAL, history);
  }

  lemma IdentifiedStep(batch: seq<Event>, i: nat)
    requires i < |batch|
    ensures Identified(batch[..i + 1]) == Identified(batch[..i]) + if batch[i].eventId == "" then [] else [batch[i]]
  {
    assert batch[..i + 1][..i] == batch[..i];
  }

  ghost function EventsOf(published: seq<(Event, seq<Outcome>)>): (r: seq<Event>)
    ensures |r| == |published|
  {
    seq(|published|, i requires 0 <= i < |published| => published[i].0)
  }

  lemma NothingPublished(bus: EventBus, m: ReadModels)
    ensures EventsOf([]) == Identified([]) && CleanPublishes([]) == 0 && AfterPublishes(bus, m, []) == m
    ensures Replies([]) == []
  {
  }

  lemma PublishedStep(bus: EventBus, m: ReadModels, published: seq<(Event, seq<Outcome>)>, e: Event,
      outcomes: seq<Outcome>)
    requires |outcomes| <= |bus.Handlers(e.name)|
    ensures var more := published + [(e, outcomes)];
      && EventsOf(more) == EventsOf(published) + [e]
      && CleanPublishes(more) == CleanPublishes(published) + (if RaisedIn(outcomes).None? then 1 else 0)
      && Replies(more) == Replies(published) + outcomes
      && AfterPublishes(bus, m, more) ==
        AfterCalls(AfterPublishes(bus, m, published), bus.Handlers(e.name), e, outcomes)
  {
    assert (published + [(e, outcomes)])[..|published|] == published;
  }

  // ---- What the runs guarantee of the real collections ------------------------------------

  /** Between calls, every row of the outbox fits its status, every SENT event has had every subscriber
      complete, and its row is on the timeline; each event has one row there at most. */
  lemma CollectionsSound(o: OutboxDispatcher, id: string)
    requires o.Valid() && id in o.repo.rows
    ensures Lifecycle.StatusFitsAttempts(o.repo.rows[id], o.maxAttempts)
    ensures TimelineKeysUnique(o.store.timeline) && AuditKeysUnique(o.store.audit)
    ensures var e := o.repo.rows[id].event;
      o.repo.rows[id].status == SENT && TimelineHandler in o.bus.Handlers(e.name) && NamesDocument(e.payload) ==>
        exists r :: r in o.store.timeline && ShowsTimeline(r, e)
    ensures forall r :: r in o.store.timeline ==>
      r.sourceEventId in o.repo.rows && ShowsTimeline(r, o.repo.rows[r.sourceEventId].event)
    ensures forall r :: r in o.store.audit ==>
      r.sourceEventId in o.repo.rows && ShowsAudit(r, o.repo.rows[r.sourceEventId].event)
  {
    hide Run, Lifecycle.OneDispatcher, ShowsTimeline, ShowsAudit, NamesDocument;
    Lifecycle.RowAccounting(o.cfg, o.history, 0, id);
    Deliveries.ExactlyOncePerEvent(o.cfg, o.history);
    var e := o.repo.rows[id].event;
    if o.repo.rows[id].status == SENT && TimelineHandler in o.bus.Handlers(e.name) && NamesDocument(e.payload) {
      Deliveries.SentEventIsOnTheTimeline(o.cfg, o.history, id);
    }
  }

  /** Between calls, the attempts completed are bounded by the rows. */
  lemma CollectionsBoundWork(o: OutboxDispatcher)
    requires o.Valid()
    ensures o.model.ledger.completed <= o.maxAttempts * |o.repo.rows|
  {
    hide Run, Lifecycle.OneDispatcher;
    Lifecycle.WorkIsBounded(o.cfg, o.history, 0);
  }

  /** The calls of a publish of a SENT event have all been delivered before. */
  lemma {:induction false} CallsOfSentChangeNothing(cfg: Config, s: State, e: Event, outcomes: seq<Outcome>)
    requires Deliveries.DeliveryInvariant(cfg, s) && Known(s.rows, e) && s.rows[e.eventId].status == SENT
    requires |outcomes| <= |HandlersFor(cfg, e.name)|
    ensures AfterCalls(s.models, HandlersFor(cfg, e.name), e, outcomes) == s.models
  {
    if outcomes != [] {
      var n := |outcomes| - 1;
      CallsOfSentChangeNothing(cfg, s, e, outcomes[..n]);
      assert Deliveries.FullyHandled(cfg, s.ledger.delivered, s.rows[e.eventId].event);
      Deliveries.KnownEventsById(s);
      RedeliveryChangesNothing(s.models, s.ledger.delivered, HandlersFor(cfg, e.name)[n], e);
    }
  }

  /** Publishing SENT events again leaves the read models as they are, whichever handlers raise. */
  lemma {:induction false} ReplayIsInvisible(bus: EventBus, cfg: Config, s: State,
      published: seq<(Event, seq<Outcome>)>)
    requires Deliveries.DeliveryInvariant(cfg, s) && cfg.subscriptions == bus.subscriptions
    requires forall i :: 0 <= i < |published| ==>
      Known(s.rows, published[i].0) && s.rows[published[i].0.eventId].status == SENT
    ensures AfterPublishes(bus, s.models, published) == s.models
  {
    hide Deliveries.DeliveryInvariant, AfterCalls;
    if published != [] {
      var n := |published| - 1;
      ReplayIsInvisible(bus, cfg, s, published[..n]);
      var (e, outcomes) := published[n];
      if |outcomes| <= |bus.Handlers(e.name)| { CallsOfSentChangeNothing(cfg, s, e, outcomes); }
    }
  }

  /** What publishes alone make of the collections, and how many of them did not raise. */
  ghost predicate Republished(bus: EventBus, before: Seen, now: Seen, published: seq<(Event, seq<Outcome>)>,
      replayed: nat)
    reads bus
  {
    && now.rows == before.rows && now.models == AfterPublishes(bus, before.models, published)
    && now.calls == before.calls + Replies(published) && replayed == CleanPublishes(published)
  }

  lemma NothingRepublished(bus: EventBus, seen: Seen)
    ensures Republished(bus, seen, seen, [], 0) && EventsOf([]) == Identified([])
  {
  }

  lemma RepublishedMeans(bus: EventBus, before: Seen, now: Seen, published: seq<(Event, seq<Outcome>)>, replayed: nat)
    requires Republished(bus, before, now, published, replayed)
    ensures now.models == AfterPublishes(bus, before.models, published)
    ensures now.calls == before.calls + Replies(published) && replayed == CleanPublishes(published)
  {
  }

  lemma {:induction false} RepublishedOneMore(bus: EventBus, before: Seen, now: Seen, after: Seen,
      published: seq<(Event, seq<Outcome>)>, replayed: nat, e: Event, outcomes: seq<Outcome>)
    requires Republished(bus, before, now, published, replayed) && |outcomes| <= |bus.Handlers(e.name)|
    requires after.rows == now.rows && after.models == AfterCalls(now.models, bus.Handlers(e.name), e, outcomes)
    requires after.calls == now.calls + outcomes
    ensures Republished(bus, before, after, published + [(e, outcomes)],
      replayed + if RaisedIn(outcomes).None? then 1 else 0)
    ensures EventsOf(published + [(e, outcomes)]) == EventsOf(published) + [e]
  {
    hide AfterCalls, AfterPublishes, Replies, CleanPublishes, RaisedIn;
    PublishedStep(bus, before.models, published, e, outcomes);
  }

  /** How the calls of the publishes ended, in order. */
  ghost function Replies(published: seq<(Event, seq<Outcome>)>): seq<Outcome> {
    if published == [] then [] else Replies(published[..|published| - 1]) + published[|published| - 1].1
  }

  ghost function CleanPublishes(published: seq<(Event, seq<Outcome>)>): nat {
    if published == [] then 0
    else CleanPublishes(published[..|published| - 1]) + if RaisedIn(published[|published| - 1].1) == None then 1 else 0
  }

  ghost function AfterPublishes(bus: EventBus, m: ReadModels, published: seq<(Event, seq<Outcome>)>): ReadModels
    reads bus
  {
    if published == [] then m
    else
      var n := |published| - 1;
      var (e, outcomes) := published[n];
      var before := AfterPublishes(bus, m, published[..n]);
      if |outcomes| <= |bus.Handlers(e.name)| then AfterCalls(before, bus.Handlers(e.name), e, outcomes) else before
  }
}
