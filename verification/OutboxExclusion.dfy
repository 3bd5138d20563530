/** Timed mutual exclusion of the outbox lock, for any number of dispatchers working
    from stale batches. */
module OutboxExclusion {
  import opened Prelude
  import opened OutboxModel
  import opened Projections
  import opened OutboxProtocol

  /** Whoever holds event `id` has not let its own deadline pass. */
  ghost predicate Timely(s: State, id: string) {
    forall w :: w in s.workers && Holds(s, w, id) ==> s.now <= s.workers[w].task.until
  }

  /** The mark of `id` as SENT takes effect and then raises: the lock is given back while its holder goes on. */
  predicate LosesReply(s: State, a: Action, id: string) {
    a.MarkSent? && a.outcome.RaisedAfter? && Holds(s, a.w, id)
  }

  /** In every state of the run the holders of `id` are timely, and none of them loses a reply. */
  ghost predicate TimelyRun(cfg: Config, s: State, run: seq<Action>, id: string) {
    && (forall n :: 0 <= n < |run| ==> !LosesReply(Run(cfg, s, run[..n]), run[n], id))
    && (forall n :: 0 <= n <= |run| ==> Timely(Run(cfg, s, run[..n]), id))
  }

  /** One holder, whose deadline is the one in the row; an abandoned lock keeps its deadline. */
  ghost predicate Exclusive(s: State, id: string) {
    && (forall w :: w in s.workers && Holds(s, w, id) ==>
          id in s.rows && s.rows[id].lockedUntil == Some(s.workers[w].task.until))
    && (forall v, w :: v in s.workers && w in s.workers && Holds(s, v, id) && Holds(s, w, id) ==> v == w)
    && (id in s.ledger.orphans ==>
          && id in s.rows && s.rows[id].lockedUntil == Some(s.ledger.orphans[id])
          && forall w :: w in s.workers ==> !Holds(s, w, id))
  }

  /** A step of `w` that neither takes nor gives back a lock. */
  lemma Frame(s: State, t: State, w: WorkerId, id: string)
    requires Exclusive(s, id)
    requires forall v :: v in t.workers && v != w ==> v in s.workers && t.workers[v] == s.workers[v]
    requires Holds(t, w, id) ==>
      w in s.workers && Holds(s, w, id) && WorkerOf(t, w).task.until == WorkerOf(s, w).task.until
    requires id in s.rows ==> id in t.rows && t.rows[id].lockedUntil == s.rows[id].lockedUntil
    requires id in t.ledger.orphans ==> id in s.ledger.orphans && t.ledger.orphans[id] == s.ledger.orphans[id]
    ensures Exclusive(t, id)
  {
    assert forall v :: v in t.workers && Holds(t, v, id) ==> v in s.workers && Holds(s, v, id);
  }

  lemma LockExclusive(s: State, w: WorkerId, id: string)
    requires Consistent(s) && Exclusive(s, id) && Timely(s, id)
    ensures Exclusive(LockStep(s, w), id)
  {
    var t := LockStep(s, w);
    var me := WorkerOf(s, w);
    if WorkerOf(t, w).task.Publishing? && me.task.Idle? && me.batch[0].eventId == id {
      assert forall v :: v in s.workers ==> !Holds(s, v, id);
      assert forall v :: v in t.workers && v != w ==> !Holds(t, v, id);
    } else if t != s {
      Frame(s, t, w, id);
    }
  }

  lemma HandleExclusive(cfg: Config, s: State, w: WorkerId, outcome: Outcome, id: string)
    requires Exclusive(s, id)
    ensures Exclusive(HandleStep(cfg, s, w, outcome), id)
  {
    if HandleStep(cfg, s, w, outcome) != s { Frame(s, HandleStep(cfg, s, w, outcome), w, id); }
  }

  lemma MarkSentExclusive(cfg: Config, s: State, w: WorkerId, outcome: Outcome, id: string)
    requires Consistent(s) && Exclusive(s, id) && !(outcome.RaisedAfter? && Holds(s, w, id))
    ensures Exclusive(MarkSentStep(cfg, s, w, outcome), id)
  {
    var t := MarkSentStep(cfg, s, w, outcome);
    if t != s {
      if Holds(s, w, id) && outcome.Completed? {
        assert forall v :: v in t.workers ==> !Holds(t, v, id);
      } else {
        Frame(s, t, w, id);
      }
    }
  }

  lemma MarkFailedExclusive(cfg: Config, s: State, w: WorkerId, id: string)
    requires Consistent(s) && Exclusive(s, id)
    ensures Exclusive(MarkFailedStep(cfg, s, w), id)
  {
    var t := MarkFailedStep(cfg, s, w);
    if t != s {
      if Holds(s, w, id) {
        assert forall v :: v in t.workers ==> !Holds(t, v, id);
      } else {
        Frame(s, t, w, id);
      }
    }
  }

  lemma CrashExclusive(s: State, w: WorkerId, id: string)
    requires Exclusive(s, id)
    ensures Exclusive(CrashStep(s, w), id)
  {
    var t := CrashStep(s, w);
    if Holds(s, w, id) {
      assert forall v :: v in t.workers ==> !Holds(t, v, id);
    } else {
      Frame(s, t, w, id);
    }
  }

  lemma FetchExclusive(cfg: Config, s: State, a: Action, id: string)
    requires Exclusive(s, id) && (a.Fetch? || a.FetchSent?)
    ensures Exclusive(Step(cfg, s, a), id)
  {
    if Step(cfg, s, a) != s { Frame(s, Step(cfg, s, a), a.w, id); }
  }

  lemma ReadExclusive(s: State, w: WorkerId, id: string)
    requires Exclusive(s, id)
    ensures Exclusive(ReadAttemptsStep(s, w), id)
  {
    if ReadAttemptsStep(s, w) != s { Frame(s, ReadAttemptsStep(s, w), w, id); }
  }

  lemma ReplayExclusive(cfg: Config, s: State, w: WorkerId, outcome: Outcome, id: string)
    requires Exclusive(s, id)
    ensures Exclusive(ReplayStep(cfg, s, w, outcome), id)
  {
    if ReplayStep(cfg, s, w, outcome) != s { Frame(s, ReplayStep(cfg, s, w, outcome), w, id); }
  }

  lemma StepExclusive(cfg: Config, s: State, a: Action, id: string)
    requires Consistent(s) && Exclusive(s, id) && Timely(s, id) && !LosesReply(s, a, id)
    ensures Exclusive(Step(cfg, s, a), id)
  {
    hide LockStep, HandleStep, MarkSentStep, ReadAttemptsStep, MarkFailedStep, CrashStep, ReplayStep;
    match a {
      case Tick(_) =>
      case Add(e) =>
      case Fetch(w, _) => FetchExclusive(cfg, s, a, id);
      case Lock(w) => LockExclusive(s, w, id);
      case Handle(w, outcome) => HandleExclusive(cfg, s, w, outcome, id);
      case MarkSent(w, outcome) => MarkSentExclusive(cfg, s, w, outcome, id);
      case ReadAttempts(w) => ReadExclusive(s, w, id);
      case MarkFailed(w) => MarkFailedExclusive(cfg, s, w, id);
      case Crash(w) => CrashExclusive(s, w, id);
      case FetchSent(w, _) => FetchExclusive(cfg, s, a, id);
      case ReplayHandle(w, outcome) => ReplayExclusive(cfg, s, w, outcome, id);
    }
  }

  lemma {:induction false} RunExclusive(cfg: Config, run: seq<Action>, id: string)
    requires TimelyRun(cfg, INITIAL, run, id)
    ensures Exclusive(Run(cfg, INITIAL, run), id)
  {
    if run != [] {
      var before := run[..|run| - 1];
      assert forall n :: 0 <= n <= |before| ==> before[..n] == run[..n];
      assert forall n :: 0 <= n < |before| ==> before[n] == run[n];
      RunExclusive(cfg, before, id);
      RunConsistent(cfg, INITIAL, before);
      assert run[..|before|] == before;
      StepExclusive(cfg, Run(cfg, INITIAL, before), run[|run| - 1], id);
    }
  }

  /** Main result: timely workers that lose no reply exclude each other, event by event. */
  lemma AtMostOneHolder(cfg: Config, run: seq<Action>, id: string, v: WorkerId, w: WorkerId)
    requires TimelyRun(cfg, INITIAL, run, id)
    requires Holds(Run(cfg, INITIAL, run), v, id) && Holds(Run(cfg, INITIAL, run), w, id)
    ensures v == w
  {
    RunExclusive(cfg, run, id);
  }

  /** A lock abandoned by a crash is taken over strictly after its deadline, never before. */
  lemma AbandonedLockOutlivesCrash(cfg: Config, run: seq<Action>, id: string, a: Action, w: WorkerId)
    requires TimelyRun(cfg, INITIAL, run, id)
    requires var s := Run(cfg, INITIAL, run);
      id in s.ledger.orphans && !Holds(s, w, id) && Holds(Step(cfg, s, a), w, id)
    ensures Run(cfg, INITIAL, run).ledger.orphans[id] < Run(cfg, INITIAL, run).now
  {
    RunExclusive(cfg, run, id);
    OnlyLockTakes(cfg, Run(cfg, INITIAL, run), a, w, id);
  }

  /** Holding starts only with a successful lock on a free or expired row. */
  lemma OnlyLockTakes(cfg: Config, s: State, a: Action, w: WorkerId, id: string)
    requires !Holds(s, w, id) && Holds(Step(cfg, s, a), w, id)
    ensures a.Lock? && a.w == w && id in s.rows && Lockable(s.rows[id], s.now)
  {
    match a {
      case Tick(_) =>
      case Add(_) =>
      case Fetch(_, _) =>
      case Lock(_) =>
      case Handle(v, o) => HandleTakesNothing(cfg, s, v, o, w, id);
      case MarkSent(v, o) => MarkSentTakesNothing(cfg, s, v, o, w, id);
      case ReadAttempts(_) =>
      case MarkFailed(_) =>
      case Crash(_) =>
      case FetchSent(_, _) =>
      case ReplayHandle(v, o) => ReplayTakesNothing(cfg, s, v, o, w, id);
    }
  }

  lemma HandleTakesNothing(cfg: Config, s: State, v: WorkerId, o: Outcome, w: WorkerId, id: string)
    ensures Holds(HandleStep(cfg, s, v, o), w, id) ==> Holds(s, w, id)
  {
  }

  lemma MarkSentTakesNothing(cfg: Config, s: State, v: WorkerId, o: Outcome, w: WorkerId, id: string)
    ensures Holds(MarkSentStep(cfg, s, v, o), w, id) ==> Holds(s, w, id)
  {
  }

  lemma ReplayTakesNothing(cfg: Config, s: State, v: WorkerId, o: Outcome, w: WorkerId, id: string)
    ensures Holds(ReplayStep(cfg, s, v, o), w, id) ==> Holds(s, w, id)
  {
  }

  /** Exactly when a second worker gets in: its lock succeeds iff the holder has overrun. */
  lemma SecondLockIffOverrun(s: State, holder: WorkerId, other: WorkerId, id: string)
    requires Consistent(s) && Exclusive(s, id) && id != ""
    requires holder in s.workers && Holds(s, holder, id) && holder != other
    requires WorkerOf(s, other).task == Idle && WorkerOf(s, other).batch != []
      && WorkerOf(s, other).batch[0].eventId == id
    ensures Holds(LockStep(s, other), holder, id)
    ensures Holds(LockStep(s, other), other, id) <==> WorkerOf(s, holder).task.until < s.now
  {
  }

  // ---- Timeliness is needed ---------------------------------------------------

  const SAMPLE: Event := Event("e", "DocumentUploaded", "v1", "", None, None, None, None, map["document_id" := "d"])

  const THREE_WORKERS: seq<Action> := [Add(SAMPLE), Fetch(0, [SAMPLE]), Fetch(1, [SAMPLE]), Fetch(2, [SAMPLE])]

  const WAITING: Worker := Worker([SAMPLE], Idle)
  const FAILING: Worker := Worker([], Raised(SAMPLE, Seconds(30), "x"))
  const FAILED_ONCE: Worker := Worker([], Counted(SAMPLE, Seconds(30), "x", 1))

  function Busy(until: Time): Worker {
    Worker([], Publishing(SAMPLE, until, 0))
  }

  /** The clock, the only row and the three workers. */
  ghost predicate Stands(s: State, now: Time, row: Row, a: Worker, b: Worker, c: Worker) {
    s.now == now && s.rows == map["e" := row] && s.workers == map[0 := a, 1 := b, 2 := c]
  }

  lemma AfterThreeFetches(cfg: Config)
    requires cfg.maxAttempts >= 1 && cfg.batchSize >= 1
    ensures Stands(Run(cfg, INITIAL, THREE_WORKERS), 0, NewRow(SAMPLE), WAITING, WAITING, WAITING)
  {
    hide LockStep, HandleStep, MarkSentStep, MarkFailedStep, ReplayStep, CrashStep;
    var r0: seq<Action> := [];
    var r1, r2, r3 := THREE_WORKERS[..1], THREE_WORKERS[..2], THREE_WORKERS[..3];
    assert r1[..0] == r0 && r2[..1] == r1 && r3[..2] == r2;
    assert Run(cfg, INITIAL, r0) == INITIAL;
    var s1 := Run(cfg, INITIAL, r1);
    assert Added(INITIAL.rows, SAMPLE) == map["e" := NewRow(SAMPLE)];
    assert PendingBatch(cfg, s1, [SAMPLE]);
    var s2 := Run(cfg, INITIAL, r2);
    assert s2 == s1.(workers := map[0 := WAITING]);
    assert PendingBatch(cfg, s2, [SAMPLE]);
    var s3 := Run(cfg, INITIAL, r3);
    assert s3 == s2.(workers := map[0 := WAITING, 1 := WAITING]);
    assert PendingBatch(cfg, s3, [SAMPLE]);
  }

  /** A worker that waits takes the free row. */
  lemma LockOfSample(s: State, w: WorkerId)
    requires WorkerOf(s, w) == WAITING && "e" in s.rows && Lockable(s.rows["e"], s.now)
    ensures var t, until := LockStep(s, w), Deadline(s.now, LOCK_TTL_SECONDS);
      && t.now == s.now && t.rows == s.rows["e" := s.rows["e"].(lockedUntil := Some(until))]
      && t.workers == s.workers[w := Busy(until)]
  {
    assert [SAMPLE][1..] == [];
  }

  lemma LockTakes(cfg: Config, s: State, now: Time, row: Row, a: Worker, b: Worker, c: Worker, w: WorkerId)
    requires Stands(s, now, row, a, b, c) && Lockable(row, now)
    requires w < 3 && WorkerOf(s, w) == WAITING
    ensures var until := Deadline(now, LOCK_TTL_SECONDS);
      Stands(Step(cfg, s, Lock(w)), now, row.(lockedUntil := Some(until)),
             if w == 0 then Busy(until) else a, if w == 1 then Busy(until) else b, if w == 2 then Busy(until) else c)
  {
    hide LockStep, HandleStep, MarkSentStep, MarkFailedStep, ReplayStep, CrashStep, Lockable;
    LockOfSample(s, w);
  }

  lemma RunOfThree(cfg: Config, s: State, r: seq<Action>)
    requires |r| == 3
    ensures Run(cfg, s, r) == Step(cfg, Step(cfg, Step(cfg, s, r[0]), r[1]), r[2])
  {
    hide Step;
    assert r[..1][..0] == [] && r[..2][..1] == r[..1];
    assert Run(cfg, s, r[..1]) == Step(cfg, s, r[0]);
    assert Run(cfg, s, r[..2]) == Step(cfg, Run(cfg, s, r[..1]), r[1]);
  }

  const OVERRUN: seq<Action> := [Lock(0), Tick(31_000_000), Lock(1)]

  /** An overrunning holder and a stale batch: two workers publish the same event. */
  lemma OverrunBreaksExclusion(cfg: Config)
    requires cfg.maxAttempts >= 1 && cfg.batchSize >= 1
    ensures var s := Run(cfg, INITIAL, THREE_WORKERS + OVERRUN);
      Holds(s, 0, "e") && Holds(s, 1, "e") && !Timely(s, "e")
  {
    AfterThreeFetches(cfg);
    RunConcat(cfg, INITIAL, THREE_WORKERS, OVERRUN);
    OverrunSteps(cfg, Run(cfg, INITIAL, THREE_WORKERS));
  }

  lemma OverrunSteps(cfg: Config, s: State)
    requires Stands(s, 0, NewRow(SAMPLE), WAITING, WAITING, WAITING)
    ensures var t := Run(cfg, s, OVERRUN);
      Holds(t, 0, "e") && Holds(t, 1, "e") && !Timely(t, "e")
  {
    hide LockStep, HandleStep, MarkSentStep, MarkFailedStep, ReplayStep, CrashStep, Run;
    RunOfThree(cfg, s, OVERRUN);
    var row := NewRow(SAMPLE).(lockedUntil := Some(Seconds(30)));
    LockTakes(cfg, s, 0, NewRow(SAMPLE), WAITING, WAITING, WAITING, 0);
    var s2 := Step(cfg, Step(cfg, s, Lock(0)), Tick(31_000_000));
    assert Stands(s2, Seconds(31), row, Busy(Seconds(30)), WAITING, WAITING);
    LockTakes(cfg, s2, Seconds(31), row, Busy(Seconds(30)), WAITING, WAITING, 1);
  }

  // ---- Kept replies are needed ------------------------------------------------

  const LOST_REPLY: seq<Action> :=
    [Lock(0), MarkSent(0, RaisedAfter("x")), Lock(1), ReadAttempts(0), MarkFailed(0), Lock(2)]

  /** A reply lost after its write, at time 0 and before any deadline: worker 0 gives its lock back twice, and
      two others publish the event at the same time. */
  lemma LostReplyBreaksExclusion(cfg: Config)
    requires cfg.maxAttempts >= 1 && cfg.batchSize >= 1 && HandlersFor(cfg, SAMPLE.name) == []
    ensures var s := Run(cfg, INITIAL, THREE_WORKERS + LOST_REPLY);
      s.now == 0 && Holds(s, 1, "e") && Holds(s, 2, "e") && Timely(s, "e")
  {
    AfterThreeFetches(cfg);
    RunConcat(cfg, INITIAL, THREE_WORKERS, LOST_REPLY);
    LostReplySteps(cfg, Run(cfg, INITIAL, THREE_WORKERS));
  }

  lemma RunOfSix(cfg: Config, s: State, r: seq<Action>)
    requires |r| == 6
    ensures Run(cfg, s, r) ==
      Step(cfg, Step(cfg, Step(cfg, Step(cfg, Step(cfg, Step(cfg, s, r[0]), r[1]), r[2]), r[3]), r[4]), r[5])
  {
    hide Step;
    assert r[..1][..0] == [] && r[..2][..1] == r[..1] && r[..3][..2] == r[..2];
    assert r[..4][..3] == r[..3] && r[..5][..4] == r[..4];
    assert Run(cfg, s, r[..1]) == Step(cfg, s, r[0]);
    assert Run(cfg, s, r[..2]) == Step(cfg, Run(cfg, s, r[..1]), r[1]);
    assert Run(cfg, s, r[..3]) == Step(cfg, Run(cfg, s, r[..2]), r[2]);
    assert Run(cfg, s, r[..4]) == Step(cfg, Run(cfg, s, r[..3]), r[3]);
    assert Run(cfg, s, r[..5]) == Step(cfg, Run(cfg, s, r[..4]), r[4]);
  }

  lemma LostMarkOfSample(cfg: Config, s: State)
    requires HandlersFor(cfg, SAMPLE.name) == [] && WorkerOf(s, 0) == Busy(Seconds(30)) && "e" in s.rows
    ensures var t := MarkSentStep(cfg, s, 0, RaisedAfter("x"));
      t.now == s.now && t.rows == s.rows["e" := SentRow(s.rows["e"])] && t.workers == s.workers[0 := FAILING]
  {
    hide HandlersFor, SentRow;
    assert SAMPLE.eventId == "e";
  }

  lemma ReplyIsLost(cfg: Config, s: State, row: Row)
    requires HandlersFor(cfg, SAMPLE.name) == [] && Stands(s, 0, row, Busy(Seconds(30)), WAITING, WAITING)
    ensures Stands(Step(cfg, s, MarkSent(0, RaisedAfter("x"))), 0, SentRow(row), FAILING, WAITING, WAITING)
  {
    hide LockStep, HandleStep, MarkSentStep, ReplayStep, MarkFailedStep, CrashStep, HandlersFor, SentRow;
    LostMarkOfSample(cfg, s);
  }

  lemma FailureIsRead(cfg: Config, s: State, row: Row)
    requires Stands(s, 0, row, FAILING, Busy(Seconds(30)), WAITING) && row.attempts == 0
    ensures Stands(Step(cfg, s, ReadAttempts(0)), 0, row, FAILED_ONCE, Busy(Seconds(30)), WAITING)
  {
  }

  lemma FailureIsMarked(cfg: Config, s: State, row: Row)
    requires Stands(s, 0, row, FAILED_ONCE, Busy(Seconds(30)), WAITING)
    ensures Stands(Step(cfg, s, MarkFailed(0)), 0, FailedRow(row, "x", 1, cfg.maxAttempts, 0), RESTED,
      Busy(Seconds(30)), WAITING)
  {
    hide LockStep, HandleStep, ReplayStep, MarkSentStep, CrashStep, FailedRow;
    assert WorkerOf(s, 0) == FAILED_ONCE && s.rows["e"] == row;
  }

  lemma LostReplySteps(cfg: Config, s: State)
    requires HandlersFor(cfg, SAMPLE.name) == [] && Stands(s, 0, NewRow(SAMPLE), WAITING, WAITING, WAITING)
    ensures var t := Run(cfg, s, LOST_REPLY);
      t.now == 0 && Holds(t, 1, "e") && Holds(t, 2, "e") && Timely(t, "e")
  {
    hide Step, FailedRow, SentRow;
    RunOfSix(cfg, s, LOST_REPLY);
    var row := NewRow(SAMPLE).(lockedUntil := Some(Seconds(30)));
    LockTakes(cfg, s, 0, NewRow(SAMPLE), WAITING, WAITING, WAITING, 0);
    var s1 := Step(cfg, s, Lock(0));
    ReplyIsLost(cfg, s1, row);
    var s2 := Step(cfg, s1, MarkSent(0, RaisedAfter("x")));
    Unlocks(row, cfg.maxAttempts);
    LockTakes(cfg, s2, 0, SentRow(row), FAILING, WAITING, WAITING, 1);
    var s3, again := Step(cfg, s2, Lock(1)), SentRow(row).(lockedUntil := Some(Seconds(30)));
    FailureIsRead(cfg, s3, again);
    var s4 := Step(cfg, s3, ReadAttempts(0));
    FailureIsMarked(cfg, s4, again);
    var s5 := Step(cfg, s4, MarkFailed(0));
    Unlocks(again, cfg.maxAttempts);
    LockTakes(cfg, s5, 0, FailedRow(again, "x", 1, cfg.maxAttempts, 0), RESTED, Busy(Seconds(30)), WAITING, 2);
  }

  /** Both marks give the lock back, whoever has it. */
  lemma Unlocks(row: Row, maxAttempts: nat)
    ensures SentRow(row).lockedUntil.None? && SentRow(row).attempts == row.attempts
    ensures FailedRow(row, "x", 1, maxAttempts, 0).lockedUntil.None?
  {
  }
}
