/** Rows of the transactional outbox and what each repository update does to one row. */
module OutboxModel {
  import opened Prelude

  /** Microseconds. The stored ISO strings compare the same way (IsoTimestamp). */
  type Time = int

  function Seconds(n: int): Time {
    n * 1_000_000
  }

  const LOCK_TTL_SECONDS: int := 30

  type Payload = map<string, string>

  datatype Event = Event(
    eventId: string, name: string, eventVersion: string, occurredAt: string,
    actorId: Option<string>, departmentId: Option<string>, correlationId: Option<string>,
    idempotencyKey: Option<string>, payload: Payload)

  datatype OutboxStatus = PENDING | SENT | FAILED | DEAD_LETTER

  datatype Row = Row(
    event: Event, status: OutboxStatus, attempts: nat, lastError: Option<string>,
    lockedUntil: Option<Time>, nextAttemptAt: Option<Time>)

  type Rows = map<string, Row>

  /** `OutboxEvent.to_document`: a new row. */
  function NewRow(e: Event): Row {
    Row(e, PENDING, 0, None, None, None)
  }

  // ---- add_event ---------------------------------------------------------

  predicate HasKey(e: Event) {
    e.idempotencyKey.Some? && e.idempotencyKey.value != ""
  }

  predicate SameKey(a: Event, b: Event) {
    a.name == b.name && a.eventVersion == b.eventVersion && a.idempotencyKey == b.idempotencyKey
  }

  predicate AlreadyAdded(rows: Rows, e: Event) {
    e.eventId in rows || (HasKey(e) && exists id :: id in rows && SameKey(rows[id].event, e))
  }

  /** The upsert with `$setOnInsert`; a clash on `_id` alone raises and changes nothing. */
  function Added(rows: Rows, e: Event): Rows {
    if AlreadyAdded(rows, e) then rows else rows[e.eventId := NewRow(e)]
  }

  // ---- get_pending, lock_for_processing -----------------------------------

  predicate Lockable(row: Row, now: Time) {
    row.lockedUntil.None? || row.lockedUntil.value < now
  }

  predicate Open(row: Row) {
    row.status == PENDING || row.status == FAILED
  }

  predicate Ready(row: Row, maxAttempts: nat, now: Time) {
    && Open(row) && row.attempts < maxAttempts
    && (row.nextAttemptAt.None? || row.nextAttemptAt.value <= now)
  }

  predicate Due(row: Row, maxAttempts: nat, now: Time) {
    Ready(row, maxAttempts, now) && Lockable(row, now)
  }

  function Deadline(now: Time, ttlSeconds: int): Time {
    now + Seconds(ttlSeconds)
  }

  // ---- mark_sent, mark_failed ----------------------------------------------

  function SentRow(row: Row): Row {
    row.(status := SENT, lastError := None, lockedUntil := None)
  }

  function Pow2(n: nat): (p: nat)
    ensures p >= 1
  {
    if n == 0 then 1 else 2 * Pow2(n - 1)
  }

  /** Seconds to wait after failed attempt number `n`. */
  function BackoffSeconds(n: nat): nat {
    var p := Pow2(if n >= 1 then n - 1 else 0);
    if p < 3600 then p else 3600
  }

  /** `count` is the attempt number computed from the row as read beforehand. */
  function FailedRow(row: Row, err: string, count: nat, maxAttempts: nat, now: Time): Row {
    row.(status := if count >= maxAttempts then DEAD_LETTER else FAILED,
         lastError := Some(err),
         lockedUntil := None,
         nextAttemptAt := if count >= maxAttempts then None else Some(now + Seconds(BackoffSeconds(count))),
         attempts := row.attempts + 1)
  }

  // ---- The total back-off ---------------------------------------------------

  /** Seconds waited over the first `k` failures of one event. */
  function TotalBackoff(k: nat): nat {
    if k == 0 then 0 else TotalBackoff(k - 1) + BackoffSeconds(k)
  }

  lemma {:induction false} Pow2Grows(n: nat)
    requires n >= 12
    ensures Pow2(n) >= 4096
  {
    if n > 12 {
      Pow2Grows(n - 1);
    } else {
      assert Pow2(4) == 16;
      assert Pow2(8) == 16 * Pow2(4) by { assert Pow2(6) == 4 * Pow2(4); }
      assert Pow2(12) == 16 * Pow2(8) by { assert Pow2(10) == 4 * Pow2(8); }
    }
  }

  lemma {:induction false} Pow2Small(n: nat)
    requires n <= 11
    ensures Pow2(n) <= 2048
    decreases 11 - n
  {
    if n == 11 {
      assert Pow2(4) == 16;
      assert Pow2(8) == 256 by { assert Pow2(6) == 4 * Pow2(4); }
      assert Pow2(11) == 2048 by { assert Pow2(10) == 4 * Pow2(8); }
    } else {
      Pow2Small(n + 1);
    }
  }

  lemma {:induction false} TotalBackoffBelowCap(k: nat)
    requires k <= 12
    ensures TotalBackoff(k) == Pow2(k) - 1
  {
    if k > 0 {
      TotalBackoffBelowCap(k - 1);
      Pow2Small(k - 1);
    }
  }

  /** Closed form: doubling up to the one-hour cap, then one hour per attempt. */
  lemma {:induction false} TotalBackoffClosedForm(maxAttempts: nat)
    requires maxAttempts >= 1
    ensures maxAttempts <= 13 ==> TotalBackoff(maxAttempts - 1) == Pow2(maxAttempts - 1) - 1
    ensures maxAttempts > 13 ==> TotalBackoff(maxAttempts - 1) == 4095 + 3600 * (maxAttempts - 13)
  {
    if maxAttempts <= 13 {
      TotalBackoffBelowCap(maxAttempts - 1);
    } else {
      TotalBackoffClosedForm(maxAttempts - 1);
      Pow2Grows(maxAttempts - 2);
      if maxAttempts == 14 {
        assert Pow2(4) == 16;
        assert Pow2(8) == 256 by { assert Pow2(6) == 4 * Pow2(4); }
        assert Pow2(12) == 4096 by { assert Pow2(10) == 4 * Pow2(8); }
      }
    }
  }
}
