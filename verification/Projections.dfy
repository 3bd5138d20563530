/** The two read models fed by the event bus: the document timeline and the audit log.
    Each subscriber writes one row computed from the event, if its key is not there yet. */
module Projections {
  import opened Prelude
  import opened Text
  import opened OutboxModel

  datatype Handler = TimelineHandler | AuditHandler | OtherHandler(id: nat)

  datatype TimelineRow = TimelineRow(
    sourceEventId: string, eventName: string, occurredAt: string, actorId: Option<string>,
    departmentId: Option<string>, documentId: string, filename: string, payload: Payload)

  datatype AuditRow = AuditRow(
    sourceEventId: string, action: string, resourceType: string, resourceId: string,
    userId: string, departmentId: Option<string>, payload: Payload)

  /** `payload.get(key) or ""`. */
  function Field(p: Payload, key: string): string {
    if key in p then p[key] else ""
  }

  function FirstField(p: Payload, keys: seq<string>, default: string): string {
    if keys == [] then default else OrElse(Field(p, keys[0]), FirstField(p, keys[1..], default))
  }

  const TIMESTAMP_KEYS: seq<string> := [
    "uploaded_at", "locked_at", "updated_at", "deleted_at", "applied_at",
    "released_at", "accessed_at", "archived_at", "scanned_at"]

  /** The timeline subscriber: no row for an event that names no document. */
  function TimelineRowOf(e: Event): Option<TimelineRow> {
    var documentId := Trim(Field(e.payload, "document_id"));
    var filename := Trim(Field(e.payload, "filename"));
    if documentId == "" && filename == "" then None
    else Some(TimelineRow(
      e.eventId, e.name, FirstField(e.payload, TIMESTAMP_KEYS, e.occurredAt), e.actorId, e.departmentId,
      OrElse(documentId, filename), OrElse(filename, documentId), e.payload))
  }

  const AUDIT_ACTIONS: map<string, string> := map[
    "LeaveApplied" := "LEAVE_APPLIED", "LeaveApproved" := "LEAVE_APPROVED", "LeaveRejected" := "LEAVE_REJECTED",
    "DocumentUploaded" := "DOCUMENT_UPLOADED", "DocumentLocked" := "DOCUMENT_LOCKED",
    "DocumentMetadataUpdated" := "DOCUMENT_METADATA_UPDATED", "DocumentDeleted" := "DOCUMENT_DELETED",
    "ChangeRequestSubmitted" := "CHANGE_REQUEST_SUBMITTED", "ChangeRequestApplied" := "CHANGE_REQUEST_APPLIED",
    "ChangeRequestRejected" := "CHANGE_REQUEST_REJECTED", "ChangeRequestCancelled" := "CHANGE_REQUEST_CANCELLED",
    "EmployeeProfileSubmitted" := "EMPLOYEE_PROFILE_SUBMITTED",
    "EmployeeProfileVerified" := "EMPLOYEE_PROFILE_VERIFIED",
    "EmployeeProfileApproved" := "EMPLOYEE_PROFILE_APPROVED", "EmployeeProfileRejected" := "EMPLOYEE_PROFILE_REJECTED",
    "EmployeeProfileLocked" := "EMPLOYEE_PROFILE_LOCKED", "ServiceBookEntryCreated" := "SERVICE_BOOK_ENTRY_CREATED",
    "ServiceBookEntrySaved" := "SERVICE_BOOK_ENTRY_SAVED",
    "ServiceBookEntrySubmitted" := "SERVICE_BOOK_ENTRY_SUBMITTED",
    "ServiceBookEntryVerified" := "SERVICE_BOOK_ENTRY_VERIFIED",
    "ServiceBookEntryApproved" := "SERVICE_BOOK_ENTRY_APPROVED",
    "ServiceBookEntryLocked" := "SERVICE_BOOK_ENTRY_LOCKED",
    "ServiceBookEntrySuperseded" := "SERVICE_BOOK_ENTRY_SUPERSEDED"]

  function ActionOf(name: string): string {
    if name in AUDIT_ACTIONS then AUDIT_ACTIONS[name] else name
  }

  function ResourceOf(name: string, p: Payload): (string, string) {
    if "Document" <= name then ("document", FirstField(p, ["document_id", "filename"], "unknown"))
    else if "ChangeRequest" <= name then ("change_request", FirstField(p, ["request_id"], "unknown"))
    else if "EmployeeProfile" <= name then ("employee_profile", FirstField(p, ["employee_id"], "unknown"))
    else if "ServiceBook" <= name then ("servicebook_entry", FirstField(p, ["entry_id", "source_entry_id"], "unknown"))
    else ("leave_application", FirstField(p, ["leave_id"], "unknown"))
  }

  /** The audit subscriber. */
  function AuditRowOf(e: Event): AuditRow {
    var (resourceType, resourceId) := ResourceOf(e.name, e.payload);
    var user := match e.actorId case Some(a) => OrElse(a, "system") case None => "system";
    AuditRow(e.eventId, ActionOf(e.name), resourceType, resourceId, user, e.departmentId, e.payload)
  }

  // ---- What the rows say ------------------------------------------------------

  predicate NamesDocument(p: Payload) {
    || ("document_id" in p && exists i :: 0 <= i < |p["document_id"]| && !IsSpace(p["document_id"][i]))
    || ("filename" in p && exists i :: 0 <= i < |p["filename"]| && !IsSpace(p["filename"][i]))
  }

  /** `text` stands in the payload under `key`, blanks around it apart; it is empty where there is none. */
  predicate Under(p: Payload, key: string, text: string) {
    text == if key in p then Trim(p[key]) else ""
  }

  /** The first of the payload's nine times that is there, and without any the event's own. */
  ghost predicate ShowsTime(time: string, e: Event) {
    var keys := ["uploaded_at", "locked_at", "updated_at", "deleted_at", "applied_at", "released_at", "accessed_at",
      "archived_at", "scanned_at"];
    var absent := (i: int) requires 0 <= i < 9 => keys[i] !in e.payload || e.payload[keys[i]] == "";
    || ((forall i :: 0 <= i < 9 ==> absent(i)) && time == e.occurredAt)
    || exists i :: 0 <= i < 9 && !absent(i) && e.payload[keys[i]] == time && forall j :: 0 <= j < i ==> absent(j)
  }

  /** A timeline row tells of an event: each of document and file name stands in for the other. */
  ghost predicate ShowsTimeline(r: TimelineRow, e: Event) {
    && r.sourceEventId == e.eventId && r.eventName == e.name && r.payload == e.payload
    && r.actorId == e.actorId && r.departmentId == e.departmentId && ShowsTime(r.occurredAt, e)
    && r.documentId != "" && r.filename != ""
    && (Under(e.payload, "document_id", r.documentId)
      || (Under(e.payload, "document_id", "") && r.documentId == r.filename))
    && (Under(e.payload, "filename", r.filename) || (Under(e.payload, "filename", "") && r.filename == r.documentId))
  }

  lemma {:induction false} FirstFieldShows(e: Event)
    ensures ShowsTime(FirstField(e.payload, TIMESTAMP_KEYS, e.occurredAt), e)
  {
    var keys := TIMESTAMP_KEYS;
    FirstFieldFrom(e.payload, keys, e.occurredAt);
    assert keys == ["uploaded_at", "locked_at", "updated_at", "deleted_at", "applied_at", "released_at", "accessed_at",
      "archived_at", "scanned_at"];
  }

  /** The first of the keys that has a text. */
  lemma {:induction false} FirstFieldFrom(p: Payload, keys: seq<string>, default: string)
    ensures
      || ((forall i :: 0 <= i < |keys| ==> Field(p, keys[i]) == "") && FirstField(p, keys, default) == default)
      || exists i :: 0 <= i < |keys| && Field(p, keys[i]) != "" && FirstField(p, keys, default) == Field(p, keys[i])
                     && forall j :: 0 <= j < i ==> Field(p, keys[j]) == ""
  {
    if keys != [] && Field(p, keys[0]) == "" {
      var rest := keys[1..];
      FirstFieldFrom(p, rest, default);
      assert forall i :: 0 < i < |keys| ==> keys[i] == rest[i - 1];
      forall i | 0 <= i < |rest| ensures rest[i] == keys[i + 1] { }
    }
  }

  lemma {:induction false} ShowsOneTime(a: string, b: string, e: Event)
    requires ShowsTime(a, e) && ShowsTime(b, e)
    ensures a == b
  {
  }

  /** A text is blank exactly when nothing of it is left without the blanks around it. */
  lemma {:induction false} BlankText(t: string)
    ensures Trim(t) != "" <==> exists i :: 0 <= i < |t| && !IsSpace(t[i])
  {
    TrimSplits(t);
  }

  /** The timeline row of an event is there exactly when the payload names a document, and it is the one row
      that tells of the event. */
  lemma {:induction false} TimelineRowShows(e: Event, r: TimelineRow)
    ensures TimelineRowOf(e).Some? <==> NamesDocument(e.payload)
    ensures TimelineRowOf(e) == Some(r) <==> NamesDocument(e.payload) && ShowsTimeline(r, e)
  {
    hide Trim, ShowsTime, FirstField;
    BlankText(Field(e.payload, "document_id"));
    BlankText(Field(e.payload, "filename"));
    assert Trim("") == "" by { BlankText(""); }
    FirstFieldShows(e);
    if ShowsTimeline(r, e) { ShowsOneTime(r.occurredAt, FirstField(e.payload, TIMESTAMP_KEYS, e.occurredAt), e); }
  }

  lemma RowIsThere(e: Event)
    ensures TimelineRowOf(e).Some? <==> NamesDocument(e.payload)
  {
    TimelineRowShows(e, TimelineRow("", "", "", None, None, "", "", map[]));
  }

  /** The actions of the audit log by event name. */
  lemma ActionsSay(name: string, action: string)
    ensures name in AUDIT_ACTIONS && AUDIT_ACTIONS[name] == action ==> (name, action) in {
      ("LeaveApplied", "LEAVE_APPLIED"), ("LeaveApproved", "LEAVE_APPROVED"),
      ("LeaveRejected", "LEAVE_REJECTED"), ("DocumentUploaded", "DOCUMENT_UPLOADED"),
      ("DocumentLocked", "DOCUMENT_LOCKED"), ("DocumentMetadataUpdated", "DOCUMENT_METADATA_UPDATED"),
      ("DocumentDeleted", "DOCUMENT_DELETED"), ("ChangeRequestSubmitted", "CHANGE_REQUEST_SUBMITTED"),
      ("ChangeRequestApplied", "CHANGE_REQUEST_APPLIED"), ("ChangeRequestRejected", "CHANGE_REQUEST_REJECTED"),
      ("ChangeRequestCancelled", "CHANGE_REQUEST_CANCELLED"),
      ("EmployeeProfileSubmitted", "EMPLOYEE_PROFILE_SUBMITTED"),
      ("EmployeeProfileVerified", "EMPLOYEE_PROFILE_VERIFIED"),
      ("EmployeeProfileApproved", "EMPLOYEE_PROFILE_APPROVED"),
      ("EmployeeProfileRejected", "EMPLOYEE_PROFILE_REJECTED"),
      ("EmployeeProfileLocked", "EMPLOYEE_PROFILE_LOCKED"),
      ("ServiceBookEntryCreated", "SERVICE_BOOK_ENTRY_CREATED"),
      ("ServiceBookEntrySaved", "SERVICE_BOOK_ENTRY_SAVED"),
      ("ServiceBookEntrySubmitted", "SERVICE_BOOK_ENTRY_SUBMITTED"),
      ("ServiceBookEntryVerified", "SERVICE_BOOK_ENTRY_VERIFIED"),
      ("ServiceBookEntryApproved", "SERVICE_BOOK_ENTRY_APPROVED"),
      ("ServiceBookEntryLocked", "SERVICE_BOOK_ENTRY_LOCKED"),
      ("ServiceBookEntrySuperseded", "SERVICE_BOOK_ENTRY_SUPERSEDED")}
    ensures name in AUDIT_ACTIONS <==> name in {
      "LeaveApplied", "LeaveApproved", "LeaveRejected", "DocumentUploaded", "DocumentLocked",
      "DocumentMetadataUpdated", "DocumentDeleted", "ChangeRequestSubmitted", "ChangeRequestApplied",
      "ChangeRequestRejected", "ChangeRequestCancelled", "EmployeeProfileSubmitted", "EmployeeProfileVerified",
      "EmployeeProfileApproved", "EmployeeProfileRejected", "EmployeeProfileLocked", "ServiceBookEntryCreated",
      "ServiceBookEntrySaved", "ServiceBookEntrySubmitted", "ServiceBookEntryVerified",
      "ServiceBookEntryApproved", "ServiceBookEntryLocked", "ServiceBookEntrySuperseded"}
  {
  }

  /** The first text of the payload under the keys, or "unknown". */
  predicate ShowsId(id: string, p: Payload, keys: seq<string>)
    requires 1 <= |keys| <= 2
  {
    if keys[0] in p && p[keys[0]] != "" then id == p[keys[0]]
    else if |keys| == 2 && keys[1] in p && p[keys[1]] != "" then id == p[keys[1]]
    else id == "unknown"
  }

  /** An audit row tells of an event; what kind of thing it is about the beginning of the name says. */
  predicate ShowsAudit(r: AuditRow, e: Event) {
    && r.sourceEventId == e.eventId && r.departmentId == e.departmentId && r.payload == e.payload
    && (if e.actorId.Some? && e.actorId.value != "" then r.userId == e.actorId.value else r.userId == "system")
    && (if e.name in AUDIT_ACTIONS then r.action == AUDIT_ACTIONS[e.name] else r.action == e.name)
    && ("Document" <= e.name ==>
          r.resourceType == "document" && ShowsId(r.resourceId, e.payload, ["document_id", "filename"]))
    && ("ChangeRequest" <= e.name ==>
          r.resourceType == "change_request" && ShowsId(r.resourceId, e.payload, ["request_id"]))
    && ("EmployeeProfile" <= e.name ==>
          r.resourceType == "employee_profile" && ShowsId(r.resourceId, e.payload, ["employee_id"]))
    && ("ServiceBook" <= e.name ==>
          r.resourceType == "servicebook_entry" && ShowsId(r.resourceId, e.payload, ["entry_id", "source_entry_id"]))
    && (!("Document" <= e.name) && !("ChangeRequest" <= e.name) && !("EmployeeProfile" <= e.name)
          && !("ServiceBook" <= e.name) ==>
          r.resourceType == "leave_application" && ShowsId(r.resourceId, e.payload, ["leave_id"]))
  }

  lemma {:induction false} FirstOfOne(p: Payload, a: string)
    ensures ShowsId(FirstField(p, [a], "unknown"), p, [a])
  {
    assert [a][1..] == [];
    assert FirstField(p, [], "unknown") == "unknown";
  }

  lemma {:induction false} FirstOfTwo(p: Payload, a: string, b: string)
    ensures ShowsId(FirstField(p, [a, b], "unknown"), p, [a, b])
  {
    assert [a, b][1..] == [b];
    FirstOfOne(p, b);
  }

  /** No name has two of the four beginnings. */
  lemma {:induction false} BeginningsDiffer(name: string)
    ensures "Document" <= name ==>
      !("ChangeRequest" <= name) && !("EmployeeProfile" <= name) && !("ServiceBook" <= name)
    ensures "ChangeRequest" <= name ==> !("EmployeeProfile" <= name) && !("ServiceBook" <= name)
    ensures "EmployeeProfile" <= name ==> !("ServiceBook" <= name)
  {
    assert "Document"[0] == 'D' && "ChangeRequest"[0] == 'C' && "EmployeeProfile"[0] == 'E' && "ServiceBook"[0] == 'S';
  }

  /** The audit row of an event is the one row that tells of it. */
  lemma {:induction false} AuditRowShows(e: Event, r: AuditRow)
    ensures AuditRowOf(e) == r <==> ShowsAudit(r, e)
  {
    hide FirstField;
    var p := e.payload;
    BeginningsDiffer(e.name);
    FirstOfTwo(p, "document_id", "filename");
    FirstOfOne(p, "request_id");
    FirstOfOne(p, "employee_id");
    FirstOfTwo(p, "entry_id", "source_entry_id");
    FirstOfOne(p, "leave_id");
  }

  // ---- Insert if absent -----------------------------------------------------

  predicate TimelineHas(rows: seq<TimelineRow>, id: string) {
    exists i :: 0 <= i < |rows| && rows[i].sourceEventId == id
  }

  /** `append`: nothing for an entry without a source event. */
  function AppendTimeline(rows: seq<TimelineRow>, r: TimelineRow): seq<TimelineRow> {
    if r.sourceEventId == "" || TimelineHas(rows, r.sourceEventId) then rows else rows + [r]
  }

  predicate SameAuditKey(a: AuditRow, b: AuditRow) {
    a.sourceEventId == b.sourceEventId && a.action == b.action && a.resourceType == b.resourceType
  }

  predicate AuditHas(rows: seq<AuditRow>, r: AuditRow) {
    exists i :: 0 <= i < |rows| && SameAuditKey(rows[i], r)
  }

  /** `insert_audit_log`: rows without a source event are always inserted. */
  function InsertAudit(rows: seq<AuditRow>, r: AuditRow): seq<AuditRow> {
    if r.sourceEventId != "" && AuditHas(rows, r) then rows else rows + [r]
  }

  datatype ReadModels = ReadModels(timeline: seq<TimelineRow>, audit: seq<AuditRow>)

  /** What a handler writes when its update goes through. */
  function Deliver(m: ReadModels, h: Handler, e: Event): ReadModels {
    match h
    case TimelineHandler =>
      (match TimelineRowOf(e) case Some(r) => m.(timeline := AppendTimeline(m.timeline, r)) case None => m)
    case AuditHandler => m.(audit := InsertAudit(m.audit, AuditRowOf(e)))
    case OtherHandler(_) => m
  }

  // ---- The read models are a function of the set of deliveries --------------

  datatype Delivery = Delivery(handler: Handler, event: Event)

  predicate TimelineKeysUnique(rows: seq<TimelineRow>) {
    forall i, j :: 0 <= i < j < |rows| ==> rows[i].sourceEventId != rows[j].sourceEventId
  }

  predicate AuditKeysUnique(rows: seq<AuditRow>) {
    forall i, j :: 0 <= i < j < |rows| ==> !SameAuditKey(rows[i], rows[j])
  }

  /** The events of a set of deliveries have distinct, non-empty identifiers. */
  ghost predicate EventsById(delivered: set<Delivery>) {
    && (forall d :: d in delivered ==> d.event.eventId != "")
    && (forall c, d :: c in delivered && d in delivered && c.event.eventId == d.event.eventId ==> c.event == d.event)
  }

  ghost function TimelineImage(delivered: set<Delivery>): set<TimelineRow> {
    set d | d in delivered && d.handler == TimelineHandler && TimelineRowOf(d.event).Some? ::
      TimelineRowOf(d.event).value
  }

  ghost function AuditImage(delivered: set<Delivery>): set<AuditRow> {
    set d | d in delivered && d.handler == AuditHandler :: AuditRowOf(d.event)
  }

  /** One row per delivered event in each read model, and no other row. */
  ghost predicate Projected(m: ReadModels, delivered: set<Delivery>) {
    && TimelineKeysUnique(m.timeline) && AuditKeysUnique(m.audit)
    && Elements(m.timeline) == TimelineImage(delivered)
    && Elements(m.audit) == AuditImage(delivered)
  }

  lemma DeliverTimeline(m: ReadModels, delivered: set<Delivery>, e: Event)
    requires Projected(m, delivered)
    requires EventsById(delivered + {Delivery(TimelineHandler, e)})
    ensures Projected(Deliver(m, TimelineHandler, e), delivered + {Delivery(TimelineHandler, e)})
  {
    var d := Delivery(TimelineHandler, e);
    assert d in delivered + {d};
    var after := Deliver(m, TimelineHandler, e);
    assert AuditImage(delivered + {d}) == AuditImage(delivered);
    if TimelineRowOf(e).Some? {
      var r := TimelineRowOf(e).value;
      assert TimelineImage(delivered + {d}) == TimelineImage(delivered) + {r};
      if TimelineHas(m.timeline, e.eventId) {
        var i :| 0 <= i < |m.timeline| && m.timeline[i].sourceEventId == e.eventId;
        assert m.timeline[i] in Elements(m.timeline);
        var c :| c in delivered && c.handler == TimelineHandler && TimelineRowOf(c.event) == Some(m.timeline[i]);
        assert c in delivered + {d};
        assert c.event == e;
      } else {
        assert Elements(m.timeline + [r]) == Elements(m.timeline) + {r};
      }
    } else {
      assert TimelineImage(delivered + {d}) == TimelineImage(delivered);
    }
  }

  lemma DeliverAudit(m: ReadModels, delivered: set<Delivery>, e: Event)
    requires Projected(m, delivered)
    requires EventsById(delivered + {Delivery(AuditHandler, e)})
    ensures Projected(Deliver(m, AuditHandler, e), delivered + {Delivery(AuditHandler, e)})
  {
    var d := Delivery(AuditHandler, e);
    assert d in delivered + {d};
    var r := AuditRowOf(e);
    assert TimelineImage(delivered + {d}) == TimelineImage(delivered);
    assert AuditImage(delivered + {d}) == AuditImage(delivered) + {r};
    if AuditHas(m.audit, r) {
      var i :| 0 <= i < |m.audit| && SameAuditKey(m.audit[i], r);
      assert m.audit[i] in Elements(m.audit);
      var c :| c in delivered && c.handler == AuditHandler && AuditRowOf(c.event) == m.audit[i];
      assert c in delivered + {d};
      assert c.event == e;
    } else {
      assert Elements(m.audit + [r]) == Elements(m.audit) + {r};
    }
  }

  /** A delivery, first or repeated, keeps the read models equal to the image of the deliveries. */
  lemma DeliverKeepsProjected(m: ReadModels, delivered: set<Delivery>, h: Handler, e: Event)
    requires Projected(m, delivered)
    requires EventsById(delivered + {Delivery(h, e)})
    ensures Projected(Deliver(m, h, e), delivered + {Delivery(h, e)})
  {
    match h
    case TimelineHandler => DeliverTimeline(m, delivered, e);
    case AuditHandler => DeliverAudit(m, delivered, e);
    case OtherHandler(_) =>
      assert TimelineImage(delivered + {Delivery(h, e)}) == TimelineImage(delivered);
      assert AuditImage(delivered + {Delivery(h, e)}) == AuditImage(delivered);
  }

  /** Redelivery is invisible. */
  lemma RedeliveryChangesNothing(m: ReadModels, delivered: set<Delivery>, h: Handler, e: Event)
    requires Projected(m, delivered) && EventsById(delivered)
    requires Delivery(h, e) in delivered
    ensures Deliver(m, h, e) == m
  {
    if h == TimelineHandler && TimelineRowOf(e).Some? {
      var r := TimelineRowOf(e).value;
      assert r in TimelineImage(delivered);
      assert r in Elements(m.timeline);
    } else if h == AuditHandler {
      assert AuditRowOf(e) in AuditImage(delivered);
      assert AuditRowOf(e) in Elements(m.audit);
      var i :| 0 <= i < |m.audit| && m.audit[i] == AuditRowOf(e);
      assert SameAuditKey(m.audit[i], AuditRowOf(e));
    }
  }

  lemma SameElements<T>(a: seq<T>, b: seq<T>)
    requires NoRepeats(a) && NoRepeats(b) && Elements(a) == Elements(b)
    ensures multiset(a) == multiset(b)
  {
    NoRepeatsCounted(a);
    NoRepeatsCounted(b);
    forall x ensures multiset(a)[x] == multiset(b)[x] {
      assert x in Elements(a) <==> x in multiset(a);
      assert x in Elements(b) <==> x in multiset(b);
    }
  }

  lemma AuditRowsDistinct(rows: seq<AuditRow>)
    requires AuditKeysUnique(rows)
    ensures NoRepeats(rows)
  {
    forall i, j | 0 <= i < j < |rows| ensures rows[i] != rows[j] {
      assert !SameAuditKey(rows[i], rows[j]);
    }
  }

  /** Order and number of deliveries do not matter: equal delivery sets give equal read models. */
  lemma SameDeliveriesSameReadModels(a: ReadModels, b: ReadModels, delivered: set<Delivery>)
    requires Projected(a, delivered) && Projected(b, delivered)
    ensures multiset(a.timeline) == multiset(b.timeline)
    ensures multiset(a.audit) == multiset(b.audit)
  {
    AuditRowsDistinct(a.audit);
    AuditRowsDistinct(b.audit);
    SameElements(a.timeline, b.timeline);
    SameElements(a.audit, b.audit);
  }
}
