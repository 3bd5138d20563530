/** Removing document and workflow facts from service-book payloads: the recursive sanitiser, the check it
    answers to, and the cleanup of a whole collection. */
module TruthBoundary {
  import opened Prelude
  import opened Text

  datatype Field = Field(key: string, value: Json)

  datatype Json = Scalar(text: string) | Arr(items: seq<Json>) | Obj(fields: seq<Field>)

  const DENIED_KEYS := {
    "document", "documents", "document_id", "document_ids", "document_type", "document_types", "attachments",
    "attachment_ids",
    "action", "approved_at", "approved_by", "locked_at", "locked_by", "rejected_at", "rejected_by", "status",
    "submitted_at",
    "submitted_by", "verified_at", "verified_by", "workflow", "workflow_payload", "workflow_state"}

  predicate Denied(key: string) {
    Lower(Trim(key)) in DENIED_KEYS
  }

  // ---- _payload_denied_paths -------------------------------------------------------------

  function Paths(v: Json, prefix: string): seq<string>
    decreases v, 1
  {
    match v
    case Scalar(_) => []
    case Arr(items) => ItemPaths(items, prefix)
    case Obj(fields) => FieldPaths(fields, prefix)
  }

  function FieldPaths(fields: seq<Field>, prefix: string): seq<string>
    decreases fields, 0
  {
    if fields == [] then []
    else
      var f := fields[|fields| - 1];
      var path := prefix + "." + f.key;
      FieldPaths(fields[..|fields| - 1], prefix) + if Denied(f.key) then [path] else Paths(f.value, path)
  }

  function ItemPaths(items: seq<Json>, prefix: string): seq<string>
    decreases items, 0
  {
    if items == [] then []
    else ItemPaths(items[..|items| - 1], prefix) + Paths(items[|items| - 1], prefix + "[" + Decimal(|items| - 1) + "]")
  }

  /** A denied key at any depth, below no other denied key. */
  predicate HasDenied(v: Json)
    decreases v, 1
  {
    match v
    case Scalar(_) => false
    case Arr(items) => ItemsDenied(items)
    case Obj(fields) => FieldsDenied(fields)
  }

  predicate FieldsDenied(fields: seq<Field>)
    decreases fields, 0
  {
    fields != []
      && (Denied(fields[|fields| - 1].key) || HasDenied(fields[|fields| - 1].value)
        || FieldsDenied(fields[..|fields| - 1]))
  }

  predicate ItemsDenied(items: seq<Json>)
    decreases items, 0
  {
    items != [] && (HasDenied(items[|items| - 1]) || ItemsDenied(items[..|items| - 1]))
  }

  lemma {:induction false} PathsIffDenied(v: Json, prefix: string)
    ensures Paths(v, prefix) != [] <==> HasDenied(v)
    decreases v, 1
  {
    hide Denied;
    match v {
      case Scalar(_) =>
      case Arr(items) => ItemPathsIffDenied(items, prefix);
      case Obj(fields) => FieldPathsIffDenied(fields, prefix);
    }
  }

  lemma {:induction false} FieldPathsIffDenied(fields: seq<Field>, prefix: string)
    ensures FieldPaths(fields, prefix) != [] <==> FieldsDenied(fields)
    decreases fields, 0
  {
    hide Denied;
    if fields != [] {
      FieldPathsIffDenied(fields[..|fields| - 1], prefix);
      PathsIffDenied(fields[|fields| - 1].value, prefix + "." + fields[|fields| - 1].key);
    }
  }

  lemma {:induction false} ItemPathsIffDenied(items: seq<Json>, prefix: string)
    ensures ItemPaths(items, prefix) != [] <==> ItemsDenied(items)
    decreases items, 0
  {
    hide Denied;
    if items != [] {
      ItemPathsIffDenied(items[..|items| - 1], prefix);
      PathsIffDenied(items[|items| - 1], prefix + "[" + Decimal(|items| - 1) + "]");
    }
  }

  // ---- Where the denied keys are -------------------------------------------------------------

  datatype Hop = Key(key: string) | Index(i: nat)

  /** The way a path is written in a report. */
  function Written(path: seq<Hop>): string
    decreases |path|
  {
    if path == [] then "" else HopText(path[0]) + Written(path[1..])
  }

  function HopText(hop: Hop): string {
    match hop case Key(k) => "." + k case Index(i) => "[" + Decimal(i) + "]"
  }

  /** `p` is the report of a path that leads to a denied key. */
  ghost predicate Reports(v: Json, prefix: string, p: string) {
    exists path :: LeadsToDenied(v, path) && p == prefix + Written(path)
  }

  /** A path into a value that ends at a denied key and passes none before. */
  ghost predicate LeadsToDenied(v: Json, path: seq<Hop>)
    decreases |path|
  {
    && path != []
    && match path[0]
       case Key(k) =>
         v.Obj? && exists f ::
           && f in v.fields && f.key == k
           && if Denied(k) then |path| == 1 else LeadsToDenied(f.value, path[1..])
       case Index(i) => v.Arr? && i < |v.items| && LeadsToDenied(v.items[i], path[1..])
  }

  lemma {:induction false} FieldPathsHold(fields: seq<Field>, prefix: string, p: string)
    ensures p in FieldPaths(fields, prefix) <==> exists f ::
      && f in fields
      && if Denied(f.key) then p == prefix + "." + f.key else p in Paths(f.value, prefix + "." + f.key)
    decreases |fields|
  {
    hide Denied;
    if fields != [] {
      var init, last := fields[..|fields| - 1], fields[|fields| - 1];
      FieldPathsHold(init, prefix, p);
      assert fields == init + [last];
    }
  }

  lemma {:induction false} ItemPathsHold(items: seq<Json>, prefix: string, p: string)
    ensures p in ItemPaths(items, prefix) <==>
      exists i :: 0 <= i < |items| && p in Paths(items[i], prefix + "[" + Decimal(i) + "]")
    decreases |items|
  {
    hide Decimal;
    if items != [] {
      var n := |items| - 1;
      ItemPathsHold(items[..n], prefix, p);
      assert forall i :: 0 <= i < n ==> items[..n][i] == items[i];
      if p in Paths(items[n], prefix + "[" + Decimal(n) + "]") { assert 0 <= n < |items|; }
    }
  }

  lemma WrittenStep(prefix: string, hop: Hop, path: seq<Hop>)
    ensures prefix + Written([hop] + path) == prefix + HopText(hop) + Written(path)
    ensures prefix + Written([hop]) == prefix + HopText(hop)
    ensures hop.Key? ==> prefix + HopText(hop) == prefix + "." + hop.key
    ensures hop.Index? ==> prefix + HopText(hop) == prefix + "[" + Decimal(hop.i) + "]"
  {
    hide Decimal;
    assert ([hop] + path)[1..] == path && [hop][1..] == [] && Written([]) == "";
  }

  lemma {:induction false} ReportsItems(v: Json, prefix: string, p: string)
    requires v.Arr?
    ensures Reports(v, prefix, p) <==>
      exists i :: 0 <= i < |v.items| && Reports(v.items[i], prefix + "[" + Decimal(i) + "]", p)
  {
    hide Denied, Decimal, Written, HopText;
    if path: seq<Hop> :| LeadsToDenied(v, path) && p == prefix + Written(path) {
      assert path == [path[0]] + path[1..];
      WrittenStep(prefix, path[0], path[1..]);
      assert Reports(v.items[path[0].i], prefix + "[" + Decimal(path[0].i) + "]", p);
    }
    if i :| 0 <= i < |v.items| && Reports(v.items[i], prefix + "[" + Decimal(i) + "]", p) {
      var path: seq<Hop> :| LeadsToDenied(v.items[i], path) && p == prefix + "[" + Decimal(i) + "]" + Written(path);
      WrittenStep(prefix, Index(i), path);
      assert ([Index(i)] + path)[1..] == path;
      assert LeadsToDenied(v, [Index(i)] + path);
    }
  }

  lemma {:induction false} ReportsFields(v: Json, prefix: string, p: string)
    requires v.Obj?
    ensures Reports(v, prefix, p) <==> exists f ::
      && f in v.fields
      && if Denied(f.key) then p == prefix + "." + f.key else Reports(f.value, prefix + "." + f.key, p)
  {
    hide Denied, Written, HopText;
    if path: seq<Hop> :| LeadsToDenied(v, path) && p == prefix + Written(path) {
      assert path == [path[0]] + path[1..];
      WrittenStep(prefix, path[0], path[1..]);
      var k := path[0].key;
      var f :| f in v.fields && f.key == k && if Denied(k) then |path| == 1 else LeadsToDenied(f.value, path[1..]);
      if Denied(k) { assert path == [path[0]]; } else { assert Reports(f.value, prefix + "." + f.key, p); }
    }
    if f :|
      f in v.fields && if Denied(f.key) then p == prefix + "." + f.key else Reports(f.value, prefix + "." + f.key, p)
    {
      var hop := Key(f.key);
      if Denied(f.key) {
        WrittenStep(prefix, hop, []);
        assert LeadsToDenied(v, [hop]);
      } else {
        var path: seq<Hop> :| LeadsToDenied(f.value, path) && p == prefix + "." + f.key + Written(path);
        WrittenStep(prefix, hop, path);
        assert ([hop] + path)[1..] == path;
        assert LeadsToDenied(v, [hop] + path);
      }
    }
  }

  /** The report lists exactly the paths that lead to a denied key. */
  lemma {:induction false} PathsAreReported(v: Json, prefix: string, p: string)
    ensures p in Paths(v, prefix) <==> Reports(v, prefix, p)
    decreases v
  {
    hide Denied, Decimal, Written, LeadsToDenied, Reports;
    match v {
      case Scalar(_) => ScalarsReportNothing(v, prefix, p);
      case Arr(items) =>
        ItemPathsHold(items, prefix, p);
        ReportsItems(v, prefix, p);
        forall i | 0 <= i < |items|
          ensures p in Paths(items[i], prefix + "[" + Decimal(i) + "]") <==>
            Reports(items[i], prefix + "[" + Decimal(i) + "]", p)
        {
          PathsAreReported(items[i], prefix + "[" + Decimal(i) + "]", p);
        }
      case Obj(fields) =>
        FieldPathsHold(fields, prefix, p);
        ReportsFields(v, prefix, p);
        forall f | f in fields
          ensures p in Paths(f.value, prefix + "." + f.key) <==> Reports(f.value, prefix + "." + f.key, p)
        {
          PathsAreReported(f.value, prefix + "." + f.key, p);
        }
    }
  }

  lemma ScalarsReportNothing(v: Json, prefix: string, p: string)
    requires v.Scalar?
    ensures !Reports(v, prefix, p)
  {
  }

  /** A key is denied, blanks and case apart, when it tells of documents or of workflow. */
  lemma DeniedExactly(key: string)
    ensures Denied(key) <==>
      || Lower(Trim(key)) in {"document", "documents", "document_id", "document_ids", "document_type", "document_types",
           "attachments", "attachment_ids"}
      || Lower(Trim(key)) in {"action", "approved_at", "approved_by", "locked_at", "locked_by", "rejected_at",
           "rejected_by", "status", "submitted_at", "submitted_by", "verified_at", "verified_by", "workflow",
           "workflow_payload", "workflow_state"}
  {
    hide Lower, Trim;
  }

  // ---- sanitized_service_book_truth_payload ------------------------------------------------

  function Cleaned(v: Json): Json
    decreases v, 1
  {
    match v
    case Scalar(_) => v
    case Arr(items) => Arr(CleanedItems(items))
    case Obj(fields) => Obj(CleanedFields(fields))
  }

  function CleanedFields(fields: seq<Field>): seq<Field>
    decreases fields, 0
  {
    if fields == [] then []
    else
      var f := fields[|fields| - 1];
      CleanedFields(fields[..|fields| - 1]) + if Denied(f.key) then [] else [Field(f.key, Cleaned(f.value))]
  }

  /** Inside a list only objects are cleaned; a list directly inside a list is kept as it is. */
  function CleanedItems(items: seq<Json>): (r: seq<Json>)
    ensures |r| == |items|
    decreases items, 0
  {
    if items == [] then []
    else
      var item := items[|items| - 1];
      CleanedItems(items[..|items| - 1]) + [if item.Obj? then Cleaned(item) else item]
  }

  function Sanitized(payload: Json): Json {
    if payload.Obj? then Cleaned(payload) else Obj([])
  }

  /** A denied key that the sanitiser can reach. */
  predicate Reachable(v: Json)
    decreases v, 1
  {
    match v
    case Scalar(_) => false
    case Arr(items) => ItemsReachable(items)
    case Obj(fields) => FieldsReachable(fields)
  }

  predicate FieldsReachable(fields: seq<Field>)
    decreases fields, 0
  {
    fields != []
      && (Denied(fields[|fields| - 1].key) || Reachable(fields[|fields| - 1].value)
        || FieldsReachable(fields[..|fields| - 1]))
  }

  predicate ItemsReachable(items: seq<Json>)
    decreases items, 0
  {
    items != [] && ((items[|items| - 1].Obj? && Reachable(items[|items| - 1])) || ItemsReachable(items[..|items| - 1]))
  }

  /** Below allowed keys, a list directly inside a list that holds a denied key. */
  predicate Buried(v: Json)
    decreases v, 1
  {
    match v
    case Scalar(_) => false
    case Arr(items) => ItemsBuried(items)
    case Obj(fields) => FieldsBuried(fields)
  }

  predicate FieldsBuried(fields: seq<Field>)
    decreases fields, 0
  {
    fields != []
      && ((!Denied(fields[|fields| - 1].key) && Buried(fields[|fields| - 1].value))
        || FieldsBuried(fields[..|fields| - 1]))
  }

  predicate ItemsBuried(items: seq<Json>)
    decreases items, 0
  {
    items != [] && (
      (items[|items| - 1].Arr? && HasDenied(items[|items| - 1]))
        || (items[|items| - 1].Obj? && Buried(items[|items| - 1]))
      || ItemsBuried(items[..|items| - 1]))
  }

  /** Cleaning changes a value exactly when it can reach a denied key; what it leaves is not changed by
      cleaning again; and a denied key remains exactly when one was buried. */
  lemma {:induction false} CleanedSound(v: Json)
    ensures Cleaned(v) == v <==> !Reachable(v)
    ensures !Reachable(Cleaned(v))
    ensures HasDenied(Cleaned(v)) <==> Buried(v)
    ensures Reachable(v) ==> HasDenied(v)
    decreases v, 1
  {
    hide Denied;
    match v {
      case Scalar(_) =>
      case Arr(items) => CleanedItemsSound(items);
      case Obj(fields) => CleanedFieldsSound(fields);
    }
  }

  lemma {:induction false} CleanedFieldsSound(fields: seq<Field>)
    ensures |CleanedFields(fields)| <= |fields|
    ensures CleanedFields(fields) == fields <==> !FieldsReachable(fields)
    ensures !FieldsReachable(CleanedFields(fields))
    ensures FieldsDenied(CleanedFields(fields)) <==> FieldsBuried(fields)
    ensures FieldsReachable(fields) ==> FieldsDenied(fields)
    decreases fields, 0
  {
    hide Denied, Cleaned, HasDenied, Reachable, Buried;
    if fields != [] {
      var init, f := fields[..|fields| - 1], fields[|fields| - 1];
      CleanedFieldsSound(init);
      CleanedSound(f.value);
      var r := CleanedFields(fields);
      if Denied(f.key) {
        assert r == CleanedFields(init);
      } else {
        assert r == CleanedFields(init) + [Field(f.key, Cleaned(f.value))];
        assert r[..|r| - 1] == CleanedFields(init);
        assert fields == init + [f];
      }
    }
  }

  lemma SameEnds(a: seq<Json>, x: Json, b: seq<Json>, y: Json)
    requires |a| == |b|
    ensures a + [x] == b + [y] <==> a == b && x == y
  {
    if a + [x] == b + [y] {
      assert (a + [x])[..|a|] == (b + [y])[..|a|];
      assert (a + [x])[|a|] == (b + [y])[|a|];
    }
  }

  lemma {:induction false} CleanedItemsSound(items: seq<Json>)
    ensures CleanedItems(items) == items <==> !ItemsReachable(items)
    ensures !ItemsReachable(CleanedItems(items))
    ensures ItemsDenied(CleanedItems(items)) <==> ItemsBuried(items)
    ensures ItemsReachable(items) ==> ItemsDenied(items)
    decreases items, 0
  {
    hide Denied, HasDenied;
    if items != [] {
      var init, item := items[..|items| - 1], items[|items| - 1];
      CleanedItemsSound(init);
      CleanedSound(item);
      var c := if item.Obj? then Cleaned(item) else item;
      var r := CleanedItems(items);
      assert r == CleanedItems(init) + [c] && r[..|r| - 1] == CleanedItems(init);
      SameEnds(CleanedItems(init), c, init, item);
      assert items == init + [item];
    }
  }

  /** For any payload: sanitising twice is sanitising once; an object without denied paths is left alone;
      and no denied path remains exactly when no list directly inside a list held one. */
  lemma SanitizeLaws(payload: Json, prefix: string)
    ensures Sanitized(Sanitized(payload)) == Sanitized(payload)
    ensures payload.Obj? && Paths(payload, prefix) == [] ==> Sanitized(payload) == payload
    ensures !payload.Obj? ==> Sanitized(payload) == Obj([])
    ensures payload.Obj? ==> (Paths(Sanitized(payload), prefix) == [] <==> !Buried(payload))
  {
    PathsIffDenied(payload, prefix);
    PathsIffDenied(Sanitized(payload), prefix);
    CleanedSound(payload);
    CleanedSound(Sanitized(payload));
  }

  // ---- What survives -------------------------------------------------------------------------

  function Find(fields: seq<Field>, key: string): Option<Json> {
    if fields == [] then None
    else if fields[|fields| - 1].key == key then Some(fields[|fields| - 1].value)
    else Find(fields[..|fields| - 1], key)
  }

  function Lookup(v: Json, path: seq<Hop>): Option<Json>
    decreases |path|
  {
    if path == [] then Some(v)
    else match path[0]
      case Key(k) => if !v.Obj? || Find(v.fields, k).None? then None else Lookup(Find(v.fields, k).value, path[1..])
      case Index(i) => if !v.Arr? || |v.items| <= i then None else Lookup(v.items[i], path[1..])
  }

  predicate Allowed(path: seq<Hop>) {
    forall i :: 0 <= i < |path| ==> path[i].Key? ==> !Denied(path[i].key)
  }

  lemma {:induction false} FindCleaned(fields: seq<Field>, k: string)
    ensures Find(CleanedFields(fields), k) ==
      if Denied(k) || Find(fields, k).None? then None else Some(Cleaned(Find(fields, k).value))
  {
    hide Denied;
    if fields != [] {
      var init, f := fields[..|fields| - 1], fields[|fields| - 1];
      FindCleaned(init, k);
      var r := CleanedFields(fields);
      if Denied(f.key) {
        assert r == CleanedFields(init);
      } else {
        assert r == CleanedFields(init) + [Field(f.key, Cleaned(f.value))];
        assert r[..|r| - 1] == CleanedFields(init);
      }
    }
  }

  lemma {:induction false} ItemCleaned(items: seq<Json>, i: nat)
    requires i < |items|
    ensures CleanedItems(items)[i] == if items[i].Obj? then Cleaned(items[i]) else items[i]
  {
    if i < |items| - 1 { ItemCleaned(items[..|items| - 1], i); }
  }

  /** Nothing else is lost: along a path of allowed keys the same scalars are found as before. */
  lemma {:induction false} ScalarsSurvive(v: Json, path: seq<Hop>, text: string)
    requires Allowed(path)
    ensures Lookup(Cleaned(v), path) == Some(Scalar(text)) <==> Lookup(v, path) == Some(Scalar(text))
    decreases |path|
  {
    hide Denied;
    if path != [] {
      assert Allowed(path[1..]);
      match path[0] {
        case Key(k) =>
          if v.Obj? {
            FindCleaned(v.fields, k);
            if Find(v.fields, k).Some? { ScalarsSurvive(Find(v.fields, k).value, path[1..], text); }
          }
        case Index(i) =>
          if v.Arr? && i < |v.items| {
            ItemCleaned(v.items, i);
            if v.items[i].Obj? { ScalarsSurvive(v.items[i], path[1..], text); }
          }
      }
    }
  }

  // ---- Entries ---------------------------------------------------------------------------------

  /** A row; absent fields are empty strings, and a payload that is no object is not kept apart. */
  datatype Entry = Entry(entryId: string, id: string, employeeId: string, eventName: string, payload: Json,
      marked: bool)

  datatype Cleanup = DeleteProjection | SanitizeApproved | SanitizeManual

  const APPROVED := "ServiceEventLifecycleApproved"
  const MANUAL := {"ServiceBookEntryApproved", "ServiceBookEntryLocked"}
  const NON_TRUTH := {"ServiceEventRecorded", "ServiceEventDocumentAttached", "ServiceEventLifecycleSubmitted",
    "ServiceEventLifecycleVerified"}

  function DeniedPaths(e: Entry): seq<string> {
    if e.payload.Obj? then Paths(e.payload, "payload") else []
  }

  /** `classify_service_book_truth_boundary_entry`. */
  function Classify(e: Entry): Option<Cleanup> {
    var name := Trim(e.eventName);
    if name in NON_TRUTH then Some(DeleteProjection)
    else if name == APPROVED && DeniedPaths(e) != [] then Some(SanitizeApproved)
    else if name in MANUAL && DeniedPaths(e) != [] then Some(SanitizeManual)
    else None
  }

  datatype Query = ByEntryId(value: string) | ById(value: string)

  function QueryOf(e: Entry): Option<Query> {
    if Trim(e.entryId) != "" then Some(ByEntryId(Trim(e.entryId)))
    else if Trim(e.id) != "" then Some(ById(Trim(e.id)))
    else None
  }

  predicate Matches(q: Query, e: Entry) {
    match q case ByEntryId(x) => e.entryId == x case ById(x) => e.id == x
  }

  /** The first match, or the number of rows. */
  function FirstMatch(rows: seq<Entry>, q: Query): (i: nat)
    ensures i <= |rows| && (i < |rows| ==> Matches(q, rows[i])) && forall j :: 0 <= j < i ==> !Matches(q, rows[j])
  {
    if rows == [] then 0
    else
      var i := FirstMatch(rows[..|rows| - 1], q);
      if i < |rows| - 1 then i else if Matches(q, rows[|rows| - 1]) then i else |rows|
  }

  function CleanEntry(e: Entry, payload: Json): Entry {
    e.(payload := Sanitized(payload), marked := true)
  }

  datatype Mode = Mode(dryRun: bool, deleteNonTruth: bool, sanitizePayloads: bool)

  const FULL := Mode(false, true, true)

  predicate Deletes(e: Entry, mode: Mode) {
    Classify(e) == Some(DeleteProjection) && !mode.dryRun && mode.deleteNonTruth && QueryOf(e).Some?
  }

  predicate Sanitizes(e: Entry, mode: Mode) {
    Classify(e).Some? && Classify(e) != Some(DeleteProjection) && !mode.dryRun && mode.sanitizePayloads
      && QueryOf(e).Some?
  }

  /** What one entry of the scan does to the collection. */
  function AfterEntry(rows: seq<Entry>, e: Entry, mode: Mode): seq<Entry> {
    if !Deletes(e, mode) && !Sanitizes(e, mode) then rows
    else
      var i := FirstMatch(rows, QueryOf(e).value);
      if i == |rows| then rows
      else if Deletes(e, mode) then rows[..i] + rows[i + 1..]
      else rows[i := CleanEntry(rows[i], e.payload)]
  }

  function AfterScan(rows: seq<Entry>, scanned: seq<Entry>, mode: Mode): seq<Entry> {
    if scanned == [] then rows
    else AfterEntry(AfterScan(rows, scanned[..|scanned| - 1], mode), scanned[|scanned| - 1], mode)
  }

  function Candidates(scanned: seq<Entry>): nat {
    if scanned == [] then 0
    else Candidates(scanned[..|scanned| - 1]) + if Classify(scanned[|scanned| - 1]).Some? then 1 else 0
  }

  /** How many entries of the scan are projections. */
  function Deletions(scanned: seq<Entry>): nat {
    if scanned == [] then 0
    else
      var last := scanned[|scanned| - 1];
      Deletions(scanned[..|scanned| - 1]) + if Classify(last) == Some(DeleteProjection) then 1 else 0
  }

  /** How many entries of the scan change a row by sanitising it. */
  function Changes(rows: seq<Entry>, scanned: seq<Entry>, mode: Mode): nat {
    if scanned == [] then 0
    else
      var init, last := scanned[..|scanned| - 1], scanned[|scanned| - 1];
      Changes(rows, init, mode) +
        if Sanitizes(last, mode) && AfterScan(rows, scanned, mode) != AfterScan(rows, init, mode) then 1 else 0
  }

  datatype Summary = Summary(candidates: nat, wouldDelete: nat, wouldSanitize: nat, deleted: nat, sanitized: nat)

  class EntryCollection {
    var rows: seq<Entry>

    constructor (rows: seq<Entry>)
      ensures this.rows == rows
    {
      this.rows := rows;
    }

    method DeleteOne(q: Query) returns (deleted: nat)
      modifies this
      ensures deleted == if FirstMatch(old(rows), q) < |old(rows)| then 1 else 0
      ensures rows ==
        if deleted == 0 then old(rows)
        else old(rows)[..FirstMatch(old(rows), q)] + old(rows)[FirstMatch(old(rows), q) + 1..]
    {
      var i := FirstMatch(rows, q);
      if i == |rows| { return 0; }
      rows := rows[..i] + rows[i + 1..];
      return 1;
    }

    /** Counts a row as modified only if it changed. */
    method UpdateOne(q: Query, payload: Json) returns (modified: nat)
      modifies this
      ensures rows == var i := FirstMatch(old(rows), q); if i == |old(rows)|
        then old(rows) else old(rows)[i := CleanEntry(old(rows)[i], payload)]
      ensures modified == if rows == old(rows) then 0 else 1
    {
      var i := FirstMatch(rows, q);
      if i == |rows| { return 0; }
      var before := rows[i];
      rows := rows[i := CleanEntry(before, payload)];
      modified := if CleanEntry(before, payload) == before then 0 else 1;
    }

    /** `cleanup_service_book_truth_boundary`: scans a copy of the rows and changes the collection. */
    method Cleanup(scanned: seq<Entry>, mode: Mode) returns (summary: Summary)
      modifies this
      ensures rows == AfterScan(old(rows), scanned, mode)
      ensures summary.candidates == Candidates(scanned) == summary.wouldDelete + summary.wouldSanitize
      ensures summary.wouldDelete == Deletions(scanned)
      ensures summary.deleted == |old(rows)| - |rows| && summary.deleted <= summary.wouldDelete
      ensures summary.sanitized == Changes(old(rows), scanned, mode) && summary.sanitized <= summary.wouldSanitize
      ensures mode.dryRun ==> rows == old(rows) && summary.sanitized == 0
    {
      hide Classify, QueryOf, FirstMatch, CleanEntry;
      summary := Summary(0, 0, 0, 0, 0);
      var i := 0;
      while i < |scanned|
        invariant 0 <= i <= |scanned|
        invariant rows == AfterScan(old(rows), scanned[..i], mode)
        invariant summary.candidates == Candidates(scanned[..i]) == summary.wouldDelete + summary.wouldSanitize
        invariant summary.wouldDelete == Deletions(scanned[..i])
        invariant summary.deleted == |old(rows)| - |rows| && summary.deleted <= summary.wouldDelete
        invariant summary.sanitized == Changes(old(rows), scanned[..i], mode)
        invariant summary.sanitized <= summary.wouldSanitize
        invariant mode.dryRun ==> rows == old(rows) && summary.sanitized == 0
      {
        assert scanned[..i + 1][..i] == scanned[..i];
        var e := scanned[i];
        var action, query := Classify(e), QueryOf(e);
        i := i + 1;
        if action.None? {
          continue;
        }
        summary := summary.(candidates := summary.candidates + 1);
        if action == Some(DeleteProjection) {
          summary := summary.(wouldDelete := summary.wouldDelete + 1);
          if !mode.dryRun && mode.deleteNonTruth && query.Some? {
            var n := DeleteOne(query.value);
            summary := summary.(deleted := summary.deleted + n);
          }
          continue;
        }
        summary := summary.(wouldSanitize := summary.wouldSanitize + 1);
        if !mode.dryRun && mode.sanitizePayloads && query.Some? {
          var n := UpdateOne(query.value, e.payload);
          summary := summary.(sanitized := summary.sanitized + n);
        }
      }
      assert scanned[..i] == scanned;
    }
  }

  // ---- What is done to which entry ---------------------------------------------------------------

  /** Some path leads to a denied key. */
  ghost predicate HoldsDenied(v: Json) {
    exists path :: LeadsToDenied(v, path)
  }

  ghost predicate Tells(e: Entry) {
    e.payload.Obj? && HoldsDenied(e.payload)
  }

  /** By event name: four kinds of projections are deleted; payloads of approved events and of two kinds of manual
      entries are sanitised if they hold a denied key. */
  lemma ClassifySays(e: Entry)
    ensures Classify(e) == Some(DeleteProjection) <==>
      Trim(e.eventName) in {"ServiceEventRecorded", "ServiceEventDocumentAttached", "ServiceEventLifecycleSubmitted",
        "ServiceEventLifecycleVerified"}
    ensures Classify(e) == Some(SanitizeApproved) <==> Trim(e.eventName) == "ServiceEventLifecycleApproved" && Tells(e)
    ensures Classify(e) == Some(SanitizeManual) <==>
      Trim(e.eventName) in {"ServiceBookEntryApproved", "ServiceBookEntryLocked"} && Tells(e)
  {
    hide Trim, Paths, HoldsDenied;
    SomePathIff(e.payload);
  }

  lemma SomePathIff(v: Json)
    ensures Paths(v, "payload") != [] <==> HoldsDenied(v)
  {
    hide Paths, Written;
    if Paths(v, "payload") != [] {
      var first := Paths(v, "payload")[0];
      PathsAreReported(v, "payload", first);
      assert first in Paths(v, "payload");
      var path: seq<Hop> :| LeadsToDenied(v, path) && first == "payload" + Written(path);
      assert HoldsDenied(v);
    }
    if HoldsDenied(v) {
      var path: seq<Hop> :| LeadsToDenied(v, path);
      var p := "payload" + Written(path);
      PathsAreReported(v, "payload", p);
      assert Reports(v, "payload", p);
      assert p in Paths(v, "payload");
    }
  }

  /** At some depth, the keys that the check counts are the ends of the paths that it reports. */
  lemma DeniedSomewhere(v: Json)
    ensures HasDenied(v) <==> HoldsDenied(v)
  {
    hide HasDenied, HoldsDenied, Paths;
    PathsIffDenied(v, "payload");
    SomePathIff(v);
  }

  /** The row that an entry of the scan is found under: by its stripped entry id, and without one by its id. */
  predicate FoundUnder(e: Entry, r: Entry) {
    if Trim(e.entryId) != "" then r.entryId == Trim(e.entryId) else Trim(e.id) != "" && r.id == Trim(e.id)
  }

  /** What one entry of the scan does to the collection, row by row. */
  lemma AfterEntrySays(rows: seq<Entry>, e: Entry, mode: Mode)
    ensures mode.dryRun || Classify(e).None? || (forall r :: r in rows ==> !FoundUnder(e, r)) ==>
      AfterEntry(rows, e, mode) == rows
    ensures !mode.dryRun && Classify(e).Some? ==>
      forall i :: 0 <= i < |rows| && FoundUnder(e, rows[i]) && (forall j :: 0 <= j < i ==> !FoundUnder(e, rows[j])) ==>
        AfterEntry(rows, e, mode) ==
          if Classify(e) == Some(DeleteProjection) then
            (if mode.deleteNonTruth then rows[..i] + rows[i + 1..] else rows)
          else if mode.sanitizePayloads then rows[i := rows[i].(payload := Sanitized(e.payload), marked := true)]
          else rows
  {
    hide Classify, Trim, Sanitized;
    var q := QueryOf(e);
    assert q.Some? ==> forall r :: Matches(q.value, r) <==> FoundUnder(e, r);
    assert q.None? ==> forall r :: !FoundUnder(e, r);
    if q.Some? {
      var k := FirstMatch(rows, q.value);
      assert k < |rows| ==> rows[k] in rows;
    }
  }

  // ---- A full cleanup, and a second one ---------------------------------------------------------

  /** Every row has an identifier, written without blanks, that leads to it and to no other row. */
  ghost predicate Findable(rows: seq<Entry>) {
    && (forall i :: 0 <= i < |rows| ==> QueryOf(rows[i]).Some?)
    && (forall i, j :: 0 <= i < |rows| && 0 <= j < |rows| ==> (Matches(QueryOf(rows[i]).value, rows[j]) <==> i == j))
  }

  function CleanedEntry(e: Entry): seq<Entry> {
    if Classify(e) == Some(DeleteProjection) then []
    else if Classify(e).Some? then [CleanEntry(e, e.payload)]
    else [e]
  }

  function CleanedEntries(rows: seq<Entry>): seq<Entry> {
    if rows == [] then [] else CleanedEntries(rows[..|rows| - 1]) + CleanedEntry(rows[|rows| - 1])
  }

  lemma {:induction false} CleanedNeverMatch(rows: seq<Entry>, q: Query)
    requires forall i :: 0 <= i < |rows| ==> !Matches(q, rows[i])
    ensures forall i :: 0 <= i < |CleanedEntries(rows)| ==> !Matches(q, CleanedEntries(rows)[i])
  {
    hide Classify;
    if rows != [] { CleanedNeverMatch(rows[..|rows| - 1], q); }
  }

  /** One step of the scan: the row it is about stands first among the rows not yet scanned. */
  lemma ScanStep(done: seq<Entry>, e: Entry, rest: seq<Entry>)
    requires QueryOf(e).Some? && Matches(QueryOf(e).value, e)
    requires forall i :: 0 <= i < |done| ==> !Matches(QueryOf(e).value, done[i])
    ensures AfterEntry(done + [e] + rest, e, FULL) == done + CleanedEntry(e) + rest
  {
    hide Classify, QueryOf, FirstMatch;
    var rows, q := done + [e] + rest, QueryOf(e).value;
    assert rows[|done|] == e;
    assert forall i :: 0 <= i < |done| ==> rows[i] == done[i];
    var i := FirstMatch(rows, q);
    assert i == |done|;
    assert rows[..i] == done && rows[i + 1..] == rest;
  }

  lemma {:induction false} ScanPrefix(rows: seq<Entry>, n: nat)
    requires Findable(rows) && n <= |rows|
    ensures AfterScan(rows, rows[..n], FULL) == CleanedEntries(rows[..n]) + rows[n..]
  {
    hide Classify, QueryOf, FirstMatch, AfterEntry;
    if n == 0 {
      assert CleanedEntries(rows[..0]) + rows[0..] == rows;
    } else {
      var e, init := rows[n - 1], rows[..n - 1];
      ScanPrefix(rows, n - 1);
      assert rows[..n][..n - 1] == init;
      assert rows[n - 1..] == [e] + rows[n..];
      assert Matches(QueryOf(e).value, rows[n - 1]);
      assert forall i :: 0 <= i < |init| ==> init[i] == rows[i];
      CleanedNeverMatch(init, QueryOf(e).value);
      ScanStep(CleanedEntries(init), e, rows[n..]);
      assert AfterScan(rows, init, FULL) == CleanedEntries(init) + [e] + rows[n..];
      assert CleanedEntries(rows[..n]) == CleanedEntries(init) + CleanedEntry(e);
    }
  }

  lemma CleanedCandidate(e: Entry)
    ensures Candidates(CleanedEntry(e)) == 0 <==>
      !(Classify(e).Some? && Classify(e) != Some(DeleteProjection) && Buried(e.payload))
  {
    hide Denied, Trim, Paths, Buried;
    if Classify(e) == Some(DeleteProjection) {
    } else if Classify(e).Some? {
      var c := CleanEntry(e, e.payload);
      SanitizeLaws(e.payload, "payload");
      assert [c][..0] == [];
      assert Candidates([c]) == if Classify(c).Some? then 1 else 0;
    } else {
      assert [e][..0] == [];
      assert Candidates([e]) == 0;
    }
  }

  lemma {:induction false} CandidatesConcat(a: seq<Entry>, b: seq<Entry>)
    ensures Candidates(a + b) == Candidates(a) + Candidates(b)
  {
    hide Classify;
    if b == [] {
      assert a + b == a;
    } else {
      CandidatesConcat(a, b[..|b| - 1]);
      assert (a + b)[..|a + b| - 1] == a + b[..|b| - 1];
    }
  }

  lemma {:induction false} CleanedCandidates(rows: seq<Entry>)
    ensures Candidates(CleanedEntries(rows)) == 0 <==>
      forall i :: 0 <= i < |rows| ==>
        !(Classify(rows[i]).Some? && Classify(rows[i]) != Some(DeleteProjection) && Buried(rows[i].payload))
  {
    hide Classify, Buried, CleanedEntry;
    if rows != [] {
      var init, last := rows[..|rows| - 1], rows[|rows| - 1];
      CleanedCandidates(init);
      CleanedCandidate(last);
      CandidatesConcat(CleanedEntries(init), CleanedEntry(last));
      assert forall i :: 0 <= i < |init| ==> init[i] == rows[i];
    }
  }

  /** A full cleanup of findable rows deletes the projections, sanitises what it classifies and leaves the
      rest; a second one finds nothing exactly when no sanitised payload had a buried denied key. */
  lemma SecondCleanupFindsNothing(rows: seq<Entry>)
    requires Findable(rows)
    ensures AfterScan(rows, rows, FULL) == CleanedEntries(rows)
    ensures Candidates(AfterScan(rows, rows, FULL)) == 0 <==>
      forall i :: 0 <= i < |rows| ==>
        !(Classify(rows[i]).Some? && Classify(rows[i]) != Some(DeleteProjection) && Buried(rows[i].payload))
  {
    hide Classify, Buried, CleanedEntries, QueryOf;
    ScanPrefix(rows, |rows|);
    assert rows[..|rows|] == rows;
    assert CleanedEntries(rows) + rows[|rows|..] == CleanedEntries(rows);
    CleanedCandidates(rows);
  }

  /** A denied key in a list inside a list: the sanitiser leaves it, and the check still finds it. */
  lemma NestedListsKeepTheirKeys()
    ensures var v := Obj([Field("rows", Arr([Arr([Obj([Field("status", Scalar("x"))])])]))]);
      Sanitized(v) == v && Paths(v, "payload") != []
  {
    hide Denied;
    DeniedExamples();
    var inner := Obj([Field("status", Scalar("x"))]);
    var v := Obj([Field("rows", Arr([Arr([inner])]))]);
    assert HasDenied(inner);
    assert HasDenied(Arr([inner]));
    assert HasDenied(Arr([Arr([inner])]));
    assert HasDenied(v);
    assert CleanedItems([Arr([inner])]) == [Arr([inner])];
    assert CleanedFields(v.fields) == v.fields by { assert v.fields[..0] == []; }
    PathsIffDenied(v, "payload");
  }

  lemma DeniedExamples()
    ensures Denied("status") && !Denied("rows")
  {
    assert Trim("status") == "status" && Trim("rows") == "rows";
    assert Lower("status") == "status" && Lower("rows") == "rows";
  }
}
