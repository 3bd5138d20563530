/** What the migration of employee codes writes: identities, their copies, document metadata and counters. */
module EmployeeCodeMigration {
  import opened Prelude
  import opened Text
  import opened EmployeeCode

  /** A row of document metadata: `uploaded_employee_id`, empty for none, and `uploaded_employee_code`. */
  datatype Document = Document(owner: string, code: string)

  /** Codes by employee id, in a collection with one row an employee. */
  type Copies = map<string, string>

  function Copied(copies: Copies, e: Planned): Copies {
    if e.employeeId in copies then copies[e.employeeId := e.newCode] else copies
  }

  function CopiesAfter(copies: Copies, employees: seq<Planned>): Copies {
    if employees == [] then copies
    else
      var before, e := CopiesAfter(copies, employees[..|employees| - 1]), employees[|employees| - 1];
      if e.changed then Copied(before, e) else before
  }

  /** `_document_metadata_query`. */
  predicate Matches(e: Planned, d: Document) {
    d.owner == e.employeeId || (e.oldCode != "" && d.owner == "" && d.code == e.oldCode)
  }

  function DocumentAfter(employees: seq<Planned>, d: Document): Document {
    if employees == [] then d
    else
      var before, e := DocumentAfter(employees[..|employees| - 1], d), employees[|employees| - 1];
      if e.changed && Matches(e, before) then before.(code := e.newCode) else before
  }

  function DocumentsAfter(documents: seq<Document>, employees: seq<Planned>): seq<Document> {
    seq(|documents|, i requires 0 <= i < |documents| => DocumentAfter(employees, documents[i]))
  }

  /** `update_many`. */
  function Rewritten(e: Planned, documents: seq<Document>): seq<Document> {
    seq(|documents|, i requires 0 <= i < |documents| =>
      if Matches(e, documents[i]) then documents[i].(code := e.newCode) else documents[i])
  }

  lemma {:induction false} NoRowYet(ids: seq<Identity>, models: Copies, profiles: Copies, documents: seq<Document>)
    ensures AfterUpdates(ids, []) == ids && CopiesAfter(models, []) == models && CopiesAfter(profiles, []) == profiles
    ensures DocumentsAfter(documents, []) == documents
  {
  }

  lemma {:induction false} NextRow(ids: seq<Identity>, models: Copies, profiles: Copies, documents: seq<Document>,
      employees: seq<Planned>, i: nat)
    requires i < |employees|
    ensures var before, e, now := employees[..i], employees[i], employees[..i + 1];
      && AfterUpdates(ids, now) ==
         (if e.changed then Updated(AfterUpdates(ids, before), e.employeeId, e.newCode) else AfterUpdates(ids, before))
      && CopiesAfter(models, now) ==
        (if e.changed then Copied(CopiesAfter(models, before), e) else CopiesAfter(models, before))
      && CopiesAfter(profiles, now) ==
         (if e.changed then Copied(CopiesAfter(profiles, before), e) else CopiesAfter(profiles, before))
      && DocumentsAfter(documents, now) ==
         (if e.changed then Rewritten(e, DocumentsAfter(documents, before)) else DocumentsAfter(documents, before))
  {
    hide Updated, Matches;
    assert employees[..i + 1][..i] == employees[..i];
  }

  /** The unique index on the code refuses the update: another identity holds the new code. */
  predicate Refuses(ids: seq<Identity>, e: Planned) {
    && (exists i :: 0 <= i < |ids| && ids[i].employeeId == e.employeeId)
    && (exists i :: 0 <= i < |ids| && ids[i].employeeId != e.employeeId && ids[i].code == e.newCode)
  }

  /** An update that finds no identity under the id writes nothing and cannot be refused. */
  lemma {:induction false} NoMatchNoWrite(ids: seq<Identity>, e: Planned)
    requires forall i :: 0 <= i < |ids| ==> ids[i].employeeId != e.employeeId
    ensures Updated(ids, e.employeeId, e.newCode) == ids && !Refuses(ids, e)
  {
    if ids != [] {
      assert forall i :: 0 <= i < |ids| - 1 ==> ids[1..][i] == ids[i + 1];
      NoMatchNoWrite(ids[1..], e);
    }
  }

  /** The update of row `k` is refused after those of the rows before it. */
  ghost predicate RefusedAt(ids: seq<Identity>, employees: seq<Planned>, k: nat)
    requires k < |employees|
  {
    employees[k].changed && Refuses(AfterUpdates(ids, employees[..k]), employees[k])
  }

  /** The first `done` rows of the plan are applied, and the next one, if any, is refused by the index. */
  ghost predicate StopsAfter(unique: bool, ids: seq<Identity>, employees: seq<Planned>, done: nat) {
    && done <= |employees|
    && (forall k: nat :: k < done ==> !(unique && RefusedAt(ids, employees, k)))
    && (done < |employees| ==> unique && RefusedAt(ids, employees, done))
  }

  class Database {
    const unique: bool // a runtime has put the unique index on the employee code
    var identities: seq<Identity>
    var readModels: Copies
    var profiles: Copies
    var documents: seq<Document>
    var counters: map<int, nat>

    constructor (unique: bool, identities: seq<Identity>, readModels: Copies, profiles: Copies,
        documents: seq<Document>)
      ensures this.unique == unique && this.identities == identities && this.documents == documents
      ensures this.readModels == readModels && this.profiles == profiles && counters == map[]
    {
      this.unique, this.identities, this.documents := unique, identities, documents;
      this.readModels, this.profiles, counters := readModels, profiles, map[];
    }

    /** `migrate_employee_codes_to_madc_format`; it raises when the index refuses an update, which leaves the
        rows before that one applied and the counters as they are. */
    method Migrate(initial: Initial, dryRun: bool) returns (plan: Plan, raised: bool, ghost done: nat)
      modifies this
      ensures Numbers(Sort(ValidRows(initial, old(identities))), plan.employees, plan.years)
      ensures plan.errors == Errors(initial, old(identities))
      ensures dryRun ==> done == 0 && !raised
      ensures !dryRun ==> StopsAfter(unique, old(identities), plan.employees, done)
      ensures !dryRun ==> (raised <==> done < |plan.employees|)
      ensures done <= |plan.employees|
      ensures identities == AfterUpdates(old(identities), plan.employees[..done])
      ensures readModels == CopiesAfter(old(readModels), plan.employees[..done])
      ensures profiles == CopiesAfter(old(profiles), plan.employees[..done])
      ensures documents == DocumentsAfter(old(documents), plan.employees[..done])
      ensures counters == if dryRun || raised then old(counters) else old(counters) + plan.years
    {
      hide Numbers, Updated, ValidRows, Sort, AfterUpdates, CopiesAfter, DocumentsAfter, Refuses, Errors;
      plan := BuildPlan(initial, identities);
      raised, done := false, 0;
      ghost var ids := identities;
      NoRowYet(ids, readModels, profiles, documents);
      assert plan.employees[..0] == [];
      if dryRun {
        return;
      }
      var i := 0;
      while i < |plan.employees|
        invariant 0 <= i <= |plan.employees| && !raised && done == i
        invariant forall k: nat :: k < i ==> !(unique && RefusedAt(ids, plan.employees, k))
        invariant identities == AfterUpdates(ids, plan.employees[..i])
        invariant readModels == CopiesAfter(old(readModels), plan.employees[..i])
        invariant profiles == CopiesAfter(old(profiles), plan.employees[..i])
        invariant documents == DocumentsAfter(old(documents), plan.employees[..i])
        invariant counters == old(counters)
      {
        var e := plan.employees[i];
        NextRow(ids, old(readModels), old(profiles), old(documents), plan.employees, i);
        if e.changed {
          if unique && Refuses(identities, e) {
            return plan, true, i;
          }
          ApplyRow(e);
        }
        i := i + 1;
        done := i;
      }
      assert plan.employees[..i] == plan.employees;
      SetCounters(plan.years);
    }

    /** Three `update_one` and one `update_many`. */
    method ApplyRow(e: Planned)
      modifies this`identities, this`readModels, this`profiles, this`documents
      ensures identities == Updated(old(identities), e.employeeId, e.newCode)
      ensures readModels == Copied(old(readModels), e) && profiles == Copied(old(profiles), e)
      ensures documents == Rewritten(e, old(documents))
    {
      identities := Updated(identities, e.employeeId, e.newCode);
      readModels := Copied(readModels, e);
      profiles := Copied(profiles, e);
      documents := Rewritten(e, documents);
    }

    /** One upsert a year, each of its own counter. */
    method SetCounters(years: map<int, nat>)
      modifies this`counters
      ensures counters == old(counters) + years
    {
      var left: set<int> := years.Keys;
      while exists y: int :: y in left
        invariant left <= years.Keys
        invariant counters == old(counters) + (years - left)
        decreases left
      {
        var y: int :| y in left;
        counters := counters[y := years[y]];
        left := left - {y};
      }
    }
  }

  // ---- What a plan is like ---------------------------------------------------------------------------

  /** Employees and codes are planned once each; the old code is the stored one, without blanks around it. */
  ghost predicate PlanFits(ids: seq<Identity>, employees: seq<Planned>) {
    && (forall j, k :: 0 <= j < k < |employees| ==>
          employees[j].employeeId != employees[k].employeeId && employees[j].newCode != employees[k].newCode)
    && (forall k :: 0 <= k < |employees| ==> RowFits(ids, employees[k]))
  }

  ghost predicate RowFits(ids: seq<Identity>, e: Planned) {
    && e.employeeId != "" && e.newCode != "" && Trim(e.newCode) == e.newCode
    && (e.changed <==> e.oldCode != e.newCode)
    && exists i :: 0 <= i < |ids| && ids[i].employeeId == e.employeeId && Trim(ids[i].code) == e.oldCode
  }

  lemma {:induction false} PlannedFits(initial: Initial, ids: seq<Identity>, employees: seq<Planned>,
      years: map<int, nat>)
    requires CleanIds(ids) && Numbers(Sort(ValidRows(initial, ids)), employees, years)
    ensures PlanFits(ids, employees)
  {
    hide RowOf, Sort, ValidRows, Code, CodeAt, Count, AfterUpdates, Recoded, Trim, RowFits;
    var rows := Sort(ValidRows(initial, ids));
    MigratedRows(initial, ids, employees, years);
    forall j, k | 0 <= j < k < |employees|
      ensures employees[j].employeeId != employees[k].employeeId && employees[j].newCode != employees[k].newCode
    {
      CodesDistinct(rows, j, k);
    }
    SortPermutes(ValidRows(initial, ids));
    SameMembers(ValidRows(initial, ids), rows);
    forall k | 0 <= k < |employees| ensures RowFits(ids, employees[k]) { PlannedRowFits(initial, ids, rows, k); }
  }

  lemma {:induction false} PlannedRowFits(initial: Initial, ids: seq<Identity>, rows: seq<Row>, k: nat)
    requires CleanIds(ids) && k < |rows| && rows[k] in ValidRows(initial, ids)
    ensures RowFits(ids, PlannedAt(rows, k))
  {
    hide RowOf, ValidRows, Code, Count, Trim;
    RowsAreFrom(initial, ids, rows[k]);
    var i :| 0 <= i < |ids| && Accepted(initial)(ids[i]) == Some(rows[k]);
    RowReads(initial, ids[i]);
    HasId(initial, ids[i]);
    CodeIsTrimmed(rows[k].year, rows[k].initial, Count(rows[..k + 1], rows[k].year));
    CodeIsNotEmpty(rows[k].year, rows[k].initial, Count(rows[..k + 1], rows[k].year));
  }

  lemma {:induction false} HasId(initial: Initial, id: Identity)
    requires RowOf(initial, id).Ok?
    ensures Trim(id.employeeId) != ""
  {
    hide Trim, AppointmentYear;
  }

  lemma {:induction false} CodeIsNotEmpty(year: int, initial: char, n: nat)
    ensures Code(year, initial, n) != ""
  {
    hide ShowInt, FourDigits;
    assert Code(year, initial, n)[0] == 'M';
  }

  // ---- The unique index --------------------------------------------------------------------------------

  /** The new code of row `k` is the stored code of an employee whom the plan numbers later or not at all. */
  ghost predicate HeldByOther(ids: seq<Identity>, employees: seq<Planned>, k: nat)
    requires k < |employees|
  {
    exists i :: 0 <= i < |ids| && ids[i].code == employees[k].newCode
             && forall j :: 0 <= j <= k ==> employees[j].employeeId != ids[i].employeeId
  }

  lemma {:induction false} EarlierRowHasLeft(ids: seq<Identity>, employees: seq<Planned>, k: nat, i: nat)
    requires CleanIds(ids) && PlanFits(ids, employees) && k < |employees| && i < |ids|
    requires exists j :: 0 <= j < k && employees[j].employeeId == ids[i].employeeId
    ensures AfterUpdates(ids, employees[..k])[i].code != employees[k].newCode
  {
    hide Trim, Updated, AfterUpdates, CodeAfter;
    var j :| 0 <= j < k && employees[j].employeeId == ids[i].employeeId;
    var before := employees[..k];
    AfterUpdatesAt(ids, before);
    assert before[j] == employees[j];
    CodeAfterOwn(before, ids[i], j);
    assert RowFits(ids, employees[j]) && RowFits(ids, employees[k]);
  }

  lemma {:induction false} OthersStay(ids: seq<Identity>, employees: seq<Planned>, k: nat, i: nat)
    requires CleanIds(ids) && k <= |employees| && i < |ids|
    requires forall j :: 0 <= j < k ==> employees[j].employeeId != ids[i].employeeId
    ensures AfterUpdates(ids, employees[..k])[i] == ids[i]
  {
    hide Trim, Updated, AfterUpdates, CodeAfter;
    AfterUpdatesAt(ids, employees[..k]);
    CodeAfterOther(employees[..k], ids[i]);
  }

  lemma {:induction false} RefusedIffHeld(ids: seq<Identity>, employees: seq<Planned>, k: nat)
    requires CleanIds(ids) && PlanFits(ids, employees) && k < |employees| && employees[k].changed
    ensures RefusedAt(ids, employees, k) <==> HeldByOther(ids, employees, k)
  {
    hide Trim, AfterUpdates;
    var after := AfterUpdates(ids, employees[..k]);
    AfterUpdatesAt(ids, employees[..k]);
    if RefusedAt(ids, employees, k) {
      var i :| 0 <= i < |after| && after[i].employeeId != employees[k].employeeId
        && after[i].code == employees[k].newCode;
      if exists j :: 0 <= j < k && employees[j].employeeId == ids[i].employeeId {
        EarlierRowHasLeft(ids, employees, k, i);
      } else {
        OthersStay(ids, employees, k, i);
      }
    }
    if HeldByOther(ids, employees, k) {
      var i :| 0 <= i < |ids| && ids[i].code == employees[k].newCode
        && forall j :: 0 <= j <= k ==> employees[j].employeeId != ids[i].employeeId;
      OthersStay(ids, employees, k, i);
      assert RowFits(ids, employees[k]);
      var own :| 0 <= own < |ids| && ids[own].employeeId == employees[k].employeeId;
      assert after[own].employeeId == employees[k].employeeId && after[i].employeeId != employees[k].employeeId;
    }
  }

  /** Under the unique index a migration gets through exactly when no new code it has to write is held by an
      employee whom the plan numbers later or not at all; without the index it always does. */
  lemma {:induction false} MigrationEnds(initial: Initial, unique: bool, ids: seq<Identity>, employees: seq<Planned>,
      years: map<int, nat>, done: nat)
    requires CleanIds(ids) && Numbers(Sort(ValidRows(initial, ids)), employees, years)
    requires StopsAfter(unique, ids, employees, done)
    ensures done == |employees| <==>
      !(unique && exists k :: 0 <= k < |employees| && employees[k].changed && HeldByOther(ids, employees, k))
  {
    hide Numbers, Sort, ValidRows, CleanIds, PlanFits, HeldByOther, Refuses, AfterUpdates;
    PlannedFits(initial, ids, employees, years);
    forall k | 0 <= k < |employees| && employees[k].changed
      ensures RefusedAt(ids, employees, k) <==> HeldByOther(ids, employees, k)
    {
      RefusedIffHeld(ids, employees, k);
    }
  }

  ghost predicate DistinctCodes(ids: seq<Identity>) {
    forall i, j :: 0 <= i < j < |ids| ==> ids[i].code != ids[j].code
  }

  /** Wherever a migration under the index stops, no two identities share a code. */
  lemma {:induction false} CodesStayDistinct(ids: seq<Identity>, employees: seq<Planned>, done: nat)
    requires CleanIds(ids) && DistinctCodes(ids) && done <= |employees|
    requires forall k: nat :: k < done ==> !RefusedAt(ids, employees, k)
    ensures DistinctCodes(AfterUpdates(ids, employees[..done]))
  {
    hide Trim, Updated;
    if done > 0 {
      CodesStayDistinct(ids, employees, done - 1);
      var e, before := employees[done - 1], AfterUpdates(ids, employees[..done - 1]);
      assert employees[..done][..done - 1] == employees[..done - 1];
      AfterUpdatesAt(ids, employees[..done - 1]);
      if e.changed {
        assert !RefusedAt(ids, employees, done - 1);
        forall i | 0 <= i < |ids| ensures Updated(before, e.employeeId, e.newCode)[i] ==
          if before[i].employeeId == e.employeeId then before[i].(code := e.newCode) else before[i]
        {
          UpdatedAt(before, e.employeeId, e.newCode, i);
        }
      }
    }
  }

  /** A migration that gets through gives every planned employee the planned code and touches nobody else. */
  lemma {:induction false} PlannedCodesInPlace(initial: Initial, ids: seq<Identity>, employees: seq<Planned>,
      years: map<int, nat>, i: nat)
    requires CleanIds(ids) && Numbers(Sort(ValidRows(initial, ids)), employees, years) && i < |ids|
    ensures forall k :: 0 <= k < |employees| && employees[k].employeeId == ids[i].employeeId ==>
      AfterUpdates(ids, employees)[i] == if employees[k].changed then ids[i].(code := employees[k].newCode) else ids[i]
    ensures (forall k :: 0 <= k < |employees| ==> employees[k].employeeId != ids[i].employeeId) ==>
      AfterUpdates(ids, employees)[i] == ids[i]
  {
    hide Numbers, Sort, ValidRows, Trim, AfterUpdates, CodeAfter, RowFits;
    PlannedFits(initial, ids, employees, years);
    AfterUpdatesAt(ids, employees);
    forall k | 0 <= k < |employees| && employees[k].employeeId == ids[i].employeeId
      ensures CodeAfter(employees, ids[i]) ==
        if employees[k].changed then ids[i].(code := employees[k].newCode) else ids[i]
    {
      CodeAfterOwn(employees, ids[i], k);
    }
    if forall k :: 0 <= k < |employees| ==> employees[k].employeeId != ids[i].employeeId {
      CodeAfterOther(employees, ids[i]);
    }
  }

  // ---- The copies -----------------------------------------------------------------------------------------

  /** Each copy shows the code of its identity. */
  ghost predicate Agree(ids: seq<Identity>, copies: Copies) {
    forall i :: 0 <= i < |ids| && ids[i].employeeId in copies ==> copies[ids[i].employeeId] == ids[i].code
  }

  /** At every point where a migration may stop the copies agree with the identities, if they did before. */
  lemma {:induction false} CopiesAgree(ids: seq<Identity>, copies: Copies, employees: seq<Planned>)
    requires CleanIds(ids) && Agree(ids, copies)
    ensures Agree(AfterUpdates(ids, employees), CopiesAfter(copies, employees))
    ensures CopiesAfter(copies, employees).Keys == copies.Keys
  {
    hide Trim, Updated;
    if employees != [] {
      var init, e := employees[..|employees| - 1], employees[|employees| - 1];
      CopiesAgree(ids, copies, init);
      AfterUpdatesAt(ids, init);
      var before := AfterUpdates(ids, init);
      if e.changed {
        forall i | 0 <= i < |ids| ensures Updated(before, e.employeeId, e.newCode)[i] ==
          if before[i].employeeId == e.employeeId then before[i].(code := e.newCode) else before[i]
        {
          UpdatedAt(before, e.employeeId, e.newCode, i);
        }
      }
    }
  }

  // ---- The documents ----------------------------------------------------------------------------------------

  /** A document with an owner gets the code its owner gets, and no other. */
  lemma {:induction false} OwnedFollow(employees: seq<Planned>, d: Document)
    requires d.owner != "" && forall j, k :: 0 <= j < k < |employees| ==>
      employees[j].employeeId != employees[k].employeeId
    ensures forall k :: 0 <= k < |employees| && employees[k].employeeId == d.owner ==>
      DocumentAfter(employees, d) == if employees[k].changed then d.(code := employees[k].newCode) else d
    ensures (forall k :: 0 <= k < |employees| ==> employees[k].employeeId != d.owner) ==>
      DocumentAfter(employees, d) == d
  {
    if employees != [] { OwnedFollow(employees[..|employees| - 1], d); }
  }

  /** Row `k` is the first to be written whose old code is `code`. */
  ghost predicate FirstWith(employees: seq<Planned>, code: string, k: nat) {
    && k < |employees| && employees[k].changed && employees[k].oldCode == code
    && forall j :: 0 <= j < k ==> !(employees[j].changed && employees[j].oldCode == code)
  }

  lemma {:induction false} UnmatchedStay(employees: seq<Planned>, d: Document)
    requires d.owner == "" && forall k :: 0 <= k < |employees| ==> employees[k].employeeId != ""
    requires forall k :: 0 <= k < |employees| ==> !(employees[k].changed && employees[k].oldCode == d.code)
    ensures DocumentAfter(employees, d) == d
  {
    if employees != [] { UnmatchedStay(employees[..|employees| - 1], d); }
  }

  /** A later row is written whose old code is the new code of row `k`. */
  ghost predicate PassedOn(employees: seq<Planned>, k: nat)
    requires k < |employees|
  {
    exists l :: k < l < |employees| && employees[l].changed && employees[l].oldCode == employees[k].newCode
  }

  lemma {:induction false} OwnerlessChain(ids: seq<Identity>, employees: seq<Planned>, d: Document, k: nat)
    requires PlanFits(ids, employees) && d.owner == "" && d.code != "" && FirstWith(employees, d.code, k)
    ensures DocumentAfter(employees, d).code == employees[k].newCode <==> !PassedOn(employees, k)
    ensures DocumentAfter(employees, d).owner == ""
  {
    hide Trim, RowFits, PassedOn;
    var init, e := employees[..|employees| - 1], employees[|employees| - 1];
    NewCodes(ids, employees);
    OwnIds(ids, employees);
    if k == |init| {
      UnmatchedStay(init, d);
      LastIsNotPassedOn(employees);
    } else {
      assert init[k] == employees[k];
      forall j | 0 <= j < |init| ensures RowFits(ids, init[j]) { assert init[j] == employees[j]; }
      OwnerlessChain(ids, init, d, k);
      LastPasses(employees, k);
    }
  }

  lemma {:induction false} OwnIds(ids: seq<Identity>, employees: seq<Planned>)
    requires PlanFits(ids, employees)
    ensures forall k :: 0 <= k < |employees| ==> employees[k].employeeId != ""
  {
    hide Trim;
    forall k | 0 <= k < |employees| ensures employees[k].employeeId != "" { assert RowFits(ids, employees[k]); }
  }

  lemma {:induction false} NewCodes(ids: seq<Identity>, employees: seq<Planned>)
    requires PlanFits(ids, employees)
    ensures forall k :: 0 <= k < |employees| ==> employees[k].newCode != ""
  {
    hide Trim;
    forall k | 0 <= k < |employees| ensures employees[k].newCode != "" { assert RowFits(ids, employees[k]); }
  }

  lemma {:induction false} LastIsNotPassedOn(employees: seq<Planned>)
    requires employees != []
    ensures !PassedOn(employees, |employees| - 1)
  {
  }

  lemma {:induction false} LastPasses(employees: seq<Planned>, k: nat)
    requires k < |employees| - 1
    ensures var init, e := employees[..|employees| - 1], employees[|employees| - 1];
      PassedOn(employees, k) <==> PassedOn(init, k) || (e.changed && e.oldCode == employees[k].newCode)
  {
    var init := employees[..|employees| - 1];
    if PassedOn(init, k) {
      var l :| k < l < |init| && init[l].changed && init[l].oldCode == init[k].newCode;
      assert employees[l] == init[l];
    }
    if PassedOn(employees, k) {
      var l :| k < l < |employees| && employees[l].changed && employees[l].oldCode == employees[k].newCode;
      if l < |init| { assert init[l] == employees[l]; }
    }
  }

  /** A document that knows its employee only by the code ends with the new code of the first employee planned
      under it, exactly when no later row is written whose old code is that new code; a document whose code no
      written row had is left alone. */
  lemma {:induction false} OwnerlessFollow(initial: Initial, ids: seq<Identity>, employees: seq<Planned>,
      years: map<int, nat>, d: Document)
    requires CleanIds(ids) && Numbers(Sort(ValidRows(initial, ids)), employees, years) && d.owner == ""
    ensures forall k: nat :: d.code != "" && FirstWith(employees, d.code, k) ==>
      (DocumentAfter(employees, d).code == employees[k].newCode <==> !PassedOn(employees, k))
    ensures d.code == "" || (forall k: nat :: !FirstWith(employees, d.code, k)) ==> DocumentAfter(employees, d) == d
  {
    hide Numbers, Sort, ValidRows, CleanIds, PassedOn, DocumentAfter, Trim;
    PlannedFits(initial, ids, employees, years);
    forall k: nat | d.code != "" && FirstWith(employees, d.code, k)
      ensures DocumentAfter(employees, d).code == employees[k].newCode <==> !PassedOn(employees, k)
    {
      OwnerlessChain(ids, employees, d, k);
    }
    OwnIds(ids, employees);
    if d.code == "" {
      CodelessStay(employees, d);
    } else if forall k: nat :: !FirstWith(employees, d.code, k) {
      NoneIsFirst(employees, d.code, |employees|);
      UnmatchedStay(employees, d);
    }
  }

  lemma {:induction false} CodelessStay(employees: seq<Planned>, d: Document)
    requires d.owner == "" && d.code == "" && forall k :: 0 <= k < |employees| ==> employees[k].employeeId != ""
    ensures DocumentAfter(employees, d) == d
  {
    if employees != [] { CodelessStay(employees[..|employees| - 1], d); }
  }

  lemma {:induction false} NoneIsFirst(employees: seq<Planned>, code: string, n: nat)
    requires n <= |employees| && forall k: nat :: !FirstWith(employees, code, k)
    ensures forall j :: 0 <= j < n ==> !(employees[j].changed && employees[j].oldCode == code)
  {
    if n > 0 {
      NoneIsFirst(employees, code, n - 1);
      assert !FirstWith(employees, code, n - 1);
    }
  }

  /** Under the unique index, with codes stored without blanks, a migration that gets through gives every such
      document the new code of its employee. */
  lemma {:induction false} IndexKeepsDocuments(initial: Initial, ids: seq<Identity>, employees: seq<Planned>,
      years: map<int, nat>, d: Document, k: nat)
    requires CleanIds(ids) && Numbers(Sort(ValidRows(initial, ids)), employees, years)
    requires forall i :: 0 <= i < |ids| ==> Trim(ids[i].code) == ids[i].code
    requires StopsAfter(true, ids, employees, |employees|)
    requires d.owner == "" && d.code != "" && FirstWith(employees, d.code, k)
    ensures DocumentAfter(employees, d).code == employees[k].newCode
  {
    hide Numbers, Sort, ValidRows, DocumentAfter, AfterUpdates, Refuses, Trim;
    PlannedFits(initial, ids, employees, years);
    OwnerlessFollow(initial, ids, employees, years, d);
    if PassedOn(employees, k) {
      var l :| k < l < |employees| && employees[l].changed && employees[l].oldCode == employees[k].newCode;
      assert RowFits(ids, employees[l]);
      var i :| 0 <= i < |ids| && ids[i].employeeId == employees[l].employeeId
        && Trim(ids[i].code) == employees[l].oldCode;
      assert HeldByOther(ids, employees, k);
      RefusedIffHeld(ids, employees, k);
      assert false;
    }
  }

  // ---- A senior employee who comes in before the holder of a code ---------------------------------------------

  const HOLDER: Identity := Identity("e2", Code(2020, 'R', 1), "REGULAR", "2020-01-01", "1")
  const HOLDER_ROW: Row := Row("e2", Code(2020, 'R', 1), "REGULAR", "2020-01-01", "1", 2020, 'R')

  lemma {:induction false} HolderIsRead(initial: Initial)
    requires initial("REGULAR") == Some('R') && initial("CONTRACT") == Some('C')
    ensures Sort(ValidRows(initial, [FIRST, HOLDER])) == [FIRST_ROW, HOLDER_ROW]
  {
    hide Sort, Collect, Code, AppointmentYear, Trim;
    DateIsRead();
    NamesAreTrimmed();
    TrimOfTrimmed("1");
    CodeIsTrimmed(2020, 'R', 1);
    RowsAreRead(initial);
    assert RowOf(initial, HOLDER) == Ok(HOLDER_ROW);
    CollectTwo(Accepted(initial), FIRST, HOLDER);
    assert Precedes(FIRST_ROW, HOLDER_ROW) by { assert Less("", "1"); }
    SortTwo(FIRST_ROW, HOLDER_ROW);
  }

  /** The plan gives the first employee the code of the second, who moves up. Under the unique index the first
      update is refused; without it a document that knows the first employee only by the old code ends with
      the code of the second. */
  lemma {:induction false} HeldCodeStops(initial: Initial, employees: seq<Planned>, years: map<int, nat>, done: nat)
    requires initial("REGULAR") == Some('R') && initial("CONTRACT") == Some('C')
    requires Numbers(Sort(ValidRows(initial, [FIRST, HOLDER])), employees, years)
    ensures |employees| == 2
    ensures StopsAfter(true, [FIRST, HOLDER], employees, done) ==> done == 0
    ensures employees[0].newCode == Code(2020, 'R', 1) && employees[1].newCode == Code(2020, 'R', 2)
    ensures DocumentAfter(employees, Document("", "a")).code == employees[1].newCode
  {
    hide Code, Sort, ValidRows;
    HolderIsRead(initial);
    CodesInPlace(FIRST_ROW, HOLDER_ROW);
    var rows := [FIRST_ROW, HOLDER_ROW];
    assert employees[0] == PlannedAt(rows, 0) && employees[1] == PlannedAt(rows, 1);
    CodesDistinct(rows, 0, 1);
    CodeIsNotEmpty(2020, 'R', 1);
    assert Code(2020, 'R', 1) != "a" by { CodeStarts(2020, 'R', 1); }
    assert employees[..1] == [employees[0]] && [employees[0]][..0] == [];
    var d := Document("", "a");
    assert DocumentAfter([employees[0]], d) == d.(code := Code(2020, 'R', 1));
    assert AfterUpdates([FIRST, HOLDER], employees[..0]) == [FIRST, HOLDER];
    assert [FIRST, HOLDER][0] == FIRST && [FIRST, HOLDER][1] == HOLDER;
    assert RefusedAt([FIRST, HOLDER], employees, 0);
  }

  lemma {:induction false} CodeStarts(year: int, initial: char, n: nat)
    ensures Code(year, initial, n) != "" && Code(year, initial, n)[0] == 'M'
  {
    hide ShowInt, FourDigits;
  }
}
