/** `attach_document_to_entity` on raw rows, with a failure at any point: what its rollback restores. */
module AttachCompensation {
  import opened Prelude
  import opened Text
  import opened DocumentMetadata

  type Rows = map<string, Row>

  const NO_ROW: Row := map[]

  /** What a read of one filename returns. */
  function Read(rows: Rows, f: string): Option<Row> {
    if f in rows then Some(Normalize(f, rows[f])) else None
  }

  /** `upsert`: the normalised row is merged field by field into the stored one. */
  function Upserted(rows: Rows, f: string, data: Row): Rows {
    rows[f := (if f in rows then rows[f] else NO_ROW) + Normalize(f, data)]
  }

  /** Rows are filed under their filename, which has nothing to strip. */
  predicate Filed(f: string, d: Row) {
    Trim(f) == f && f != "" && Get(d, Filename) == Str(f)
  }

  predicate AllFiled(rows: Rows) {
    forall f :: f in rows ==> Filed(f, rows[f])
  }

  predicate KeepsExtras(raw: Row, data: Row) {
    forall k: Key :: k in raw && k.Extra? ==> k in data
  }

  lemma {:induction false} WriteThenReadAt(f: string, raw: Row, data: Row, n: Row, m: Row, k: Key)
    requires Trim(f) != "" && Settled(data) && KeepsExtras(raw, data)
    requires Normal(f, data, n) && Normal(f, raw + n, m)
    ensures k in m <==> k in n
    ensures k in n ==> m[k] == n[k]
  {
    hide Settled, OptionalString, TagList, BoundedInt, LockedRow, NameField, NamedField;
    if Known(k) {
      FieldTwice(f, data, n, k);
      FieldOfKnown(f, raw + n, n, k);
    } else if k in n {
      assert m[k] == Field(f, raw + n, k) == n[k];
    }
  }

  /** A known field depends on known fields only. */
  lemma FieldOfKnown(f: string, a: Row, b: Row, k: Key)
    requires forall j :: Known(j) ==> j in a && j in b && a[j] == b[j]
    requires Known(k)
    ensures Field(f, a, k) == Field(f, b, k)
  {
    if k.DocumentId? || k.OriginalName? || k.Filename? {
      assert Get(a, Filename) == Get(b, Filename) && Get(a, k) == Get(b, k);
    } else if k.IsLocked? {
      assert Get(a, IsLocked) == Get(b, IsLocked) && Get(a, LockedAt) == Get(b, LockedAt)
        && Get(a, LockReason) == Get(b, LockReason);
    } else {
      assert Get(a, k) == Get(b, k);
    }
  }

  lemma SameRows(n: Row, m: Row)
    requires forall k :: (k in m <==> k in n) && (k in n ==> m[k] == n[k])
    ensures m == n
  {
  }

  /** Writing settled data over a row and reading it gives the normalised data, whatever the row held. */
  lemma WriteThenRead(f: string, raw: Row, data: Row)
    requires Trim(f) != "" && Settled(data) && KeepsExtras(raw, data)
    ensures Normalize(f, raw + Normalize(f, data)) == Normalize(f, data)
  {
    var n := Normalize(f, data);
    var m := Normalize(f, raw + n);
    NormalizeIsNormal(f, data);
    NormalizeIsNormal(f, raw + n);
    forall k ensures (k in m <==> k in n) && (k in n ==> m[k] == n[k]) { WriteThenReadAt(f, raw, data, n, m, k); }
    SameRows(n, m);
  }

  /** The fields an attach sets from the caller's metadata. */
  predicate AttachField(k: Key) {
    k in {
      Uppercase(EntityType), Plain(EntityId), Uppercase(DocumentType), Uppercase(Category), Lowercase(SourceContext),
      Plain(SupersedesDocumentId), Plain(SubjectEmployeeId), Plain(SubjectEmployeeCode), Plain(ExpiresAt),
        VersionNumber, IsCurrent}
  }

  lemma UpdateKeepsSettled(d: Row, update: Row)
    requires Settled(d) && forall k :: k in update ==> AttachField(k)
    ensures Settled(d + update)
  {
    assert forall k :: k in {Filename, DocumentId, OriginalName, IsLocked, LockedAt, LockReason} ==>
      Get(d + update, k) == Get(d, k);
  }

  datatype Fault =
    | Nothing
    | UploadWrite(done: bool) | UploadPublish
    | ReadNew | WriteNew(done: bool) | WriteOld(done: bool) | PublishOld | PublishChanged | PublishUploaded

  /** The failures that the rollback answers to. */
  predicate RolledBack(fault: Fault, superseding: bool, changing: bool) {
    match fault
    case ReadNew => true
    case WriteNew(_) => true
    case WriteOld(_) => superseding
    case PublishOld => superseding
    case PublishChanged => changing
    case PublishUploaded => true
    case _ => false
  }

  datatype Outcome = Attached | UploadFailed | Failed

  const NOT_CURRENT: Row := map[IsCurrent := Bool(false)]

  /** The row a superseding attach leaves at its predecessor. */
  function Demotion(view: Row): Row {
    view + NOT_CURRENT
  }

  /** Where the try block stops. */
  function AfterLink(rows: Rows, f: string, validated: Row, prior: Option<string>, priorView: Row, fault: Fault): Rows
    requires f in rows
  {
    if fault.ReadNew? || fault == WriteNew(false) then rows
    else
      var linked := Upserted(rows, f, Normalize(f, rows[f]) + validated);
      if fault.WriteNew? || prior.None? || fault == WriteOld(false) then linked
      else Upserted(linked, prior.value, Demotion(priorView))
  }

  /** What the rollback leaves. */
  function AfterRollBack(rows: Rows, f: string, prior: Option<string>, priorView: Row): Rows {
    if prior.Some? then Upserted(rows - {f}, prior.value, priorView) else rows - {f}
  }

  lemma AfterLinkAt(rows: Rows, f: string, validated: Row, prior: Option<string>, priorView: Row, fault: Fault,
      g: string)
    requires f in rows && g != f
    ensures var t := AfterLink(rows, f, validated, prior, priorView, fault);
      && (prior != Some(g) ==> (g in t <==> g in rows) && (g in t ==> t[g] == rows[g]))
      && (prior == Some(g) && g in rows ==>
        g in t && (t[g] == rows[g] || t[g] == rows[g] + Normalize(g, Demotion(priorView))))
  {
    hide Normalize;
  }

  /** The predecessor's earlier view, written back over what is there, reads as before exactly when its
      stored row was settled. */
  lemma RestoredReads(p: string, raw: Row, cut: Row)
    requires Filed(p, raw)
    requires cut == raw || cut == raw + Normalize(p, Demotion(Normalize(p, raw)))
    ensures Normalize(p, cut + Normalize(p, Normalize(p, raw))) == Normalize(p, raw) <==> Settled(raw)
  {
    ViewIsSettled(p, raw);
    assert KeepsExtras(cut, Normalize(p, raw));
    WriteThenRead(p, cut, Normalize(p, raw));
    NormalizeTwice(p, raw);
  }

  /** Wherever the try block stopped, after the rollback every file other than the predecessor reads as
      before the call, and so does the predecessor exactly when its stored row was settled. */
  lemma FailureRestores(before: Rows, f: string, row: Row, validated: Row, prior: Option<string>, fault: Fault,
      g: string)
    requires AllFiled(before) && f !in before && (prior.Some? ==> prior.value in before)
    ensures var view := if prior.Some? then Normalize(prior.value, before[prior.value]) else NO_ROW;
      var cut := AfterLink(Upserted(before, f, row), f, validated, prior, view, fault);
      var after := AfterRollBack(cut, f, prior, view);
      Read(after, g) == Read(before, g) <==> prior != Some(g) || Settled(before[g])
  {
    hide Normalize, Trim, AttachField, Settled;
    var view := if prior.Some? then Normalize(prior.value, before[prior.value]) else NO_ROW;
    var up := Upserted(before, f, row);
    var cut := AfterLink(up, f, validated, prior, view, fault);
    if g != f { AfterLinkAt(up, f, validated, prior, view, fault, g); }
    if prior == Some(g) { RestoredReads(g, before[g], cut[g]); }
  }

  lemma LinkedReads(f: string, stored: Row, validated: Row)
    requires Trim(f) == f && f != "" && forall k :: k in validated ==> AttachField(k)
    ensures var data := Normalize(f, stored) + validated;
      Normalize(f, stored + Normalize(f, data)) == Normalize(f, data)
  {
    ViewIsSettled(f, stored);
    UpdateKeepsSettled(Normalize(f, stored), validated);
    WriteThenRead(f, stored, Normalize(f, stored) + validated);
  }

  lemma DemotedReads(p: string, raw: Row)
    requires Filed(p, raw)
    ensures Normalize(p, raw + Normalize(p, Demotion(Normalize(p, raw)))) == Normalize(p, Demotion(Normalize(p, raw)))
  {
    LinkedReads(p, raw, NOT_CURRENT);
  }

  lemma UploadedReads(f: string, row: Row)
    ensures NO_ROW + Normalize(f, row) == Normalize(f, row)
  {
  }

  function ReadAfterAttach(before: Rows, f: string, row: Row, validated: Row, prior: Option<string>,
      g: string): Option<Row> {
    if g == f then Some(Normalize(f, Normalize(f, Normalize(f, row)) + validated))
    else if prior == Some(g) && g in before then Some(Normalize(g, Demotion(Normalize(g, before[g]))))
    else Read(before, g)
  }

  /** Without a fault: the new file reads as its upload with the caller's fields, its predecessor as before
      but not current, every other file as before. */
  lemma SuccessReads(before: Rows, f: string, row: Row, validated: Row, prior: Option<string>, g: string)
    requires AllFiled(before) && f !in before && Trim(f) == f && f != "" && (prior.Some? ==> prior.value in before)
    requires forall k :: k in validated ==> AttachField(k)
    ensures var view := if prior.Some? then Normalize(prior.value, before[prior.value]) else NO_ROW;
      var after := AfterLink(Upserted(before, f, row), f, validated, prior, view, Nothing);
      Read(after, g) == ReadAfterAttach(before, f, row, validated, prior, g)
  {
    hide Normalize, Trim, AttachField;
    var up := Upserted(before, f, row);
    UploadedReads(f, row);
    assert up[f] == Normalize(f, row);
    if g == f { LinkedReads(f, Normalize(f, row), validated); }
    if prior == Some(g) { DemotedReads(g, before[g]); }
  }

  /** After an attach the new file shows the caller's fields, cleaned, and otherwise, if its upload was settled,
      those of the upload. */
  lemma NewFileSays(before: Rows, f: string, row: Row, validated: Row, prior: Option<string>, now: Row, k: Key)
    requires Trim(f) != "" && (forall j :: j in validated ==> AttachField(j))
    requires ReadAfterAttach(before, f, row, validated, prior, f) == Some(now)
    ensures k in validated ==> k in now && now[k] == Field(f, validated, k)
    ensures k !in validated && Settled(row) ==>
      (k in now <==> k in Normalize(f, row)) && (k in now ==> now[k] == Normalize(f, row)[k])
  {
    hide Normalize, Trim, Settled, AttachField;
    OverlaidSays(f, Normalize(f, row), validated, k);
    if Settled(row) { NormalizeTwice(f, row); }
  }

  /** Its predecessor is not current, and otherwise, if it was settled, as before. */
  lemma PredecessorSays(before: Rows, f: string, row: Row, validated: Row, p: string, now: Row, k: Key)
    requires p in before && p != f && Trim(p) != ""
    requires ReadAfterAttach(before, f, row, validated, Some(p), p) == Some(now)
    ensures IsCurrent in now && now[IsCurrent] == Bool(false)
    ensures k != IsCurrent && Settled(before[p]) ==>
      (k in now <==> k in Normalize(p, before[p])) && (k in now ==> now[k] == Normalize(p, before[p])[k])
  {
    hide Normalize, Trim, Settled, AttachField;
    OnlyCurrent();
    OverlaidSays(p, before[p], NOT_CURRENT, k);
    OverlaidSays(p, before[p], NOT_CURRENT, IsCurrent);
    FalseStays(p);
    if Settled(before[p]) { NormalizeTwice(p, before[p]); }
  }

  lemma OnlyCurrent()
    ensures AttachField(IsCurrent)
  {
  }

  lemma FalseStays(p: string)
    ensures Field(p, NOT_CURRENT, IsCurrent) == Bool(false)
  {
  }

  /** A view with fields laid over it, read again. */
  lemma OverlaidSays(f: string, raw: Row, update: Row, k: Key)
    requires Trim(f) != "" && forall j :: j in update ==> AttachField(j)
    ensures var view := Normalize(f, raw); var now := Normalize(f, view + update);
      && (k in update ==> k in now && now[k] == Field(f, update, k))
      && (k !in update ==>
            (k in now <==> k in Normalize(f, view)) && (k in now ==> now[k] == Normalize(f, view)[k]))
  {
    hide Trim;
    var view := Normalize(f, raw);
    NormalizeIsNormal(f, view);
    NormalizeIsNormal(f, view + update);
    if k in update {
      assert AttachField(k) && Get(view + update, k) == update[k] && Get(update, k) == update[k];
      FieldOfOwn(f, view + update, update, k);
    } else {
      OtherFields(f, view, update, k);
    }
  }

  /** The fields an attach sets depend on themselves only. */
  lemma FieldOfOwn(f: string, a: Row, b: Row, k: Key)
    requires AttachField(k) && k in a && k in b && a[k] == b[k]
    ensures Field(f, a, k) == Field(f, b, k) && Known(k)
  {
  }

  lemma OtherFields(f: string, view: Row, update: Row, k: Key)
    requires k !in update && forall j :: j in update ==> AttachField(j)
    ensures Field(f, view + update, k) == Field(f, view, k)
  {
    assert forall j :: j in {Filename, DocumentId, OriginalName, IsLocked, LockedAt, LockReason} ==>
      Get(view + update, j) == Get(view, j);
    assert Get(view + update, k) == Get(view, k);
  }

  /** The events of the try block, in order. */
  function Announced(superseding: bool, changed: bool): seq<string> {
    (if superseding then ["DocumentMetadataUpdated"] else [])
    + (if changed then ["DocumentMetadataUpdated"] else []) + ["DocumentUploaded"]
  }

  /** Some field of the caller is not what the upload reads as. */
  ghost predicate Changes(f: string, row: Row, validated: Row) {
    exists k :: k in validated && Get(Normalize(f, row), k) != validated[k]
  }

  predicate Differs(view: Row, validated: Row) {
    exists k :: k in validated && Get(view, k) != validated[k]
  }

  lemma DiffersIffChanges(f: string, row: Row, validated: Row)
    ensures Differs(Normalize(f, row), validated) <==> Changes(f, row, validated)
  {
  }

  class Documents {
    var rows: Rows
    var blobs: map<string, string>
    var outbox: seq<string>

    constructor ()
      ensures rows == map[] && blobs == map[] && outbox == []
    {
      rows, blobs, outbox := map[], map[], [];
    }

    method Upsert(f: string, data: Row)
      modifies this`rows
      ensures rows == Upserted(old(rows), f, data)
    {
      var payload := Normalize(f, data);
      var stored := if f in rows then rows[f] else NO_ROW;
      rows := rows[f := stored + payload];
    }

    method Publish(name: string)
      modifies this`outbox
      ensures outbox == old(outbox) + [name]
    {
      outbox := outbox + [name];
    }

    /** `upload_document`: the blob, then the row, then the scan event. */
    method Upload(f: string, contents: string, row: Row, fault: Fault) returns (ok: bool)
      requires f !in rows && f !in blobs
      modifies this
      ensures ok <==> !fault.UploadWrite? && !fault.UploadPublish?
      ensures blobs == if fault.UploadWrite? then old(blobs) else old(blobs)[f := contents]
      ensures rows == if fault.UploadWrite? && !fault.done then old(rows) else Upserted(old(rows), f, row)
      ensures outbox == old(outbox) + if ok then ["DocumentScanCompleted"] else []
    {
      hide Normalize;
      blobs := blobs[f := contents];
      if !(fault.UploadWrite? && !fault.done) {
        Upsert(f, row);
      }
      if fault.UploadWrite? {
        blobs := blobs - {f};
        return false;
      }
      if fault.UploadPublish? {
        return false;
      }
      Publish("DocumentScanCompleted");
      return true;
    }

    /** The body of the try block; it stops where the fault strikes. */
    method Link(f: string, validated: Row, prior: Option<string>, priorView: Row, fault: Fault)
        returns (ok: bool, changed: bool)
      requires f in rows && (prior.Some? ==> prior.value in rows && prior.value != f)
      modifies this`rows, this`outbox
      ensures old(outbox) <= outbox && outbox <= old(outbox) + Announced(prior.Some?, changed)
      ensures ok ==> outbox == old(outbox) + Announced(prior.Some?, changed)
      ensures changed <==> Changes(f, old(rows)[f], validated)
      ensures ok <==> !RolledBack(fault, prior.Some?, changed)
      ensures rows == AfterLink(old(rows), f, validated, prior, priorView, fault)
    {
      hide Normalize, Demotion, Get, Changes;
      var view := Normalize(f, rows[f]);
      changed := Differs(view, validated);
      DiffersIffChanges(f, rows[f], validated);
      if fault.ReadNew? { return false, changed; }
      if fault == WriteNew(false) { return false, changed; }
      Upsert(f, view + validated);
      if fault.WriteNew? { return false, changed; }
      if prior.Some? {
        if fault == WriteOld(false) { return false, changed; }
        Upsert(prior.value, Demotion(priorView));
        if fault.WriteOld? { return false, changed; }
        if fault.PublishOld? { return false, changed; }
        Publish("DocumentMetadataUpdated");
      }
      ok := AnnounceNew(changed, fault);
    }

    method AnnounceNew(changed: bool, fault: Fault) returns (ok: bool)
      modifies this`outbox
      ensures ok <==> !fault.PublishUploaded? && !(changed && fault.PublishChanged?)
      ensures outbox <= old(outbox) + Announced(false, changed) && old(outbox) <= outbox
      ensures ok ==> outbox == old(outbox) + Announced(false, changed)
    {
      if changed {
        if fault.PublishChanged? { return false; }
        Publish("DocumentMetadataUpdated");
      }
      if fault.PublishUploaded? { return false; }
      Publish("DocumentUploaded");
      return true;
    }

    /** The except block. */
    method RollBack(f: string, prior: Option<string>, priorView: Row)
      modifies this`rows, this`blobs
      ensures blobs == old(blobs) - {f}
      ensures rows == AfterRollBack(old(rows), f, prior, priorView)
    {
      hide Normalize;
      blobs := blobs - {f};
      rows := rows - {f};
      if prior.Some? {
        Upsert(prior.value, priorView);
      }
    }

    /** The try statement, entered after a completed upload. */
    method LinkOrRollBack(f: string, ghost before: Rows, ghost row: Row, validated: Row, prior: Option<string>,
        priorView: Row, fault: Fault)
      returns (linked: bool)
      requires AllFiled(before) && Trim(f) == f && f != "" && f !in before && f in rows
        && rows == Upserted(before, f, row)
      requires forall k :: k in validated ==> AttachField(k)
      requires prior.Some? ==> prior.value in before && priorView == Normalize(prior.value, before[prior.value])
      requires prior.None? ==> priorView == NO_ROW
      modifies this
      ensures RolledBack(fault, prior.Some?, false) ==> !linked
      ensures !linked ==> RolledBack(fault, prior.Some?, true)
      ensures linked ==>
        blobs == old(blobs) && forall g :: Read(rows, g) == ReadAfterAttach(before, f, row, validated, prior, g)
      ensures !linked ==> blobs == old(blobs) - {f}
      ensures !linked ==> forall g :: Read(rows, g) == Read(before, g) <==> prior != Some(g) || Settled(before[g])
      ensures linked ==> outbox == old(outbox) + Announced(prior.Some?, Changes(f, old(rows)[f], validated))
      ensures !linked ==> outbox <= old(outbox) + Announced(prior.Some?, Changes(f, old(rows)[f], validated))
      ensures old(outbox) <= outbox
    {
      hide Normalize, Trim, AttachField, Settled, AfterLink, AfterRollBack, ReadAfterAttach, Filed;
      var ok, changed := Link(f, validated, prior, priorView, fault);
      if ok {
        NoFaultLink(Upserted(before, f, row), f, validated, prior, priorView, fault, changed);
        forall g ensures Read(rows, g) == ReadAfterAttach(before, f, row, validated, prior, g) {
          SuccessReads(before, f, row, validated, prior, g);
        }
        return true;
      }
      RollBack(f, prior, priorView);
      forall g ensures Read(rows, g) == Read(before, g) <==> prior != Some(g) || Settled(before[g]) {
        FailureRestores(before, f, row, validated, prior, fault, g);
      }
      return false;
    }

    /** The whole call. `prior` is the file that the superseded identifier names, found and allowed. */
    method Attach(f: string, contents: string, row: Row, validated: Row, prior: Option<string>, fault: Fault)
      returns (outcome: Outcome)
      requires AllFiled(rows) && Trim(f) == f && f != "" && f !in rows && f !in blobs
      requires forall k :: k in validated ==> AttachField(k)
      requires prior.Some? ==> prior.value in rows
      modifies this
      ensures outcome == UploadFailed <==> fault.UploadWrite? || fault.UploadPublish?
      ensures RolledBack(fault, prior.Some?, false) ==> outcome == Failed
      ensures outcome == Failed ==> RolledBack(fault, prior.Some?, true)
      ensures outcome == Failed ==> blobs == old(blobs)
      ensures outcome == Failed ==>
        forall g :: Read(rows, g) == Read(old(rows), g) <==> prior != Some(g) || Settled(old(rows)[g])
      ensures outcome == Attached ==> blobs == old(blobs)[f := contents]
      ensures outcome == Attached ==>
        forall g :: Read(rows, g) == ReadAfterAttach(old(rows), f, row, validated, prior, g)
      ensures outcome == UploadFailed ==> forall g :: g != f ==> Read(rows, g) == Read(old(rows), g)
      ensures outcome == UploadFailed ==>
        (f in blobs <==> fault.UploadPublish?) && (f in rows <==> fault != UploadWrite(false))
      ensures outcome == UploadFailed ==> outbox == old(outbox)
      ensures outcome == Attached ==>
        outbox ==
          old(outbox) + ["DocumentScanCompleted"] + Announced(prior.Some?, Changes(f, Normalize(f, row), validated))
      ensures old(outbox) <= outbox
    {
      hide Normalize, Trim, AttachField, Settled, ReadAfterAttach, Filed;
      var priorView: Row := if prior.Some? then Normalize(prior.value, rows[prior.value]) else NO_ROW;
      ghost var before := rows;
      UploadedReads(f, row);
      var uploaded := Upload(f, contents, row, fault);
      if !uploaded { return UploadFailed; }
      var linked := LinkOrRollBack(f, before, row, validated, prior, priorView, fault);
      return if linked then Attached else Failed;
    }
  }

  /** A fault that no point of the try block meets changes nothing in it. */
  lemma NoFaultLink(rows: Rows, f: string, validated: Row, prior: Option<string>, priorView: Row, fault: Fault,
      changed: bool)
    requires f in rows && !RolledBack(fault, prior.Some?, changed)
    ensures AfterLink(rows, f, validated, prior, priorView, fault) ==
      AfterLink(rows, f, validated, prior, priorView, Nothing)
  {
    hide Normalize;
  }

  /** A stored original name of one blank reads as none, and after a failed superseding attach as the
      filename. */
  lemma BlankNameNotRestored(p: string)
    requires Trim(p) == p && p != ""
    ensures var raw: Row := map[Filename := Str(p), OriginalName := Str(" ")];
      && Filed(p, raw) && !Settled(raw)
      && Normalize(p, raw)[OriginalName] == Null
      && Normalize(p, raw + Normalize(p, Normalize(p, raw)))[OriginalName] == Str(p)
  {
    var raw: Row := map[Filename := Str(p), OriginalName := Str(" ")];
    assert TrimLeft(" ") == TrimLeft([]) == [];
    assert Get(raw, OriginalName) == Str(" ");
    assert Field(p, raw, OriginalName) == Null;
    var n := Normalize(p, raw);
    NormalizeIsNormal(p, raw);
    NormalizeIsNormal(p, n);
    assert n[OriginalName] == Null && n[Filename] == Str(p);
    assert Field(p, n, OriginalName) == Str(p);
    var m := raw + Normalize(p, n);
    NormalizeIsNormal(p, m);
    assert Get(m, OriginalName) == Str(p);
    assert Field(p, m, OriginalName) == Str(p);
  }
}
