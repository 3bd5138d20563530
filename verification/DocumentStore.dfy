/** The document store as a step system: the metadata collection, the DOCUMENT and ARCHIVE buckets and
    the signature requests. Every action touches one file, and an attach also touches the file it
    supersedes. Crashes inside an operation are actions of their own. */
module DocumentStore {
  import opened Prelude
  import opened Text
  import opened Retention
  import Sig = Signature

  type Bytes = string

  /** A metadata row in its normalised view; `isLocked` stands for any of the lock fields. */
  datatype Meta = Meta(
    documentId: string, subject: Subject, uploadedAt: Stamp, isLocked: bool, lockReason: string,
    legalHold: bool, holdReason: string, holdAppliedAt: Option<Time>, holdAppliedBy: string,
    archivedAt: Stamp, archivedTo: string, version: nat, isCurrent: bool, supersedes: Option<string>)

  /** History, read by no step: names given out, the bytes uploaded, files whose deletion was cut short,
      and files superseded by an attach that died before marking them. */
  datatype Ledger = Ledger(used: set<string>, original: map<string, Bytes>, torn: set<string>,
      halfSuperseded: set<string>)

  datatype State = State(
    meta: map<string, Meta>, document: map<string, Bytes>, archive: map<string, Bytes>,
    requests: map<string, Sig.Request>, ledger: Ledger)

  const INITIAL: State := State(map[], map[], map[], map[], Ledger({}, map[], {}, {}))

  // ---- One file ---------------------------------------------------------------------

  datatype File = File(meta: Option<Meta>, document: Option<Bytes>, archive: Option<Bytes>)

  const EMPTY: File := File(None, None, None)

  function Get<T>(m: map<string, T>, k: string): Option<T> {
    if k in m then Some(m[k]) else None
  }

  function Put<T>(m: map<string, T>, k: string, v: Option<T>): map<string, T> {
    match v case None => m - {k} case Some(x) => m[k := x]
  }

  function FileOf(s: State, f: string): File {
    File(Get(s.meta, f), Get(s.document, f), Get(s.archive, f))
  }

  function SetFile(s: State, f: string, x: File): State {
    s.(meta := Put(s.meta, f, x.meta), document := Put(s.document, f, x.document),
      archive := Put(s.archive, f, x.archive))
  }

  lemma SetFileOf(s: State, f: string, x: File, g: string)
    ensures FileOf(SetFile(s, f, x), g) == if g == f then x else FileOf(s, g)
  {
  }

  /** A name that locking accepts: `extract_filename_from_attachment` leaves it as it is and
      `validate_safe_filename` lets it through. Names given out to uploads are of this kind. */
  predicate Safe(f: string) {
    f != "" && Trim(f) == f && '/' !in f && '\\' !in f
      && forall i :: 0 <= i < |f| - 1 ==> !(f[i] == '.' && f[i + 1] == '.')
  }

  /** The row that lock and hold write for a blob without metadata. */
  function BlankMeta(f: string): Meta {
    Meta(f, Subject("", "", ""), Absent, false, "", false, "", None, "", Absent, "", 1, true, None)
  }

  function MetaOr(x: File, f: string): Meta {
    match x.meta case Some(m) => m case None => BlankMeta(f)
  }

  function Locked(x: File, f: string, reason: string): File {
    if Safe(f) && x.document.Some? then x.(meta := Some(MetaOr(x, f).(isLocked := true, lockReason := reason))) else x
  }

  /** Re-applying keeps the first time and author. */
  function Held(x: File, f: string, reason: string, user: string, now: Time): File {
    if Trim(reason) == "" || x.document.None? then x
    else
      var m := MetaOr(x, f);
      x.(meta := Some(m.(
        legalHold := true, holdReason := Trim(reason),
        holdAppliedAt := if m.legalHold && m.holdAppliedAt.Some? then m.holdAppliedAt else Some(now),
        holdAppliedBy := if m.legalHold && m.holdAppliedBy != "" then m.holdAppliedBy else user)))
  }

  function Released(x: File): File {
    if x.document.Some? && x.meta.Some? && x.meta.value.legalHold
      then x.(meta := Some(x.meta.value.(legalHold := false))) else x
  }

  /** Where a sweep over one row stops. */
  datatype SweepPoint = Finished | AfterCopy | AfterMove | AfterPurge

  predicate ArchivesNow(policies: seq<Policy>, x: File, now: Time) {
    && x.meta.Some? && SelectPolicy(x.meta.value.subject, policies).Some?
    && EligibleForArchive(x.meta.value.legalHold, x.meta.value.archivedAt, x.meta.value.uploadedAt,
                          SelectPolicy(x.meta.value.subject, policies).value, now)
  }

  predicate DeletesNow(policies: seq<Policy>, x: File, now: Time) {
    && x.meta.Some? && SelectPolicy(x.meta.value.subject, policies).Some?
    && EligibleForDelete(x.meta.value.legalHold, x.meta.value.archivedAt,
      SelectPolicy(x.meta.value.subject, policies).value, now)
  }

  /** The sweep over one row: `_archive` copies, deletes the original and marks the row, in that order;
      `_permanent_delete` drops the archived blob and then the row. */
  function Swept(policies: seq<Policy>, x: File, now: Time, point: SweepPoint): File {
    if DeletesNow(policies, x, now) then
      if point == Finished then File(None, x.document, None)
      else if point == AfterPurge then x.(archive := None)
      else x
    else if ArchivesNow(policies, x, now) then
      if x.document.None? then
        if point == Finished then x.(meta := Some(x.meta.value.(archivedAt := At(now), archivedTo := "missing"))) else x
      else
        match point
        case AfterCopy => x.(archive := x.document)
        case AfterMove => File(x.meta, None, x.document)
        case AfterPurge => x
        case Finished => File(Some(x.meta.value.(archivedAt := At(now), archivedTo := "archive")), None, x.document)
    else x
  }

  /** A purge cut short leaves a row without its blob. */
  predicate TearsBySweep(policies: seq<Policy>, x: File, now: Time, point: SweepPoint) {
    DeletesNow(policies, x, now) && point == AfterPurge
  }

  // ---- Actions ------------------------------------------------------------------------

  datatype Action =
    | Attach(f: string, id: string, bytes: Bytes, prior: Option<string>, subject: Subject, uploadedAt: Time,
      crash: bool)
    | UploadOrphan(f: string, bytes: Bytes)
    | Delete(f: string, crash: bool)
    | Lock(f: string, reason: string)
    | ApplyHold(f: string, reason: string, user: string, now: Time)
    | ReleaseHold(f: string)
    | SweepRow(f: string, now: Time, point: SweepPoint)
    | CreateRequest(rid: string, f: string, issuer: string, signers: seq<Sig.Signer>)
    | ActOn(rid: string, act: Sig.Act, crash: bool)

  predicate FreshNames(s: State, f: string, id: string) {
    f !in s.ledger.used && id !in s.ledger.used && f != id && Safe(f)
  }

  predicate MayBeSuperseded(s: State, p: string) {
    p in s.meta && !s.meta[p].legalHold && !s.meta[p].isLocked
  }

  predicate AttachGoes(s: State, f: string, id: string, prior: Option<string>) {
    FreshNames(s, f, id) && (prior.Some? ==> MayBeSuperseded(s, prior.value))
  }

  /** Version 1 for a first document, one above the superseded document otherwise. */
  function AttachedMeta(s: State, id: string, prior: Option<string>, subject: Subject, uploadedAt: Time): Meta {
    var base := BlankMeta(id).(subject := subject, uploadedAt := At(uploadedAt));
    match prior
    case None => base
    case Some(p) => if p in s.meta
      then base.(version := s.meta[p].version + 1, supersedes := Some(s.meta[p].documentId)) else base
  }

  function Demoted(x: File): File {
    match x.meta case None => x case Some(m) => x.(meta := Some(m.(isCurrent := false)))
  }

  function Named(s: State, names: set<string>, f: string, bytes: Bytes): State {
    s.(ledger := s.ledger.(used := s.ledger.used + names, original := s.ledger.original[f := bytes]))
  }

  function AttachStep(s: State, f: string, id: string, bytes: Bytes, prior: Option<string>, subject: Subject,
      uploadedAt: Time, crash: bool): State {
    if !AttachGoes(s, f, id, prior) then s
    else
      var t := Named(SetFile(s, f, File(Some(AttachedMeta(s, id, prior, subject, uploadedAt)), Some(bytes), None)),
        {f, id}, f, bytes);
      if prior.None? then t
      else if crash then t.(ledger := t.ledger.(halfSuperseded := t.ledger.halfSuperseded + {prior.value}))
      else SetFile(t, prior.value, Demoted(FileOf(t, prior.value)))
  }

  function OrphanStep(s: State, f: string, bytes: Bytes): State {
    if f in s.ledger.used || !Safe(f) then s
    else Named(SetFile(s, f, File(None, Some(bytes), None)), {f}, f, bytes)
  }

  ghost predicate HasSuccessor(s: State, id: string) {
    exists g :: g in s.meta && s.meta[g].supersedes == Some(id)
  }

  /** `delete_document` goes through. */
  ghost predicate MayDelete(s: State, f: string) {
    && f in s.document
    && (f in s.meta ==> !s.meta[f].legalHold && !s.meta[f].isLocked && !HasSuccessor(s, s.meta[f].documentId))
  }

  function DeleteFile(x: File, crash: bool): File {
    if crash then x.(document := None) else File(None, None, x.archive)
  }

  ghost function DeleteStep(s: State, f: string, crash: bool): State {
    if !MayDelete(s, f) then s
    else
      var t := SetFile(s, f, DeleteFile(FileOf(s, f), crash));
      if crash then t.(ledger := t.ledger.(torn := t.ledger.torn + {f})) else t
  }

  function SweepStep(policies: seq<Policy>, s: State, f: string, now: Time, point: SweepPoint): State {
    var x := FileOf(s, f);
    var t := SetFile(s, f, Swept(policies, x, now, point));
    if TearsBySweep(policies, x, now, point) then t.(ledger := t.ledger.(torn := t.ledger.torn + {f})) else t
  }

  predicate ValidSigners(signers: seq<Sig.Signer>) {
    && signers != []
    && (forall i :: 0 <= i < |signers| ==> signers[i].Untouched())
    && (forall i, j :: 0 <= i < j < |signers| ==> signers[i].employeeId != signers[j].employeeId)
  }

  function CreateStep(s: State, rid: string, f: string, issuer: string, signers: seq<Sig.Signer>): State {
    if f !in s.document || rid in s.requests || !ValidSigners(signers) then s
    else s.(requests :=
      s.requests[rid := Sig.NewRequest(rid, MetaOr(FileOf(s, f), f).documentId, f, issuer, None, signers)])
  }

  /** The request after an act that goes through. */
  function Acted(s: State, rid: string, act: Sig.Act): Option<Sig.Request> {
    if rid !in s.requests then None
    else match Sig.Attempt(s.requests[rid], act) case Ok(next) => Some(next) case Err(_) => None
  }

  /** The last signature locks the document before the request is stored. */
  function ActStep(s: State, rid: string, act: Sig.Act, crash: bool): State {
    match Acted(s, rid, act)
    case None => s
    case Some(next) =>
      var f := next.filename;
      var t := if act.Sign? && next.status == Sig.COMPLETED
        then SetFile(s, f, Locked(FileOf(s, f), f, "SIGNATURE_REQUEST_COMPLETED")) else s;
      if crash then t else t.(requests := t.requests[rid := next])
  }

  ghost function Step(policies: seq<Policy>, s: State, a: Action): State {
    match a
    case Attach(f, id, bytes, prior, subject, uploadedAt, crash) =>
      AttachStep(s, f, id, bytes, prior, subject, uploadedAt, crash)
    case UploadOrphan(f, bytes) => OrphanStep(s, f, bytes)
    case Delete(f, crash) => DeleteStep(s, f, crash)
    case Lock(f, reason) => SetFile(s, f, Locked(FileOf(s, f), f, reason))
    case ApplyHold(f, reason, user, now) => SetFile(s, f, Held(FileOf(s, f), f, reason, user, now))
    case ReleaseHold(f) => SetFile(s, f, Released(FileOf(s, f)))
    case SweepRow(f, now, point) => SweepStep(policies, s, f, now, point)
    case CreateRequest(rid, f, issuer, signers) => CreateStep(s, rid, f, issuer, signers)
    case ActOn(rid, act, crash) => ActStep(s, rid, act, crash)
  }

  ghost function Run(policies: seq<Policy>, s: State, run: seq<Action>): State {
    if run == [] then s else Step(policies, Run(policies, s, run[..|run| - 1]), run[|run| - 1])
  }

  // ---- What holds of every file ---------------------------------------------------------

  /** An archive date is at least the archive delay of the governing policy after the upload. */
  predicate ArchivedInTime(policies: seq<Policy>, m: Meta) {
    m.archivedAt.Absent? || (
      && m.archivedAt.At? && m.uploadedAt.At? && SelectPolicy(m.subject, policies).Some?
      && SelectPolicy(m.subject, policies).value.archiveAfterDays.Some?
      && m.uploadedAt.time + Days(SelectPolicy(m.subject, policies).value.archiveAfterDays.value) <= m.archivedAt.time)
  }

  /** Blobs are never altered, and the bytes stay somewhere as long as the row does, unless a deletion was cut short. */
  predicate BytesKept(x: File, original: Option<Bytes>, torn: bool) {
    && (x.document.Some? ==> original == x.document)
    && (x.archive.Some? ==> original == x.archive)
    && (x.meta.Some? && !torn ==> original.Some? && (x.document == original || x.archive == original))
  }

  predicate FileSound(policies: seq<Policy>, x: File, f: string, original: Option<Bytes>, torn: bool) {
    && BytesKept(x, original, torn)
    && (x.document.Some? ==> Safe(f))
    && (x.meta.Some? && !x.meta.value.archivedAt.Absent? ==> x.document.None?)
    && (x.meta.Some? && x.meta.value.legalHold ==> x.document.Some?)
    && (x.meta.Some? ==> ArchivedInTime(policies, x.meta.value))
  }

  // ---- A step as seen by one file -------------------------------------------------------

  datatype Change =
    | Same
    | New(row: Option<Meta>, bytes: Bytes)
    | Demoting
    | Removing(crash: bool)
    | Locking(reason: string)
    | Holding(reason: string, user: string, now: Time)
    | Releasing
    | Sweeping(now: Time, point: SweepPoint)

  function Applied(policies: seq<Policy>, x: File, f: string, c: Change): File {
    match c
    case Same => x
    case New(row, bytes) => File(row, Some(bytes), None)
    case Demoting => Demoted(x)
    case Removing(crash) => DeleteFile(x, crash)
    case Locking(reason) => Locked(x, f, reason)
    case Holding(reason, user, now) => Held(x, f, reason, user, now)
    case Releasing => Released(x)
    case Sweeping(now, point) => Swept(policies, x, now, point)
  }

  /** The act is the last signature, on this file. */
  predicate Completes(s: State, rid: string, act: Sig.Act, f: string) {
    var next := Acted(s, rid, act);
    act.Sign? && next.Some? && next.value.status == Sig.COMPLETED && next.value.filename == f
  }

  ghost function ChangeOf(s: State, a: Action, f: string): Change {
    match a
    case Attach(g, id, bytes, prior, subject, uploadedAt, crash) =>
      if !AttachGoes(s, g, id, prior) then Same
      else if f == g then New(Some(AttachedMeta(s, id, prior, subject, uploadedAt)), bytes)
      else if prior == Some(f) && !crash then Demoting
      else Same
    case UploadOrphan(g, bytes) => if f == g && f !in s.ledger.used && Safe(f) then New(None, bytes) else Same
    case Delete(g, crash) => if f == g && MayDelete(s, f) then Removing(crash) else Same
    case Lock(g, reason) => if f == g then Locking(reason) else Same
    case ApplyHold(g, reason, user, now) => if f == g then Holding(reason, user, now) else Same
    case ReleaseHold(g) => if f == g then Releasing else Same
    case SweepRow(g, now, point) => if f == g then Sweeping(now, point) else Same
    case CreateRequest(_, _, _, _) => Same
    case ActOn(rid, act, _) => if Completes(s, rid, act, f) then Locking("SIGNATURE_REQUEST_COMPLETED") else Same
  }

  predicate Fits(x: File, f: string, c: Change) {
    match c
    case New(row, _) => Safe(f) && x == EMPTY && (row.Some? ==> !row.value.legalHold && row.value.archivedAt.Absent?)
    case Demoting => x.meta.Some? && !x.meta.value.legalHold && !x.meta.value.isLocked
    case Removing(_) => x.document.Some? && (x.meta.Some? ==> !x.meta.value.legalHold && !x.meta.value.isLocked)
    case _ => true
  }

  predicate Tears(policies: seq<Policy>, x: File, c: Change) {
    c == Removing(true) || (c.Sweeping? && TearsBySweep(policies, x, c.now, c.point))
  }

  function OriginalAfter(original: Option<Bytes>, c: Change): Option<Bytes> {
    if c.New? then Some(c.bytes) else original
  }

  ghost predicate SoundAt(policies: seq<Policy>, s: State, f: string) {
    && FileSound(policies, FileOf(s, f), f, Get(s.ledger.original, f), f in s.ledger.torn)
    && (f !in s.ledger.used ==> FileOf(s, f) == EMPTY)
  }

  /** The file an action creates, if it does, has a name of its own. */
  ghost predicate NameSound(s: State, a: Action) {
    a.Attach? || a.UploadOrphan? ==> (a.f !in s.ledger.used ==> FileOf(s, a.f) == EMPTY)
  }

  /** What a step did to one file and to its history. */
  ghost predicate Did(policies: seq<Policy>, s: State, t: State, f: string, c: Change) {
    && FileOf(t, f) == Applied(policies, FileOf(s, f), f, c)
    && Fits(FileOf(s, f), f, c)
    && Get(t.ledger.original, f) == OriginalAfter(Get(s.ledger.original, f), c)
    && (f in t.ledger.torn <==> f in s.ledger.torn || Tears(policies, FileOf(s, f), c))
  }

  /** A step that replaces one file and names nothing new. */
  lemma ReplaceDid(policies: seq<Policy>, s: State, g: string, c: Change, f: string)
    requires Fits(FileOf(s, g), g, c) && !c.New?
    ensures var t := SetFile(s, g, Applied(policies, FileOf(s, g), g, c));
      var noted := if Tears(policies, FileOf(s, g), c) then t.(ledger := t.ledger.(torn := t.ledger.torn + {g})) else t;
      Did(policies, s, noted, f, if f == g then c else Same)
  {
    SetFileOf(s, g, Applied(policies, FileOf(s, g), g, c), f);
  }

  lemma AttachDid(policies: seq<Policy>, s: State, f: string, id: string, bytes: Bytes, prior: Option<string>,
      subject: Subject, uploadedAt: Time, crash: bool, g: string)
    requires f !in s.ledger.used ==> FileOf(s, f) == EMPTY
    ensures var a := Attach(f, id, bytes, prior, subject, uploadedAt, crash);
      Did(policies, s, AttachStep(s, f, id, bytes, prior, subject, uploadedAt, crash), g, ChangeOf(s, a, g))
  {
    if AttachGoes(s, f, id, prior) {
      var x := File(Some(AttachedMeta(s, id, prior, subject, uploadedAt)), Some(bytes), None);
      SetFileOf(s, f, x, g);
      if prior.Some? {
        assert prior.value != f;
        var t := SetFile(s, f, x);
        SetFileOf(t, prior.value, Demoted(FileOf(t, prior.value)), g);
      }
    }
  }

  lemma OrphanDid(policies: seq<Policy>, s: State, f: string, bytes: Bytes, g: string)
    requires f !in s.ledger.used ==> FileOf(s, f) == EMPTY
    ensures Did(policies, s, OrphanStep(s, f, bytes), g, ChangeOf(s, UploadOrphan(f, bytes), g))
  {
    SetFileOf(s, f, File(None, Some(bytes), None), g);
  }

  lemma DeleteDid(policies: seq<Policy>, s: State, f: string, crash: bool, g: string)
    ensures Did(policies, s, DeleteStep(s, f, crash), g, ChangeOf(s, Delete(f, crash), g))
  {
    if MayDelete(s, f) { ReplaceDid(policies, s, f, Removing(crash), g); }
  }

  lemma ActDid(policies: seq<Policy>, s: State, rid: string, act: Sig.Act, crash: bool, g: string)
    ensures Did(policies, s, ActStep(s, rid, act, crash), g, ChangeOf(s, ActOn(rid, act, crash), g))
  {
    var next := Acted(s, rid, act);
    if next.Some? && Completes(s, rid, act, next.value.filename) {
      ReplaceDid(policies, s, next.value.filename, Locking("SIGNATURE_REQUEST_COMPLETED"), g);
    }
  }

  /** Every step is one change to each file. */
  lemma StepIsChange(policies: seq<Policy>, s: State, a: Action, f: string)
    requires NameSound(s, a)
    ensures Did(policies, s, Step(policies, s, a), f, ChangeOf(s, a, f))
  {
    match a
    case Attach(g, id, bytes, prior, subject, uploadedAt, crash) =>
      AttachDid(policies, s, g, id, bytes, prior, subject, uploadedAt, crash, f);
    case UploadOrphan(g, bytes) => OrphanDid(policies, s, g, bytes, f);
    case Delete(g, crash) => DeleteDid(policies, s, g, crash, f);
    case Lock(g, reason) => ReplaceDid(policies, s, g, Locking(reason), f);
    case ApplyHold(g, reason, user, now) => ReplaceDid(policies, s, g, Holding(reason, user, now), f);
    case ReleaseHold(g) => ReplaceDid(policies, s, g, Releasing, f);
    case SweepRow(g, now, point) => ReplaceDid(policies, s, g, Sweeping(now, point), f);
    case CreateRequest(rid, g, issuer, signers) =>
    case ActOn(rid, act, crash) => ActDid(policies, s, rid, act, crash, f);
  }

  /** Names given out are never taken back; only an upload gives out names. */
  lemma StepNames(policies: seq<Policy>, s: State, a: Action)
    ensures s.ledger.used <= Step(policies, s, a).ledger.used
    ensures !a.Attach? && !a.UploadOrphan? ==> Step(policies, s, a).ledger.used == s.ledger.used
  {
  }

  lemma ChangeSound(policies: seq<Policy>, x: File, f: string, original: Option<Bytes>, torn: bool, c: Change)
    requires FileSound(policies, x, f, original, torn) && Fits(x, f, c)
    ensures FileSound(policies, Applied(policies, x, f, c), f, OriginalAfter(original, c),
      torn || Tears(policies, x, c))
    ensures x == EMPTY && !c.New? ==> Applied(policies, x, f, c) == EMPTY
  {
    hide SelectPolicy, Safe, Trim;
  }

  lemma StepSound(policies: seq<Policy>, s: State, a: Action, f: string)
    requires SoundAt(policies, s, f) && NameSound(s, a)
    ensures SoundAt(policies, Step(policies, s, a), f)
  {
    StepIsChange(policies, s, a, f);
    StepNames(policies, s, a);
    ChangeSound(policies, FileOf(s, f), f, Get(s.ledger.original, f), f in s.ledger.torn, ChangeOf(s, a, f));
  }

  /** A deletion cut short has taken the blob from DOCUMENT, and for good. */
  lemma {:induction false} TornHasNoBlob(policies: seq<Policy>, run: seq<Action>, f: string)
    ensures var s := Run(policies, INITIAL, run); f in s.ledger.torn ==> f in s.ledger.used && f !in s.document
  {
    hide Safe, SelectPolicy, Step, Trim;
    if run != [] {
      var before, a := run[..|run| - 1], run[|run| - 1];
      var s := Run(policies, INITIAL, before);
      TornHasNoBlob(policies, before, f);
      RunSound(policies, before, f);
      if a.Attach? || a.UploadOrphan? { RunSound(policies, before, a.f); }
      StepIsChange(policies, s, a, f);
      StepNames(policies, s, a);
      TornChange(policies, FileOf(s, f), f, ChangeOf(s, a, f));
      NewIsUnused(s, a, f);
    }
  }

  lemma TornChange(policies: seq<Policy>, x: File, f: string, c: Change)
    requires Fits(x, f, c) && (x.meta.Some? && !x.meta.value.archivedAt.Absent? ==> x.document.None?)
    ensures Tears(policies, x, c) ==> x != EMPTY && Applied(policies, x, f, c).document.None?
    ensures x.document.None? && !c.New? ==> Applied(policies, x, f, c).document.None?
  {
    hide Safe, SelectPolicy, Trim;
  }

  lemma NewIsUnused(s: State, a: Action, f: string)
    ensures ChangeOf(s, a, f).New? ==> f !in s.ledger.used
  {
    hide Safe;
  }

  /** In every run, crashes included, every file is sound. */
  lemma {:induction false} RunSound(policies: seq<Policy>, run: seq<Action>, f: string)
    ensures SoundAt(policies, Run(policies, INITIAL, run), f)
  {
    if run != [] {
      var before, a := run[..|run| - 1], run[|run| - 1];
      RunSound(policies, before, f);
      if a.Attach? || a.UploadOrphan? { RunSound(policies, before, a.f); }
      StepSound(policies, Run(policies, INITIAL, before), a, f);
    }
  }
}
