/** The document operations over one mutable store. Each method does its reads and writes in the order
    of the service and is proved to take the step that the state machine prescribes. */
module DocumentService {
  import opened Prelude
  import opened Text
  import opened Retention
  import opened DocumentStore
  import Sig = Signature
  import History = DocumentHistory

  datatype AttachError = SupersedeNotFound | SupersedeUnderHold | SupersedeLocked
  datatype DeleteError = NotFound | UnderHold | IsLocked | HasVersions
  datatype HoldError = ReasonRequired | DocumentNotFound
  datatype RequestError = NoDocument | BadSigners(signers: Sig.SignerError) | NoRequest | Refused(act: Sig.ActError)

  datatype Summary = Summary(archived: nat, deleted: nat, skippedLegalHold: nat, noPolicy: nat)

  const APPROVED := {"APPROVED", "APPLIED"}

  /** Locking one attachment after another. */
  function LockAll(s: State, files: seq<string>, reason: string): State {
    if files == [] then s
    else
      var before, f := LockAll(s, files[..|files| - 1], reason), files[|files| - 1];
      SetFile(before, f, Locked(FileOf(before, f), f, reason))
  }

  /** Nothing to strip, no separator, no two dots in a row. */
  ghost predicate PlainName(f: string) {
    && f != "" && !IsSpace(f[0]) && !IsSpace(f[|f| - 1]) && '/' !in f && '\\' !in f
    && forall i :: 0 < i < |f| ==> f[i - 1] != '.' || f[i] != '.'
  }

  lemma PlainIsSafe(f: string)
    ensures PlainName(f) <==> Safe(f)
  {
    hide TrimLeft, TrimRight;
    TrimIsTrimmed(f);
    if PlainName(f) {
      TrimOfTrimmed(f);
      forall i | 0 <= i < |f| - 1 ensures !(f[i] == '.' && f[i + 1] == '.') {
        assert f[i + 1 - 1] != '.' || f[i + 1] != '.';
      }
    }
    if Safe(f) {
      forall i | 0 < i < |f| ensures f[i - 1] != '.' || f[i] != '.' {
        assert !(f[i - 1] == '.' && f[i - 1 + 1] == '.');
      }
    }
  }

  /** The row of a file, after a lock if it is `hit`: a blob without a row gets one, of version 1, under its own
      name. */
  ghost function LockedIf(hit: bool, row: Option<Meta>, f: string, reason: string): Option<Meta> {
    if !hit then row
    else
      match row
      case Some(m) => Some(m.(isLocked := true, lockReason := reason))
      case None =>
        Some(Meta(f, Subject("", "", ""), Absent, true, reason, false, "", None, "", Absent, "", 1, true, None))
  }

  /** Of the listed files, those with a plain name and a blob are locked, and nothing else changes. */
  lemma {:induction false} LockAllLocks(s: State, files: seq<string>, reason: string, f: string)
    ensures FileOf(LockAll(s, files, reason), f) == FileOf(s, f).(meta :=
      LockedIf(f in files && PlainName(f) && f in s.document, Get(s.meta, f), f, reason))
  {
    hide Safe, PlainName;
    PlainIsSafe(f);
    if files != [] {
      var n := |files| - 1;
      LockAllLocks(s, files[..n], reason, f);
      var before, g := LockAll(s, files[..n], reason), files[n];
      SetFileOf(before, g, Locked(FileOf(before, g), g, reason), f);
      assert f in files <==> f in files[..n] || f == g;
    }
  }

  lemma NothingLocked(s: State, files: seq<string>, reason: string)
    ensures LockAll(s, files[..0], reason) == s
  {
  }

  lemma LockOneMore(s: State, files: seq<string>, i: nat, reason: string)
    requires i < |files|
    ensures var before := LockAll(s, files[..i], reason);
      LockAll(s, files[..i + 1], reason) ==
        SetFile(before, files[i], Locked(FileOf(before, files[i]), files[i], reason))
  {
    assert files[..i + 1][..i] == files[..i];
  }

  lemma WriteRow(s: State, f: string, m: Meta)
    ensures SetFile(s, f, FileOf(s, f).(meta := Some(m))) == s.(meta := s.meta[f := m])
    ensures SetFile(s, f, FileOf(s, f)) == s
  {
    assert f !in s.document ==> s.document - {f} == s.document;
    assert f !in s.archive ==> s.archive - {f} == s.archive;
    assert f !in s.meta ==> s.meta - {f} == s.meta;
  }

  // ---- What one sweep over all rows counts -------------------------------------------------

  ghost function Tally(hit: string -> bool, done: set<string>): nat {
    |set f | f in done && hit(f)|
  }

  ghost function Archived(policies: seq<Policy>, s: State, now: Time): string -> bool {
    (f: string) => ArchivesNow(policies, FileOf(s, f), now)
  }

  ghost function Deleted(policies: seq<Policy>, s: State, now: Time): string -> bool {
    (f: string) => DeletesNow(policies, FileOf(s, f), now)
  }

  ghost function UnderLegalHold(s: State): string -> bool {
    (f: string) => f in s.meta && s.meta[f].legalHold
  }

  ghost function WithoutPolicy(policies: seq<Policy>, s: State): string -> bool {
    (f: string) => f in s.meta && !s.meta[f].legalHold && SelectPolicy(s.meta[f].subject, policies).None?
  }

  ghost predicate Counts(policies: seq<Policy>, s: State, done: set<string>, now: Time, summary: Summary) {
    && summary.archived == Tally(Archived(policies, s, now), done)
    && summary.deleted == Tally(Deleted(policies, s, now), done)
    && summary.skippedLegalHold == Tally(UnderLegalHold(s), done)
    && summary.noPolicy == Tally(WithoutPolicy(policies, s), done)
  }

  lemma TallyOneMore(hit: string -> bool, done: set<string>, f: string)
    requires f !in done
    ensures Tally(hit, done + {f}) == Tally(hit, done) + if hit(f) then 1 else 0
  {
    assert (set g | g in done + {f} && hit(g)) == (set g | g in done && hit(g)) + if hit(f) then {f} else {};
  }

  function Counted(policies: seq<Policy>, x: File, now: Time, summary: Summary): Summary
    requires x.meta.Some?
  {
    if x.meta.value.legalHold then summary.(skippedLegalHold := summary.skippedLegalHold + 1)
    else if SelectPolicy(x.meta.value.subject, policies).None? then summary.(noPolicy := summary.noPolicy + 1)
    else if DeletesNow(policies, x, now) then summary.(deleted := summary.deleted + 1)
    else if ArchivesNow(policies, x, now) then summary.(archived := summary.archived + 1)
    else summary
  }

  lemma CountOneMore(policies: seq<Policy>, s: State, done: set<string>, f: string, now: Time, summary: Summary)
    requires Counts(policies, s, done, now, summary) && f !in done && f in s.meta
    ensures Counts(policies, s, done + {f}, now, Counted(policies, FileOf(s, f), now, summary))
  {
    TallyOneMore(Archived(policies, s, now), done, f);
    TallyOneMore(Deleted(policies, s, now), done, f);
    TallyOneMore(UnderLegalHold(s), done, f);
    TallyOneMore(WithoutPolicy(policies, s), done, f);
  }

  /** The rows of `done` have been swept, the others not. */
  ghost predicate SweptSoFar(policies: seq<Policy>, s: State, t: State, done: set<string>, now: Time) {
    forall f {:trigger FileOf(t, f)} :: FileOf(t, f) == SweptIf(policies, FileOf(s, f), now, f in done)
  }

  function SweptIf(policies: seq<Policy>, x: File, now: Time, swept: bool): File {
    if swept then Swept(policies, x, now, Finished) else x
  }

  lemma OneFewerLeft<T>(rows: set<T>, left: set<T>, x: T)
    requires x in left && left <= rows
    ensures rows - left + {x} == rows - (left - {x})
  {
  }

  /** Two sweeps at the same instant: the second changes no file exactly when no row that the first one
      archived may be deleted without a delay. */
  lemma SecondRunIdle(policies: seq<Policy>, s: State, t: State, u: State, now: Time)
    requires SweptSoFar(policies, s, t, s.meta.Keys, now) && SweptSoFar(policies, t, u, t.meta.Keys, now)
    ensures (forall f :: FileOf(u, f) == FileOf(t, f)) <==>
      forall f ::
        f in s.meta && ArchivesNow(policies, FileOf(s, f), now) && !DeletesNow(policies, FileOf(s, f), now) ==>
        History.DeleteDelayed(policies, s.meta[f].subject)
  {
    hide Swept, ArchivesNow, DeletesNow, History.DeleteDelayed;
    forall f ensures FileOf(u, f) == FileOf(t, f) <==>
      (f in s.meta && ArchivesNow(policies, FileOf(s, f), now) && !DeletesNow(policies, FileOf(s, f), now) ==>
        History.DeleteDelayed(policies, s.meta[f].subject))
    {
      SecondSweepOfFile(policies, s, t, u, now, f);
    }
  }

  lemma SecondSweepOfFile(policies: seq<Policy>, s: State, t: State, u: State, now: Time, f: string)
    requires SweptSoFar(policies, s, t, s.meta.Keys, now) && SweptSoFar(policies, t, u, t.meta.Keys, now)
    ensures FileOf(u, f) == FileOf(t, f) <==>
      (f in s.meta && ArchivesNow(policies, FileOf(s, f), now) && !DeletesNow(policies, FileOf(s, f), now) ==>
        History.DeleteDelayed(policies, s.meta[f].subject))
  {
    var x := FileOf(s, f);
    assert FileOf(t, f) == SweptIf(policies, x, now, f in s.meta);
    assert FileOf(u, f) == SweptIf(policies, FileOf(t, f), now, f in t.meta);
    assert f in t.meta <==> FileOf(t, f).meta.Some?;
    if f in s.meta {
      History.SecondSweepIdle(policies, x, now);
      if f !in t.meta { assert Swept(policies, FileOf(t, f), now, Finished) == FileOf(t, f); }
    }
  }

  // ---- What a sweep does, by dates ---------------------------------------------------------

  /** Uploaded at least the archive delay of its policy ago, and neither held nor archived. */
  ghost predicate ArchiveDelayPast(policies: seq<Policy>, m: Meta, now: Time) {
    && !m.legalHold && m.archivedAt.Absent? && m.uploadedAt.At?
    && exists i: nat :: Governs(policies, i, m.subject) && policies[i].archiveAfterDays.Some?
                && m.uploadedAt.time + policies[i].archiveAfterDays.value * (24 * 60 * 60 * 1_000_000) <= now
  }

  /** Archived at least the delete delay of its policy ago, and not held. */
  ghost predicate DeleteDelayPast(policies: seq<Policy>, m: Meta, now: Time) {
    && !m.legalHold && m.archivedAt.At?
    && exists i: nat :: Governs(policies, i, m.subject) && policies[i].deleteAfterArchiveDays.Some?
                && m.archivedAt.time + policies[i].deleteAfterArchiveDays.value * (24 * 60 * 60 * 1_000_000) <= now
  }

  /** A row past its archive delay is archived now, with its bytes, if any, moved to ARCHIVE; a row past its
      delete delay is gone with its archived bytes; every other file is as before. */
  ghost predicate SweptByDates(policies: seq<Policy>, x: File, y: File, now: Time) {
    if x.meta.Some? && ArchiveDelayPast(policies, x.meta.value, now) then
      && y.meta == Some(x.meta.value.(archivedAt := At(now),
           archivedTo := if x.document.Some? then "archive" else "missing"))
      && y.document == None && y.archive == if x.document.Some? then x.document else x.archive
    else if x.meta.Some? && DeleteDelayPast(policies, x.meta.value, now) then
      y.meta == None && y.archive == None && y.document == x.document
    else y == x
  }

  lemma OneGoverns(policies: seq<Policy>, i: nat, j: nat, s: Subject)
    requires Governs(policies, i, s) && Governs(policies, j, s)
    ensures i == j
  {
  }

  lemma Governing(policies: seq<Policy>, s: Subject) returns (i: nat)
    requires SelectPolicy(s, policies).Some?
    ensures i < |policies| && Governs(policies, i, s) && SelectPolicy(s, policies) == Some(policies[i])
  {
    hide SelectPolicy, SpeaksOf;
    SelectGoverns(s, policies);
    i :| Governs(policies, i, s) && SelectPolicy(s, policies).value == policies[i];
  }

  /** Eligible means that the delay of the governing policy is past. */
  lemma EligibleByDates(policies: seq<Policy>, x: File, now: Time)
    requires x.meta.Some?
    ensures ArchivesNow(policies, x, now) <==> ArchiveDelayPast(policies, x.meta.value, now)
    ensures DeletesNow(policies, x, now) <==> DeleteDelayPast(policies, x.meta.value, now)
  {
    hide SelectPolicy, Governs, SpeaksOf;
    var s := x.meta.value.subject;
    SelectGoverns(s, policies);
    if SelectPolicy(s, policies).Some? {
      var i := Governing(policies, s);
      forall j: nat | Governs(policies, j, s) ensures j == i { OneGoverns(policies, i, j, s); }
    } else {
      forall j: nat ensures !Governs(policies, j, s) { NoneGoverns(policies, j, s); }
    }
  }

  lemma NoneGoverns(policies: seq<Policy>, i: nat, s: Subject)
    requires forall j :: 0 <= j < |policies| ==> !SpeaksOf(policies[j], s)
    ensures !Governs(policies, i, s)
  {
  }

  lemma SweepIsByDates(policies: seq<Policy>, x: File, now: Time)
    requires x.meta.Some?
    ensures SweptByDates(policies, x, Swept(policies, x, now, Finished), now)
  {
    hide ArchivesNow, DeletesNow, ArchiveDelayPast, DeleteDelayPast;
    EligibleByDates(policies, x, now);
    NotBoth(policies, x.meta.value, now);
  }

  lemma NotBoth(policies: seq<Policy>, m: Meta, now: Time)
    ensures !(ArchiveDelayPast(policies, m, now) && DeleteDelayPast(policies, m, now))
  {
  }

  lemma FilesByDates(policies: seq<Policy>, s: State, t: State, now: Time)
    requires SweptSoFar(policies, s, t, s.meta.Keys, now)
    ensures forall f :: SweptByDates(policies, FileOf(s, f), FileOf(t, f), now)
  {
    hide SweptByDates, Swept;
    forall f ensures SweptByDates(policies, FileOf(s, f), FileOf(t, f), now) {
      assert FileOf(t, f) == SweptIf(policies, FileOf(s, f), now, f in s.meta);
      if f in s.meta { SweepIsByDates(policies, FileOf(s, f), now); } else { NoRowIsKept(policies, FileOf(s, f), now); }
    }
  }

  lemma CountsByDates(policies: seq<Policy>, s: State, now: Time, summary: Summary)
    requires Counts(policies, s, s.meta.Keys, now, summary)
    ensures summary.archived == |set f | f in s.meta && ArchiveDelayPast(policies, s.meta[f], now)|
    ensures summary.deleted == |set f | f in s.meta && DeleteDelayPast(policies, s.meta[f], now)|
    ensures summary.skippedLegalHold == |set f | f in s.meta && s.meta[f].legalHold|
    ensures summary.noPolicy ==
      |set f | f in s.meta && !s.meta[f].legalHold && (forall i: nat :: !Governs(policies, i, s.meta[f].subject))|
  {
    hide ArchivesNow, DeletesNow, ArchiveDelayPast, DeleteDelayPast, Governs, SelectPolicy;
    forall f | f in s.meta
      ensures ArchivesNow(policies, FileOf(s, f), now) <==> ArchiveDelayPast(policies, s.meta[f], now)
      ensures DeletesNow(policies, FileOf(s, f), now) <==> DeleteDelayPast(policies, s.meta[f], now)
      ensures SelectPolicy(s.meta[f].subject, policies).None? <==>
        forall i: nat :: !Governs(policies, i, s.meta[f].subject)
    {
      EligibleByDates(policies, FileOf(s, f), now);
      GovernedIff(policies, s.meta[f].subject);
    }
    var rows := s.meta.Keys;
    TallyIs(Archived(policies, s, now), rows, set f | f in s.meta && ArchiveDelayPast(policies, s.meta[f], now));
    TallyIs(Deleted(policies, s, now), rows, set f | f in s.meta && DeleteDelayPast(policies, s.meta[f], now));
    TallyIs(UnderLegalHold(s), rows, set f | f in s.meta && s.meta[f].legalHold);
    TallyIs(WithoutPolicy(policies, s), rows,
      set f | f in s.meta && !s.meta[f].legalHold && (forall i: nat :: !Governs(policies, i, s.meta[f].subject)));
  }

  lemma TallyIs(hit: string -> bool, done: set<string>, wanted: set<string>)
    requires forall f :: f in wanted <==> f in done && hit(f)
    ensures Tally(hit, done) == |wanted|
  {
    assert (set f | f in done && hit(f)) == wanted;
  }

  lemma NoRowIsKept(policies: seq<Policy>, x: File, now: Time)
    requires x.meta.None?
    ensures SweptByDates(policies, x, x, now)
  {
  }

  lemma GovernedIff(policies: seq<Policy>, s: Subject)
    ensures SelectPolicy(s, policies).None? <==> forall i: nat :: !Governs(policies, i, s)
  {
    hide SelectPolicy, Governs, SpeaksOf;
    SelectGoverns(s, policies);
    if SelectPolicy(s, policies).None? {
      forall i: nat ensures !Governs(policies, i, s) { NoneGoverns(policies, i, s); }
    }
  }

  lemma NothingSwept(policies: seq<Policy>, s: State, now: Time)
    ensures SweptSoFar(policies, s, s, {}, now) && Counts(policies, s, {}, now, Summary(0, 0, 0, 0))
  {
  }

  lemma SweptOneMore(policies: seq<Policy>, s: State, t: State, done: set<string>, f: string, now: Time)
    requires SweptSoFar(policies, s, t, done, now) && f !in done
    ensures FileOf(t, f) == FileOf(s, f)
    ensures SweptSoFar(policies, s, SetFile(t, f, Swept(policies, FileOf(t, f), now, Finished)), done + {f}, now)
  {
    var x := Swept(policies, FileOf(t, f), now, Finished);
    forall g ensures FileOf(SetFile(t, f, x), g) == SweptIf(policies, FileOf(s, g), now, g in done + {f}) {
      SetFileOf(t, f, x, g);
    }
  }

  /** An attach is the linked upload followed by the mark on the superseded row. */
  lemma AttachInTwo(s: State, t: State, f: string, id: string, bytes: Bytes, prior: Option<string>, subject: Subject,
      uploadedAt: Time)
    requires AttachGoes(s, f, id, prior) && FileOf(s, f) == EMPTY
    requires var u := AttachStep(s, f, id, bytes, None, Subject("", "", ""), uploadedAt, false);
      t == u.(meta := u.meta[f := AttachedMeta(s, id, prior, subject, uploadedAt)])
    ensures prior.Some? ==> prior.value in t.meta && t.meta[prior.value] == s.meta[prior.value]
    ensures AttachStep(s, f, id, bytes, prior, subject, uploadedAt, false) ==
      if prior.None? then t else t.(meta := t.meta[prior.value := t.meta[prior.value].(isCurrent := false)])
  {
    var linked := Named(SetFile(s, f, File(Some(AttachedMeta(s, id, prior, subject, uploadedAt)), Some(bytes), None)),
      {f, id}, f, bytes);
    assert linked == t;
    if prior.Some? {
      WriteRow(t, prior.value, s.meta[prior.value].(isCurrent := false));
    }
  }

  lemma NoPolicyNoSweep(s: State, now: Time)
    ensures forall f :: SweptByDates([], FileOf(s, f), FileOf(s, f), now)
    ensures (set f | f in s.meta && ArchiveDelayPast([], s.meta[f], now)) == {}
    ensures (set f | f in s.meta && DeleteDelayPast([], s.meta[f], now)) == {}
  {
    hide Governs, SweptByDates;
    forall m: Meta, i: nat ensures !Governs([], i, m.subject) { NoneGoverns([], i, m.subject); }
    forall f ensures SweptByDates([], FileOf(s, f), FileOf(s, f), now) { NothingGoverned(FileOf(s, f), now); }
  }

  lemma NothingGoverned(x: File, now: Time)
    ensures SweptByDates([], x, x, now)
  {
    hide Governs;
    forall m: Meta, i: nat ensures !Governs([], i, m.subject) { NoneGoverns([], i, m.subject); }
  }

  class Store {
    var meta: map<string, Meta>
    var document: map<string, Bytes>
    var archive: map<string, Bytes>
    var requests: map<string, Sig.Request>
    ghost var ledger: Ledger

    ghost function View(): State reads this {
      State(meta, document, archive, requests, ledger)
    }

    constructor ()
      ensures View() == INITIAL
    {
      meta, document, archive, requests := map[], map[], map[], map[];
      ledger := INITIAL.ledger;
    }

    /** `get_by_document_id`. */
    method FindByDocumentId(id: string) returns (f: Option<string>)
      ensures f.Some? ==> f.value in meta && meta[f.value].documentId == id
      ensures f.None? ==> forall g :: g in meta ==> meta[g].documentId != id
    {
      var left := meta.Keys;
      while left != {}
        invariant left <= meta.Keys
        invariant forall g :: g in meta && g !in left ==> meta[g].documentId != id
        decreases left
      {
        var g :| g in left;
        if meta[g].documentId == id {
          return Some(g);
        }
        left := left - {g};
      }
      return None;
    }

    /** What `upload_document` leaves behind. */
    method Upload(f: string, id: string, bytes: Bytes, uploadedAt: Time)
      requires FreshNames(View(), f, id) && FileOf(View(), f) == EMPTY
      modifies this
      ensures View() == AttachStep(old(View()), f, id, bytes, None, Subject("", "", ""), uploadedAt, false)
    {
      document := document[f := bytes];
      meta := meta[f := BlankMeta(id).(uploadedAt := At(uploadedAt))];
      ledger := ledger.(used := ledger.used + {f, id}, original := ledger.original[f := bytes]);
      assert archive - {f} == archive;
    }

    /** The checks on a superseded document, made before anything is written. */
    method CheckSuperseded(supersedes: string) returns (prior: Option<string>, error: Option<AttachError>)
      ensures prior.Some? <==> Trim(supersedes) != "" && exists g :: g in meta && meta[g].documentId == Trim(supersedes)
      ensures prior.Some? ==> prior.value in meta && meta[prior.value].documentId == Trim(supersedes)
      ensures error == (
        if Trim(supersedes) == "" then None
        else if prior.None? then Some(SupersedeNotFound)
        else if meta[prior.value].legalHold then Some(SupersedeUnderHold)
        else if meta[prior.value].isLocked then Some(SupersedeLocked)
        else None)
    {
      if Trim(supersedes) == "" { return None, None; }
      prior := FindByDocumentId(Trim(supersedes));
      if prior.None? { return prior, Some(SupersedeNotFound); }
      if meta[prior.value].legalHold { return prior, Some(SupersedeUnderHold); }
      if meta[prior.value].isLocked { return prior, Some(SupersedeLocked); }
      return prior, None;
    }

    /** `attach_document_to_entity`: check, upload, rewrite the upload's own row with the link, and end
        the superseded document's being current. */
    method Attach(f: string, id: string, bytes: Bytes, supersedes: string, subject: Subject, uploadedAt: Time)
      returns (prior: Option<string>, error: Option<AttachError>)
      requires FreshNames(View(), f, id) && FileOf(View(), f) == EMPTY
      modifies this
      ensures prior.Some? <==>
        Trim(supersedes) != "" && exists g :: g in old(meta) && old(meta)[g].documentId == Trim(supersedes)
      ensures prior.Some? ==> prior.value in old(meta) && old(meta)[prior.value].documentId == Trim(supersedes)
      ensures error.None? <==> (prior.Some? && MayBeSuperseded(old(View()), prior.value)) || Trim(supersedes) == ""
      ensures View() ==
        if error.Some? then old(View()) else AttachStep(old(View()), f, id, bytes, prior, subject, uploadedAt, false)
      ensures error == (
        if Trim(supersedes) == "" then None
        else if prior.None? then Some(SupersedeNotFound)
        else if old(meta)[prior.value].legalHold then Some(SupersedeUnderHold)
        else if old(meta)[prior.value].isLocked then Some(SupersedeLocked)
        else None)
      ensures error.None? ==>
        && document == old(document)[f := bytes] && archive == old(archive) && requests == old(requests)
        && f in meta && meta[f] == Meta(
             id, subject, At(uploadedAt), false, "", false, "", None, "", Absent, "",
             if prior.Some? then old(meta)[prior.value].version + 1 else 1, true,
             if prior.Some? then Some(old(meta)[prior.value].documentId) else None)
        && (prior.Some? ==> meta == old(meta)[f := meta[f]][prior.value := old(meta)[prior.value].(isCurrent := false)])
        && (prior.None? ==> meta == old(meta)[f := meta[f]])
    {
      prior, error := CheckSuperseded(supersedes);
      if error.Some? { return; }
      ghost var s := View();
      Upload(f, id, bytes, uploadedAt);
      var row := meta[f].(subject := subject);
      if prior.Some? {
        row := row.(version := meta[prior.value].version + 1, supersedes := Some(meta[prior.value].documentId));
      }
      meta := meta[f := row];
      AttachInTwo(s, View(), f, id, bytes, prior, subject, uploadedAt);
      if prior.Some? {
        meta := meta[prior.value := meta[prior.value].(isCurrent := false)];
      }
    }

    /** `delete_document`. */
    method DeleteDocument(f: string) returns (r: Result<(), DeleteError>)
      modifies this
      ensures View() == DeleteStep(old(View()), f, false)
      ensures r.Ok? <==> MayDelete(old(View()), f)
      ensures r == Err(NotFound) <==> f !in old(document)
      ensures r == Err(UnderHold) <==> f in old(document) && f in old(meta) && old(meta)[f].legalHold
      ensures r == Err(IsLocked) <==>
        f in old(document) && f in old(meta) && !old(meta)[f].legalHold && old(meta)[f].isLocked
      ensures r == Err(HasVersions) <==>
        && f in old(document) && f in old(meta) && !old(meta)[f].legalHold && !old(meta)[f].isLocked
        && exists g :: g in old(meta) && old(meta)[g].supersedes == Some(old(meta)[f].documentId)
      ensures r.Ok? ==> document == old(document) - {f} && meta == old(meta) - {f}
      ensures r.Err? ==> document == old(document) && meta == old(meta)
      ensures archive == old(archive) && requests == old(requests)
    {
      if f !in document { return Err(NotFound); }
      if f in meta {
        if meta[f].legalHold { return Err(UnderHold); }
        if meta[f].isLocked { return Err(IsLocked); }
        if exists g :: g in meta && meta[g].supersedes == Some(meta[f].documentId) {
          assert HasSuccessor(View(), meta[f].documentId);
          return Err(HasVersions);
        }
      }
      document := document - {f};
      meta := meta - {f};
      assert f !in archive ==> archive - {f} == archive;
      return Ok(());
    }

    /** `lock_documents_for_approved_request`. */
    method LockDocuments(files: seq<string>, status: string, reason: string)
      modifies this`meta
      ensures View() == if Upper(status) in APPROVED then LockAll(old(View()), files, reason) else old(View())
      ensures forall f :: Get(meta, f) == LockedIf(
        Upper(status) in {"APPROVED", "APPLIED"} && f in files && PlainName(f) && f in document,
        Get(old(meta), f), f, reason)
    {
      hide PlainName, LockAll;
      if Upper(status) !in APPROVED { return; }
      ghost var s := View();
      NothingLocked(s, files, reason);
      var i := 0;
      while i < |files|
        invariant 0 <= i <= |files|
        invariant View() == LockAll(s, files[..i], reason)
      {
        LockOneMore(s, files, i, reason);
        LockOne(files[i], reason);
        i := i + 1;
      }
      assert files[..i] == files;
      forall f
        ensures Get(meta, f) == LockedIf(f in files && PlainName(f) && f in document, Get(s.meta, f), f, reason)
      {
        LockAllLocks(s, files, reason, f);
        assert FileOf(View(), f).meta == Get(meta, f);
      }
    }

    method LockOne(f: string, reason: string)
      modifies this`meta
      ensures View() == SetFile(old(View()), f, Locked(FileOf(old(View()), f), f, reason))
      ensures forall g ::
        Get(meta, g) == LockedIf(g == f && PlainName(f) && f in document, Get(old(meta), g), f, reason)
    {
      PlainIsSafe(f);
      WriteRow(View(), f, MetaOr(FileOf(View(), f), f).(isLocked := true, lockReason := reason));
      if Safe(f) && f in document {
        var row := if f in meta then meta[f] else BlankMeta(f);
        meta := meta[f := row.(isLocked := true, lockReason := reason)];
      }
    }

    /** `apply_legal_hold`. */
    method ApplyLegalHold(f: string, reason: string, user: string, now: Time) returns (r: Result<Time, HoldError>)
      modifies this`meta
      ensures View() == SetFile(old(View()), f, Held(FileOf(old(View()), f), f, reason, user, now))
      ensures r == Err(ReasonRequired) <==> Trim(reason) == ""
      ensures r == Err(DocumentNotFound) <==> Trim(reason) != "" && f !in document
      ensures r.Ok? ==> f in meta && meta[f].legalHold && meta[f].holdAppliedAt == Some(r.value)
      ensures r.Ok? && f in old(meta) && old(meta)[f].legalHold && old(meta)[f].holdAppliedAt.Some? ==>
        r == Ok(old(meta)[f].holdAppliedAt.value)
      ensures r.Ok? ==> meta == old(meta)[f := meta[f]] && meta[f].holdReason == Trim(reason)
      ensures r.Ok? && f in old(meta) ==>
        var before, after := old(meta)[f], meta[f];
        && before.(legalHold := true, holdReason := after.holdReason, holdAppliedAt := after.holdAppliedAt,
             holdAppliedBy := after.holdAppliedBy) == after
        && (!before.legalHold || before.holdAppliedAt.None? ==> r == Ok(now))
        && after.holdAppliedBy ==
             if before.legalHold && before.holdAppliedBy != "" then before.holdAppliedBy else user
      ensures r.Ok? && f !in old(meta) ==>
        meta[f] == Meta(f, Subject("", "", ""), Absent, false, "", true, Trim(reason), Some(now), user, Absent, "", 1,
          true, None)
      ensures r.Err? ==> meta == old(meta)
    {
      WriteRow(View(), f, BlankMeta(f));
      if Trim(reason) == "" { return Err(ReasonRequired); }
      if f !in document { return Err(DocumentNotFound); }
      var row := if f in meta then meta[f] else BlankMeta(f);
      var held := row.legalHold;
      row := row.(legalHold := true, holdReason := Trim(reason),
                  holdAppliedAt := if held && row.holdAppliedAt.Some? then row.holdAppliedAt else Some(now),
                  holdAppliedBy := if held && row.holdAppliedBy != "" then row.holdAppliedBy else user);
      WriteRow(View(), f, row);
      meta := meta[f := row];
      return Ok(row.holdAppliedAt.value);
    }

    /** `release_legal_hold`; the answer says whether a hold was lifted. */
    method ReleaseLegalHold(f: string) returns (r: Result<bool, HoldError>)
      modifies this`meta
      ensures View() == SetFile(old(View()), f, Released(FileOf(old(View()), f)))
      ensures r == if f !in document then Err(DocumentNotFound) else Ok(f in old(meta) && old(meta)[f].legalHold)
      ensures r == Ok(true) ==>
        f in meta && !meta[f].legalHold && meta == old(meta)[f := old(meta)[f].(legalHold := false)]
      ensures r != Ok(true) ==> meta == old(meta)
    {
      WriteRow(View(), f, BlankMeta(f));
      if f !in document { return Err(DocumentNotFound); }
      if f !in meta || !meta[f].legalHold { return Ok(false); }
      WriteRow(View(), f, meta[f].(legalHold := false));
      meta := meta[f := meta[f].(legalHold := false)];
      return Ok(true);
    }

    /** `_archive`. */
    method ArchiveDocument(f: string, now: Time)
      requires f in meta
      modifies this`meta, this`document, this`archive
      ensures View() == SetFile(old(View()), f,
        if f !in old(document)
          then FileOf(old(View()), f).(meta := Some(old(meta)[f].(archivedAt := At(now), archivedTo := "missing")))
        else File(Some(old(meta)[f].(archivedAt := At(now), archivedTo := "archive")), None, Some(old(document)[f])))
    {
      if f !in document {
        WriteRow(View(), f, meta[f].(archivedAt := At(now), archivedTo := "missing"));
        meta := meta[f := meta[f].(archivedAt := At(now), archivedTo := "missing")];
        return;
      }
      var blob := document[f];
      archive := archive[f := blob];
      document := document - {f};
      meta := meta[f := meta[f].(archivedAt := At(now), archivedTo := "archive")];
    }

    /** `_permanent_delete`. */
    method PermanentDelete(f: string)
      modifies this`meta, this`archive
      ensures View() == SetFile(old(View()), f, File(None, FileOf(old(View()), f).document, None))
    {
      archive := archive - {f};
      meta := meta - {f};
      assert f !in document ==> document - {f} == document;
    }

    /** The loop body of `run_once`. */
    method SweepOne(policies: seq<Policy>, f: string, now: Time, sofar: Summary) returns (summary: Summary)
      requires f in meta
      modifies this`meta, this`document, this`archive
      ensures View() == SetFile(old(View()), f, Swept(policies, FileOf(old(View()), f), now, Finished))
      ensures summary == Counted(policies, FileOf(old(View()), f), now, sofar)
    {
      summary := sofar;
      var row := meta[f];
      WriteRow(View(), f, row);
      if row.legalHold {
        summary := summary.(skippedLegalHold := summary.skippedLegalHold + 1);
        return;
      }
      var policy := SelectPolicy(row.subject, policies);
      if policy.None? {
        summary := summary.(noPolicy := summary.noPolicy + 1);
        return;
      }
      if !row.archivedAt.Absent? {
        if EligibleForDelete(row.legalHold, row.archivedAt, policy.value, now) {
          PermanentDelete(f);
          summary := summary.(deleted := summary.deleted + 1);
        }
        return;
      }
      if EligibleForArchive(row.legalHold, row.archivedAt, row.uploadedAt, policy.value, now) {
        ArchiveDocument(f, now);
        summary := summary.(archived := summary.archived + 1);
      }
    }

    method SweepNext(policies: seq<Policy>, ghost s: State, ghost done: set<string>, f: string, now: Time,
        sofar: Summary) returns (summary: Summary)
      requires f in s.meta && f !in done && SweptSoFar(policies, s, View(), done, now)
        && Counts(policies, s, done, now, sofar)
      modifies this`meta, this`document, this`archive
      ensures SweptSoFar(policies, s, View(), done + {f}, now) && Counts(policies, s, done + {f}, now, summary)
    {
      SweptOneMore(policies, s, View(), done, f, now);
      CountOneMore(policies, s, done, f, now, sofar);
      assert FileOf(View(), f).meta.Some?;
      summary := SweepOne(policies, f, now, sofar);
    }

    method SweepAll(policies: seq<Policy>, now: Time) returns (summary: Summary)
      modifies this`meta, this`document, this`archive
      ensures SweptSoFar(policies, old(View()), View(), old(meta).Keys, now)
      ensures Counts(policies, old(View()), old(meta).Keys, now, summary)
    {
      summary := Summary(0, 0, 0, 0);
      ghost var s, rows := View(), meta.Keys;
      NothingSwept(policies, s, now);
      var left := meta.Keys;
      assert rows - left == {};
      while left != {}
        invariant left <= rows
        invariant SweptSoFar(policies, s, View(), rows - left, now)
        invariant Counts(policies, s, rows - left, now, summary)
        decreases left
      {
        var f :| f in left;
        summary := SweepNext(policies, s, rows - left, f, now, summary);
        OneFewerLeft(rows, left, f);
        left := left - {f};
      }
      assert rows - left == rows;
    }

    /** `run_once`: every row present at the start is swept once, and the summary counts what happened. */
    method RunRetention(policies: seq<Policy>, now: Time) returns (summary: Summary)
      modifies this`meta, this`document, this`archive
      ensures policies != [] ==> SweptSoFar(policies, old(View()), View(), old(meta).Keys, now)
      ensures policies != [] ==> Counts(policies, old(View()), old(meta).Keys, now, summary)
      ensures policies == [] ==> summary == Summary(0, 0, 0, 0) && View() == old(View())
      ensures forall f :: SweptByDates(policies, FileOf(old(View()), f), FileOf(View(), f), now)
      ensures summary.archived == |set f | f in old(meta) && ArchiveDelayPast(policies, old(meta)[f], now)|
      ensures summary.deleted == |set f | f in old(meta) && DeleteDelayPast(policies, old(meta)[f], now)|
      ensures policies != [] ==>
        && summary.skippedLegalHold == |set f | f in old(meta) && old(meta)[f].legalHold|
        && summary.noPolicy == |set f | f in old(meta) && !old(meta)[f].legalHold
                                  && (forall i: nat :: !Governs(policies, i, old(meta)[f].subject))|
    {
      hide SweptSoFar, Counts, SweptByDates, ArchiveDelayPast, DeleteDelayPast, Governs;
      if policies == [] {
        NoPolicyNoSweep(View(), now);
        return Summary(0, 0, 0, 0);
      }
      summary := SweepAll(policies, now);
      FilesByDates(policies, old(View()), View(), now);
      CountsByDates(policies, old(View()), now, summary);
    }

    /** `create_signature_request`. */
    method CreateRequest(rid: string, f: string, issuer: string, raws: seq<Sig.RawSigner>)
        returns (r: Result<Sig.Request, RequestError>)
      requires rid !in requests
      modifies this`requests
      ensures r == Err(NoDocument) <==> f !in document
      ensures r.Ok? <==> f in document && raws != [] && forall i :: 0 <= i < |raws| ==> Sig.Problem(raws, i) == None
      ensures r.Ok? ==>
        View() == CreateStep(old(View()), rid, f, issuer, r.value.signers) && rid in requests
          && r.value == requests[rid]
      ensures r.Ok? ==> |r.value.signers| == |raws| && forall i :: 0 <= i < |raws| ==>
        raws[i].Raw? && r.value.signers[i] == Sig.SignerOf(raws[i])
      ensures r.Ok? ==>
        && requests == old(requests)[rid := r.value]
        && r.value.requestId == rid && r.value.filename == f && r.value.issuerUserId == issuer
        && r.value.documentId == (if f in meta then meta[f].documentId else f)
        && r.value.status == Sig.PENDING && r.value.completedAt == None
      ensures r.Err? ==> View() == old(View())
    {
      if f !in document { return Err(NoDocument); }
      var signers := Sig.ValidateSigners(raws);
      if signers.Err? { return Err(BadSigners(signers.error)); }
      forall i, j | 0 <= i < j < |raws| ensures signers.value[i].employeeId != signers.value[j].employeeId {
        assert Sig.Problem(raws, j) == None;
      }
      assert ValidSigners(signers.value);
      var documentId := if f in meta then meta[f].documentId else f;
      var request := Sig.NewRequest(rid, documentId, f, issuer, None, signers.value);
      requests := requests[rid := request];
      return Ok(request);
    }

    /** `sign_signature_request`: the last signature locks the document, then the request is stored. */
    method Sign(rid: string, employeeId: string, now: Time, file: Option<string>)
        returns (r: Result<Sig.Request, RequestError>)
      modifies this`meta, this`requests
      ensures View() == ActStep(old(View()), rid, Sig.Sign(employeeId, now, file), false)
      ensures r == Outcome(old(requests), rid, Sig.Sign(employeeId, now, file))
      ensures r.Ok? ==> rid in old(requests) && requests == old(requests)[rid := r.value]
      ensures r.Ok? ==> Sig.Signed(old(requests)[rid], r.value, employeeId, now, file)
      ensures r.Err? ==> rid !in requests || !Sig.AwaitsSigner(requests[rid], employeeId)
      ensures forall f :: Get(meta, f) == LockedIf(
        r.Ok? && r.value.status == Sig.COMPLETED && f == r.value.filename && PlainName(f) && f in document,
        Get(old(meta), f), f, "SIGNATURE_REQUEST_COMPLETED")
      ensures r.Err? ==> requests == old(requests)
    {
      if rid !in requests { return Err(NoRequest); }
      var request := requests[rid];
      Sig.SignWrites(request, employeeId, now, file);
      var turn := Sig.AssertCanSign(request, employeeId);
      if turn.Err? { return Err(Refused(turn.error)); }
      var i := turn.value;
      request := request.(signers := request.signers[i := request.signers[i].(signedAt := Some(now),
        signatureFilename := file)]);
      if Sig.CurrentIndex(request.signers).None? {
        request := request.(status := Sig.COMPLETED, completedAt := Some(now));
        LockOne(request.filename, "SIGNATURE_REQUEST_COMPLETED");
      }
      requests := requests[rid := request];
      return Ok(request);
    }

    /** `decline_signature_request`. */
    method Decline(rid: string, employeeId: string, now: Time, reason: string)
        returns (r: Result<Sig.Request, RequestError>)
      modifies this`requests
      ensures View() == ActStep(old(View()), rid, Sig.Decline(employeeId, now, reason), false)
      ensures r == Outcome(old(requests), rid, Sig.Decline(employeeId, now, reason))
      ensures r.Ok? ==> rid in old(requests) && requests == old(requests)[rid := r.value]
      ensures r.Ok? ==> Sig.Declined(old(requests)[rid], r.value, employeeId, now, reason)
      ensures r.Err? ==> rid !in requests || !Sig.AwaitsSigner(requests[rid], employeeId)
      ensures r.Err? ==> requests == old(requests)
    {
      if rid !in requests { return Err(NoRequest); }
      var request := requests[rid];
      Sig.DeclineWrites(request, employeeId, now, reason);
      var turn := Sig.AssertCanSign(request, employeeId);
      if turn.Err? { return Err(Refused(turn.error)); }
      var i := turn.value;
      var note := if Trim(reason) == "" then None else Some(Trim(reason));
      request := request.(signers := request.signers[i := request.signers[i].(declinedAt := Some(now),
        declineReason := note)],
                          status := Sig.DECLINED, completedAt := Some(now));
      requests := requests[rid := request];
      return Ok(request);
    }

    /** `cancel_signature_request`. */
    method Cancel(rid: string, allowed: bool, now: Time) returns (r: Result<Sig.Request, RequestError>)
      modifies this`requests
      ensures View() == ActStep(old(View()), rid, Sig.Cancel(allowed, now), false)
      ensures r == Outcome(old(requests), rid, Sig.Cancel(allowed, now))
      ensures r.Ok? <==> allowed && rid in old(requests) && old(requests)[rid].status == Sig.PENDING
      ensures r.Ok? ==> r.value == old(requests)[rid].(status := Sig.CANCELLED, completedAt := Some(now))
      ensures r.Ok? ==> requests == old(requests)[rid := r.value]
      ensures r.Err? ==> requests == old(requests)
    {
      if rid !in requests { return Err(NoRequest); }
      var request := requests[rid];
      if request.status != Sig.PENDING { return Err(Refused(Sig.Closed(request.status))); }
      if !allowed { return Err(Refused(Sig.NotAllowed)); }
      request := request.(status := Sig.CANCELLED, completedAt := Some(now));
      requests := requests[rid := request];
      return Ok(request);
    }
  }

  function Outcome(requests: map<string, Sig.Request>, rid: string, act: Sig.Act): Result<Sig.Request, RequestError> {
    if rid !in requests then Err(NoRequest)
    else match Sig.Attempt(requests[rid], act) case Ok(next) => Ok(next) case Err(e) => Err(Refused(e))
  }
}
