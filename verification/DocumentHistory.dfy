/** What whole runs of the document store keep: legal holds, retention delays, and locks set by signatures. */
module DocumentHistory {
  import opened Prelude
  import opened Retention
  import opened DocumentStore
  import Sig = Signature

  // ---- Legal hold -----------------------------------------------------------------------

  predicate Holds(x: File) {
    x.meta.Some? && x.meta.value.legalHold
  }

  /** Still there, still held, the blob in place, and the same place in the version history. */
  predicate KeptUnderHold(x: File, y: File) {
    && Holds(x) && Holds(y) && y.document == x.document
    && y.meta.value.documentId == x.meta.value.documentId && y.meta.value.version == x.meta.value.version
    && y.meta.value.supersedes == x.meta.value.supersedes && y.meta.value.isCurrent == x.meta.value.isCurrent
    && y.meta.value.archivedAt == x.meta.value.archivedAt
  }

  lemma ChangeKeepsHold(policies: seq<Policy>, x: File, f: string, c: Change)
    requires Holds(x) && x.document.Some? && Fits(x, f, c) && !c.Releasing?
    ensures KeptUnderHold(x, Applied(policies, x, f, c))
  {
  }

  ghost predicate Releases(run: seq<Action>, f: string) {
    exists i :: 0 <= i < |run| && run[i] == ReleaseHold(f)
  }

  /** A held document has its blob in DOCUMENT and is not archived; and from the moment it is held,
      whatever runs next, crashes included, it stays as it is until its hold is released. */
  lemma {:induction false} HoldSafety(policies: seq<Policy>, past: seq<Action>, next: seq<Action>, f: string)
    requires Holds(FileOf(Run(policies, INITIAL, past), f)) && !Releases(next, f)
    ensures FileOf(Run(policies, INITIAL, past), f).document.Some?
    ensures FileOf(Run(policies, INITIAL, past), f).meta.value.archivedAt.Absent?
    ensures KeptUnderHold(FileOf(Run(policies, INITIAL, past), f), FileOf(Run(policies, INITIAL, past + next), f))
  {
    RunSound(policies, past, f);
    if next == [] {
      assert past + next == past;
    } else {
      var before, a := next[..|next| - 1], next[|next| - 1];
      assert forall i :: 0 <= i < |before| ==> before[i] == next[i];
      HoldSafety(policies, past, before, f);
      RunStep(policies, past, next);
      RunSound(policies, past + before, f);
      NamesSound(policies, past + before, a);
      var s := Run(policies, INITIAL, past + before);
      StepIsChange(policies, s, a, f);
      ChangeKeepsHold(policies, FileOf(s, f), f, ChangeOf(s, a, f));
    }
  }

  lemma RunStep(policies: seq<Policy>, past: seq<Action>, next: seq<Action>)
    requires next != []
    ensures Run(policies, INITIAL, past + next) ==
      Step(policies, Run(policies, INITIAL, past + next[..|next| - 1]), next[|next| - 1])
  {
    assert (past + next)[..|past + next| - 1] == past + next[..|next| - 1];
  }

  lemma NamesSound(policies: seq<Policy>, past: seq<Action>, a: Action)
    ensures NameSound(Run(policies, INITIAL, past), a)
  {
    if a.Attach? || a.UploadOrphan? { RunSound(policies, past, a.f); }
  }

  // ---- Retention ------------------------------------------------------------------------

  /** In any run, a sweep drops a row, or the archived blob of one, only after both delays of the policy
      that governs it, counted from the upload. */
  lemma RemovedInTime(policies: seq<Policy>, past: seq<Action>, f: string, now: Time, point: SweepPoint)
    requires var x, y := FileOf(Run(policies, INITIAL, past), f),
      FileOf(Run(policies, INITIAL, past + [SweepRow(f, now, point)]), f);
      x.meta.Some? && (y.meta.None? || (x.archive.Some? && y.archive.None?))
    ensures var m := FileOf(Run(policies, INITIAL, past), f).meta.value;
      && SelectPolicy(m.subject, policies).Some? && m.uploadedAt.At? && !m.legalHold
      && var p := SelectPolicy(m.subject, policies).value;
      && p.archiveAfterDays.Some? && p.deleteAfterArchiveDays.Some?
      && m.uploadedAt.time + Days(p.archiveAfterDays.value) + Days(p.deleteAfterArchiveDays.value) <= now
  {
    hide SelectPolicy, Safe;
    RunSound(policies, past, f);
    var a := SweepRow(f, now, point);
    RunStep(policies, past, [a]);
    assert past + [a][..0] == past;
    StepIsChange(policies, Run(policies, INITIAL, past), a, f);
  }

  /** While the row is there and no deletion was cut short, its bytes are in DOCUMENT or ARCHIVE: every
      crash inside `_archive` leaves them in one of the two. */
  lemma BytesStay(policies: seq<Policy>, run: seq<Action>, f: string)
    requires var s := Run(policies, INITIAL, run); f in s.meta && f !in s.ledger.torn
    ensures var s := Run(policies, INITIAL, run);
      f in s.ledger.original
        && (Get(s.document, f) == Some(s.ledger.original[f]) || Get(s.archive, f) == Some(s.ledger.original[f]))
  {
    RunSound(policies, run, f);
  }

  /** The delete delay that governs a row is absent or positive. */
  predicate DeleteDelayed(policies: seq<Policy>, s: Subject) {
    var p := SelectPolicy(s, policies);
    p.Some? && p.value.deleteAfterArchiveDays.Some? ==> p.value.deleteAfterArchiveDays.value >= 1
  }

  /** A second sweep at the same instant does nothing, except to a row that the first sweep archived and
      whose delete delay is not positive: that row it deletes. */
  lemma SecondSweepIdle(policies: seq<Policy>, x: File, now: Time)
    ensures var y := Swept(policies, x, now, Finished);
      Swept(policies, y, now, Finished) == y <==>
        !(ArchivesNow(policies, x, now) && !DeletesNow(policies, x, now)
          && !DeleteDelayed(policies, x.meta.value.subject))
  {
    var y := Swept(policies, x, now, Finished);
    if ArchivesNow(policies, x, now) && !DeletesNow(policies, x, now) {
      assert y.meta == Some(x.meta.value.(archivedAt := At(now), archivedTo := y.meta.value.archivedTo));
      assert !ArchivesNow(policies, y, now);
      DaysOrder(policies, x.meta.value.subject);
      assert DeletesNow(policies, y, now) <==> !DeleteDelayed(policies, x.meta.value.subject);
      assert DeletesNow(policies, y, now) ==> Swept(policies, y, now, Finished).meta.None?;
    }
  }

  lemma DaysOrder(policies: seq<Policy>, s: Subject)
    ensures var p := SelectPolicy(s, policies);
      p.Some? && p.value.deleteAfterArchiveDays.Some? ==>
        (Days(p.value.deleteAfterArchiveDays.value) <= 0 <==> p.value.deleteAfterArchiveDays.value < 1)
  {
  }

  /** A sweep stopped at any point and run again ends where the uninterrupted sweep ends, except that a
      document moved but not yet marked is then marked as missing although its blob is in ARCHIVE. */
  lemma SweepResumes(policies: seq<Policy>, x: File, now: Time, point: SweepPoint)
    requires x.meta.Some? && !x.meta.value.archivedAt.Absent? ==> x.document.None?
    ensures var y := Swept(policies, Swept(policies, x, now, point), now, Finished);
      var z := Swept(policies, x, now, Finished);
      var misled := point == AfterMove && ArchivesNow(policies, x, now) && x.document.Some?;
      point != Finished ==> y == if misled then z.(meta := Some(z.meta.value.(archivedTo := "missing"))) else z
  {
  }

  // ---- Signatures -------------------------------------------------------------------------

  /** The blob is gone from DOCUMENT, or the row is there and locked. */
  predicate Settled(x: File) {
    x.document.Some? ==> x.meta.Some? && x.meta.value.isLocked
  }

  lemma ChangeKeepsLock(policies: seq<Policy>, x: File, f: string, original: Option<Bytes>, torn: bool, c: Change)
    requires FileSound(policies, x, f, original, torn) && Fits(x, f, c) && !c.New?
    ensures Settled(x) || c.Locking? ==> Settled(Applied(policies, x, f, c))
    ensures x.meta.Some? && x.meta.value.isLocked && Applied(policies, x, f, c).meta.Some? ==>
      Applied(policies, x, f, c).meta.value.isLocked
    ensures x.document.None? ==> Applied(policies, x, f, c).document.None?
    ensures x.meta.None? && x.document.None? ==> Applied(policies, x, f, c).meta.None?
  {
  }

  /** In shape, about a file that exists or existed, and once COMPLETED that file is settled. */
  ghost predicate RequestSound(s: State, rid: string) {
    rid in s.requests ==>
      && Sig.Shaped(s.requests[rid]) && s.requests[rid].filename in s.ledger.used
      && (s.requests[rid].status == Sig.COMPLETED ==> Settled(FileOf(s, s.requests[rid].filename)))
  }

  lemma AttemptShaped(r: Sig.Request, act: Sig.Act)
    requires Sig.Shaped(r) && Sig.Attempt(r, act).Ok?
    ensures Sig.Shaped(Sig.Attempt(r, act).value) && Sig.Attempt(r, act).value.filename == r.filename
    ensures Sig.Attempt(r, act).value.status == Sig.COMPLETED ==> act.Sign?
  {
    var k: nat :| Sig.ShapedAt(r, k);
    Sig.AttemptKeepsShape(r, k, act);
    assert Sig.ShapedAt(Sig.Attempt(r, act).value, if act.Sign? then k + 1 else k);
  }

  lemma CreatedShaped(rid: string, documentId: string, f: string, issuer: string, signers: seq<Sig.Signer>)
    requires ValidSigners(signers)
    ensures Sig.Shaped(Sig.NewRequest(rid, documentId, f, issuer, None, signers))
  {
    assert Sig.ShapedAt(Sig.NewRequest(rid, documentId, f, issuer, None, signers), 0);
  }

  /** How one step changes one request. */
  lemma RequestAfter(policies: seq<Policy>, s: State, a: Action, rid: string)
    ensures var t := Step(policies, s, a);
      if a.ActOn? && a.rid == rid && !a.crash && Acted(s, rid, a.act).Some?
        then rid in t.requests && t.requests[rid] == Acted(s, rid, a.act).value
      else if a.CreateRequest? && a.rid == rid && rid !in s.requests && rid in t.requests then
        ValidSigners(a.signers) && a.f in s.document
          && t.requests[rid] ==
            Sig.NewRequest(rid, MetaOr(FileOf(s, a.f), a.f).documentId, a.f, a.issuer, None, a.signers)
      else Get(t.requests, rid) == Get(s.requests, rid)
  {
  }

  lemma StepRequestSound(policies: seq<Policy>, s: State, a: Action, rid: string, f: string)
    requires RequestSound(s, rid) && SoundAt(policies, s, f) && NameSound(s, a)
    requires rid in Step(policies, s, a).requests && Step(policies, s, a).requests[rid].filename == f
    ensures RequestSound(Step(policies, s, a), rid)
  {
    var t, c := Step(policies, s, a), ChangeOf(s, a, f);
    RequestAfter(policies, s, a, rid);
    StepNames(policies, s, a);
    StepIsChange(policies, s, a, f);
    if a.ActOn? && a.rid == rid && !a.crash && Acted(s, rid, a.act).Some? {
      AttemptShaped(s.requests[rid], a.act);
    } else if a.CreateRequest? && a.rid == rid && rid !in s.requests {
      CreatedShaped(rid, MetaOr(FileOf(s, a.f), a.f).documentId, a.f, a.issuer, a.signers);
    }
    if t.requests[rid].status == Sig.COMPLETED {
      assert !c.New?;
      ChangeKeepsLock(policies, FileOf(s, f), f, Get(s.ledger.original, f), f in s.ledger.torn, c);
    }
  }

  /** In every run every request is in shape, and a completed one has its document locked or gone. */
  lemma {:induction false} CompletedMeansLocked(policies: seq<Policy>, run: seq<Action>, rid: string)
    ensures RequestSound(Run(policies, INITIAL, run), rid)
  {
    if run != [] {
      var before, a := run[..|run| - 1], run[|run| - 1];
      CompletedMeansLocked(policies, before, rid);
      NamesSound(policies, before, a);
      var s := Run(policies, INITIAL, before);
      if rid in Step(policies, s, a).requests {
        var f := Step(policies, s, a).requests[rid].filename;
        RunSound(policies, before, f);
        StepRequestSound(policies, s, a, rid, f);
      }
    }
  }

  /** A lock is never cleared while the row remains. */
  lemma {:induction false} LocksLast(policies: seq<Policy>, past: seq<Action>, next: seq<Action>, f: string)
    requires var x := FileOf(Run(policies, INITIAL, past), f); x.meta.Some? && x.meta.value.isLocked
    ensures var y := FileOf(Run(policies, INITIAL, past + next), f); y.meta.Some? ==> y.meta.value.isLocked
    ensures var y := FileOf(Run(policies, INITIAL, past + next), f); y.meta.None? ==> y.document.None?
    ensures f in Run(policies, INITIAL, past + next).ledger.used
  {
    hide Applied, FileSound, Fits;
    RunSound(policies, past, f);
    if next == [] {
      assert past + next == past;
    } else {
      var before, a := next[..|next| - 1], next[|next| - 1];
      LocksLast(policies, past, before, f);
      RunStep(policies, past, next);
      RunSound(policies, past + before, f);
      NamesSound(policies, past + before, a);
      var s := Run(policies, INITIAL, past + before);
      StepIsChange(policies, s, a, f);
      StepNames(policies, s, a);
      ChangeKeepsLock(policies, FileOf(s, f), f, Get(s.ledger.original, f), f in s.ledger.torn, ChangeOf(s, a, f));
    }
  }
}
