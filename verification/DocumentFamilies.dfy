/** The supersedes links of the document store in every run: identifiers stay unique, a successor is one
    version above its present predecessor, and a superseded row is no longer current. */
module DocumentFamilies {
  import opened Prelude
  import opened Retention
  import opened DocumentStore
  import opened DocumentHistory
  import opened Text
  import Chain = VersionChain

  /** What one change does to the place of a file in the version history: nothing but to end its being
      current, or to remove it together with its blob, or to give a blob without a row its first row. */
  predicate PlaceKept(x: File, y: File, f: string) {
    && (y.document.Some? ==> x.document.Some?)
    && (x.meta.Some? && y.meta.None? ==> y.document.None?)
    && (x.meta.None? && y.meta.Some? ==>
      x.document.Some? && y.meta.value.documentId == f && y.meta.value.supersedes.None?)
    && (x.meta.Some? && y.meta.Some? ==>
        && y.meta.value.documentId == x.meta.value.documentId && y.meta.value.version == x.meta.value.version
        && y.meta.value.supersedes == x.meta.value.supersedes && (y.meta.value.isCurrent ==> x.meta.value.isCurrent))
  }

  lemma ChangeKeepsPlace(policies: seq<Policy>, x: File, f: string, original: Option<Bytes>, torn: bool, c: Change)
    requires FileSound(policies, x, f, original, torn) && Fits(x, f, c) && !c.New?
    ensures PlaceKept(x, Applied(policies, x, f, c), f)
  {
    hide SelectPolicy, Safe, ArchivedInTime;
  }

  /** One row: the names it mentions were given out, and it is filed under its own name or an identifier
      that names no file. */
  ghost predicate RowNamed(s: State, f: string) {
    && (f in s.ledger.original ==> f in s.ledger.used)
    && (f in s.document ==> f in s.ledger.original)
    && (f in s.meta ==>
        && f in s.ledger.original && s.meta[f].documentId in s.ledger.used
        && (s.meta[f].documentId == f || s.meta[f].documentId !in s.ledger.original)
        && (s.meta[f].supersedes.Some? ==> s.meta[f].supersedes.value in s.ledger.used))
  }

  /** Two files: identifiers differ, nobody supersedes a blob without a row, versions go up by one along a
      link, and the superseded row is not current unless the superseding attach died before saying so. */
  ghost predicate Related(s: State, f: string, g: string) {
    && (f in s.meta && g in s.meta && f != g ==> s.meta[f].documentId != s.meta[g].documentId)
    && (f in s.meta && g in s.document && g !in s.meta ==> s.meta[f].supersedes != Some(g) && s.meta[f].documentId != g)
    && (f in s.meta && g in s.meta && s.meta[f].supersedes == Some(s.meta[g].documentId) ==>
        && s.meta[f].version == s.meta[g].version + 1
        && (s.meta[g].isCurrent ==> g in s.ledger.halfSuperseded))
  }

  ghost predicate PairSound(s: State, f: string, g: string) {
    RowNamed(s, f) && RowNamed(s, g) && Related(s, f, g) && Related(s, g, f)
  }

  lemma OrdinaryNamed(s: State, t: State, f: string)
    requires RowNamed(s, f) && PlaceKept(FileOf(s, f), FileOf(t, f), f)
    requires s.ledger.used == t.ledger.used && s.ledger.original == t.ledger.original
    ensures RowNamed(t, f)
  {
  }

  lemma OrdinaryRelated(s: State, t: State, f: string, g: string)
    requires RowNamed(s, f) && RowNamed(s, g) && Related(s, f, g) && Related(s, g, f)
    requires PlaceKept(FileOf(s, f), FileOf(t, f), f) && PlaceKept(FileOf(s, g), FileOf(t, g), g)
    requires s.ledger.halfSuperseded <= t.ledger.halfSuperseded
    ensures Related(t, f, g)
  {
    assert f in s.meta && f in t.meta ==>
      t.meta[f].documentId == s.meta[f].documentId && t.meta[f].supersedes == s.meta[f].supersedes;
    assert g in s.meta && g in t.meta ==>
      t.meta[g].documentId == s.meta[g].documentId && t.meta[g].supersedes == s.meta[g].supersedes;
  }

  lemma AttachedFile(s: State, a: Action, g: string)
    requires a.Attach? && AttachGoes(s, a.f, a.id, a.prior) && NameSound(s, a)
    ensures var t := AttachStep(s, a.f, a.id, a.bytes, a.prior, a.subject, a.uploadedAt, a.crash);
      && FileOf(t, g) ==
        (if g == a.f then File(Some(AttachedMeta(s, a.id, a.prior, a.subject, a.uploadedAt)), Some(a.bytes), None)
                          else if a.prior == Some(g) && !a.crash then Demoted(FileOf(s, g)) else FileOf(s, g))
      && t.ledger.used == s.ledger.used + {a.f, a.id} && t.ledger.original == s.ledger.original[a.f := a.bytes]
      && t.ledger.halfSuperseded ==
        (if a.prior.Some? && a.crash then s.ledger.halfSuperseded + {a.prior.value} else s.ledger.halfSuperseded)
  {
    AttachDid([], s, a.f, a.id, a.bytes, a.prior, a.subject, a.uploadedAt, a.crash, g);
  }

  lemma AttachNamed(policies: seq<Policy>, s: State, a: Action, g: string)
    requires a.Attach? && AttachGoes(s, a.f, a.id, a.prior) && NameSound(s, a)
    requires RowNamed(s, g) && RowNamed(s, a.id) && (a.prior.Some? ==> RowNamed(s, a.prior.value))
    ensures RowNamed(Step(policies, s, a), g)
  {
    AttachedFile(s, a, g);
    var t := Step(policies, s, a);
    assert g in t.meta <==> FileOf(t, g).meta.Some?;
    assert g in t.document <==> FileOf(t, g).document.Some?;
  }

  /** Two files that were there before an attach. */
  lemma AttachRelatedOld(policies: seq<Policy>, s: State, a: Action, g: string, h: string)
    requires a.Attach? && AttachGoes(s, a.f, a.id, a.prior) && NameSound(s, a)
    requires g != a.f && h != a.f && Related(s, g, h)
    ensures Related(Step(policies, s, a), g, h)
  {
    AttachedFile(s, a, g);
    AttachedFile(s, a, h);
    var t := Step(policies, s, a);
    assert g in t.meta <==> FileOf(t, g).meta.Some?;
    assert h in t.meta <==> FileOf(t, h).meta.Some?;
    assert h in t.document <==> FileOf(t, h).document.Some?;
  }

  /** The attached document and one that was there. */
  lemma AttachRelatedNew(policies: seq<Policy>, s: State, a: Action, h: string)
    requires a.Attach? && AttachGoes(s, a.f, a.id, a.prior) && NameSound(s, a)
    requires RowNamed(s, h) && (a.prior.Some? ==> PairSound(s, a.prior.value, h))
    ensures Related(Step(policies, s, a), a.f, h) && Related(Step(policies, s, a), h, a.f)
  {
    AttachedFile(s, a, a.f);
    AttachedFile(s, a, h);
    var t := Step(policies, s, a);
    assert FileOf(t, a.f).meta.value == t.meta[a.f];
    assert h in t.meta <==> FileOf(t, h).meta.Some?;
    assert h in t.document <==> FileOf(t, h).document.Some?;
    assert h in s.document ==> h in s.ledger.used;
  }

  lemma OrphanPair(policies: seq<Policy>, s: State, a: Action, f: string, g: string)
    requires a.UploadOrphan? && NameSound(s, a) && PairSound(s, f, g)
    ensures PairSound(Step(policies, s, a), f, g)
  {
    if a.f !in s.ledger.used && Safe(a.f) {
      assert a.f !in s.meta by { assert FileOf(s, a.f).meta.None?; }
      var t := Step(policies, s, a);
      assert t.meta == s.meta;
    }
  }

  lemma OrdinaryPair(policies: seq<Policy>, s: State, a: Action, f: string, g: string)
    requires !a.Attach? && !a.UploadOrphan? && PairSound(s, f, g) && SoundAt(policies, s, f) && SoundAt(policies, s, g)
    ensures PairSound(Step(policies, s, a), f, g)
  {
    var t := Step(policies, s, a);
    OrdinaryPlace(policies, s, a, f);
    OrdinaryPlace(policies, s, a, g);
    OrdinaryNamed(s, t, f);
    OrdinaryNamed(s, t, g);
    OrdinaryRelated(s, t, f, g);
    OrdinaryRelated(s, t, g, f);
  }

  lemma OrdinaryPlace(policies: seq<Policy>, s: State, a: Action, f: string)
    requires !a.Attach? && !a.UploadOrphan? && SoundAt(policies, s, f)
    ensures var t := Step(policies, s, a);
      && PlaceKept(FileOf(s, f), FileOf(t, f), f)
      && t.ledger.used == s.ledger.used && t.ledger.original == s.ledger.original
        && t.ledger.halfSuperseded == s.ledger.halfSuperseded
  {
    StepIsChange(policies, s, a, f);
    OrdinaryLedger(policies, s, a);
    ChangeKeepsPlace(policies, FileOf(s, f), f, Get(s.ledger.original, f), f in s.ledger.torn, ChangeOf(s, a, f));
  }

  lemma OrdinaryLedger(policies: seq<Policy>, s: State, a: Action)
    requires !a.Attach? && !a.UploadOrphan?
    ensures var t := Step(policies, s, a);
      t.ledger.used == s.ledger.used && t.ledger.original == s.ledger.original
        && t.ledger.halfSuperseded == s.ledger.halfSuperseded
  {
  }

  lemma AttachPair(policies: seq<Policy>, s: State, a: Action, f: string, g: string)
    requires a.Attach? && NameSound(s, a) && PairSound(s, f, g) && RowNamed(s, a.id)
    requires a.prior.Some? ==> PairSound(s, a.prior.value, f) && PairSound(s, a.prior.value, g)
    ensures PairSound(Step(policies, s, a), f, g)
  {
    if AttachGoes(s, a.f, a.id, a.prior) {
      AttachNamed(policies, s, a, f);
      AttachNamed(policies, s, a, g);
      if f == a.f { AttachRelatedNew(policies, s, a, g); }
      else if g == a.f { AttachRelatedNew(policies, s, a, f); }
      else { AttachRelatedOld(policies, s, a, f, g); AttachRelatedOld(policies, s, a, g, f); }
    }
  }

  lemma {:induction false} RunPairs(policies: seq<Policy>, run: seq<Action>, f: string, g: string)
    ensures PairSound(Run(policies, INITIAL, run), f, g)
  {
    if run != [] {
      var before, a := run[..|run| - 1], run[|run| - 1];
      var s := Run(policies, INITIAL, before);
      RunPairs(policies, before, f, g);
      NamesSound(policies, before, a);
      if a.Attach? {
        if a.prior.Some? { RunPairs(policies, before, a.prior.value, f); RunPairs(policies, before, a.prior.value, g); }
        RunPairs(policies, before, a.id, f);
        AttachPair(policies, s, a, f, g);
      } else if a.UploadOrphan? {
        OrphanPair(policies, s, a, f, g);
      } else {
        RunSound(policies, before, f);
        RunSound(policies, before, g);
        OrdinaryPair(policies, s, a, f, g);
      }
    }
  }

  // ---- The forest ------------------------------------------------------------------------

  /** In every run, crashes included, identifiers are unique, and a row with a present predecessor is one
      version above it and has ended its being current (unless the attach died in between). */
  lemma SupersedesForest(policies: seq<Policy>, run: seq<Action>, f: string, g: string)
    ensures var s := Run(policies, INITIAL, run);
      && (f in s.meta && g in s.meta && s.meta[f].documentId == s.meta[g].documentId ==> f == g)
      && (f in s.meta && g in s.meta && s.meta[f].supersedes == Some(s.meta[g].documentId) ==>
          && s.meta[f].version == s.meta[g].version + 1
          && (g !in s.ledger.halfSuperseded ==> !s.meta[g].isCurrent))
  {
    RunPairs(policies, run, f, g);
  }

  predicate Crashed(a: Action) {
    a.Attach? && a.crash
  }

  lemma {:induction false} NothingHalfDone(policies: seq<Policy>, run: seq<Action>)
    requires forall i :: 0 <= i < |run| ==> !Crashed(run[i])
    ensures Run(policies, INITIAL, run).ledger.halfSuperseded == {}
  {
    if run != [] {
      var before, a := run[..|run| - 1], run[|run| - 1];
      NothingHalfDone(policies, before);
      assert !Crashed(a);
      var s := Run(policies, INITIAL, before);
      if a.Attach? { AttachHalf(policies, s, a); }
      else if !a.UploadOrphan? { OrdinaryLedger(policies, s, a); }
    }
  }

  lemma AttachHalf(policies: seq<Policy>, s: State, a: Action)
    requires a.Attach? && !a.crash
    ensures Step(policies, s, a).ledger.halfSuperseded == s.ledger.halfSuperseded
  {
  }

  /** Without a crash inside an attach, no row that a present row supersedes is current. */
  lemma SupersededIsNotCurrent(policies: seq<Policy>, run: seq<Action>, f: string, g: string)
    requires forall i :: 0 <= i < |run| ==> !Crashed(run[i])
    requires var s := Run(policies, INITIAL, run);
      f in s.meta && g in s.meta && s.meta[f].supersedes == Some(s.meta[g].documentId)
    ensures !Run(policies, INITIAL, run).meta[g].isCurrent
  {
    RunPairs(policies, run, f, g);
    NothingHalfDone(policies, run);
  }

  lemma SafeNames()
    ensures Safe("a") && Safe("b")
  {
    TrimOfTrimmed("a");
    TrimOfTrimmed("b");
  }

  const FIRST: Action := Attach("a", "id-1", "x", None, Subject("", "", ""), 0, false)
  const SECOND: Action := Attach("b", "id-2", "y", Some("a"), Subject("", "", ""), 0, true)

  /** An attach that dies between its two writes: the superseded row is there, superseded and still current. */
  lemma HalfDoneAttachLeavesTwoCurrent(policies: seq<Policy>)
    ensures var s := Run(policies, INITIAL, [FIRST, SECOND]);
      && "a" in s.meta && "b" in s.meta && s.meta["b"].supersedes == Some(s.meta["a"].documentId)
      && s.meta["a"].isCurrent && s.meta["b"].isCurrent && "a" in s.ledger.halfSuperseded
  {
    hide Safe;
    SafeNames();
    var none: seq<Action> := [];
    assert [FIRST, SECOND][..1] == [FIRST] && [FIRST][..0] == none && Run(policies, INITIAL, none) == INITIAL;
    var s := Step(policies, INITIAL, FIRST);
    assert AttachGoes(INITIAL, "a", "id-1", None);
    AttachedFile(INITIAL, FIRST, "a");
    assert s.meta == map["a" := AttachedMeta(INITIAL, "id-1", None, Subject("", "", ""), 0)];
    assert s.ledger.used == {"a", "id-1"};
    assert AttachGoes(s, "b", "id-2", Some("a"));
    AttachedFile(s, SECOND, "a");
    AttachedFile(s, SECOND, "b");
    assert FileOf(Step(policies, s, SECOND), "a").meta.Some? && FileOf(Step(policies, s, SECOND), "b").meta.Some?;
  }

  /** The rows by document identifier, as the version traversal reads them. */
  ghost predicate IsView(s: State, docs: Chain.Docs) {
    && (forall f :: f in s.meta ==>
      s.meta[f].documentId in docs && docs[s.meta[f].documentId] == Chain.Node(s.meta[f].version, s.meta[f].supersedes))
    && (forall id :: id in docs ==> exists f :: f in s.meta && s.meta[f].documentId == id)
  }

  /** Such a view exists in every run, and it meets the invariant under which the traversal of the
      version chain ends and returns the connected component. */
  lemma TraversalMayRely(policies: seq<Policy>, run: seq<Action>) returns (docs: Chain.Docs)
    ensures IsView(Run(policies, INITIAL, run), docs) && Chain.Versioned(docs)
  {
    var s := Run(policies, INITIAL, run);
    docs := View(s.meta);
    forall f, g | f in s.meta && g in s.meta && s.meta[f].documentId == s.meta[g].documentId ensures f == g {
      RunPairs(policies, run, f, g);
    }
    ViewIsView(s);
    forall x, y | Chain.Link(docs, x, y) ensures docs[x].version == docs[y].version + 1 {
      var f :| f in s.meta && s.meta[f].documentId == x;
      var g :| g in s.meta && s.meta[g].documentId == y;
      RunPairs(policies, run, f, g);
    }
  }

  ghost function Owner(meta: map<string, Meta>, id: string): string
    requires exists f :: f in meta && meta[f].documentId == id
  {
    var f :| f in meta && meta[f].documentId == id; f
  }

  ghost function View(meta: map<string, Meta>): Chain.Docs {
    map id | id in (set f | f in meta :: meta[f].documentId) ::
      Chain.Node(meta[Owner(meta, id)].version, meta[Owner(meta, id)].supersedes)
  }

  lemma ViewIsView(s: State)
    requires forall f, g :: f in s.meta && g in s.meta && s.meta[f].documentId == s.meta[g].documentId ==> f == g
    ensures IsView(s, View(s.meta))
  {
  }
}
