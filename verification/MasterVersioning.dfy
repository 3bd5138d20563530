/** Versioned master data. Create, update and deprecate are multi-step requests that interleave
    freely; the unique (code, version) index is their only synchronisation. */
module MasterVersioning {
  import opened Prelude
  import opened Text

  type Metadata = map<string, string>

  datatype Content = Content(name: string, description: Option<string>, metadata: Metadata)

  datatype Record = Record(
    id: string, content: Content, isActive: bool, supersededBy: Option<string>, previousVersionId: Option<string>)

  /** The unique index: at most one record for a code and a version. */
  datatype Key = Key(code: string, version: nat)

  type Rows = map<Key, Record>

  datatype Patch =
    | Update(name: Option<string>, description: Option<string>, metadata: Option<Metadata>)
    | Deprecate(reason: string, actor: string, time: string)

  // ---- versioning_helpers.py: the record builders -----------------------------

  /** `normalize_master_record`: the description stands in for a missing name. */
  function ReadBack(code: string, c: Content): Option<Content> {
    var name := if c.name != "" then c.name else match c.description case Some(d) => d case None => "";
    if code == "" || name == "" then None else Some(c.(name := name))
  }

  function PatchedContent(c: Content, p: Patch): Content {
    match p
    case Update(name, description, metadata) =>
      Content(
        match name { case Some(n) => if Trim(n) != "" then Trim(n) else c.name case None => c.name },
        match description { case Some(d) => Some(Trim(d)) case None => c.description },
        match metadata { case Some(m) => c.metadata + m case None => c.metadata })
    case Deprecate(reason, actor, time) =>
      c.(metadata := c.metadata + map["is_deprecated" := "True", "deprecated_at" := time,
        "deprecated_by" := actor, "deprecation_reason" := reason])
  }

  function InitialRecord(id: string, c: Content): Record {
    Record(id, c, true, None, None)
  }

  function NextRecord(id: string, current: Record, p: Patch): Record {
    Record(id, PatchedContent(current.content, p), true, None, Some(current.id))
  }

  function Superseded(r: Record, newId: string): Record {
    r.(isActive := false, supersededBy := Some(newId))
  }

  // ---- The sequential meaning of a code's history ------------------------------

  datatype Op = Create(content: Content) | Revise(patch: Patch)

  /** The content that the operations give when they run one after another. */
  function Replay(code: string, ops: seq<Op>): Option<Content> {
    if ops == [] then None
    else
      match ops[|ops| - 1]
      case Create(c) => if |ops| == 1 then Some(c) else None
      case Revise(p) =>
        match Replay(code, ops[..|ops| - 1])
        case None => None
        case Some(c) => match ReadBack(code, c) { case None => None case Some(b) => Some(PatchedContent(b, p)) }
  }

  // ---- The step system -----------------------------------------------------------

  /** A request between its awaited steps. `current` is the record as read. */
  datatype Writer =
    | Idle
    | Creating(code: string, content: Content)
    | HasRead(code: string, version: nat, current: Record, patch: Patch)
    | HasInserted(code: string, version: nat, newId: string)

  /** The last three are history: the successful operations of each code in order of insertion, the versions
      that a live writer still has to supersede, and those whose writer died before doing so. */
  datatype State = State(
    rows: Rows, writers: map<nat, Writer>, log: map<string, seq<Op>>, owed: map<Key, nat>, abandoned: set<Key>)

  datatype Action =
    | CheckAbsent(w: nat, code: string, content: Content)
    | InsertFirst(w: nat, id: string)
    | ReadNewest(w: nat, code: string, version: nat, patch: Patch)
    | InsertNext(w: nat, id: string)
    | Supersede(w: nat)
    | Crash(w: nat)

  function WriterOf(s: State, w: nat): Writer {
    if w in s.writers then s.writers[w] else Idle
  }

  function LogOf(s: State, code: string): seq<Op> {
    if code in s.log then s.log[code] else []
  }

  predicate ActiveAt(rows: Rows, code: string, v: nat) {
    Key(code, v) in rows && rows[Key(code, v)].isActive
  }

  /** `find_one(active, sort=[("version", -1), ...])`. */
  ghost predicate NewestActive(rows: Rows, code: string, v: nat) {
    ActiveAt(rows, code, v) && forall u: nat :: ActiveAt(rows, code, u) ==> u <= v
  }

  ghost predicate FreshId(rows: Rows, id: string) {
    forall k :: k in rows ==> rows[k].id != id
  }

  function SetWriter(s: State, w: nat, v: Writer): State {
    s.(writers := s.writers[w := v])
  }

  function Logged(s: State, code: string, op: Op): State {
    s.(log := s.log[code := LogOf(s, code) + [op]])
  }

  ghost function Step(s: State, a: Action): State {
    var me := WriterOf(s, a.w);
    match a
    case CheckAbsent(w, code, content) =>
      if me.Idle? && forall v: nat :: !ActiveAt(s.rows, code, v) then SetWriter(s, w, Creating(code, content)) else s
    case InsertFirst(w, id) =>
      if !me.Creating? || !FreshId(s.rows, id) then s
      else if Key(me.code, 1) in s.rows then SetWriter(s, w, Idle)
      else Logged(SetWriter(s, w, Idle), me.code,
        Create(me.content)).(rows := s.rows[Key(me.code, 1) := InitialRecord(id, me.content)])
    case ReadNewest(w, code, v, patch) =>
      if me.Idle? && NewestActive(s.rows, code, v) && ReadBack(code, s.rows[Key(code, v)].content).Some? then
        var r := s.rows[Key(code, v)];
        SetWriter(s, w, HasRead(code, v, r.(content := ReadBack(code, r.content).value), patch))
      else s
    case InsertNext(w, id) =>
      if !me.HasRead? || !FreshId(s.rows, id) then s
      else if Key(me.code, me.version + 1) in s.rows then SetWriter(s, w, Idle)
      else
        Logged(SetWriter(s, w, HasInserted(me.code, me.version, id)), me.code, Revise(me.patch)).(
          rows := s.rows[Key(me.code, me.version + 1) := NextRecord(id, me.current, me.patch)],
          owed := s.owed[Key(me.code, me.version) := w])
    case Supersede(w) =>
      if me.HasInserted? && Key(me.code, me.version) in s.rows then
        var k := Key(me.code, me.version);
        SetWriter(s, w, Idle).(rows := s.rows[k := Superseded(s.rows[k], me.newId)], owed := s.owed - {k})
      else s
    case Crash(w) =>
      if me.HasInserted? then
        var k := Key(me.code, me.version);
        SetWriter(s, w, Idle).(owed := s.owed - {k}, abandoned := s.abandoned + {k})
      else SetWriter(s, w, Idle)
  }

  ghost function Run(s: State, run: seq<Action>): State {
    if run == [] then s else Step(Run(s, run[..|run| - 1]), run[|run| - 1])
  }

  const INITIAL: State := State(map[], map[], map[], map[], {})

  // ---- The invariant ---------------------------------------------------------------

  function Next(k: Key): Key {
    Key(k.code, k.version + 1)
  }

  /** The successor of `k` is in, and its supersede step is still to come or was lost. */
  predicate Awaited(s: State, k: Key) {
    k in s.owed || k in s.abandoned
  }

  /** Versions are exactly 1..n, and the newest is active and open. */
  ghost predicate VersionsContiguous(s: State, code: string) {
    var n := |LogOf(s, code)|;
    && (forall v: nat :: Key(code, v) in s.rows <==> 1 <= v <= n)
    && (n >= 1 ==> s.rows[Key(code, n)].isActive && s.rows[Key(code, n)].supersededBy == None)
  }

  ghost predicate ContentReplays(s: State, k: Key) {
    k in s.rows && k.version <= |LogOf(s, k.code)| ==>
      Replay(k.code, LogOf(s, k.code)[..k.version]) == Some(s.rows[k].content)
  }

  /** Links between neighbours, and which older versions are still active. */
  ghost predicate Linked(s: State, k: Key) {
    && (k in s.rows && Next(k) in s.rows ==>
          && s.rows[Next(k)].previousVersionId == Some(s.rows[k].id)
          && (s.rows[k].isActive <==> Awaited(s, k))
          && (s.rows[k].isActive ==> s.rows[k].supersededBy == None)
          && (!s.rows[k].isActive ==> s.rows[k].supersededBy == Some(s.rows[Next(k)].id)))
    && (Awaited(s, k) ==> k in s.rows && Next(k) in s.rows)
  }

  ghost predicate WriterSound(s: State, w: nat) {
    match WriterOf(s, w)
    case Idle => true
    case Creating(_, _) => true
    case HasRead(code, version, current, _) =>
      Key(code, version) in s.rows && current.id == s.rows[Key(code, version)].id
      && ReadBack(code, s.rows[Key(code, version)].content) == Some(current.content)
    case HasInserted(code, version, newId) =>
      && Key(code, version) in s.owed && s.owed[Key(code, version)] == w
      && Key(code, version) in s.rows && Key(code, version + 1) in s.rows && s.rows[Key(code, version + 1)].id == newId
  }

  /** What is owed is owed by a writer standing between its insert and its supersede step. */
  ghost predicate OwedSound(s: State, k: Key) {
    k in s.owed ==>
      var v := WriterOf(s, s.owed[k]);
      k !in s.abandoned && v.HasInserted? && v.code == k.code && v.version == k.version
  }

  ghost predicate Invariant(s: State) {
    && (forall c :: VersionsContiguous(s, c))
    && (forall k :: ContentReplays(s, k))
    && (forall k :: Linked(s, k))
    && (forall w :: WriterSound(s, w))
    && (forall k :: OwedSound(s, k))
  }

  // ---- Preservation ------------------------------------------------------------------

  /** A step that moves one writer, which owes nothing before and after. */
  lemma WriterOnly(s: State, w: nat, v: Writer)
    requires Invariant(s) && !WriterOf(s, w).HasInserted? && !v.HasInserted? && WriterSound(SetWriter(s, w, v), w)
    ensures Invariant(SetWriter(s, w, v))
  {
    var t := SetWriter(s, w, v);
    forall c ensures VersionsContiguous(t, c) { assert VersionsContiguous(s, c) && LogOf(t, c) == LogOf(s, c); }
    forall k ensures ContentReplays(t, k) { assert ContentReplays(s, k) && LogOf(t, k.code) == LogOf(s, k.code); }
    forall k ensures Linked(t, k) { assert Linked(s, k); }
    forall u ensures WriterSound(t, u) { if u != w { assert WriterSound(s, u) && WriterOf(t, u) == WriterOf(s, u); } }
    forall k ensures OwedSound(t, k) { assert OwedSound(s, k); }
  }

  /** An insert of the next version of one code, whoever owes what afterwards. */
  lemma Inserted(s: State, t: State, code: string, op: Op, r: Record)
    requires VersionsContiguous(s, code) && (forall k :: ContentReplays(s, k))
    requires var n := |LogOf(s, code)|;
      && t.rows == s.rows[Key(code, n + 1) := r] && t.log == s.log[code := LogOf(s, code) + [op]]
      && r.isActive && r.supersededBy == None && Replay(code, LogOf(s, code) + [op]) == Some(r.content)
    ensures VersionsContiguous(t, code) && forall k :: ContentReplays(t, k)
  {
    var log := LogOf(s, code);
    assert LogOf(t, code) == log + [op];
    forall k ensures ContentReplays(t, k) {
      assert ContentReplays(s, k);
      if k == Key(code, |log| + 1) {
        assert LogOf(t, code)[..k.version] == log + [op];
      } else if k.code == code && k in s.rows {
        assert k == Key(code, k.version);
        assert LogOf(t, code)[..k.version] == log[..k.version];
      } else {
        assert k.code != code ==> LogOf(t, k.code) == LogOf(s, k.code);
      }
    }
  }

  lemma OthersContiguous(s: State, t: State, code: string, k: Key, r: Record)
    requires forall c :: VersionsContiguous(s, c)
    requires t.rows == s.rows[k := r] && k.code == code && forall c :: c != code ==> LogOf(t, c) == LogOf(s, c)
    ensures forall c :: c != code ==> VersionsContiguous(t, c)
  {
    forall c | c != code ensures VersionsContiguous(t, c) { assert VersionsContiguous(s, c); }
  }

  lemma InsertedFirst(s: State, w: nat, id: string)
    requires Invariant(s) && WriterOf(s, w).Creating? && FreshId(s.rows, id) && Key(WriterOf(s, w).code, 1) !in s.rows
    ensures Invariant(Step(s, InsertFirst(w, id)))
  {
    var me := WriterOf(s, w);
    var t := Step(s, InsertFirst(w, id));
    var op, r, first := Create(me.content), InitialRecord(id, me.content), Key(me.code, 1);
    assert VersionsContiguous(s, me.code);
    assert LogOf(s, me.code) == [];
    assert [op] == LogOf(s, me.code) + [op];
    Inserted(s, t, me.code, op, r);
    OthersContiguous(s, t, me.code, first, r);
    forall k ensures Linked(t, k) {
      assert Linked(s, k);
      assert Next(k) != first || k !in s.rows;
      assert Key(me.code, 2) !in s.rows;
    }
    forall u ensures WriterSound(t, u) { assert WriterSound(s, u); assert u != w ==> WriterOf(t, u) == WriterOf(s, u); }
    forall k ensures OwedSound(t, k) { assert OwedSound(s, k); }
  }

  /** What an accepted insert of the next version does. */
  lemma InsertFromRead(s: State, w: nat, id: string)
    requires WriterOf(s, w).HasRead? && FreshId(s.rows, id)
      && Next(Key(WriterOf(s, w).code, WriterOf(s, w).version)) !in s.rows
    ensures var me := WriterOf(s, w);
      Step(s, InsertNext(w, id)) ==
        State(s.rows[Next(Key(me.code, me.version)) := NextRecord(id, me.current, me.patch)],
              s.writers[w := HasInserted(me.code, me.version, id)],
              s.log[me.code := LogOf(s, me.code) + [Revise(me.patch)]],
              s.owed[Key(me.code, me.version) := w],
              s.abandoned)
  {
  }

  /** A successful insert extends the version that is then the newest. */
  lemma ReadIsNewest(s: State, w: nat)
    requires Invariant(s) && WriterOf(s, w).HasRead?
      && Next(Key(WriterOf(s, w).code, WriterOf(s, w).version)) !in s.rows
    ensures WriterOf(s, w).version == |LogOf(s, WriterOf(s, w).code)|
    ensures !Awaited(s, Key(WriterOf(s, w).code, WriterOf(s, w).version))
  {
    var me := WriterOf(s, w);
    assert VersionsContiguous(s, me.code) && WriterSound(s, w) && Linked(s, Key(me.code, me.version));
  }

  lemma InsertedNextLinks(s: State, t: State, w: nat, id: string)
    requires Invariant(s) && WriterOf(s, w).HasRead? && FreshId(s.rows, id)
    requires Next(Key(WriterOf(s, w).code, WriterOf(s, w).version)) !in s.rows && t == Step(s, InsertNext(w, id))
    ensures forall k :: Linked(t, k)
  {
    var me := WriterOf(s, w);
    var mine := Key(me.code, me.version);
    InsertFromRead(s, w, id);
    ReadIsNewest(s, w);
    assert VersionsContiguous(s, me.code) && WriterSound(s, w);
    assert s.rows[mine].isActive && s.rows[mine].supersededBy == None;
    assert Next(Next(mine)) !in s.rows by { assert Key(me.code, me.version + 2) !in s.rows; }
    forall k ensures Linked(t, k) {
      assert Linked(s, k);
      assert k != mine ==> Next(k) != Next(mine);
    }
  }

  lemma ReplayRevision(code: string, log: seq<Op>, p: Patch)
    requires Replay(code, log).Some? && ReadBack(code, Replay(code, log).value).Some?
    ensures Replay(code, log + [Revise(p)]) == Some(PatchedContent(ReadBack(code, Replay(code, log).value).value, p))
  {
    assert (log + [Revise(p)])[..|log|] == log;
  }

  lemma ReplayOfInsert(s: State, w: nat)
    requires Invariant(s) && WriterOf(s, w).HasRead?
      && Next(Key(WriterOf(s, w).code, WriterOf(s, w).version)) !in s.rows
    ensures var me := WriterOf(s, w);
      Replay(me.code, LogOf(s, me.code) + [Revise(me.patch)]) == Some(PatchedContent(me.current.content, me.patch))
  {
    var me := WriterOf(s, w);
    ReadIsNewest(s, w);
    assert WriterSound(s, w) && ContentReplays(s, Key(me.code, me.version));
    assert LogOf(s, me.code)[..me.version] == LogOf(s, me.code);
    ReplayRevision(me.code, LogOf(s, me.code), me.patch);
  }

  lemma InsertedNextContents(s: State, t: State, w: nat, id: string)
    requires Invariant(s) && WriterOf(s, w).HasRead? && FreshId(s.rows, id)
    requires Next(Key(WriterOf(s, w).code, WriterOf(s, w).version)) !in s.rows && t == Step(s, InsertNext(w, id))
    ensures (forall c :: VersionsContiguous(t, c)) && forall k :: ContentReplays(t, k)
  {
    var me := WriterOf(s, w);
    InsertFromRead(s, w, id);
    ReadIsNewest(s, w);
    ReplayOfInsert(s, w);
    Inserted(s, t, me.code, Revise(me.patch), NextRecord(id, me.current, me.patch));
    OthersContiguous(s, t, me.code, Key(me.code, me.version + 1), NextRecord(id, me.current, me.patch));
  }

  lemma InsertedNext(s: State, w: nat, id: string)
    requires Invariant(s) && WriterOf(s, w).HasRead? && FreshId(s.rows, id)
    requires Next(Key(WriterOf(s, w).code, WriterOf(s, w).version)) !in s.rows
    ensures Invariant(Step(s, InsertNext(w, id)))
  {
    var me := WriterOf(s, w);
    var t := Step(s, InsertNext(w, id));
    InsertedNextContents(s, t, w, id);
    InsertedNextLinks(s, t, w, id);
    InsertFromRead(s, w, id);
    ReadIsNewest(s, w);
    forall u ensures WriterSound(t, u) { assert WriterSound(s, u); assert u != w ==> WriterOf(t, u) == WriterOf(s, u); }
    forall k ensures OwedSound(t, k) { assert OwedSound(s, k); }
  }

  /** A step of the writer that owes `k`: it supersedes `k`, or dies and leaves it. */
  lemma Settled(s: State, w: nat, a: Action)
    requires Invariant(s) && WriterOf(s, w).HasInserted? && (a == Supersede(w) || a == Crash(w))
    ensures Invariant(Step(s, a))
  {
    var me := WriterOf(s, w);
    var t := Step(s, a);
    var mine := Key(me.code, me.version);
    assert WriterSound(s, w) && OwedSound(s, mine) && Linked(s, mine) && VersionsContiguous(s, me.code);
    assert mine.version < |LogOf(s, me.code)| by { assert Key(me.code, me.version + 1) in s.rows; }
    forall c ensures VersionsContiguous(t, c) { assert VersionsContiguous(s, c) && LogOf(t, c) == LogOf(s, c); }
    forall k ensures ContentReplays(t, k) { assert ContentReplays(s, k) && LogOf(t, k.code) == LogOf(s, k.code); }
    forall k ensures Linked(t, k) { assert Linked(s, k); }
    forall u ensures WriterSound(t, u) {
      assert WriterSound(s, u);
      assert u != w ==> WriterOf(t, u) == WriterOf(s, u);
    }
    forall k ensures OwedSound(t, k) { assert OwedSound(s, k); }
  }

  lemma StepKeeps(s: State, a: Action)
    requires Invariant(s)
    ensures Invariant(Step(s, a))
  {
    var me := WriterOf(s, a.w);
    if Step(s, a) != s {
      match a {
        case CheckAbsent(w, code, content) => WriterOnly(s, w, Creating(code, content));
        case InsertFirst(w, id) =>
          if Key(me.code, 1) in s.rows { WriterOnly(s, w, Idle); } else { InsertedFirst(s, w, id); }
        case ReadNewest(w, code, v, patch) =>
          var r := s.rows[Key(code, v)];
          WriterOnly(s, w, HasRead(code, v, r.(content := ReadBack(code, r.content).value), patch));
        case InsertNext(w, id) =>
          if Key(me.code, me.version + 1) in s.rows { WriterOnly(s, w, Idle); } else { InsertedNext(s, w, id); }
        case Supersede(w) => Settled(s, w, a);
        case Crash(w) =>
          if me.HasInserted? { Settled(s, w, a); } else { WriterOnly(s, w, Idle); }
      }
    }
  }

  lemma InitialInvariant()
    ensures Invariant(INITIAL)
  {
    assert forall c :: LogOf(INITIAL, c) == [];
  }

  lemma {:induction false} RunKeeps(run: seq<Action>)
    ensures Invariant(Run(INITIAL, run))
  {
    if run == [] {
      InitialInvariant();
    } else {
      RunKeeps(run[..|run| - 1]);
      StepKeeps(Run(INITIAL, run[..|run| - 1]), run[|run| - 1]);
    }
  }

  // ---- What every run guarantees ---------------------------------------------------------

  /** Per code: versions 1..n, one per successful operation, and version n active. */
  lemma VersionsAreConsecutive(run: seq<Action>, code: string)
    ensures VersionsContiguous(Run(INITIAL, run), code)
  {
    RunKeeps(run);
  }

  /** Neighbouring versions link to each other, and the older one is active exactly while the supersede
      step is owed by a writer that has inserted the newer one, or was lost with that writer. */
  lemma NeighboursLinked(run: seq<Action>, code: string, v: nat)
    requires 1 <= v < |LogOf(Run(INITIAL, run), code)|
    ensures var s := Run(INITIAL, run); var k, next := Key(code, v), Key(code, v + 1);
      && k in s.rows && next in s.rows
      && s.rows[next].previousVersionId == Some(s.rows[k].id)
      && (!s.rows[k].isActive ==> s.rows[k].supersededBy == Some(s.rows[next].id))
      && (s.rows[k].isActive <==>
        k in s.abandoned || (k in s.owed && WriterOf(s, s.owed[k]) == HasInserted(code, v, s.rows[next].id)))
  {
    hide Run, ContentReplays, WriterSound, OwedSound;
    RunKeeps(run);
    var s := Run(INITIAL, run);
    var k := Key(code, v);
    assert VersionsContiguous(s, code);
    OwedMeansInserted(s, k);
    assert Linked(s, k);
  }

  lemma OwedMeansInserted(s: State, k: Key)
    requires Invariant(s)
    ensures k in s.owed ==>
      Next(k) in s.rows && WriterOf(s, s.owed[k]) == HasInserted(k.code, k.version, s.rows[Next(k)].id)
  {
    if k in s.owed { assert OwedSound(s, k) && WriterSound(s, s.owed[k]); }
  }

  /** Linearizable: the newest record is the sequential outcome of the operations in order of insertion. */
  lemma NewestIsSequentialOutcome(run: seq<Action>, code: string)
    requires LogOf(Run(INITIAL, run), code) != []
    ensures var s := Run(INITIAL, run); var log := LogOf(s, code);
      Key(code, |log|) in s.rows && Replay(code, log) == Some(s.rows[Key(code, |log|)].content)
  {
    RunKeeps(run);
    var s := Run(INITIAL, run);
    var log := LogOf(s, code);
    assert VersionsContiguous(s, code) && ContentReplays(s, Key(code, |log|));
    assert log[..|log|] == log;
  }

  /** A code has one active record if and only if no supersede step for it is owed or lost. */
  lemma OneActiveIffNothingAwaited(run: seq<Action>, code: string)
    ensures var s := Run(INITIAL, run); var n := |LogOf(s, code)|;
      (forall v: nat :: ActiveAt(s.rows, code, v) ==> v == n) <==> (forall v: nat :: !Awaited(s, Key(code, v)))
  {
    RunKeeps(run);
    var s := Run(INITIAL, run);
    assert VersionsContiguous(s, code);
    forall v: nat ensures Awaited(s, Key(code, v)) ==> ActiveAt(s.rows, code, v) && v < |LogOf(s, code)| {
      assert Linked(s, Key(code, v));
    }
    forall v: nat ensures ActiveAt(s.rows, code, v) && v != |LogOf(s, code)| ==> Awaited(s, Key(code, v)) {
      assert Linked(s, Key(code, v));
      assert Key(code, v) in s.rows ==> v <= |LogOf(s, code)|;
    }
  }

  /** Two requests that read the same version: the unique index lets one of them through. */
  lemma SecondInsertLoses(s: State, u: nat, w: nat, idU: string, idW: string)
    requires u != w && WriterOf(s, u).HasRead? && WriterOf(s, w).HasRead?
    requires WriterOf(s, u).code == WriterOf(s, w).code && WriterOf(s, u).version == WriterOf(s, w).version
    requires FreshId(s.rows, idU) && FreshId(s.rows, idW) && idU != idW
    ensures var t := Step(s, InsertNext(u, idU));
      WriterOf(Step(t, InsertNext(w, idW)), w) == Idle && Step(t, InsertNext(w, idW)).rows == t.rows
  {
    var t := Step(s, InsertNext(u, idU));
    assert WriterOf(t, w) == WriterOf(s, w);
    assert Key(WriterOf(s, u).code, WriterOf(s, u).version + 1) in t.rows;
    assert FreshId(t.rows, idW);
  }

  /** Identifiers are never shared, so the links name one record each. */
  lemma {:induction false} IdsStayUnique(run: seq<Action>, j: Key, k: Key)
    requires j in Run(INITIAL, run).rows && k in Run(INITIAL, run).rows && j != k
    ensures Run(INITIAL, run).rows[j].id != Run(INITIAL, run).rows[k].id
  {
    if run != [] {
      var s, a := Run(INITIAL, run[..|run| - 1]), run[|run| - 1];
      if j in s.rows && k in s.rows {
        IdsStayUnique(run[..|run| - 1], j, k);
      }
    }
  }

  // ---- What a revision changes ---------------------------------------------------------------

  /** A description shows as the name of a record without one. */
  predicate ShownName(c: Content, name: string) {
    if c.name != "" then name == c.name else if c.description.Some? then name == c.description.value else name == ""
  }

  /** `after` has the value `m` gives a key, and that of `before` for the keys that `m` does not have. */
  ghost predicate Overlaid(before: Metadata, m: Metadata, after: Metadata) {
    && (forall k :: k in m ==> k in after && after[k] == m[k])
    && (forall k :: k !in m ==> (k in after <==> k in before) && (k in before ==> after[k] == before[k]))
  }

  /** What a patch makes of a record, field by field. */
  ghost predicate Edited(before: Content, after: Content, p: Patch) {
    match p
    case Update(name, description, metadata) =>
      && (if name.Some? && Trim(name.value) != "" then after.name == Trim(name.value)
          else ShownName(before, after.name))
      && (if description.Some? then after.description == Some(Trim(description.value))
          else after.description == before.description)
      && (if metadata.Some? then Overlaid(before.metadata, metadata.value, after.metadata)
          else after.metadata == before.metadata)
    case Deprecate(reason, actor, time) =>
      && ShownName(before, after.name) && after.description == before.description
      && after.metadata.Keys ==
           before.metadata.Keys + {"is_deprecated", "deprecated_at", "deprecated_by", "deprecation_reason"}
      && after.metadata["is_deprecated"] == "True" && after.metadata["deprecated_at"] == time
      && after.metadata["deprecated_by"] == actor && after.metadata["deprecation_reason"] == reason
      && forall k ::
           k in before.metadata && k !in {"is_deprecated", "deprecated_at", "deprecated_by", "deprecation_reason"} ==>
             after.metadata[k] == before.metadata[k]
  }

  /** Which of these operations took the code from one version to the next. */
  lemma PatchEdits(code: string, c: Content, p: Patch)
    requires ReadBack(code, c).Some?
    ensures Edited(c, PatchedContent(ReadBack(code, c).value, p), p)
  {
    hide Trim;
  }

  /** A record can be read exactly when there is a name to show. */
  lemma ReadableIffNamed(code: string, c: Content)
    ensures ReadBack(code, c).Some? <==> code != "" && exists name :: name != "" && ShownName(c, name)
  {
    if ReadBack(code, c).Some? { assert ShownName(c, ReadBack(code, c).value.name); }
  }

  /** In every run the first version holds what was created, and each later one what the operation that
      inserted it makes of the version below, field by field. */
  lemma VersionsAreEdits(run: seq<Action>, code: string, v: nat)
    requires 1 <= v <= |LogOf(Run(INITIAL, run), code)|
    ensures var s := Run(INITIAL, run); var op := LogOf(s, code)[v - 1];
      && Key(code, v) in s.rows
      && (v == 1 ==> op == Create(s.rows[Key(code, 1)].content))
      && (v > 1 ==> op.Revise? && Key(code, v - 1) in s.rows
                    && Edited(s.rows[Key(code, v - 1)].content, s.rows[Key(code, v)].content, op.patch))
  {
    hide Run, PatchedContent, Edited, Linked, WriterSound, OwedSound;
    RunKeeps(run);
    var s, log := Run(INITIAL, run), LogOf(Run(INITIAL, run), code);
    assert VersionsContiguous(s, code) && ContentReplays(s, Key(code, v));
    assert log[..v][..v - 1] == log[..v - 1] && log[..v][v - 1] == log[v - 1];
    if v > 1 {
      assert ContentReplays(s, Key(code, v - 1));
      var before := s.rows[Key(code, v - 1)].content;
      if log[v - 1].Revise? { PatchEdits(code, before, log[v - 1].patch); }
    } else {
      var first := log[..1];
      assert first == [log[0]] && first[..0] == [] && Replay(code, []) == None;
      assert Replay(code, first) == Some(s.rows[Key(code, 1)].content);
    }
  }

  // ---- The router over one collection -------------------------------------------------------

  datatype Error = AlreadyExists | NotFound | BadShape | DuplicateKey

  /** `normalize_record_code`. */
  function NormalizeCode(code: string): string {
    Upper(Trim(code))
  }

  class MasterCollection {
    var rows: Rows
    ghost var log: map<string, seq<Op>>
    ghost var abandoned: set<Key>

    constructor ()
      ensures Between() == INITIAL
    {
      rows, log, abandoned := map[], map[], {};
    }

    /** The state between requests. */
    ghost function Between(): State
      reads this
    {
      State(rows, map[], log, map[], abandoned)
    }

    method FindNewestActive(code: string) returns (v: Option<nat>)
      ensures v.Some? ==> NewestActive(rows, code, v.value)
      ensures v.None? ==> forall u: nat :: !ActiveAt(rows, code, u)
      ensures v.Some? ==> Key(code, v.value) in rows && rows[Key(code, v.value)].isActive
      ensures forall k :: k in rows && k.code == code && rows[k].isActive ==> v.Some? && k.version <= v.value
    {
      v := None;
      var left := rows.Keys;
      while left != {}
        invariant left <= rows.Keys
        invariant v.Some? ==> ActiveAt(rows, code, v.value)
        invariant forall k :: k in rows && k !in left && k.code == code && rows[k].isActive ==>
          v.Some? && k.version <= v.value
        decreases left
      {
        var k :| k in left;
        if k.code == code && rows[k].isActive && (v.None? || v.value < k.version) {
          assert k == Key(code, k.version);
          v := Some(k.version);
        }
        left := left - {k};
      }
      forall u: nat | ActiveAt(rows, code, u) ensures v.Some? && u <= v.value {
        assert Key(code, u) in rows;
      }
    }

    /** `insert_one` under the unique index. */
    method InsertOne(k: Key, r: Record) returns (ok: bool)
      modifies this`rows
      ensures ok <==> k !in old(rows)
      ensures rows == if ok then old(rows)[k := r] else old(rows)
    {
      ok := k !in rows;
      if ok {
        rows := rows[k := r];
      }
    }

    /** Uninterrupted create: the check and the insert, as writer 0. */
    method CreateMasterRecord(rawCode: string, content: Content, id: string) returns (r: Result<nat, Error>)
      requires FreshId(rows, id)
      modifies this
      ensures var code := NormalizeCode(rawCode);
        if r.Ok?
          then Between() == Run(old(Between()), [CheckAbsent(0, code, content), InsertFirst(0, id)]).(writers := map[])
        else Between() == old(Between())
      ensures r.Ok? ==>
        LogOf(Between(), NormalizeCode(rawCode)) == LogOf(old(Between()), NormalizeCode(rawCode)) + [Create(content)]
      ensures r == Err(AlreadyExists) <==> exists v: nat :: ActiveAt(old(rows), NormalizeCode(rawCode), v)
      ensures r == Err(AlreadyExists) <==>
        exists k :: k in old(rows) && k.code == Upper(Trim(rawCode)) && old(rows)[k].isActive
      ensures r == Err(DuplicateKey) <==> r != Err(AlreadyExists) && Key(Upper(Trim(rawCode)), 1) in old(rows)
      ensures r.Ok? ==>
        r == Ok(1) && rows == old(rows)[Key(Upper(Trim(rawCode)), 1) := Record(id, content, true, None, None)]
    {
      var code := NormalizeCode(rawCode);
      ghost var start := Between();
      var existing := FindNewestActive(code);
      if existing.Some? {
        assert ActiveAt(rows, code, existing.value);
        return Err(AlreadyExists);
      }
      assert forall v: nat :: ActiveAt(rows, code, v) ==> Key(code, v) in rows;
      assert [CheckAbsent(0, code, content), InsertFirst(0, id)][..1] == [CheckAbsent(0, code, content)];
      ghost var none: seq<Action> := [];
      assert [CheckAbsent(0, code, content)][..0] == none && Run(start, none) == start;
      var ok := InsertOne(Key(code, 1), InitialRecord(id, content));
      if !ok {
        return Err(DuplicateKey);
      }
      log := log[code := LogOf(start, code) + [Create(content)]];
      return Ok(1);
    }

    /** Uninterrupted update or deprecation: read newest active, insert the next version, supersede. */
    method ReviseMasterRecord(rawCode: string, patch: Patch, id: string) returns (r: Result<nat, Error>)
      requires FreshId(rows, id)
      modifies this
      ensures var code := NormalizeCode(rawCode);
        if r.Ok?
          then r.value >= 1
            && Between() ==
              Run(old(Between()),
                [ReadNewest(0, code, r.value - 1, patch), InsertNext(0, id), Supersede(0)]).(writers := map[])
        else Between() == old(Between())
      ensures r == Err(NotFound) <==> forall v: nat :: !ActiveAt(old(rows), NormalizeCode(rawCode), v)
      ensures r == Err(NotFound) <==>
        forall k :: k in old(rows) && k.code == Upper(Trim(rawCode)) ==> !old(rows)[k].isActive
      ensures r.Ok? ==>
        var k, next := Key(Upper(Trim(rawCode)), r.value - 1), Key(Upper(Trim(rawCode)), r.value);
        && k in old(rows) && old(rows)[k].isActive && next !in old(rows) && next in rows
        && (forall j :: j in old(rows) && j.code == k.code && old(rows)[j].isActive ==> j.version <= k.version)
        && rows == old(rows)[next := rows[next]][k := old(rows)[k].(isActive := false, supersededBy := Some(id))]
        && rows[next].id == id && rows[next].isActive && rows[next].supersededBy == None
        && rows[next].previousVersionId == Some(old(rows)[k].id)
        && Edited(old(rows)[k].content, rows[next].content, patch)
      ensures r.Ok? ==>
        LogOf(Between(), NormalizeCode(rawCode)) == LogOf(old(Between()), NormalizeCode(rawCode)) + [Revise(patch)]
    {
      hide PatchedContent, Edited, Trim, ReadBack;
      var code := NormalizeCode(rawCode);
      ghost var start := Between();
      var newest := FindNewestActive(code);
      if newest.None? {
        return Err(NotFound);
      }
      var v := newest.value;
      var old_ := rows[Key(code, v)];
      var back := ReadBack(code, old_.content);
      if back.None? {
        assert ActiveAt(rows, code, v);
        return Err(BadShape);
      }
      var current := old_.(content := back.value);
      assert ActiveAt(rows, code, v);
      var ok := InsertOne(Key(code, v + 1), NextRecord(id, current, patch));
      if !ok {
        return Err(DuplicateKey);
      }
      log := log[code := LogOf(start, code) + [Revise(patch)]];
      rows := rows[Key(code, v) := Superseded(old_, id)];
      PatchEdits(code, old_.content, patch);
      ReviseIsRun(start, code, v, patch, id);
      return Ok(v + 1);
    }
  }

  /** The three steps of one uninterrupted revision. */
  ghost predicate Revised(s: State, t: State, code: string, v: nat, patch: Patch, id: string)
    requires Key(code, v) in s.rows && ReadBack(code, s.rows[Key(code, v)].content).Some?
  {
    var k, r := Key(code, v), s.rows[Key(code, v)];
    var next := NextRecord(id, r.(content := ReadBack(code, r.content).value), patch);
    && t.rows == s.rows[Next(k) := next][k := Superseded(r, id)]
    && t.log == s.log[code := LogOf(s, code) + [Revise(patch)]] && t.owed == map[] && t.abandoned == s.abandoned
  }

  lemma ReviseSteps(s: State, code: string, v: nat, patch: Patch, id: string)
    requires s.writers == map[] && s.owed == map[] && FreshId(s.rows, id) && NewestActive(s.rows, code, v)
    requires ReadBack(code, s.rows[Key(code, v)].content).Some? && Next(Key(code, v)) !in s.rows
    ensures Revised(s, Step(Step(Step(s, ReadNewest(0, code, v, patch)), InsertNext(0, id)), Supersede(0)), code, v,
      patch, id)
  {
    var k := Key(code, v);
    ReadStep(s, code, v, patch);
    var s1 := Step(s, ReadNewest(0, code, v, patch));
    InsertFromRead(s1, 0, id);
    var s2 := Step(s1, InsertNext(0, id));
    SupersedeStep(s2, code, v, id);
    assert s2.owed == map[k := 0] && s2.owed - {k} == map[];
  }

  lemma ReviseIsRun(s: State, code: string, v: nat, patch: Patch, id: string)
    requires s.writers == map[] && s.owed == map[] && FreshId(s.rows, id) && NewestActive(s.rows, code, v)
    requires ReadBack(code, s.rows[Key(code, v)].content).Some? && Next(Key(code, v)) !in s.rows
    ensures Revised(s, Run(s, [ReadNewest(0, code, v, patch), InsertNext(0, id), Supersede(0)]), code, v, patch, id)
  {
    RunThree(s, ReadNewest(0, code, v, patch), InsertNext(0, id), Supersede(0));
    ReviseSteps(s, code, v, patch, id);
  }

  lemma RunThree(s: State, a: Action, b: Action, c: Action)
    ensures Run(s, [a, b, c]) == Step(Step(Step(s, a), b), c)
  {
    var none: seq<Action> := [];
    assert [a, b, c][..2] == [a, b] && [a, b][..1] == [a] && [a][..0] == none;
    assert Run(s, none) == s;
    assert Run(s, [a]) == Step(s, a);
    assert Run(s, [a, b]) == Step(Step(s, a), b);
  }

  lemma ReadStep(s: State, code: string, v: nat, patch: Patch)
    requires WriterOf(s, 0).Idle? && NewestActive(s.rows, code, v) && ReadBack(code, s.rows[Key(code, v)].content).Some?
    ensures var r := s.rows[Key(code, v)];
      Step(s, ReadNewest(0, code, v, patch)) ==
        SetWriter(s, 0, HasRead(code, v, r.(content := ReadBack(code, r.content).value), patch))
  {
  }

  lemma SupersedeStep(s: State, code: string, v: nat, id: string)
    requires WriterOf(s, 0) == HasInserted(code, v, id) && Key(code, v) in s.rows
    ensures var k := Key(code, v); var t := Step(s, Supersede(0));
      t.rows == s.rows[k := Superseded(s.rows[k], id)] && t.log == s.log && t.owed == s.owed - {k}
        && t.abandoned == s.abandoned
  {
  }
}
