/** The rewriting loops of the two service-book scripts, with their changed flags, over the four stored
    collections. */
module ServiceBookCutover {
  import opened Prelude
  import opened Text
  import opened ServiceBookRewrites

  /** `_rename_mapping_fields`. */
  method RenameMappingFields(v: Value) returns (r: Value, changed: bool)
    ensures r == RenamedIn(v)
    ensures changed <==> r != v
  {
    hide FieldRenames, Legacy, Canonical, Separate;
    if !v.Fields? { return v, false; }
    var t, m := FieldRenames(), v.fields;
    TablesAreSeparate();
    r := v;
    var n := m;
    changed := false;
    var i := 0;
    while i < |t|
      invariant 0 <= i <= |t|
      invariant n == RenamedBy(t[..i], m)
      invariant changed <==> exists j :: 0 <= j < i && t[j].legacy in m
    {
      RenameStep(t, m, i);
      if t[i].legacy in n {
        if t[i].canonical !in n {
          n := n[t[i].canonical := n[t[i].legacy]];
        }
        n := n - {t[i].legacy};
        changed := true;
      }
      i := i + 1;
    }
    assert t[..i] == t;
    LegacyThere(t, m);
    r := Fields(n);
  }

  lemma RenameStep(t: seq<Rename>, m: Document, i: nat)
    requires Separate(t) && i < |t|
    ensures t[i].legacy in RenamedBy(t[..i], m) <==> t[i].legacy in m
    ensures var n, r := RenamedBy(t[..i], m), t[i];
      RenamedBy(t[..i + 1], m) == (
        if r.legacy !in n then n
        else if r.canonical in n then n - {r.legacy}
        else n[r.canonical := n[r.legacy]] - {r.legacy})
  {
    var before, k := t[..i], t[i].legacy;
    assert t[..i + 1][..i] == before;
    assert Separate(before) by { assert forall j :: 0 <= j < i ==> before[j] == t[j]; }
    RenamedLookup(before, m, k);
    assert Get(RenamedBy(before, m), k) == Get(m, k);
  }

  lemma LegacyThere(t: seq<Rename>, m: Document)
    requires Separate(t)
    ensures (exists j :: 0 <= j < |t| && t[j].legacy in m) <==> RenamedBy(t, m) != m
  {
    hide RenamedBy, Separate;
    RenameLaws(t, m);
    if exists j :: 0 <= j < |t| && t[j].legacy in m {
      var j :| 0 <= j < |t| && t[j].legacy in m;
      assert Legacy(t, t[j].legacy);
    }
  }

  /** `_rename_string_list`. */
  method RenameStringList(v: Value) returns (r: Value, changed: bool)
    ensures r == RenamedNames(v)
    ensures changed <==> r != v
  {
    hide FieldRenames, NewName, RenamedList;
    ListStart(FieldRenames());
    if !v.Texts? { return v, false; }
    var t, items := FieldRenames(), v.items;
    var seen: set<string>, renamed: seq<string> := {}, [];
    changed := false;
    var i := 0;
    while i < |items|
      invariant 0 <= i <= |items|
      invariant renamed == RenamedList(t, items[..i]) && |renamed| <= i
      invariant forall k :: k in seen <==> k in renamed
      invariant changed <==> renamed != items[..i]
    {
      var next := NewName(t, items[i]);
      ListStep(t, items, i);
      OneMore(renamed, items[..i], next, items[i]);
      changed := changed || next != items[i];
      if next in seen {
        changed := true;
      } else {
        seen := seen + {next};
        renamed := renamed + [next];
      }
      i := i + 1;
    }
    assert items[..i] == items;
    r := Texts(renamed);
  }

  lemma ListStart(t: seq<Rename>)
    ensures RenamedList(t, []) == []
  {
  }

  lemma ListStep(t: seq<Rename>, items: seq<string>, i: nat)
    requires i < |items|
    ensures items[..i + 1] == items[..i] + [items[i]]
    ensures RenamedList(t, items[..i + 1]) ==
      var before, k := RenamedList(t, items[..i]), NewName(t, items[i]); if k in before then before else before + [k]
  {
    assert items[..i + 1][..i] == items[..i];
  }

  lemma OneMore(a: seq<string>, b: seq<string>, x: string, y: string)
    requires |a| <= |b|
    ensures a + [x] == b + [y] <==> a == b && x == y
    ensures a != b + [y]
  {
    if a + [x] == b + [y] {
      assert (a + [x])[|a|] == (b + [y])[|b|];
      assert (a + [x])[..|a|] == (b + [y])[..|b|];
    }
  }

  /** `_rename_schema_key`. */
  method RenameSchemaKey(v: Value) returns (r: Value, changed: bool)
    ensures r == RenamedSchemaIn(v)
    ensures changed <==> r != v
  {
    r := v;
    if v.Atom? {
      var key := Trim(v.text);
      if key != "" && RenamedSchema(key).Some? { r := Atom(RenamedSchema(key).value); }
    }
    changed := r != v;
  }

  /** `_strip_removed_fields`. */
  method StripRemovedFields(v: Value) returns (r: Value, changed: bool)
    ensures r == StrippedIn(v)
    ensures changed <==> r != v
  {
    hide RemovedFields;
    if !v.Fields? { return v, false; }
    var n := v.fields;
    changed := false;
    var left := RemovedFields();
    while left != {}
      invariant left <= RemovedFields()
      invariant n == v.fields - (RemovedFields() - left)
      invariant changed <==> n != v.fields
      decreases left
    {
      var k :| k in left;
      assert v.fields - (RemovedFields() - left) - {k} == v.fields - (RemovedFields() - (left - {k}));
      if k in n {
        n := n - {k};
        changed := true;
        assert k in v.fields && k !in n;
      } else {
        assert n - {k} == n;
      }
      left := left - {k};
    }
    assert RemovedFields() - left == RemovedFields();
    r := Fields(n);
  }

  /** `_strip_removed_strings`. */
  method StripRemovedStrings(v: Value, removed: set<string>) returns (r: Value, changed: bool)
    ensures r == StrippedNames(removed, v)
    ensures changed <==> r != v
  {
    if !v.Texts? { return v, false; }
    var kept: seq<string> := [];
    var i := 0;
    while i < |v.items|
      invariant 0 <= i <= |v.items|
      invariant kept == StrippedList(removed, v.items[..i])
    {
      assert v.items[..i + 1][..i] == v.items[..i];
      if v.items[i] !in removed { kept := kept + [v.items[i]]; }
      i := i + 1;
    }
    assert v.items[..i] == v.items;
    StrippedListHolds(removed, v.items);
    return Texts(kept), |kept| != |v.items|;
  }

  lemma DocumentKeysDiffer()
    ensures "schema_key" != "payload" && "schema_key" != "fields_changed" && "payload" != "fields_changed"
    ensures "schema_keys" != "payload" && "schema_keys" != "fields_changed" && "part_iib" != "parts"
  {
    assert |"schema_key"| == 10 && |"payload"| == 7 && |"fields_changed"| == 14 && |"schema_keys"| == 11
      && |"part_iib"| == 8 && |"parts"| == 5;
  }

  function Put(f: (string, Value) -> Value, d: Document, k: string): Document {
    if k in d then d[k := f(k, d[k])] else d
  }

  /** A rewrite that looks into three fields does them one after another, and changes the document exactly
      when it changes one of them. */
  lemma PutThree(f: (string, Value) -> Value, d: Document, a: string, b: string, c: string)
    requires a != b && a != c && b != c && forall k, v :: k != a && k != b && k != c ==> f(k, v) == v
    ensures Put(f, Put(f, Put(f, d, a), b), c) == MapFields(f, d)
    ensures MapFields(f, d) == d <==>
      Put(f, d, a) == d && Put(f, Put(f, d, a), b) == Put(f, d, a)
        && Put(f, Put(f, Put(f, d, a), b), c) == Put(f, Put(f, d, a), b)
  {
    var x, y, z := Put(f, d, a), Put(f, Put(f, d, a), b), Put(f, Put(f, Put(f, d, a), b), c);
    forall k ensures Get(z, k) == if k in d then Some(f(k, d[k])) else None {}
    forall k ensures Get(MapFields(f, d), k) == Get(z, k) {}
    SameMaps(MapFields(f, d), z);
    if z == d {
      forall k ensures Get(x, k) == Get(d, k) && Get(y, k) == Get(d, k) { assert Get(z, k) == Get(d, k); }
      SameMaps(x, d);
      SameMaps(y, d);
    }
  }

  method MigrateField(d: Document, k: string) returns (next: Document, changed: bool)
    requires k in {"schema_key", "payload", "fields_changed"}
    ensures next == Put(RenamedField, d, k)
    ensures changed <==> next != d
  {
    hide RenamedIn, RenamedNames, RenamedSchemaIn;
    if k !in d { return d, false; }
    var v;
    if k == "schema_key" { v, changed := RenameSchemaKey(d[k]); }
    else if k == "payload" { v, changed := RenameMappingFields(d[k]); }
    else { v, changed := RenameStringList(d[k]); }
    next := if changed then d[k := v] else d;
    assert v == d[k] ==> d[k := v] == d;
  }

  /** `_migrate_service_book_document`. */
  method MigrateDocument(d: Document) returns (next: Document, changed: bool)
    ensures next == Migrated(d)
    ensures changed <==> next != d
  {
    hide FieldRenames, RenamedBy, RenamedField, Migrated;
    DocumentKeysDiffer();
    MigratedDiffers(d);
    var renamed, moved := RenameMappingFields(Fields(d));
    next := renamed.fields;
    PutThree(RenamedField, next, "schema_key", "payload", "fields_changed");
    var schema, payload, listed;
    next, schema := MigrateField(next, "schema_key");
    next, payload := MigrateField(next, "payload");
    next, listed := MigrateField(next, "fields_changed");
    changed := moved || schema || payload || listed;
  }

  /** The rewritten document differs if a name moved, and otherwise if a field did. */
  lemma MigratedDiffers(d: Document)
    ensures var m := RenamedBy(FieldRenames(), d);
      && Migrated(d) == MapFields(RenamedField, m)
      && (m != d ==> Migrated(d) != d)
    ensures forall k, v :: k != "schema_key" && k != "payload" && k != "fields_changed" ==> RenamedField(k, v) == v
  {
    hide FieldRenames, RenamedBy, Legacy, Canonical, Separate;
    TablesAreSeparate();
    RenameLaws(FieldRenames(), d);
    if RenamedBy(FieldRenames(), d) != d {
      var k :| k in d && Legacy(FieldRenames(), k);
      assert k !in Migrated(d);
    }
  }

  datatype Action = Delete | Replace(next: Document) | Keep

  method CleanupField(d: Document, k: string) returns (next: Document, changed: bool)
    requires k in {"payload", "fields_changed", "schema_keys"}
    ensures next == Put(StrippedField, d, k)
    ensures changed <==> next != d
  {
    hide StrippedIn, StrippedNames, RemovedFields, RemovedSchemas;
    if k !in d { return d, false; }
    var v;
    if k == "payload" { v, changed := StripRemovedFields(d[k]); }
    else if k == "fields_changed" { v, changed := StripRemovedStrings(d[k], RemovedFields()); }
    else { v, changed := StripRemovedStrings(d[k], RemovedSchemas()); }
    next := if changed then d[k := v] else d;
    assert v == d[k] ==> d[k := v] == d;
  }

  /** `_cleanup_service_book_document`. */
  method CleanupDocument(d: Document) returns (action: Action)
    ensures action == match CleanedUp(d) case None => Delete case Some(c) => if c == d then Keep else Replace(c)
  {
    hide RemovedFields, RemovedSchemas, StrippedField, Stripped;
    DocumentKeysDiffer();
    if "schema_key" in d && d["schema_key"].Atom? && Upper(Trim(d["schema_key"].text)) in RemovedSchemas() {
      return Delete;
    }
    StrippedDiffers(d);
    var stripped, dropped := StripRemovedFields(Fields(d));
    var next := stripped.fields;
    PutThree(StrippedField, next, "payload", "fields_changed", "schema_keys");
    var payload, listed, schemas;
    next, payload := CleanupField(next, "payload");
    next, listed := CleanupField(next, "fields_changed");
    next, schemas := CleanupField(next, "schema_keys");
    return if dropped || payload || listed || schemas then Replace(next) else Keep;
  }

  lemma StrippedDiffers(d: Document)
    ensures Stripped(d) == MapFields(StrippedField, d - RemovedFields())
    ensures d - RemovedFields() != d ==> Stripped(d) != d
    ensures forall k, v :: k != "payload" && k != "fields_changed" && k != "schema_keys" ==> StrippedField(k, v) == v
  {
    hide RemovedFields, RemovedSchemas, StrippedIn, StrippedNames;
    var m := d - RemovedFields();
    assert m != d ==> m.Keys != d.Keys by { assert m.Keys == d.Keys ==> m == d; }
    assert Stripped(d).Keys == m.Keys;
  }

  // ---- Opening documents -----------------------------------------------------------------------

  /** `part_iib` of a document, when it has one. */
  method RewritePart(d: Document, removing: bool) returns (next: Document, changed: bool)
    ensures next == Put(InPart(if removing then StrippedIn else RenamedIn), d, "part_iib")
    ensures changed <==> next != d
  {
    hide RenamedIn, StrippedIn;
    if "part_iib" !in d { return d, false; }
    var v;
    if removing {
      v, changed := StripRemovedFields(d["part_iib"]);
    } else {
      v, changed := RenameMappingFields(d["part_iib"]);
    }
    next := if changed then d["part_iib" := v] else d;
    assert v == d["part_iib"] ==> d["part_iib" := v] == d;
  }

  lemma PutOne(f: Value -> Value, d: Document)
    ensures Put(InPart(f), d, "part_iib") == MapFields(InPart(f), d)
  {
    forall k ensures Get(Put(InPart(f), d, "part_iib"), k) == Get(MapFields(InPart(f), d), k) {}
    SameMaps(Put(InPart(f), d, "part_iib"), MapFields(InPart(f), d));
  }

  lemma PutParts(f: Value -> Value, d: Document)
    ensures var x := Put(InPart(f), d, "part_iib");
      && (("parts" in d) <==> ("parts" in x)) && ("parts" in d ==> x["parts"] == d["parts"])
      && Opening(f, d) == Put(InOpening(f), x, "parts")
      && (Opening(f, d) == d <==> x == d && Put(InOpening(f), x, "parts") == x)
  {
    DocumentKeysDiffer();
    var x := Put(InPart(f), d, "part_iib");
    var y := Put(InOpening(f), x, "parts");
    forall k ensures Get(y, k) == Get(Opening(f, d), k) {}
    SameMaps(y, Opening(f, d));
    if y == d {
      forall k ensures Get(x, k) == Get(d, k) { assert Get(y, k) == Get(d, k); }
      SameMaps(x, d);
    }
  }

  /** `_migrate_opening_document` and `_cleanup_opening_document`. */
  method RewriteOpening(d: Document, removing: bool) returns (next: Document, changed: bool)
    ensures next == Opening(if removing then StrippedIn else RenamedIn, d)
    ensures changed <==> next != d
  {
    hide RenamedIn, StrippedIn, Opening, InPart;
    ghost var f := if removing then StrippedIn else RenamedIn;
    PutParts(f, d);
    next, changed := RewritePart(d, removing);
    if "parts" in next && next["parts"].Fields? {
      var parts, nested := RewritePart(next["parts"].fields, removing);
      PutOne(f, next["parts"].fields);
      ghost var before := next;
      assert InOpening(f)("parts", next["parts"]) == Fields(parts) by { DocumentKeysDiffer(); }
      if nested {
        next, changed := next["parts" := Fields(parts)], true;
      } else {
        assert next["parts" := Fields(parts)] == next;
      }
    } else if "parts" in next {
      assert InOpening(f)("parts", next["parts"]) == next["parts"] by { DocumentKeysDiffer(); }
      assert next["parts" := next["parts"]] == next;
    }
  }

  // ---- Collections --------------------------------------------------------------------------------

  type Collection = map<string, Document>

  function MigratedAs(opening: bool, d: Document): Document {
    if opening then Opening(RenamedIn, d) else Migrated(d)
  }

  function CleanedAs(opening: bool, d: Document): Option<Document> {
    if opening then Some(Opening(StrippedIn, d)) else CleanedUp(d)
  }

  function AllMigrated(opening: bool, c: Collection): Collection {
    map id | id in c :: MigratedAs(opening, c[id])
  }

  function AllCleaned(opening: bool, c: Collection): Collection {
    map id | id in c && CleanedAs(opening, c[id]).Some? :: CleanedAs(opening, c[id]).value
  }

  function Migrating(opening: bool, c: Collection): set<string> {
    set id | id in c && MigratedAs(opening, c[id]) != c[id]
  }

  function Deleting(opening: bool, c: Collection): set<string> {
    set id | id in c && CleanedAs(opening, c[id]).None?
  }

  function Replacing(opening: bool, c: Collection): set<string> {
    set id | id in c && CleanedAs(opening, c[id]).Some? && CleanedAs(opening, c[id]).value != c[id]
  }

  /** One collection in `migrate_service_book_pcf_cutover`. */
  method MigrateCollection(c: Collection, opening: bool, dryRun: bool)
      returns (r: Collection, wouldUpdate: nat, updated: nat)
    ensures r == if dryRun then c else AllMigrated(opening, c)
    ensures wouldUpdate == |Migrating(opening, c)| && updated == if dryRun then 0 else wouldUpdate
  {
    hide Migrated, Opening;
    r, wouldUpdate, updated := c, 0, 0;
    ghost var done: set<string> := {};
    ghost var hit: set<string> := {};
    var left := c.Keys;
    while left != {}
      invariant left <= c.Keys && r.Keys == c.Keys
      invariant forall id :: id in hit <==> id in c && id !in left && MigratedAs(opening, c[id]) != c[id]
      invariant forall id :: id in c ==> r[id] == if dryRun || id in left then c[id] else MigratedAs(opening, c[id])
      invariant wouldUpdate == |hit| && updated == if dryRun then 0 else wouldUpdate
      decreases left
    {
      var id :| id in left;
      var next, changed;
      if opening { next, changed := RewriteOpening(c[id], false); } else { next, changed := MigrateDocument(c[id]); }
      left := left - {id};
      if changed {
        hit := hit + {id};
        wouldUpdate := wouldUpdate + 1;
        if !dryRun {
          r := r[id := next];
          updated := updated + 1;
        }
      }
    }
    assert hit == Migrating(opening, c);
  }

  datatype CleanupCounts = CleanupCounts(wouldDelete: nat, deleted: nat, wouldUpdate: nat, updated: nat)

  /** The documents outside `left` have been cleaned up. */
  ghost predicate CleanedSoFar(opening: bool, c: Collection, r: Collection, left: set<string>) {
    && (forall id :: id in r <==> id in c && (id in left || CleanedAs(opening, c[id]).Some?))
    && (forall id :: id in r ==> r[id] == if id in left then c[id] else CleanedAs(opening, c[id]).value)
  }

  /** What has been counted. */
  ghost predicate CountedSoFar(opening: bool, c: Collection, left: set<string>, counts: CleanupCounts, dryRun: bool) {
    && counts.wouldDelete == |Deleting(opening, c) - left| && counts.wouldUpdate == |Replacing(opening, c) - left|
    && counts.deleted == (if dryRun then 0 else counts.wouldDelete)
    && counts.updated == (if dryRun then 0 else counts.wouldUpdate)
  }

  lemma OneFewerLeft(hit: set<string>, left: set<string>, id: string)
    requires id in left
    ensures |hit - (left - {id})| == |hit - left| + if id in hit then 1 else 0
  {
    assert hit - (left - {id}) == (hit - left) + if id in hit then {id} else {};
  }

  method CleanupOne(d: Document, opening: bool) returns (action: Action)
    ensures action ==
      match CleanedAs(opening, d) case None => Delete case Some(x) => if x == d then Keep else Replace(x)
  {
    hide CleanedUp, Opening;
    if opening {
      var next, changed := RewriteOpening(d, true);
      action := if changed then Replace(next) else Keep;
    } else {
      action := CleanupDocument(d);
    }
  }

  /** One document of the loop. */
  method CleanupNext(d: Document, id: string, opening: bool, dryRun: bool, r: Collection, counts: CleanupCounts)
    returns (r': Collection, counts': CleanupCounts)
    ensures var x := CleanedAs(opening, d);
      && r' == (if dryRun || x == Some(d) then r else if x.None? then r - {id} else r[id := x.value])
      && counts'.wouldDelete == counts.wouldDelete + One(x.None?)
      && counts'.deleted == counts.deleted + One(x.None? && !dryRun)
      && counts'.wouldUpdate == counts.wouldUpdate + One(x.Some? && x != Some(d))
      && counts'.updated == counts.updated + One(x.Some? && x != Some(d) && !dryRun)
  {
    hide CleanedAs;
    r', counts' := r, counts;
    var action := CleanupOne(d, opening);
    match action {
      case Keep =>
      case Delete =>
        counts' := counts'.(wouldDelete := counts.wouldDelete + 1);
        if !dryRun {
          r' := r - {id};
          counts' := counts'.(deleted := counts.deleted + 1);
        }
      case Replace(next) =>
        counts' := counts'.(wouldUpdate := counts.wouldUpdate + 1);
        if !dryRun {
          r' := r[id := next];
          counts' := counts'.(updated := counts.updated + 1);
        }
    }
  }

  function One(b: bool): nat {
    if b then 1 else 0
  }

  /** One collection in `cleanup_service_book_msgegis_data`. */
  method CleanupCollection(c: Collection, opening: bool, dryRun: bool) returns (r: Collection, counts: CleanupCounts)
    ensures r == if dryRun then c else AllCleaned(opening, c)
    ensures counts.wouldDelete == |Deleting(opening, c)| && counts.wouldUpdate == |Replacing(opening, c)|
    ensures counts.deleted == |c| - |r| == if dryRun then 0 else counts.wouldDelete
    ensures counts.updated == if dryRun then 0 else counts.wouldUpdate
  {
    hide CleanedAs, CleanedSoFar, CountedSoFar;
    r, counts := c, CleanupCounts(0, 0, 0, 0);
    var left := c.Keys;
    NothingCleaned(opening, c, dryRun);
    while left != {}
      invariant left <= c.Keys && (if dryRun then r == c else CleanedSoFar(opening, c, r, left))
      invariant CountedSoFar(opening, c, left, counts, dryRun)
      decreases left
    {
      var id :| id in left;
      ghost var r0, counts0 := r, counts;
      r, counts := CleanupNext(c[id], id, opening, dryRun, r, counts);
      CountedNext(opening, c, left, id, counts0, counts, dryRun);
      if !dryRun { CleanedNext(opening, c, r0, r, left, id); }
      left := left - {id};
    }
    AllDone(opening, c, r, counts, dryRun);
  }

  lemma NothingCleaned(opening: bool, c: Collection, dryRun: bool)
    ensures CleanedSoFar(opening, c, c, c.Keys) && CountedSoFar(opening, c, c.Keys, CleanupCounts(0, 0, 0, 0), dryRun)
  {
    hide CleanedAs;
    assert Deleting(opening, c) - c.Keys == {} && Replacing(opening, c) - c.Keys == {};
  }

  lemma AllDone(opening: bool, c: Collection, r: Collection, counts: CleanupCounts, dryRun: bool)
    requires (if dryRun then r == c else CleanedSoFar(opening, c, r, {}))
      && CountedSoFar(opening, c, {}, counts, dryRun)
    ensures r == if dryRun then c else AllCleaned(opening, c)
    ensures counts.wouldDelete == |Deleting(opening, c)| && counts.wouldUpdate == |Replacing(opening, c)|
    ensures counts.deleted == |c| - |r| == if dryRun then 0 else counts.wouldDelete
    ensures counts.updated == if dryRun then 0 else counts.wouldUpdate
  {
    hide CleanedAs;
    assert Deleting(opening, c) - {} == Deleting(opening, c) && Replacing(opening, c) - {} == Replacing(opening, c);
    if !dryRun {
      assert r == AllCleaned(opening, c);
      CleanedSize(opening, c);
    }
  }

  lemma CleanedNext(opening: bool, c: Collection, r: Collection, r': Collection, left: set<string>, id: string)
    requires left <= c.Keys && id in left && CleanedSoFar(opening, c, r, left)
    requires var x := CleanedAs(opening, c[id]);
      r' == if x == Some(c[id]) then r else if x.None? then r - {id} else r[id := x.value]
    ensures CleanedSoFar(opening, c, r', left - {id})
  {
    hide CleanedAs;
  }

  lemma CountedNext(opening: bool, c: Collection, left: set<string>, id: string, n: CleanupCounts, n': CleanupCounts,
      dryRun: bool)
    requires left <= c.Keys && id in left && CountedSoFar(opening, c, left, n, dryRun)
    requires var x := CleanedAs(opening, c[id]);
      && n'.wouldDelete == n.wouldDelete + One(x.None?) && n'.deleted == n.deleted + One(x.None? && !dryRun)
      && n'.wouldUpdate == n.wouldUpdate + One(x.Some? && x != Some(c[id]))
      && n'.updated == n.updated + One(x.Some? && x != Some(c[id]) && !dryRun)
    ensures CountedSoFar(opening, c, left - {id}, n', dryRun)
  {
    hide CleanedAs;
    OneFewerLeft(Deleting(opening, c), left, id);
    OneFewerLeft(Replacing(opening, c), left, id);
    assert id in Deleting(opening, c) <==> CleanedAs(opening, c[id]).None?;
  }

  lemma CleanedSize(opening: bool, c: Collection)
    ensures |c| - |AllCleaned(opening, c)| == |Deleting(opening, c)|
  {
    hide CleanedAs;
    assert c.Keys == AllCleaned(opening, c).Keys + Deleting(opening, c);
  }

  /** A second run of either script finds nothing to write, and the order of the two does not matter. */
  lemma SecondRunsIdle(opening: bool, c: Collection)
    ensures Migrating(opening, AllMigrated(opening, c)) == {}
    ensures Deleting(opening, AllCleaned(opening, c)) == {} && Replacing(opening, AllCleaned(opening, c)) == {}
    ensures AllCleaned(opening, AllMigrated(opening, c)) == AllMigrated(opening, AllCleaned(opening, c))
  {
    hide Migrated, CleanedUp, Opening;
    forall d ensures MigratedAs(opening, MigratedAs(opening, d)) == MigratedAs(opening, d)
      && (CleanedAs(opening, d).Some? ==> CleanedAs(opening, CleanedAs(opening, d).value) == CleanedAs(opening, d))
      && CleanedAs(opening, MigratedAs(opening, d)) ==
        match CleanedAs(opening, d) case None => None case Some(x) => Some(MigratedAs(opening, x))
    {
      OpeningLaws(d);
      RewritesIdempotent(d);
      RewritesCommute(d);
    }
  }
}
