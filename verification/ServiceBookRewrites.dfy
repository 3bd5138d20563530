/** The two rewrites of stored service-book documents: the GPF to PCF renaming and the MSGEGIS removal. */
module ServiceBookRewrites {
  import opened Prelude
  import opened Text

  /** A stored value: text (or anything else that is no container), a list of strings, or a document. */
  datatype Value = Atom(text: string) | Texts(items: seq<string>) | Fields(fields: map<string, Value>)

  type Document = map<string, Value>

  datatype Rename = Rename(legacy: string, canonical: string)

  function PensionFields(): seq<string> {
    ["account_number", "nominee_name", "nominee_relation", "nominee_share_percent", "nomination", "nomination_date",
      "nominations"]
  }

  function FieldRenames(): seq<Rename> {
    seq(7, i requires 0 <= i < 7 => Rename("gpf_" + PensionFields()[i], "pcf_" + PensionFields()[i]))
  }

  function RemovedFields(): set<string> {
    {"msgegis_nomination", "msgegis_nomination_date", "msgegis_policy_number", "msgegis_records",
     "insurance_nominee_name", "insurance_nominee_relation", "insurance_nominee_share_percent", "insurance_nominations"}
  }

  function RenamedSchema(key: string): Option<string> {
    if key == "SB_IIB_GPF_NOMINATION_ROW" then Some("SB_IIB_PCF_NOMINATION_ROW")
    else if key == "SB_PART_IIB_GPF_NOMINATION_ROW" then Some("SB_PART_IIB_PCF_NOMINATION_ROW")
    else None
  }

  function RemovedSchemas(): set<string> {
    {"SB_IIB_MSGEGIS_NOMINATION_ROW", "SB_IIB_MSGEGIS_POLICY", "SB_VII_MSGEGIS_ROW",
     "SB_PART_IIB_MSGEGIS_NOMINATION_ROW", "SB_PART_IIB_MSGEGIS_POLICY", "SB_PART_VII_MSGEGIS_ROW"}
  }

  function Get(m: Document, k: string): Option<Value> {
    if k in m then Some(m[k]) else None
  }

  // ---- The renaming table ----------------------------------------------------------------

  predicate Legacy(t: seq<Rename>, k: string) {
    exists i :: 0 <= i < |t| && t[i].legacy == k
  }

  predicate Canonical(t: seq<Rename>, k: string) {
    exists i :: 0 <= i < |t| && t[i].canonical == k
  }

  /** No name occurs twice. */
  ghost predicate Separate(t: seq<Rename>) {
    && (forall i, j :: 0 <= i < j < |t| ==> t[i].legacy != t[j].legacy && t[i].canonical != t[j].canonical)
    && (forall i, j :: 0 <= i < |t| && 0 <= j < |t| ==> t[i].legacy != t[j].canonical)
  }

  /** The fields that the document rewrites look into. */
  function Handled(): set<string> {
    {"schema_key", "payload", "fields_changed", "schema_keys", "part_iib", "parts"}
  }

  lemma PensionFieldsDiffer()
    ensures |PensionFields()| == 7 && forall i, j :: 0 <= i < j < 7 ==> |PensionFields()[i]| != |PensionFields()[j]|
  {
    var p := PensionFields();
    assert |p[0]| == 14 && |p[1]| == 12 && |p[2]| == 16 && |p[3]| == 21 && |p[4]| == 10 && |p[5]| == 15 && |p[6]| == 11;
  }

  lemma RenameAt(i: nat)
    requires i < 7
    ensures var r := FieldRenames()[i];
      |r.legacy| == |r.canonical| == 4 + |PensionFields()[i]| && r.legacy[0] == 'g' && r.canonical[0] == 'p'
        && r.canonical[1] == 'c'
  {
    hide PensionFields;
  }

  lemma RenamesAreSeparate()
    ensures Separate(FieldRenames())
    ensures forall k :: Legacy(FieldRenames(), k) ==> |k| > 1 && k[0] == 'g'
    ensures forall k :: Canonical(FieldRenames(), k) ==> |k| > 1 && k[0] == 'p' && k[1] == 'c'
  {
    var t := FieldRenames();
    assert |t| == 7;
    hide PensionFields, FieldRenames;
    PensionFieldsDiffer();
    forall i | 0 <= i < 7 ensures |t[i].legacy| == |t[i].canonical| == 4 + |PensionFields()[i]|
      && t[i].legacy[0] == 'g' && t[i].canonical[0] == 'p' && t[i].canonical[1] == 'c'
    {
      RenameAt(i);
    }
  }

  lemma RemovedNames()
    ensures forall k :: k in RemovedFields() ==> |k| > 1 && (k[0] == 'm' || k[0] == 'i')
  {
  }

  lemma HandledNames()
    ensures forall k :: k in Handled() ==> |k| > 1 && (k[0] == 's' || k[0] == 'f' || (k[0] == 'p' && k[1] == 'a'))
  {
  }

  lemma TablesAreSeparate()
    ensures Separate(FieldRenames())
    ensures forall k :: k in RemovedFields() ==>
      !Legacy(FieldRenames(), k) && !Canonical(FieldRenames(), k) && k !in Handled()
    ensures forall k :: k in Handled() ==> !Legacy(FieldRenames(), k) && !Canonical(FieldRenames(), k)
  {
    hide FieldRenames, RemovedFields, Handled, Separate, Legacy, Canonical;
    RenamesAreSeparate();
    RemovedNames();
    HandledNames();
  }

  /** The renamed fields by name; each keeps what follows the first three letters. */
  lemma RenamesSay()
    ensures forall r :: r in FieldRenames() ==>
      |r.legacy| > 3 && r.legacy[..3] == "gpf" && r.canonical == "pcf" + r.legacy[3..]
    ensures forall k :: Legacy(FieldRenames(), k) <==>
      k in {"gpf_account_number", "gpf_nominee_name", "gpf_nominee_relation", "gpf_nominee_share_percent",
        "gpf_nomination",
        "gpf_nomination_date", "gpf_nominations"}
  {
    var t := FieldRenames();
    forall i | 0 <= i < 7 ensures t[i].legacy[..3] == "gpf" && t[i].canonical == "pcf" + t[i].legacy[3..] { TailAt(i); }
    NamesAt();
    assert forall k :: Legacy(t, k) <==> exists i :: 0 <= i < 7 && t[i].legacy == k;
  }

  lemma TailAt(i: nat)
    requires i < 7
    ensures var r := FieldRenames()[i];
      |r.legacy| > 3 && r.legacy[..3] == "gpf" && r.canonical == "pcf" + r.legacy[3..]
  {
    hide PensionFields;
    PensionFieldsDiffer();
    var name := PensionFields()[i];
    assert ("gpf_" + name)[..3] == "gpf" && ("gpf_" + name)[3..] == "_" + name;
    assert "pcf" + ("_" + name) == "pcf_" + name;
  }

  lemma NamesAt()
    ensures var t := FieldRenames();
      && t[0].legacy == "gpf_account_number" && t[1].legacy == "gpf_nominee_name"
      && t[2].legacy == "gpf_nominee_relation" && t[3].legacy == "gpf_nominee_share_percent"
      && t[4].legacy == "gpf_nomination" && t[5].legacy == "gpf_nomination_date" && t[6].legacy == "gpf_nominations"
  {
    PensionNames();
    JoinedNames();
    hide PensionFields;
  }

  lemma PensionNames()
    ensures var p := PensionFields();
      && |p| == 7 && p[0] == "account_number" && p[1] == "nominee_name" && p[2] == "nominee_relation"
      && p[3] == "nominee_share_percent" && p[4] == "nomination" && p[5] == "nomination_date" && p[6] == "nominations"
  {
  }

  lemma JoinedNames()
    ensures "gpf_" + "account_number" == "gpf_account_number" && "gpf_" + "nominee_name" == "gpf_nominee_name"
    ensures "gpf_" + "nominee_relation" == "gpf_nominee_relation" && "gpf_" + "nomination" == "gpf_nomination"
    ensures "gpf_" + "nominee_share_percent" == "gpf_nominee_share_percent"
    ensures "gpf_" + "nomination_date" == "gpf_nomination_date" && "gpf_" + "nominations" == "gpf_nominations"
  {
  }

  /** Two schema keys are renamed, PCF for GPF. */
  lemma SchemasSay(k: string)
    ensures RenamedSchema(k).Some? <==> k in {"SB_IIB_GPF_NOMINATION_ROW", "SB_PART_IIB_GPF_NOMINATION_ROW"}
    ensures RenamedSchema("SB_IIB_GPF_NOMINATION_ROW") == Some("SB_IIB_PCF_NOMINATION_ROW")
    ensures RenamedSchema("SB_PART_IIB_GPF_NOMINATION_ROW") == Some("SB_PART_IIB_PCF_NOMINATION_ROW")
  {
    assert "SB_IIB_GPF_NOMINATION_ROW"[3] == 'I' && "SB_PART_IIB_GPF_NOMINATION_ROW"[3] == 'P';
  }

  /** What is removed are the fields and schema keys of the insurance scheme. */
  lemma RemovedSay()
    ensures RemovedFields() ==
      {"msgegis_nomination", "msgegis_nomination_date", "msgegis_policy_number", "msgegis_records"}
      + {"insurance_nominee_name", "insurance_nominee_relation", "insurance_nominee_share_percent"}
      + {"insurance_nominations"}
    ensures RemovedSchemas() ==
      {"SB_IIB_MSGEGIS_NOMINATION_ROW", "SB_IIB_MSGEGIS_POLICY", "SB_VII_MSGEGIS_ROW"}
      + {"SB_PART_IIB_MSGEGIS_NOMINATION_ROW", "SB_PART_IIB_MSGEGIS_POLICY", "SB_PART_VII_MSGEGIS_ROW"}
  {
  }

  /** `_rename_mapping_fields`, pair after pair. */
  function RenamedBy(t: seq<Rename>, m: Document): Document {
    if t == [] then m
    else
      var n, r := RenamedBy(t[..|t| - 1], m), t[|t| - 1];
      if r.legacy !in n then n
      else if r.canonical in n then n - {r.legacy}
      else n[r.canonical := n[r.legacy]] - {r.legacy}
  }

  /** Where a renamed map finds its values: legacy names are gone, a canonical value that was there stays,
      and otherwise takes the value of its legacy name. */
  function RenamedGet(t: seq<Rename>, m: Document, k: string): Option<Value> {
    if Legacy(t, k) then None
    else if k in m then Some(m[k])
    else if Canonical(t, k) then Get(m, LegacyOf(t, k))
    else None
  }

  function LegacyOf(t: seq<Rename>, k: string): string
    requires Canonical(t, k)
  {
    if t[|t| - 1].canonical == k then t[|t| - 1].legacy else LegacyOf(t[..|t| - 1], k)
  }

  lemma NamesOfMore(t: seq<Rename>, k: string)
    requires t != []
    ensures Legacy(t, k) <==> Legacy(t[..|t| - 1], k) || t[|t| - 1].legacy == k
    ensures Canonical(t, k) <==> Canonical(t[..|t| - 1], k) || t[|t| - 1].canonical == k
  {
    var init := t[..|t| - 1];
    if Legacy(init, k) { var i :| 0 <= i < |init| && init[i].legacy == k; assert t[i].legacy == k; }
    if Canonical(init, k) { var i :| 0 <= i < |init| && init[i].canonical == k; assert t[i].canonical == k; }
    assert t[|t| - 1].legacy == k ==> Legacy(t, k);
    assert t[|t| - 1].canonical == k ==> Canonical(t, k);
    if Legacy(t, k) { var i :| 0 <= i < |t| && t[i].legacy == k; if i < |init| { assert init[i].legacy == k; } }
    if Canonical(t, k) {
      var i :| 0 <= i < |t| && t[i].canonical == k;
      if i < |init| { assert init[i].canonical == k; }
    }
  }

  lemma {:induction false} RenamedLookup(t: seq<Rename>, m: Document, k: string)
    requires Separate(t)
    ensures Get(RenamedBy(t, m), k) == RenamedGet(t, m, k)
  {
    if t != [] {
      var init, r := t[..|t| - 1], t[|t| - 1];
      RenamedLookup(init, m, k);
      RenamedLookup(init, m, r.legacy);
      RenamedLookup(init, m, r.canonical);
      NamesOfMore(t, k);
      NotBefore(t);
    }
  }

  lemma NotBefore(t: seq<Rename>)
    requires Separate(t) && t != []
    ensures var init, r := t[..|t| - 1], t[|t| - 1];
      !Legacy(init, r.legacy) && !Canonical(init, r.canonical) && !Legacy(init, r.canonical)
        && !Canonical(init, r.legacy)
  {
  }

  lemma SameMaps(a: Document, b: Document)
    requires forall k :: Get(a, k) == Get(b, k)
    ensures a == b
  {
    forall k ensures k in a <==> k in b { assert Get(a, k) == Get(b, k); }
    forall k | k in a ensures a[k] == b[k] { assert Get(a, k) == Get(b, k); }
  }

  lemma LegacyOfIsLegacy(t: seq<Rename>, k: string)
    requires Canonical(t, k)
    ensures Legacy(t, LegacyOf(t, k))
  {
    if t[|t| - 1].canonical == k {
      assert t[|t| - 1].legacy == LegacyOf(t, k);
    } else {
      NamesOfMore(t, k);
      LegacyOfIsLegacy(t[..|t| - 1], k);
      NamesOfMore(t, LegacyOf(t, k));
    }
  }

  /** Renaming twice is renaming once; something changes exactly when a legacy name is there. */
  lemma RenameLaws(t: seq<Rename>, m: Document)
    requires Separate(t)
    ensures RenamedBy(t, RenamedBy(t, m)) == RenamedBy(t, m)
    ensures forall k :: Legacy(t, k) ==> k !in RenamedBy(t, m)
    ensures RenamedBy(t, m) == m <==> forall k :: k in m ==> !Legacy(t, k)
  {
    hide RenamedBy;
    var n := RenamedBy(t, m);
    forall k ensures Get(n, k) == RenamedGet(t, m, k) && Get(RenamedBy(t, n), k) == RenamedGet(t, n, k) {
      RenamedLookup(t, m, k);
      RenamedLookup(t, n, k);
    }
    forall k ensures Get(RenamedBy(t, n), k) == Get(n, k) {
      if Canonical(t, k) { LegacyOfIsLegacy(t, k); assert Get(n, LegacyOf(t, k)) == None; }
    }
    SameMaps(RenamedBy(t, n), n);
    forall k | Legacy(t, k) ensures k !in n { assert Get(n, k) == None; }
    if forall k :: k in m ==> !Legacy(t, k) {
      forall k ensures Get(n, k) == Get(m, k) {
        if Canonical(t, k) { LegacyOfIsLegacy(t, k); }
      }
      SameMaps(n, m);
    }
  }

  /** Removing other names commutes with renaming. */
  lemma RenameStripCommute(t: seq<Rename>, m: Document, removed: set<string>)
    requires Separate(t) && forall k :: k in removed ==> !Legacy(t, k) && !Canonical(t, k)
    ensures RenamedBy(t, m - removed) == RenamedBy(t, m) - removed
  {
    hide RenamedBy;
    forall k ensures Get(RenamedBy(t, m - removed), k) == Get(RenamedBy(t, m) - removed, k) {
      RenamedLookup(t, m, k);
      RenamedLookup(t, m - removed, k);
      if Canonical(t, k) { LegacyOfIsLegacy(t, k); }
    }
    SameMaps(RenamedBy(t, m - removed), RenamedBy(t, m) - removed);
  }

  /** A canonical value that was there is kept; without one the legacy value moves to the canonical name. */
  lemma RenameKeeps(t: seq<Rename>, m: Document, i: nat)
    requires Separate(t) && i < |t|
    ensures Get(RenamedBy(t, m), t[i].canonical) ==
      if t[i].canonical in m then Some(m[t[i].canonical]) else Get(m, t[i].legacy)
    ensures forall k :: !Legacy(t, k) && !Canonical(t, k) ==> Get(RenamedBy(t, m), k) == Get(m, k)
  {
    hide RenamedBy;
    RenamedLookup(t, m, t[i].canonical);
    LegacyOfAt(t, i);
    forall k | !Legacy(t, k) && !Canonical(t, k) ensures Get(RenamedBy(t, m), k) == Get(m, k) {
      RenamedLookup(t, m, k);
    }
  }

  lemma {:induction false} LegacyOfAt(t: seq<Rename>, i: nat)
    requires Separate(t) && i < |t|
    ensures Canonical(t, t[i].canonical) && LegacyOf(t, t[i].canonical) == t[i].legacy && !Legacy(t, t[i].canonical)
  {
    if i < |t| - 1 {
      LegacyOfAt(t[..|t| - 1], i);
      NamesOfMore(t, t[i].canonical);
    }
  }

  // ---- Lists of field names -----------------------------------------------------------------

  /** `FIELD_RENAMES.get(value, value)`. */
  function NewName(t: seq<Rename>, k: string): string {
    if t == [] then k else if t[|t| - 1].legacy == k then t[|t| - 1].canonical else NewName(t[..|t| - 1], k)
  }

  lemma {:induction false} NewNameOf(t: seq<Rename>, k: string)
    ensures Legacy(t, k) ==> Canonical(t, NewName(t, k))
    ensures !Legacy(t, k) ==> NewName(t, k) == k
    ensures Separate(t) && Legacy(t, k) ==> !Legacy(t, NewName(t, k)) && NewName(t, k) != k
  {
    if t != [] {
      NewNameOf(t[..|t| - 1], k);
      NamesOfMore(t, k);
      NamesOfMore(t, NewName(t, k));
    }
  }

  /** `_rename_string_list`: renamed, and of equal names the first. */
  function RenamedList(t: seq<Rename>, items: seq<string>): seq<string> {
    if items == [] then []
    else
      var before, k := RenamedList(t, items[..|items| - 1]), NewName(t, items[|items| - 1]);
      if k in before then before else before + [k]
  }

  function StrippedList(removed: set<string>, items: seq<string>): (r: seq<string>)
    ensures |r| <= |items|
  {
    if items == [] then []
    else
      var before, k := StrippedList(removed, items[..|items| - 1]), items[|items| - 1];
      if k in removed then before else before + [k]
  }

  lemma {:induction false} RenamedListHolds(t: seq<Rename>, items: seq<string>)
    requires Separate(t)
    ensures NoRepeats(RenamedList(t, items)) && |RenamedList(t, items)| <= |items|
    ensures forall k :: k in RenamedList(t, items) <==> exists i :: 0 <= i < |items| && NewName(t, items[i]) == k
    ensures forall k :: k in RenamedList(t, items) ==> !Legacy(t, k)
  {
    hide NewName, Separate, Legacy;
    if items != [] {
      var init, last := items[..|items| - 1], items[|items| - 1];
      RenamedListHolds(t, init);
      NewNameOf(t, last);
      forall k ensures k in RenamedList(t, items) <==> exists i :: 0 <= i < |items| && NewName(t, items[i]) == k {
        if k in RenamedList(t, init) {
          var i :| 0 <= i < |init| && NewName(t, init[i]) == k;
          assert NewName(t, items[i]) == k;
        }
        if exists i :: 0 <= i < |items| && NewName(t, items[i]) == k {
          var i :| 0 <= i < |items| && NewName(t, items[i]) == k;
          if i < |init| { assert NewName(t, init[i]) == k; }
        }
      }
    }
  }

  lemma {:induction false} CleanListStays(t: seq<Rename>, items: seq<string>)
    requires NoRepeats(items) && forall k :: k in items ==> !Legacy(t, k)
    ensures RenamedList(t, items) == items
  {
    hide NewName, Legacy;
    if items != [] {
      var init, last := items[..|items| - 1], items[|items| - 1];
      assert items == init + [last];
      assert last !in init by {
        forall i | 0 <= i < |init| ensures init[i] != last { assert items[i] != items[|init|]; }
      }
      assert NoRepeats(init);
      CleanListStays(t, init);
      NewNameOf(t, last);
    }
  }

  /** Renaming a list twice is renaming it once, and it changes exactly when a legacy name or a repetition
      is there. */
  lemma RenamedListLaws(t: seq<Rename>, items: seq<string>)
    requires Separate(t)
    ensures RenamedList(t, RenamedList(t, items)) == RenamedList(t, items)
    ensures RenamedList(t, items) == items <==> NoRepeats(items) && forall k :: k in items ==> !Legacy(t, k)
  {
    hide RenamedList, Legacy, Separate, NewName;
    RenamedListHolds(t, items);
    CleanListStays(t, RenamedList(t, items));
    if NoRepeats(items) && forall k :: k in items ==> !Legacy(t, k) { CleanListStays(t, items); }
  }

  lemma {:induction false} StrippedListHolds(removed: set<string>, items: seq<string>)
    ensures forall k :: k in StrippedList(removed, items) <==> k in items && k !in removed
    ensures StrippedList(removed, items) == items <==> forall k :: k in items ==> k !in removed
    ensures StrippedList(removed, items) == items <==> |StrippedList(removed, items)| == |items|
  {
    if items != [] {
      var init, last := items[..|items| - 1], items[|items| - 1];
      StrippedListHolds(removed, init);
      assert items == init + [last];
      var r := StrippedList(removed, items);
      if last !in removed { assert r[..|r| - 1] == StrippedList(removed, init); }
    }
  }

  lemma {:induction false} ListsCommute(t: seq<Rename>, removed: set<string>, items: seq<string>)
    requires forall k :: k in removed ==> !Legacy(t, k) && !Canonical(t, k)
    ensures RenamedList(t, StrippedList(removed, items)) == StrippedList(removed, RenamedList(t, items))
  {
    hide NewName, Legacy, Canonical;
    if items != [] {
      var init, last := items[..|items| - 1], items[|items| - 1];
      var k, stripped, renamed := NewName(t, last), StrippedList(removed, init), RenamedList(t, init);
      ListsCommute(t, removed, init);
      NewNameOf(t, last);
      assert last in removed <==> k in removed;
      StrippedListHolds(removed, renamed);
      assert (stripped + [last])[..|stripped|] == stripped;
      assert (renamed + [k])[..|renamed|] == renamed;
    }
  }

  // ---- Whole documents ------------------------------------------------------------------------

  function RenamedIn(v: Value): Value {
    if v.Fields? then Fields(RenamedBy(FieldRenames(), v.fields)) else v
  }

  function StrippedIn(v: Value): Value {
    if v.Fields? then Fields(v.fields - RemovedFields()) else v
  }

  function RenamedNames(v: Value): Value {
    if v.Texts? then Texts(RenamedList(FieldRenames(), v.items)) else v
  }

  function StrippedNames(removed: set<string>, v: Value): Value {
    if v.Texts? then Texts(StrippedList(removed, v.items)) else v
  }

  function RenamedSchemaIn(v: Value): Value {
    if v.Atom? && RenamedSchema(Trim(v.text)).Some? then Atom(RenamedSchema(Trim(v.text)).value) else v
  }

  function RenamedField(k: string, v: Value): Value {
    if k == "schema_key" then RenamedSchemaIn(v)
    else if k == "payload" then RenamedIn(v)
    else if k == "fields_changed" then RenamedNames(v)
    else v
  }

  function StrippedField(k: string, v: Value): Value {
    if k == "payload" then StrippedIn(v)
    else if k == "fields_changed" then StrippedNames(RemovedFields(), v)
    else if k == "schema_keys" then StrippedNames(RemovedSchemas(), v)
    else v
  }

  function MapFields(f: (string, Value) -> Value, d: Document): Document {
    map k | k in d :: f(k, d[k])
  }

  /** `_migrate_service_book_document`. */
  function Migrated(d: Document): Document {
    MapFields(RenamedField, RenamedBy(FieldRenames(), d))
  }

  predicate IsDeleted(d: Document) {
    "schema_key" in d && d["schema_key"].Atom? && Upper(Trim(d["schema_key"].text)) in RemovedSchemas()
  }

  function Stripped(d: Document): Document {
    MapFields(StrippedField, d - RemovedFields())
  }

  /** `_cleanup_service_book_document`; none where the document is to be deleted. */
  function CleanedUp(d: Document): Option<Document> {
    if IsDeleted(d) then None else Some(Stripped(d))
  }

  lemma RenamedInLaws(v: Value)
    ensures RenamedIn(RenamedIn(v)) == RenamedIn(v)
    ensures RenamedIn(StrippedIn(v)) == StrippedIn(RenamedIn(v)) && StrippedIn(StrippedIn(v)) == StrippedIn(v)
    ensures RenamedNames(RenamedNames(v)) == RenamedNames(v)
    ensures RenamedNames(StrippedNames(RemovedFields(), v)) == StrippedNames(RemovedFields(), RenamedNames(v))
  {
    hide RenamedBy, RenamedList, StrippedList, FieldRenames, RemovedFields, Legacy, Canonical, Separate;
    TablesAreSeparate();
    if v.Fields? {
      RenameLaws(FieldRenames(), v.fields);
      RenameStripCommute(FieldRenames(), v.fields, RemovedFields());
      assert v.fields - RemovedFields() - RemovedFields() == v.fields - RemovedFields();
    }
    if v.Texts? {
      RenamedListLaws(FieldRenames(), v.items);
      ListsCommute(FieldRenames(), RemovedFields(), v.items);
    }
  }

  lemma StrippedNamesTwice(removed: set<string>, v: Value)
    ensures StrippedNames(removed, StrippedNames(removed, v)) == StrippedNames(removed, v)
  {
    hide StrippedList;
    if v.Texts? {
      StrippedListHolds(removed, v.items);
      StrippedListHolds(removed, StrippedList(removed, v.items));
    }
  }

  lemma SchemaLaws(v: Value)
    ensures RenamedSchemaIn(RenamedSchemaIn(v)) == RenamedSchemaIn(v)
    ensures v.Atom? ==>
      RenamedSchemaIn(v).Atom?
        && (Upper(Trim(RenamedSchemaIn(v).text)) in RemovedSchemas() <==> Upper(Trim(v.text)) in RemovedSchemas())
  {
    if v.Atom? && RenamedSchema(Trim(v.text)).Some? {
      hide Trim, Upper, RemovedSchemas;
      SchemaKeys(Trim(v.text));
    }
  }

  /** The new schema names are clean and final; neither old nor new ones have the length of a removed one. */
  lemma SchemaKeys(k: string)
    requires RenamedSchema(k).Some?
    ensures Trim(RenamedSchema(k).value) == RenamedSchema(k).value && RenamedSchema(RenamedSchema(k).value) == None
    ensures Upper(k) !in RemovedSchemas() && Upper(RenamedSchema(k).value) !in RemovedSchemas()
  {
    hide Trim, Upper, RemovedSchemas;
    var n := RenamedSchema(k).value;
    assert |k| == |n| && (|k| == 25 || |k| == 30);
    assert n[0] == 'S' && n[|n| - 1] == 'W';
    TrimOfTrimmed(n);
    assert n[|k| - 18] == 'P' && k[|k| - 18] == 'G';
    RemovedLengths(Upper(k));
    RemovedLengths(Upper(n));
  }

  lemma RemovedLengths(k: string)
    ensures k in RemovedSchemas() ==> |k| != 25 && |k| != 30
  {
  }

  // ---- The laws of the two rewrites -------------------------------------------------------------

  lemma MapFieldsGet(f: (string, Value) -> Value, d: Document, k: string)
    ensures Get(MapFields(f, d), k) == if k in d then Some(f(k, d[k])) else None
  {
  }

  lemma MigratedGet(d: Document, k: string)
    ensures Get(Migrated(d), k) ==
      match RenamedGet(FieldRenames(), d, k) case None => None case Some(v) => Some(RenamedField(k, v))
  {
    hide RenamedBy, FieldRenames, Separate, RenamedGet, RenamedField, MapFields;
    TablesAreSeparate();
    RenamedLookup(FieldRenames(), d, k);
    MapFieldsGet(RenamedField, RenamedBy(FieldRenames(), d), k);
  }

  lemma StrippedGet(d: Document, k: string)
    ensures Get(Stripped(d), k) == if k in d && k !in RemovedFields() then Some(StrippedField(k, d[k])) else None
  {
    hide RemovedFields, StrippedField;
  }

  lemma FieldLaws(k: string, v: Value)
    ensures RenamedField(k, RenamedField(k, v)) == RenamedField(k, v)
    ensures StrippedField(k, StrippedField(k, v)) == StrippedField(k, v)
    ensures RenamedField(k, StrippedField(k, v)) == StrippedField(k, RenamedField(k, v))
  {
    hide RenamedIn, StrippedIn, RenamedNames, StrippedNames, RenamedSchemaIn, RemovedSchemas, RemovedFields;
    RenamedInLaws(v);
    StrippedNamesTwice(RemovedFields(), v);
    StrippedNamesTwice(RemovedSchemas(), v);
    SchemaLaws(v);
  }

  lemma HandledKeysStay(k: string)
    requires k in Handled()
    ensures !Legacy(FieldRenames(), k) && !Canonical(FieldRenames(), k) && k !in RemovedFields()
  {
    hide FieldRenames, Legacy, Canonical, RemovedFields, Handled;
    TablesAreSeparate();
  }

  /** A value at its place in the renamed document is settled: its name is no legacy one, and renaming
      again looks it up under the same name. */
  lemma MigratedTwiceAt(d: Document, k: string)
    ensures Get(Migrated(Migrated(d)), k) == Get(Migrated(d), k)
  {
    hide RenamedField, Migrated, FieldRenames, Legacy, Canonical;
    var t, n := FieldRenames(), Migrated(d);
    MigratedGet(d, k);
    MigratedGet(n, k);
    if Canonical(t, k) {
      LegacyOfIsLegacy(t, k);
      MigratedGet(d, LegacyOf(t, k));
    }
    if RenamedGet(t, d, k).Some? { FieldLaws(k, RenamedGet(t, d, k).value); }
  }

  /** Each rewrite done twice is done once. */
  lemma RewritesIdempotent(d: Document)
    ensures Migrated(Migrated(d)) == Migrated(d)
    ensures CleanedUp(d).Some? ==> CleanedUp(CleanedUp(d).value) == CleanedUp(d)
  {
    hide Migrated, StrippedField, RemovedFields, Stripped, IsDeleted;
    forall k ensures Get(Migrated(Migrated(d)), k) == Get(Migrated(d), k) { MigratedTwiceAt(d, k); }
    SameMaps(Migrated(Migrated(d)), Migrated(d));
    var c := Stripped(d);
    forall k ensures Get(Stripped(c), k) == Get(c, k) {
      StrippedGet(d, k);
      StrippedGet(c, k);
      if k in d { FieldLaws(k, d[k]); }
    }
    SameMaps(Stripped(c), c);
    StrippedKeepsDeletion(d);
  }

  lemma StrippedKeepsDeletion(d: Document)
    ensures IsDeleted(Stripped(d)) <==> IsDeleted(d)
  {
    hide RemovedFields, RemovedSchemas, Trim, Upper, Stripped, StrippedNames, StrippedIn;
    assert "schema_key" in Handled();
    HandledKeysStay("schema_key");
    StrippedGet(d, "schema_key");
    assert "schema_key" in d ==>
      StrippedField("schema_key", d["schema_key"]) == d["schema_key"] by { SchemaIsNoOther(); }
  }

  lemma SchemaIsNoOther()
    ensures "schema_key" != "payload" && "schema_key" != "fields_changed" && "schema_key" != "schema_keys"
  {
    assert |"schema_key"| == 10 && |"payload"| == 7 && |"fields_changed"| == 14 && |"schema_keys"| == 11;
  }

  lemma MigratedKeepsDeletion(d: Document)
    ensures IsDeleted(Migrated(d)) <==> IsDeleted(d)
  {
    hide RemovedFields, RemovedSchemas, Trim, Upper, Migrated, FieldRenames, Legacy, Canonical, RenamedSchemaIn;
    assert "schema_key" in Handled();
    HandledKeysStay("schema_key");
    MigratedGet(d, "schema_key");
    if "schema_key" in d { SchemaLaws(d["schema_key"]); SchemaAtomic(d["schema_key"]); }
  }

  lemma SchemaAtomic(v: Value)
    ensures RenamedSchemaIn(v).Atom? <==> v.Atom?
  {
  }

  lemma CommuteAt(d: Document, k: string)
    ensures Get(Stripped(Migrated(d)), k) == Get(Migrated(Stripped(d)), k)
  {
    hide RenamedField, StrippedField, Migrated, Stripped, FieldRenames, RemovedFields, Legacy, Canonical, Handled,
      Separate;
    var t := FieldRenames();
    TablesAreSeparate();
    MigratedGet(d, k);
    StrippedGet(Migrated(d), k);
    StrippedGet(d, k);
    MigratedGet(Stripped(d), k);
    if Canonical(t, k) {
      var l := LegacyOf(t, k);
      LegacyOfIsLegacy(t, k);
      StrippedGet(d, l);
      PlainField(k);
      PlainField(l);
      if k in d { FieldLaws(k, d[k]); }
    } else if k in d {
      FieldLaws(k, d[k]);
    }
  }

  /** A field that is not handled is never rewritten. */
  lemma PlainField(k: string)
    requires k !in Handled()
    ensures forall v :: RenamedField(k, v) == v && StrippedField(k, v) == v
  {
  }

  /** The two rewrites commute on every document, deletions included. */
  lemma RewritesCommute(d: Document)
    ensures CleanedUp(Migrated(d)) == match CleanedUp(d) case None => None case Some(c) => Some(Migrated(c))
  {
    hide Migrated, Stripped, IsDeleted;
    MigratedKeepsDeletion(d);
    forall k ensures Get(Stripped(Migrated(d)), k) == Get(Migrated(Stripped(d)), k) { CommuteAt(d, k); }
    SameMaps(Stripped(Migrated(d)), Migrated(Stripped(d)));
  }

  /** No legacy name survives in the document, its payload or its list of changed fields, and what was
      stored under a canonical name is what the same rewrite makes of it. */
  lemma NothingLegacyLeft(d: Document, k: string)
    ensures Legacy(FieldRenames(), k) ==> k !in Migrated(d)
    ensures var m := Migrated(d);
      && ("payload" in m && m["payload"].Fields? && Legacy(FieldRenames(), k) ==> k !in m["payload"].fields)
      && ("fields_changed" in m && m["fields_changed"].Texts? && Legacy(FieldRenames(), k) ==>
        k !in m["fields_changed"].items)
    ensures k in d && !Legacy(FieldRenames(), k) ==> k in Migrated(d) && Migrated(d)[k] == RenamedField(k, d[k])
  {
    hide FieldRenames, Legacy, Canonical, Migrated, RenamedBy, RenamedList, Separate, RenamedSchemaIn;
    TablesAreSeparate();
    MigratedGet(d, k);
    assert "payload" in Handled() && "fields_changed" in Handled();
    HandledKeysStay("payload");
    HandledKeysStay("fields_changed");
    MigratedGet(d, "payload");
    MigratedGet(d, "fields_changed");
    if "payload" in d && d["payload"].Fields? { RenameLaws(FieldRenames(), d["payload"].fields); }
    if "fields_changed" in d && d["fields_changed"].Texts? {
      RenamedListHolds(FieldRenames(), d["fields_changed"].items);
    }
  }

  lemma NothingRemovedLeft(d: Document, k: string)
    ensures k in RemovedFields() ==> k !in Stripped(d)
    ensures var c := Stripped(d);
      && ("payload" in c && c["payload"].Fields? && k in RemovedFields() ==> k !in c["payload"].fields)
      && ("fields_changed" in c && c["fields_changed"].Texts? && k in RemovedFields() ==>
        k !in c["fields_changed"].items)
      && ("schema_keys" in c && c["schema_keys"].Texts? && k in RemovedSchemas() ==> k !in c["schema_keys"].items)
    ensures k in d && k !in RemovedFields() ==> k in Stripped(d) && Stripped(d)[k] == StrippedField(k, d[k])
  {
    hide Stripped, RemovedFields, RemovedSchemas, StrippedList;
    StrippedGet(d, k);
    StrippedGet(d, "payload");
    StrippedGet(d, "fields_changed");
    StrippedGet(d, "schema_keys");
    if "fields_changed" in d && d["fields_changed"].Texts? {
      StrippedListHolds(RemovedFields(), d["fields_changed"].items);
    }
    if "schema_keys" in d && d["schema_keys"].Texts? { StrippedListHolds(RemovedSchemas(), d["schema_keys"].items); }
  }

  // ---- Opening documents ---------------------------------------------------------------------------

  function InPart(f: Value -> Value): (string, Value) -> Value {
    (k: string, v: Value) => if k == "part_iib" then f(v) else v
  }

  function InOpening(f: Value -> Value): (string, Value) -> Value {
    (k: string, v: Value) =>
      if k == "part_iib" then f(v)
      else if k == "parts" && v.Fields? then Fields(MapFields(InPart(f), v.fields))
      else v
  }

  /** A rewrite of part IIB, at the top of an opening document and inside its parts. */
  function Opening(f: Value -> Value, d: Document): Document {
    MapFields(InOpening(f), d)
  }

  lemma MapTwice(f: (string, Value) -> Value, g: (string, Value) -> Value, h: (string, Value) -> Value, d: Document)
    requires forall k, v :: f(k, g(k, v)) == h(k, v)
    ensures MapFields(f, MapFields(g, d)) == MapFields(h, d)
  {
  }

  lemma OpeningTwice(f: Value -> Value, g: Value -> Value, h: Value -> Value, d: Document)
    requires forall v :: f(g(v)) == h(v)
    ensures Opening(f, Opening(g, d)) == Opening(h, d)
  {
    forall k, v ensures InOpening(f)(k, InOpening(g)(k, v)) == InOpening(h)(k, v) {
      if k == "parts" && v.Fields? && k != "part_iib" {
        forall j, w ensures InPart(f)(j, InPart(g)(j, w)) == InPart(h)(j, w) {}
        MapTwice(InPart(f), InPart(g), InPart(h), v.fields);
      }
    }
    MapTwice(InOpening(f), InOpening(g), InOpening(h), d);
  }

  function RenamedThenStripped(v: Value): Value {
    StrippedIn(RenamedIn(v))
  }

  /** The opening rewrites are idempotent too, and commute. */
  lemma OpeningLaws(d: Document)
    ensures Opening(RenamedIn, Opening(RenamedIn, d)) == Opening(RenamedIn, d)
    ensures Opening(StrippedIn, Opening(StrippedIn, d)) == Opening(StrippedIn, d)
    ensures Opening(RenamedIn, Opening(StrippedIn, d)) == Opening(StrippedIn, Opening(RenamedIn, d))
  {
    hide RenamedIn, StrippedIn, Opening;
    forall v ensures RenamedIn(RenamedIn(v)) == RenamedIn(v) && StrippedIn(StrippedIn(v)) == StrippedIn(v)
      && RenamedIn(StrippedIn(v)) == RenamedThenStripped(v)
    {
      RenamedInLaws(v);
    }
    OpeningTwice(RenamedIn, RenamedIn, RenamedIn, d);
    OpeningTwice(StrippedIn, StrippedIn, StrippedIn, d);
    OpeningTwice(RenamedIn, StrippedIn, RenamedThenStripped, d);
    OpeningTwice(StrippedIn, RenamedIn, RenamedThenStripped, d);
  }
}
