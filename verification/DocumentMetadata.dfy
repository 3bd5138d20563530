/** Raw metadata rows, the normalised view that every read returns, and when normalising again changes
    nothing. */
module DocumentMetadata {
  import opened Prelude
  import opened Text

  /** A stored value. `Other` is any further kind (a float, a document), known by its `str()`, whether it
      is truthy, and its `int()`. */
  datatype Value =
    | Null
    | Bool(b: bool)
    | Int(n: int)
    | Str(s: string)
    | List(items: seq<Value>)
    | Other(text: string, truthy: bool, asInt: Option<int>)

  type Row = map<Key, Value>

  predicate Truthy(v: Value) {
    match v
    case Null => false
    case Bool(b) => b
    case Int(n) => n != 0
    case Str(s) => s != ""
    case List(items) => items != []
    case Other(_, truthy, _) => truthy
  }

  /** `a or b`. */
  function Or(a: Value, b: Value): Value {
    if Truthy(a) then a else b
  }

  function Get(d: Row, k: Key): Value {
    if k in d then d[k] else Null
  }

  /** `str(value)`. */
  function Show(v: Value): string
    decreases v, 2
  {
    match v
    case Null => "None"
    case Bool(b) => if b then "True" else "False"
    case Int(n) => ShowInt(n)
    case Str(s) => s
    case List(items) => "[" + ShowItems(items) + "]"
    case Other(text, _, _) => text
  }

  function ShowItems(items: seq<Value>): string
    decreases items, 1
  {
    if items == [] then ""
    else if |items| == 1 then Quoted(items[0])
    else ShowItems(items[..|items| - 1]) + ", " + Quoted(items[|items| - 1])
  }

  function Quoted(v: Value): string
    decreases v, 3
  {
    if v.Str? then "'" + v.s + "'" else Show(v)
  }

  /** `int(value)`; none where it raises. */
  function AsInt(v: Value): Option<int> {
    match v
    case Null => None
    case Bool(b) => Some(if b then 1 else 0)
    case Int(n) => Some(n)
    case Str(s) => ParseInt(s)
    case List(_) => None
    case Other(_, _, n) => n
  }

  // ---- One field ------------------------------------------------------------------------

  datatype Case = AsIs | ToUpper | ToLower

  function InCase(c: Case, s: string): string {
    match c case AsIs => s case ToUpper => Upper(s) case ToLower => Lower(s)
  }

  /** `_normalize_optional_string`. */
  function OptionalString(v: Value, c: Case): (r: Value)
    ensures r.Null? || (r.Str? && r.s != "")
  {
    var t := if v.Null? then "" else Trim(Show(v));
    if t == "" then Null else Str(InCase(c, t))
  }

  /** `_normalize_int`. */
  function BoundedInt(v: Value, default: int, minimum: int): Value {
    match AsInt(v)
    case None => Int(default)
    case Some(n) => Int(if n >= minimum then n else default)
  }

  lemma OptionalStringTwice(v: Value, c: Case)
    ensures OptionalString(OptionalString(v, c), c) == OptionalString(v, c)
  {
    var t := if v.Null? then "" else Trim(Show(v));
    if t != "" {
      TrimIsTrimmed(Show(v));
      UpperIdempotent(t);
      LowerIdempotent(t);
      TrimOfTrimmed(InCase(c, t));
    }
  }

  // ---- Tags -----------------------------------------------------------------------------

  function TagText(v: Value): string {
    if v.Null? then "" else Lower(Trim(Show(v)))
  }

  function TagTexts(items: seq<Value>): (r: seq<string>)
    ensures |r| == |items|
  {
    seq(|items|, i requires 0 <= i < |items| => TagText(items[i]))
  }

  /** The distinct non-empty entries in order of first appearance. */
  function Distinct(texts: seq<string>): seq<string> {
    if texts == [] then []
    else
      var before, t := Distinct(texts[..|texts| - 1]), texts[|texts| - 1];
      if t == "" || t in before then before else before + [t]
  }

  function InsertTag(sorted: seq<string>, t: string): seq<string> {
    if sorted != [] && Less(t, sorted[|sorted| - 1]) then InsertTag(sorted[..|sorted| - 1], t) + [sorted[|sorted| - 1]]
    else sorted + [t]
  }

  function SortTags(tags: seq<string>): seq<string> {
    if tags == [] then [] else InsertTag(SortTags(tags[..|tags| - 1]), tags[|tags| - 1])
  }

  function AsItems(tags: seq<string>): (r: seq<Value>)
    ensures |r| == |tags| && forall i :: 0 <= i < |tags| ==> r[i] == Str(tags[i])
  {
    seq(|tags|, i requires 0 <= i < |tags| => Str(tags[i]))
  }

  /** `_normalize_tag_list`. */
  function TagList(v: Value): Value {
    if v.List? then List(AsItems(SortTags(Distinct(TagTexts(v.items))))) else List([])
  }

  ghost predicate Ascending(s: seq<string>) {
    forall i, j :: 0 <= i < j < |s| ==> Less(s[i], s[j])
  }

  lemma {:induction false} InsertTagMembers(sorted: seq<string>, t: string, x: string)
    ensures x in InsertTag(sorted, t) <==> x == t || x in sorted
  {
    if sorted != [] && Less(t, sorted[|sorted| - 1]) {
      InsertTagMembers(sorted[..|sorted| - 1], t, x);
      assert sorted == sorted[..|sorted| - 1] + [sorted[|sorted| - 1]];
    }
  }

  lemma {:induction false} InsertTagAscending(sorted: seq<string>, t: string)
    requires Ascending(sorted) && t !in sorted
    ensures Ascending(InsertTag(sorted, t))
  {
    if sorted != [] {
      var init, last := sorted[..|sorted| - 1], sorted[|sorted| - 1];
      LessTotal(t, last);
      if Less(t, last) {
        InsertTagAscending(init, t);
        var r := InsertTag(init, t);
        forall i | 0 <= i < |r| ensures Less(r[i], last) {
          InsertTagMembers(init, t, r[i]);
          if r[i] != t { var k :| 0 <= k < |init| && init[k] == r[i]; assert sorted[k] == r[i]; }
        }
      } else {
        forall i | 0 <= i < |sorted| ensures Less(sorted[i], t) {
          if i < |init| { LessTransitive(sorted[i], last, t); }
        }
      }
    }
  }

  lemma LastIsNew(s: seq<string>)
    requires NoRepeats(s) && s != []
    ensures s[|s| - 1] !in s[..|s| - 1] && NoRepeats(s[..|s| - 1])
  {
  }

  lemma {:induction false} SortTagsSound(tags: seq<string>)
    requires NoRepeats(tags)
    ensures Ascending(SortTags(tags))
    ensures forall x :: x in SortTags(tags) <==> x in tags
  {
    if tags != [] {
      var init, last := tags[..|tags| - 1], tags[|tags| - 1];
      SortTagsSound(init);
      LastIsNew(tags);
      InsertTagAscending(SortTags(init), last);
      forall x ensures x in SortTags(tags) <==> x in tags {
        InsertTagMembers(SortTags(init), last, x);
        assert tags == init + [last];
      }
    }
  }

  lemma {:induction false} SortOfAscending(tags: seq<string>)
    requires Ascending(tags)
    ensures SortTags(tags) == tags
  {
    if tags != [] {
      SortOfAscending(tags[..|tags| - 1]);
      if |tags| > 1 {
        var a, b := tags[|tags| - 2], tags[|tags| - 1];
        if Less(b, a) { LessTransitive(a, b, a); LessIrreflexive(a); }
      }
    }
  }

  /** A tag as stored: nothing to strip, fold or drop. */
  predicate IsTag(t: string) {
    t != "" && Trim(t) == t && Lower(t) == t
  }

  lemma TagTextIsTag(v: Value)
    ensures TagText(v) == "" || IsTag(TagText(v))
    ensures v.Str? && IsTag(v.s) ==> TagText(v) == v.s
  {
    if !v.Null? {
      TrimIsTrimmed(Show(v));
      LowerIdempotent(Trim(Show(v)));
      TrimOfTrimmed(Lower(Trim(Show(v))));
    }
  }

  lemma {:induction false} DistinctSound(texts: seq<string>)
    ensures NoRepeats(Distinct(texts))
    ensures forall t :: t in Distinct(texts) <==> t != "" && t in texts
  {
    if texts != [] {
      DistinctSound(texts[..|texts| - 1]);
      assert texts == texts[..|texts| - 1] + [texts[|texts| - 1]];
    }
  }

  lemma {:induction false} DistinctOfTags(tags: seq<string>)
    requires NoRepeats(tags) && "" !in tags
    ensures Distinct(tags) == tags
  {
    if tags != [] {
      LastIsNew(tags);
      assert tags == tags[..|tags| - 1] + [tags[|tags| - 1]];
      DistinctOfTags(tags[..|tags| - 1]);
    }
  }

  lemma TextsOfTags(tags: seq<string>)
    requires forall t :: t in tags ==> IsTag(t)
    ensures TagTexts(AsItems(tags)) == tags
  {
    forall i | 0 <= i < |tags| ensures TagTexts(AsItems(tags))[i] == tags[i] {
      assert tags[i] in tags;
      TagTextIsTag(Str(tags[i]));
    }
  }

  lemma TextsAreTags(items: seq<Value>, t: string)
    requires t in TagTexts(items)
    ensures t == "" || IsTag(t)
  {
    var i :| 0 <= i < |items| && TagTexts(items)[i] == t;
    TagTextIsTag(items[i]);
  }

  lemma {:induction false} ItemsHold(tags: seq<string>, t: string)
    ensures Str(t) in AsItems(tags) <==> t in tags
  {
    if t in tags { var k :| 0 <= k < |tags| && tags[k] == t; assert AsItems(tags)[k] == Str(t); }
  }

  /** A tag list comes out ascending and without repeats, holds exactly the cleaned non-empty entries, and
      is left alone when cleaned again. */
  lemma TagListSound(v: Value)
    ensures TagList(v).List? && TagList(TagList(v)) == TagList(v)
    ensures v.List? ==> forall t :: Str(t) in TagList(v).items <==> t != "" && t in TagTexts(v.items)
    ensures exists tags :: Ascending(tags) && TagList(v).items == AsItems(tags)
  {
    if v.List? {
      var texts := TagTexts(v.items);
      var found := Distinct(texts);
      var tags := SortTags(found);
      DistinctSound(texts);
      SortTagsSound(found);
      AscendingNoRepeats(tags);
      forall t ensures (t in tags ==> IsTag(t)) && (Str(t) in AsItems(tags) <==> t in tags) {
        if t in tags { TextsAreTags(v.items, t); }
        ItemsHold(tags, t);
      }
      DistinctOfTags(tags);
      TextsOfTags(tags);
      SortOfAscending(tags);
    } else {
      assert AsItems([]) == [] && TagTexts([]) == [];
      assert Distinct([]) == [] && SortTags([]) == [];
      assert Ascending([]);
    }
  }

  lemma AscendingNoRepeats(tags: seq<string>)
    requires Ascending(tags)
    ensures NoRepeats(tags)
  {
    forall i, j | 0 <= i < j < |tags| ensures tags[i] != tags[j] { LessIrreflexive(tags[i]); }
  }

  /** The loop of `_normalize_tag_list`. */
  method NormalizeTagList(v: Value) returns (r: Value)
    ensures r == TagList(v)
  {
    if !v.List? { return List([]); }
    var seen: set<string> := {};
    var found: seq<string> := [];
    var i := 0;
    while i < |v.items|
      invariant 0 <= i <= |v.items|
      invariant found == Distinct(TagTexts(v.items)[..i])
      invariant forall t :: t in seen <==> t in found
    {
      assert TagTexts(v.items)[..i + 1][..i] == TagTexts(v.items)[..i];
      if !v.items[i].Null? {
        var text := Lower(Trim(Show(v.items[i])));
        if text != "" && text !in seen {
          seen := seen + {text};
          found := found + [text];
        }
      }
      i := i + 1;
    }
    assert TagTexts(v.items)[..i] == TagTexts(v.items);
    return List(AsItems(SortTags(found)));
  }

  // ---- The whole row ----------------------------------------------------------------------

  datatype PlainKey =
    | ContentType | UploadedByUserId | UploadedEmployeeId | UploadedEmployeeCode | SubjectEmployeeId
    | SubjectEmployeeCode | UploadedAt | EntityId | LockedByRequestId | LegalHoldReason | LegalHoldAppliedAt
    | LegalHoldAppliedByUserId | ArchivedAt | ArchivedToBucket | RetentionPolicyKey | ScanThreatName | ScanCompletedAt
    | PreviewFilename | ExpiresAt | SupersedesDocumentId

  datatype UpperKey = EntityType | DocumentType | Category | LockedStatus | ScanStatus

  datatype LowerKey = SourceContext

  datatype TagKey = Tags | ExpiryNotifiedStages

  /** The field names of a row. `UploadedBy` is the legacy alias; `Extra` is any name the repository does
      not know. */
  datatype Key =
    | DocumentId | Filename | OriginalName | FileSize | VersionNumber
    | IsCurrent | IsLocked | LockedAt | LockReason | LegalHold
    | Plain(plain: PlainKey) | Uppercase(upper: UpperKey) | Lowercase(lower: LowerKey) | TagField(tag: TagKey)
    | UploadedBy | Extra(name: string)

  predicate Known(k: Key) {
    !k.UploadedBy? && !k.Extra?
  }

  function Fields(): (r: set<Key>)
    ensures forall k :: k in r <==> Known(k)
  {
    {DocumentId, Filename, OriginalName, FileSize, VersionNumber, IsCurrent, IsLocked, LockedAt, LockReason, LegalHold}
    + (set p: PlainKey | true :: Plain(p)) + (set u: UpperKey | true :: Uppercase(u))
    + (set l: LowerKey | true :: Lowercase(l)) + (set t: TagKey | true :: TagField(t))
  }

  function NameField(f: string, d: Row): Value {
    OptionalString(Or(Get(d, Filename), Str(f)), AsIs)
  }

  /** A field that falls back to the filename. */
  function NamedField(f: string, d: Row, k: Key): Value {
    OptionalString(Or(Get(d, k), NameField(f, d)), AsIs)
  }

  predicate LockedRow(d: Row) {
    Truthy(Get(d, IsLocked)) || Truthy(Get(d, LockedAt)) || Truthy(Get(d, LockReason))
  }

  function Field(f: string, d: Row, k: Key): Value {
    match k
    case DocumentId => NamedField(f, d, k)
    case Filename => NameField(f, d)
    case OriginalName => NamedField(f, d, k)
    case FileSize => BoundedInt(Get(d, k), 0, 0)
    case VersionNumber => BoundedInt(Get(d, k), 1, 1)
    case IsCurrent => Bool(k !in d || Truthy(d[k]))
    case IsLocked => Bool(LockedRow(d))
    case LockedAt => OptionalString(Get(d, k), AsIs)
    case LockReason => OptionalString(Get(d, k), AsIs)
    case LegalHold => Bool(Truthy(Get(d, k)))
    case Plain(_) => OptionalString(Get(d, k), AsIs)
    case Uppercase(_) => OptionalString(Get(d, k), ToUpper)
    case Lowercase(_) => OptionalString(Get(d, k), ToLower)
    case TagField(_) => TagList(Get(d, k))
    case UploadedBy => Null
    case Extra(_) => Get(d, k)
  }

  /** `_normalize_metadata`: known fields cleaned, the old alias dropped, anything else kept. */
  function Normalize(f: string, d: Row): (r: Row)
    ensures forall k :: k in r <==> Known(k) || (k in d && !k.UploadedBy?)
  {
    map k | k in Fields() + (d.Keys - {UploadedBy}) :: Field(f, d, k)
  }

  // ---- What a normalised row says ------------------------------------------------------------

  /** `out` is the stripped text of a value, in the given case, or Null where nothing is left of it. */
  ghost predicate ShowsText(v: Value, c: Case, out: Value) {
    if v == Null || Trim(Show(v)) == "" then out == Null
    else match c
      case AsIs => out == Str(Trim(Show(v)))
      case ToUpper => out == Str(Upper(Trim(Show(v))))
      case ToLower => out == Str(Lower(Trim(Show(v))))
  }

  /** The value of a field that counts as given, or else `other`. */
  ghost function Given(d: Row, k: Key, other: Value): Value {
    if k in d && Truthy(d[k]) then d[k] else other
  }

  /** Null, and of each kind the one empty value. */
  lemma FalsyExactly(v: Value)
    ensures !Truthy(v) <==>
      v in {Null, Bool(false), Int(0), Str(""), List([])} || (v.Other? && !v.truthy)
  {
  }

  lemma ShowExamples()
    ensures Show(Null) == "None" && Show(Bool(true)) == "True" && Show(Bool(false)) == "False"
    ensures Show(List([])) == "[]" && Show(List([Str("a"), Null])) == "['a', None]"
    ensures forall n: nat :: Show(Int(n)) == Decimal(n) && (n > 0 ==> Show(Int(0 - n)) == "-" + Decimal(n))
    ensures AsInt(Null) == None && AsInt(Bool(true)) == Some(1) && AsInt(Bool(false)) == Some(0)
  {
    hide Decimal;
    var items := [Str("a"), Null];
    assert items[..1] == [Str("a")];
    assert ShowItems([Str("a")]) == "'a'";
  }

  /** What a read of a row shows in field `k`, `name` being the filename that it shows. */
  ghost predicate FieldSays(f: string, d: Row, name: Value, k: Key, out: Value) {
    match k
    case Filename => ShowsText(Given(d, Filename, Str(f)), AsIs, out)
    case DocumentId => ShowsText(Given(d, DocumentId, name), AsIs, out)
    case OriginalName => ShowsText(Given(d, OriginalName, name), AsIs, out)
    case FileSize => exists n :: out == Int(n) && IntSays(Get(d, FileSize), 0, 0, n)
    case VersionNumber => exists n :: out == Int(n) && IntSays(Get(d, VersionNumber), 1, 1, n)
    case IsCurrent => out == Bool(IsCurrent in d ==> Truthy(d[IsCurrent]))
    case LegalHold => out == Bool(LegalHold in d && Truthy(d[LegalHold]))
    case IsLocked => out == Bool(exists j :: j in {IsLocked, LockedAt, LockReason} && j in d && Truthy(d[j]))
    case LockedAt => ShowsText(Get(d, LockedAt), AsIs, out)
    case LockReason => ShowsText(Get(d, LockReason), AsIs, out)
    case Plain(p) => ShowsText(Get(d, Plain(p)), AsIs, out)
    case Uppercase(u) => ShowsText(Get(d, Uppercase(u)), ToUpper, out)
    case Lowercase(l) => ShowsText(Get(d, Lowercase(l)), ToLower, out)
    case TagField(t) => out == TagList(Get(d, TagField(t)))
    case UploadedBy => false
    case Extra(name) => Extra(name) in d && out == d[Extra(name)]
  }

  /** The number of a value, or the default where there is none or it is too small. */
  ghost predicate IntSays(v: Value, default: int, minimum: int, n: int) {
    if AsInt(v).Some? && AsInt(v).value >= minimum then n == AsInt(v).value else n == default
  }

  lemma FieldShows(f: string, d: Row, k: Key)
    requires Known(k) || (k.Extra? && k in d)
    ensures FieldSays(f, d, NameField(f, d), k, Field(f, d, k))
  {
    hide Trim, Show, TagList, AsInt;
    if k.IsLocked? { LockedSays(d); }
    if k.FileSize? { assert IntSays(Get(d, FileSize), 0, 0, Field(f, d, k).n); }
    if k.VersionNumber? { assert IntSays(Get(d, VersionNumber), 1, 1, Field(f, d, k).n); }
  }

  /** A normalised row has every known field and every unknown one of the stored row, the old alias apart, and
      shows in each what the stored row says. */
  lemma NormalizeSays(f: string, d: Row, k: Key)
    ensures k in Normalize(f, d) <==> k != UploadedBy && (k.Extra? ==> k in d)
    ensures Filename in Normalize(f, d)
    ensures k in Normalize(f, d) ==> FieldSays(f, d, Normalize(f, d)[Filename], k, Normalize(f, d)[k])
  {
    hide FieldSays, Field, NameField, Normalize;
    NormalizeIsNormal(f, d);
    FilenameIsName(f, d);
    if k in Normalize(f, d) { FieldShows(f, d, k); }
  }

  lemma FilenameIsName(f: string, d: Row)
    ensures Field(f, d, Filename) == NameField(f, d)
  {
  }

  lemma LockedSays(d: Row)
    ensures LockedRow(d) <==> exists k :: k in {IsLocked, LockedAt, LockReason} && k in d && Truthy(d[k])
  {
    if Truthy(Get(d, IsLocked)) { assert IsLocked in d && Truthy(d[IsLocked]); }
    if Truthy(Get(d, LockedAt)) { assert LockedAt in d && Truthy(d[LockedAt]); }
    if Truthy(Get(d, LockReason)) { assert LockReason in d && Truthy(d[LockReason]); }
  }

  // ---- Normalising twice ------------------------------------------------------------------

  /** Present, but blank once stripped. */
  predicate Blank(v: Value) {
    Truthy(v) && OptionalString(v, AsIs).Null?
  }

  /** Falsy, but a non-empty string once written out, as the number 0 is. */
  predicate TurnsTruthy(v: Value) {
    !Truthy(v) && !OptionalString(v, AsIs).Null?
  }

  predicate LocksLate(d: Row) {
    !LockedRow(d) && (TurnsTruthy(Get(d, LockedAt)) || TurnsTruthy(Get(d, LockReason)))
  }

  /** What a caller can check on the stored row. */
  predicate Settled(d: Row) {
    !Blank(Get(d, Filename)) && !Blank(Get(d, DocumentId)) && !Blank(Get(d, OriginalName)) && !LocksLate(d)
  }

  /** `n` is the normalised row. */
  ghost predicate Normal(f: string, d: Row, n: Row) {
    && (forall k :: k in n <==> Known(k) || (k in d && !k.UploadedBy?))
    && (forall k :: k in n ==> n[k] == Field(f, d, k))
  }

  lemma OrTwice(a: Value, b: Value)
    ensures var x := OptionalString(Or(a, b), AsIs);
      && OptionalString(x, AsIs) == x && !Blank(x) && !TurnsTruthy(x)
      && (x.Null? <==> Blank(a) || (!Truthy(a) && OptionalString(b, AsIs).Null?))
  {
    OptionalStringTwice(Or(a, b), AsIs);
  }

  lemma BoundedIntTwice(v: Value, n: int)
    ensures BoundedInt(BoundedInt(v, n, n), n, n) == BoundedInt(v, n, n)
  {
    hide ParseInt;
  }

  lemma BoolTwice()
    ensures Truthy(Bool(true)) && !Truthy(Bool(false))
  {
  }

  lemma SimpleFieldTwice(f: string, d: Row, n: Row, k: Key)
    requires Normal(f, d, n) && Known(k) && k !in {DocumentId, Filename, OriginalName, IsLocked}
    ensures Field(f, n, k) == Field(f, d, k)
  {
    hide OptionalString, TagList, BoundedInt, LockedRow, NameField, NamedField, Truthy;
    assert Get(n, k) == Field(f, d, k);
    BoundedIntTwice(Get(d, k), 0);
    BoundedIntTwice(Get(d, k), 1);
    BoolTwice();
    if k.TagField? { TagListSound(Get(d, k)); }
    else if k.Uppercase? { OptionalStringTwice(Get(d, k), ToUpper); }
    else if k.Lowercase? { OptionalStringTwice(Get(d, k), ToLower); }
    else if k.LockedAt? || k.LockReason? || k.Plain? { OptionalStringTwice(Get(d, k), AsIs); }
  }

  lemma NameTwice(f: string, d: Row, n: Row)
    requires Trim(f) != "" && Normal(f, d, n)
    ensures NameField(f, n) == NameField(f, d) <==> !Blank(Get(d, Filename))
    ensures NameField(f, d).Null? <==> Blank(Get(d, Filename))
  {
    assert Get(n, Filename) == Field(f, d, Filename);
    OrTwice(Get(d, Filename), Str(f));
    OrTwice(Get(n, Filename), Str(f));
  }

  lemma NamedTwice(f: string, d: Row, n: Row, k: Key)
    requires Trim(f) != "" && Normal(f, d, n) && k in {DocumentId, OriginalName} && !Blank(Get(d, Filename))
    ensures NamedField(f, n, k) == NamedField(f, d, k) <==> !Blank(Get(d, k))
  {
    assert Get(n, k) == Field(f, d, k);
    NameTwice(f, d, n);
    OrTwice(Get(d, Filename), Str(f));
    OrTwice(Get(d, k), NameField(f, d));
    OrTwice(Get(n, k), NameField(f, n));
  }

  lemma LockTwice(f: string, d: Row, n: Row)
    requires Normal(f, d, n)
    ensures LockedRow(n) == LockedRow(d) <==> !LocksLate(d)
  {
    assert Get(n, IsLocked) == Field(f, d, IsLocked);
    assert Get(n, LockedAt) == Field(f, d, LockedAt);
    assert Get(n, LockReason) == Field(f, d, LockReason);
  }

  lemma FieldTwice(f: string, d: Row, n: Row, k: Key)
    requires Trim(f) != "" && Normal(f, d, n) && Settled(d) && Known(k)
    ensures Field(f, n, k) == Field(f, d, k)
  {
    if k == Filename { NameTwice(f, d, n); }
    else if k == DocumentId || k == OriginalName { NamedTwice(f, d, n, k); }
    else if k == IsLocked { LockTwice(f, d, n); }
    else { SimpleFieldTwice(f, d, n, k); }
  }

  lemma Unsettled(f: string, d: Row, n: Row) returns (k: Key)
    requires Trim(f) != "" && Normal(f, d, n) && !Settled(d)
    ensures Known(k) && Field(f, n, k) != Field(f, d, k)
  {
    if LocksLate(d) { k := IsLocked; LockShows(f, d, n); } else { k := BlankShows(f, d, n); }
  }

  lemma FieldsByName(f: string, d: Row)
    ensures Field(f, d, Filename) == NameField(f, d)
    ensures Field(f, d, DocumentId) == NamedField(f, d, DocumentId)
    ensures Field(f, d, OriginalName) == NamedField(f, d, OriginalName)
  {
  }

  lemma BlankShows(f: string, d: Row, n: Row) returns (k: Key)
    requires Trim(f) != "" && Normal(f, d, n)
    requires Blank(Get(d, Filename)) || Blank(Get(d, DocumentId)) || Blank(Get(d, OriginalName))
    ensures Known(k) && Field(f, n, k) != Field(f, d, k)
  {
    hide Normal, Field, NameField, NamedField, Blank;
    FieldsByName(f, d);
    FieldsByName(f, n);
    if Blank(Get(d, Filename)) { k := Filename; NameTwice(f, d, n); }
    else if Blank(Get(d, DocumentId)) { k := DocumentId; NamedTwice(f, d, n, k); }
    else { k := OriginalName; NamedTwice(f, d, n, k); }
  }

  lemma LockShows(f: string, d: Row, n: Row)
    requires Normal(f, d, n) && LocksLate(d)
    ensures Field(f, n, IsLocked) != Field(f, d, IsLocked)
  {
    hide LockedRow, OptionalString, Normal;
    LockTwice(f, d, n);
  }

  lemma NormalizeIsNormal(f: string, d: Row)
    ensures Normal(f, d, Normalize(f, d))
  {
  }

  lemma KeyTwice(f: string, d: Row, n: Row, m: Row, k: Key)
    requires Trim(f) != "" && Normal(f, d, n) && Normal(f, n, m) && Settled(d) && k in n
    ensures m[k] == n[k]
  {
    hide Settled, OptionalString, TagList, BoundedInt, LockedRow, NameField, NamedField;
    if Known(k) { FieldTwice(f, d, n, k); }
  }

  lemma SameRow(n: Row, m: Row)
    requires forall k :: k in n ==> k in m && m[k] == n[k]
    requires forall k :: k in m ==> k in n
    ensures m == n
  {
  }

  lemma SettledTwice(f: string, d: Row, n: Row, m: Row)
    requires Trim(f) != "" && Normal(f, d, n) && Normal(f, n, m) && Settled(d)
    ensures m == n
  {
    forall k | k in n ensures m[k] == n[k] { KeyTwice(f, d, n, m, k); }
    SameRow(n, m);
  }

  /** Normalising a row again changes nothing exactly when the stored row is settled: its filename,
      identifier and original name are not blank, and no lock field is a falsy value with a text. */
  lemma NormalizeTwice(f: string, d: Row)
    requires Trim(f) != ""
    ensures Normalize(f, Normalize(f, d)) == Normalize(f, d) <==> Settled(d)
  {
    var n := Normalize(f, d);
    NormalizeIsNormal(f, d);
    NormalizeIsNormal(f, n);
    if Settled(d) { SettledTwice(f, d, n, Normalize(f, n)); }
    else { var k := Unsettled(f, d, n); }
  }

  lemma NamesNotBlank(f: string, d: Row, n: Row)
    requires Normal(f, d, n)
    ensures !Blank(Get(n, Filename)) && !Blank(Get(n, DocumentId)) && !Blank(Get(n, OriginalName))
  {
    assert Get(n, Filename) == Field(f, d, Filename);
    assert Get(n, DocumentId) == Field(f, d, DocumentId);
    assert Get(n, OriginalName) == Field(f, d, OriginalName);
    OrTwice(Get(d, Filename), Str(f));
    OrTwice(Get(d, DocumentId), NameField(f, d));
    OrTwice(Get(d, OriginalName), NameField(f, d));
  }

  lemma LocksInTime(f: string, d: Row, n: Row)
    requires Normal(f, d, n)
    ensures !LocksLate(n)
  {
    FieldInTime(f, d, n, LockedAt);
    FieldInTime(f, d, n, LockReason);
  }

  lemma FieldInTime(f: string, d: Row, n: Row, k: Key)
    requires Normal(f, d, n) && (k.LockedAt? || k.LockReason?)
    ensures !TurnsTruthy(Get(n, k))
  {
    assert Get(n, k) == Field(f, d, k);
    StringNeverTurns(Get(d, k));
  }

  /** What a read returns is always settled, so a third pass never changes anything. */
  lemma ViewIsSettled(f: string, d: Row)
    ensures Settled(Normalize(f, d))
  {
    var n := Normalize(f, d);
    NormalizeIsNormal(f, d);
    NamesNotBlank(f, d, n);
    LocksInTime(f, d, n);
  }

  lemma StringNeverTurns(v: Value)
    ensures !TurnsTruthy(OptionalString(v, AsIs))
  {
  }
}
