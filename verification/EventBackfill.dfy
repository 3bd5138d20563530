/** Copying the events embedded in legacy streams into one record each, and the check that compares the
    two afterwards. */
module EventBackfill {
  import opened Prelude
  import opened Text

  /** A legacy event; an absent field is the empty string. */
  datatype Event =
    | NotAnObject
    | Event(id: string, rangeFrom: string, rangeTo: string, from: string, to: string, stamp: string)

  datatype Stream = Stream(employeeId: string, events: seq<Event>)

  datatype Record = Record(id: string, employeeId: string, sequence: nat, effectiveFrom: string, effectiveTo: string,
      stamp: string)

  datatype StreamMeta = StreamMeta(eventCount: nat, updatedAt: string)

  datatype Db = Db(records: seq<Record>, metas: map<string, StreamMeta>)

  datatype Summary = Summary(
    streamsScanned: nat, streamsBackfilled: nat, eventsFound: nat, written: nat, existing: nat, duplicate: nat,
    missing: nat, withoutEmployee: nat)

  const NOTHING: Summary := Summary(0, 0, 0, 0, 0, 0, 0, 0)
  const EMPTY: Db := Db([], map[])

  predicate HasId(e: Event) {
    e.Event? && Trim(e.id) != ""
  }

  function RecordOf(employeeId: string, e: Event, sequence: nat): Record
    requires e.Event?
  {
    Record(e.id, employeeId, sequence, OrElse(e.rangeFrom, e.from), OrElse(e.rangeTo, e.to), e.stamp)
  }

  /** The identifiers as the checks compare them. */
  function Keys(records: seq<Record>): seq<string> {
    seq(|records|, i requires 0 <= i < |records| => Trim(records[i].id))
  }

  /** The identifiers as they are stored, and as the database compares them. */
  function Ids(records: seq<Record>): seq<string> {
    seq(|records|, i requires 0 <= i < |records| => records[i].id)
  }

  // ---- One stream -----------------------------------------------------------------------

  /** One record for each identifier, from its first event; positions count from 1. */
  function Valid(employeeId: string, events: seq<Event>): seq<Record> {
    if events == [] then []
    else
      var before, e := Valid(employeeId, events[..|events| - 1]), events[|events| - 1];
      if HasId(e) && Trim(e.id) !in Keys(before) then before + [RecordOf(employeeId, e, |events|)] else before
  }

  function MissingIds(events: seq<Event>): nat {
    if events == [] then 0
    else MissingIds(events[..|events| - 1]) + if HasId(events[|events| - 1]) then 0 else 1
  }

  function Repeated(employeeId: string, events: seq<Event>): nat {
    ValidLength(employeeId, events);
    |events| - MissingIds(events) - |Valid(employeeId, events)|
  }

  /** The valid records whose identifier no stored record carries. */
  function Unstored(valid: seq<Record>, records: seq<Record>): (r: seq<Record>)
    ensures |r| <= |valid|
  {
    if valid == [] then []
    else
      var before, last := Unstored(valid[..|valid| - 1], records), valid[|valid| - 1];
      if Trim(last.id) in Ids(records) then before else before + [last]
  }

  function Later(a: string, b: string): string {
    if Less(a, b) then b else a
  }

  function LatestStamp(valid: seq<Record>): string {
    if valid == [] then "" else Later(LatestStamp(valid[..|valid| - 1]), Trim(valid[|valid| - 1].stamp))
  }

  function ValidOf(s: Stream): seq<Record> {
    if Trim(s.employeeId) == "" then [] else Valid(Trim(s.employeeId), s.events)
  }

  /** `insert_many` under the unique index on the identifier: what goes in before the first record whose
      identifier is taken. */
  function Inserted(records: seq<Record>, docs: seq<Record>): (r: seq<Record>)
    ensures |r| <= |docs|
  {
    if docs == [] then []
    else
      var before, last := Inserted(records, docs[..|docs| - 1]), docs[|docs| - 1];
      if |before| < |docs| - 1 || last.id in Ids(records) || last.id in Ids(before) then before else before + [last]
  }

  /** A record was refused, and the call raised. */
  predicate Refused(records: seq<Record>, docs: seq<Record>) {
    |Inserted(records, docs)| < |docs|
  }

  predicate StreamRaises(db: Db, s: Stream, dryRun: bool) {
    !dryRun && Refused(db.records, Unstored(ValidOf(s), db.records))
  }

  /** The stream row is written before the records. */
  function AfterStream(db: Db, s: Stream, dryRun: bool): Db {
    if ValidOf(s) == [] || dryRun then db
    else Db(db.records + Inserted(db.records, Unstored(ValidOf(s), db.records)),
            db.metas[Trim(s.employeeId) := StreamMeta(|ValidOf(s)|, LatestStamp(ValidOf(s)))])
  }

  function SummaryAfter(sofar: Summary, db: Db, s: Stream): Summary {
    if Trim(s.employeeId) == ""
      then sofar.(streamsScanned := sofar.streamsScanned + 1, withoutEmployee := sofar.withoutEmployee + 1)
    else
      var unstored := |Unstored(ValidOf(s), db.records)|;
      Summary(
        sofar.streamsScanned + 1, sofar.streamsBackfilled + if ValidOf(s) == [] then 0 else 1,
        sofar.eventsFound + |s.events|, sofar.written + unstored, sofar.existing + |ValidOf(s)| - unstored,
        sofar.duplicate + Repeated(Trim(s.employeeId), s.events),
        sofar.missing + MissingIds(s.events), sofar.withoutEmployee)
  }

  lemma {:induction false} ValidLength(employeeId: string, events: seq<Event>)
    ensures MissingIds(events) + |Valid(employeeId, events)| <= |events|
  {
    if events != [] { ValidLength(employeeId, events[..|events| - 1]); }
  }

  // ---- All streams ------------------------------------------------------------------------

  /** Where a run stands at its end, or where it raised. */
  function After(db: Db, streams: seq<Stream>, dryRun: bool): Db
    decreases |streams|
  {
    if streams == [] then db
    else
      var init, last := streams[..|streams| - 1], streams[|streams| - 1];
      if Raises(db, init, dryRun) then After(db, init, dryRun) else AfterStream(After(db, init, dryRun), last, dryRun)
  }

  predicate Raises(db: Db, streams: seq<Stream>, dryRun: bool)
    decreases |streams|
  {
    streams != [] && (
      || Raises(db, streams[..|streams| - 1], dryRun)
      || StreamRaises(After(db, streams[..|streams| - 1], dryRun), streams[|streams| - 1], dryRun))
  }

  function Summarised(db: Db, streams: seq<Stream>, dryRun: bool): Summary {
    if streams == [] then NOTHING
    else
      var before := streams[..|streams| - 1];
      SummaryAfter(Summarised(db, before, dryRun), After(db, before, dryRun), streams[|streams| - 1])
  }

  class Collections {
    var records: seq<Record>
    var metas: map<string, StreamMeta>

    function View(): Db reads this {
      Db(records, metas)
    }

    constructor (db: Db)
      ensures View() == db
    {
      records, metas := db.records, db.metas;
    }

    /** The inner loop: sorts the events of one stream into new, stored, repeated and unnamed. */
    method SortEvents(employeeId: string, events: seq<Event>)
        returns (valid: seq<Record>, unstored: seq<Record>, duplicate: nat, missing: nat)
      ensures valid == Valid(employeeId, events)
      ensures unstored == Unstored(valid, records)
      ensures missing == MissingIds(events)
      ensures duplicate == Repeated(employeeId, events) && |unstored| <= |valid|
    {
      hide Valid, Unstored, MissingIds, Trim, Keys, Ids;
      NoEvents(employeeId, records);
      valid, unstored, duplicate, missing := [], [], 0, 0;
      var seen: set<string> := {};
      var i := 0;
      while i < |events|
        invariant 0 <= i <= |events|
        invariant valid == Valid(employeeId, events[..i]) && unstored == Unstored(valid, records)
        invariant missing == MissingIds(events[..i]) && duplicate + missing + |valid| == i
        invariant forall k :: k in seen <==> k in Keys(valid)
      {
        ValidStep(employeeId, events, i);
        var e := events[i];
        i := i + 1;
        if !e.Event? {
          missing := missing + 1;
          continue;
        }
        var id := Trim(e.id);
        if id == "" {
          missing := missing + 1;
          continue;
        }
        if id in seen {
          duplicate := duplicate + 1;
          continue;
        }
        seen := seen + {id};
        var record := RecordOf(employeeId, e, i);
        KeysOfMore(valid, record);
        UnstoredStep(valid, record, records);
        InIds(records, id);
        valid := valid + [record];
        if exists j :: 0 <= j < |records| && records[j].id == id {
          continue;
        }
        unstored := unstored + [record];
      }
      assert events[..i] == events;
    }

    /** `backfill_service_event_records` over the streams the query selected; none where it raises. */
    method Backfill(streams: seq<Stream>, dryRun: bool) returns (r: Option<Summary>)
      modifies this
      ensures View() == After(old(View()), streams, dryRun)
      ensures r == if Raises(old(View()), streams, dryRun) then None else Some(Summarised(old(View()), streams, dryRun))
    {
      hide AfterStream, SummaryAfter, StreamRaises;
      var summary := NOTHING;
      ghost var db := View();
      var i := 0;
      while i < |streams|
        invariant 0 <= i <= |streams|
        invariant View() == After(db, streams[..i], dryRun) && !Raises(db, streams[..i], dryRun)
        invariant summary == Summarised(db, streams[..i], dryRun)
      {
        assert streams[..i + 1][..i] == streams[..i];
        var ok;
        summary, ok := BackfillStream(streams[i], dryRun, summary);
        i := i + 1;
        if !ok {
          RaisesForGood(db, streams, i, dryRun);
          return None;
        }
      }
      assert streams[..i] == streams;
      return Some(summary);
    }

    method BackfillStream(s: Stream, dryRun: bool, sofar: Summary) returns (summary: Summary, ok: bool)
      modifies this
      ensures View() == AfterStream(old(View()), s, dryRun)
      ensures ok <==> !StreamRaises(old(View()), s, dryRun)
      ensures summary == SummaryAfter(sofar, old(View()), s)
    {
      hide Trim, Valid, Unstored, MissingIds, LatestStamp, Repeated, Inserted;
      ok := true;
      summary := sofar.(streamsScanned := sofar.streamsScanned + 1);
      var employeeId := Trim(s.employeeId);
      NothingToInsert(records);
      if employeeId == "" {
        summary := summary.(withoutEmployee := summary.withoutEmployee + 1);
        return;
      }
      var valid, unstored, duplicate, missing := SortEvents(employeeId, s.events);
      assert valid == ValidOf(s);
      summary := Summary(
        summary.streamsScanned, summary.streamsBackfilled + if valid == [] then 0 else 1,
        summary.eventsFound + |s.events|,
        summary.written + |unstored|, summary.existing + |valid| - |unstored|, summary.duplicate + duplicate,
        summary.missing + missing, summary.withoutEmployee);
      if valid != [] && !dryRun {
        ok := Store(employeeId, valid, unstored);
      }
    }

    method Store(employeeId: string, valid: seq<Record>, unstored: seq<Record>) returns (ok: bool)
      modifies this
      ensures View() ==
        Db(old(records) + Inserted(old(records), unstored),
          old(metas)[employeeId := StreamMeta(|valid|, LatestStamp(valid))])
      ensures ok <==> !Refused(old(records), unstored)
    {
      metas := metas[employeeId := StreamMeta(|valid|, LatestStamp(valid))];
      if unstored == [] {
        NothingToInsert(records);
        return true;
      }
      ok := InsertMany(unstored);
    }

    /** Inserts in order and stops at the first record that the index refuses. */
    method InsertMany(docs: seq<Record>) returns (ok: bool)
      modifies this`records
      ensures records == old(records) + Inserted(old(records), docs)
      ensures ok <==> !Refused(old(records), docs)
    {
      var i := 0;
      NothingToInsert(records);
      while i < |docs|
        invariant 0 <= i <= |docs|
        invariant records == old(records) + Inserted(old(records), docs[..i])
          && |Inserted(old(records), docs[..i])| == i
      {
        assert docs[..i + 1][..i] == docs[..i];
        ConcatIds(old(records), Inserted(old(records), docs[..i]));
        InIds(records, docs[i].id);
        if exists j :: 0 <= j < |records| && records[j].id == docs[i].id {
          InsertedStops(old(records), docs, i + 1);
          return false;
        }
        records := records + [docs[i]];
        i := i + 1;
      }
      assert docs[..i] == docs;
      return true;
    }
  }

  lemma NothingToInsert(records: seq<Record>)
    ensures Inserted(records, []) == [] && records + [] == records
    ensures forall employeeId :: Unstored(Valid(employeeId, []), records) == []
  {
  }

  /** What was refused stays the end of the insertion. */
  lemma {:induction false} InsertedStops(records: seq<Record>, docs: seq<Record>, n: nat)
    requires n <= |docs| && |Inserted(records, docs[..n])| < n
    ensures Inserted(records, docs) == Inserted(records, docs[..n])
    decreases |docs|
  {
    if n == |docs| {
      assert docs[..n] == docs;
    } else {
      assert docs[..|docs| - 1][..n] == docs[..n];
      InsertedStops(records, docs[..|docs| - 1], n);
    }
  }

  /** A run that has raised is over. */
  lemma {:induction false} RaisesForGood(db: Db, streams: seq<Stream>, n: nat, dryRun: bool)
    requires n <= |streams| && Raises(db, streams[..n], dryRun)
    ensures Raises(db, streams, dryRun) && After(db, streams, dryRun) == After(db, streams[..n], dryRun)
    decreases |streams|
  {
    hide AfterStream, StreamRaises;
    if n == |streams| {
      assert streams[..n] == streams;
    } else {
      assert streams[..|streams| - 1][..n] == streams[..n];
      RaisesForGood(db, streams[..|streams| - 1], n, dryRun);
    }
  }

  lemma NoEvents(employeeId: string, records: seq<Record>)
    ensures Valid(employeeId, []) == [] && Unstored([], records) == [] && MissingIds([]) == 0 && Keys([]) == []
  {
  }

  lemma ValidStep(employeeId: string, events: seq<Event>, i: nat)
    requires i < |events|
    ensures var before, e := Valid(employeeId, events[..i]), events[i];
      Valid(employeeId, events[..i + 1]) ==
        if HasId(e) && Trim(e.id) !in Keys(before) then before + [RecordOf(employeeId, e, i + 1)] else before
    ensures MissingIds(events[..i + 1]) == MissingIds(events[..i]) + if HasId(events[i]) then 0 else 1
    ensures events[..|events|] == events
  {
    assert events[..i + 1][..i] == events[..i];
  }

  lemma UnstoredStep(valid: seq<Record>, r: Record, records: seq<Record>)
    ensures Unstored(valid + [r], records) ==
      if Trim(r.id) in Ids(records) then Unstored(valid, records) else Unstored(valid, records) + [r]
  {
    assert (valid + [r])[..|valid|] == valid;
  }

  lemma InIds(records: seq<Record>, id: string)
    ensures id in Ids(records) <==> exists j :: 0 <= j < |records| && records[j].id == id
  {
    if id in Ids(records) { var j :| 0 <= j < |records| && Ids(records)[j] == id; assert records[j].id == id; }
    if exists j :: 0 <= j < |records| && records[j].id == id {
      var j :| 0 <= j < |records| && records[j].id == id;
      assert Ids(records)[j] == id;
    }
  }

  lemma KeysOfMore(records: seq<Record>, r: Record)
    ensures Keys(records + [r]) == Keys(records) + [Trim(r.id)]
    ensures Ids(records + [r]) == Ids(records) + [r.id]
  {
  }

  // ---- Accounting ---------------------------------------------------------------------------

  /** Every event found is written, already stored, a repetition or without an identifier. */
  lemma {:induction false} EveryEventCounted(db: Db, streams: seq<Stream>, dryRun: bool)
    ensures var s := Summarised(db, streams, dryRun);
      && s.eventsFound == s.written + s.existing + s.duplicate + s.missing
      && s.streamsScanned == |streams|
  {
    if streams != [] { EveryEventCounted(db, streams[..|streams| - 1], dryRun); }
  }

  /** A dry run counts without writing. */
  lemma {:induction false} DryRunWritesNothing(db: Db, streams: seq<Stream>)
    ensures After(db, streams, true) == db && !Raises(db, streams, true)
  {
    if streams != [] { DryRunWritesNothing(db, streams[..|streams| - 1]); }
  }

  // ---- Sequences of identifiers -------------------------------------------------------------

  lemma {:induction false} NoRepeatsConcat(a: seq<string>, b: seq<string>)
    ensures NoRepeats(a + b) <==> NoRepeats(a) && NoRepeats(b) && forall x :: x in a ==> x !in b
  {
    var c := a + b;
    if NoRepeats(c) {
      forall i, j | 0 <= i < j < |a| ensures a[i] != a[j] { assert c[i] != c[j]; }
      forall i, j | 0 <= i < j < |b| ensures b[i] != b[j] { assert c[|a| + i] != c[|a| + j]; }
      forall x | x in a ensures x !in b {
        var i :| 0 <= i < |a| && a[i] == x;
        forall j | 0 <= j < |b| ensures b[j] != x { assert c[i] != c[|a| + j]; }
      }
    }
    if NoRepeats(a) && NoRepeats(b) && forall x :: x in a ==> x !in b {
      forall i, j | 0 <= i < j < |c| ensures c[i] != c[j] {
        if i < |a| <= j { assert c[i] in a && c[j] in b; }
      }
    }
  }

  lemma ConcatIds(a: seq<Record>, b: seq<Record>)
    ensures Ids(a + b) == Ids(a) + Ids(b) && Keys(a + b) == Keys(a) + Keys(b)
  {
  }

  lemma SplitLast(a: seq<Record>)
    requires a != []
    ensures Ids(a) == Ids(a[..|a| - 1]) + [a[|a| - 1].id] && Keys(a) == Keys(a[..|a| - 1]) + [Trim(a[|a| - 1].id)]
  {
    assert a == a[..|a| - 1] + [a[|a| - 1]];
    KeysOfMore(a[..|a| - 1], a[|a| - 1]);
  }

  lemma IdsHaveKeys(records: seq<Record>, id: string)
    ensures id in Ids(records) ==> Trim(id) in Keys(records)
  {
    if id in Ids(records) {
      var i :| 0 <= i < |records| && Ids(records)[i] == id;
      assert Keys(records)[i] == Trim(id);
    }
  }

  /** The identifiers of one stream's events, in order, repetitions included. */
  function EventIds(events: seq<Event>): seq<string> {
    if events == [] then []
    else EventIds(events[..|events| - 1]) + if HasId(events[|events| - 1]) then [Trim(events[|events| - 1].id)] else []
  }

  lemma {:induction false} ValidKeys(employeeId: string, events: seq<Event>)
    ensures NoRepeats(Keys(Valid(employeeId, events)))
    ensures forall k :: k in Keys(Valid(employeeId, events)) <==> k in EventIds(events)
    ensures NoRepeats(EventIds(events)) ==> Keys(Valid(employeeId, events)) == EventIds(events)
    ensures "" !in EventIds(events)
  {
    hide Trim;
    if events != [] {
      var init, e := events[..|events| - 1], events[|events| - 1];
      ValidKeys(employeeId, init);
      var before := Valid(employeeId, init);
      if HasId(e) {
        var r := RecordOf(employeeId, e, |events|);
        KeysOfMore(before, r);
        NoRepeatsConcat(Keys(before), [Trim(e.id)]);
        NoRepeatsConcat(EventIds(init), [Trim(e.id)]);
        assert EventIds(events) == EventIds(init) + [Trim(e.id)] && Trim(e.id) in [Trim(e.id)];
      } else {
        assert EventIds(events) == EventIds(init);
      }
    }
  }

  // ---- Every stream that has an employee -------------------------------------------------------

  function AllValid(streams: seq<Stream>): seq<Record> {
    if streams == [] then [] else AllValid(streams[..|streams| - 1]) + ValidOf(streams[|streams| - 1])
  }

  lemma {:induction false} UnstoredIds(valid: seq<Record>, records: seq<Record>, t: string)
    ensures t in Ids(Unstored(valid, records)) ==> t in Ids(valid)
    ensures t in Ids(valid) && Trim(t) == t ==> t in Ids(Unstored(valid, records)) || t in Ids(records)
    ensures t in Keys(Unstored(valid, records)) ==> t in Keys(valid)
    ensures t in Keys(valid) ==> t in Keys(Unstored(valid, records)) || t in Keys(records)
  {
    hide Trim;
    if valid != [] {
      var init, last := valid[..|valid| - 1], valid[|valid| - 1];
      UnstoredIds(init, records, t);
      SplitLast(valid);
      TrimTwice(last.id);
      if Trim(last.id) in Ids(records) {
        IdsHaveKeys(records, Trim(last.id));
      } else {
        KeysOfMore(Unstored(init, records), last);
      }
    }
  }

  lemma TrimTwice(s: string)
    ensures Trim(Trim(s)) == Trim(s)
  {
    TrimIsTrimmed(s);
  }

  lemma StreamIds(db: Db, s: Stream, t: string)
    requires !StreamRaises(db, s, false)
    ensures t in Keys(AfterStream(db, s, false).records) <==> t in Keys(db.records) || t in Keys(ValidOf(s))
    ensures Trim(t) == t ==>
      (t in Ids(AfterStream(db, s, false).records) <==> t in Ids(db.records) || t in Ids(ValidOf(s)))
  {
    hide Trim, ValidOf, Unstored, Inserted;
    var docs := Unstored(ValidOf(s), db.records);
    InsertedIsPrefix(db.records, docs);
    ConcatIds(db.records, docs);
    UnstoredIds(ValidOf(s), db.records, t);
  }

  lemma {:induction false} InsertedIsPrefix(records: seq<Record>, docs: seq<Record>)
    ensures Inserted(records, docs) <= docs
    ensures !Refused(records, docs) ==> Inserted(records, docs) == docs
  {
    if docs != [] {
      InsertedIsPrefix(records, docs[..|docs| - 1]);
      assert docs == docs[..|docs| - 1] + [docs[|docs| - 1]];
    }
  }

  /** After a run that does not raise the stored identifiers are the old ones and those of the legacy events,
      as far as identifiers without surrounding blanks go; with blanks stripped, without exception. */
  lemma {:induction false} IdsAfter(db: Db, streams: seq<Stream>, t: string)
    requires !Raises(db, streams, false)
    ensures t in Keys(After(db, streams, false).records) <==> t in Keys(db.records) || t in Keys(AllValid(streams))
    ensures Trim(t) == t ==>
      (t in Ids(After(db, streams, false).records) <==> t in Ids(db.records) || t in Ids(AllValid(streams)))
  {
    hide Trim, ValidOf, AfterStream, StreamRaises;
    if streams != [] {
      var init, last := streams[..|streams| - 1], streams[|streams| - 1];
      IdsAfter(db, init, t);
      StreamIds(After(db, init, false), last, t);
      ConcatIds(AllValid(init), ValidOf(last));
    }
  }

  /** The index keeps identifiers unique, in every run and wherever it raises. */
  lemma {:induction false} InsertedUnique(records: seq<Record>, docs: seq<Record>)
    requires NoRepeats(Ids(records))
    ensures NoRepeats(Ids(records + Inserted(records, docs)))
  {
    var r := Inserted(records, docs);
    ConcatIds(records, r);
    if docs == [] {
      assert records + r == records;
    } else {
      var before, last := Inserted(records, docs[..|docs| - 1]), docs[|docs| - 1];
      InsertedUnique(records, docs[..|docs| - 1]);
      if r != before {
        ConcatIds(records, before);
        KeysOfMore(records + before, last);
        assert records + r == records + before + [last];
        NoRepeatsConcat(Ids(records + before), [last.id]);
      }
    }
  }

  lemma {:induction false} IdsStayUnique(db: Db, streams: seq<Stream>, dryRun: bool)
    requires NoRepeats(Ids(db.records))
    ensures NoRepeats(Ids(After(db, streams, dryRun).records))
  {
    hide Trim, ValidOf, Unstored, Inserted, NoRepeats;
    if streams != [] {
      var init, last := streams[..|streams| - 1], streams[|streams| - 1];
      IdsStayUnique(db, init, dryRun);
      var before := After(db, init, dryRun);
      InsertedUnique(before.records, Unstored(ValidOf(last), before.records));
    }
  }

  // ---- When a run raises ---------------------------------------------------------------------------

  predicate TrimmedIds(records: seq<Record>) {
    forall i :: 0 <= i < |records| ==> Trim(records[i].id) == records[i].id
  }

  /** New identifiers that differ from each other all go in. */
  lemma {:induction false} InsertedAll(records: seq<Record>, docs: seq<Record>)
    requires NoRepeats(Ids(docs)) && forall t :: t in Ids(docs) ==> t !in Ids(records)
    ensures Inserted(records, docs) == docs
  {
    if docs != [] {
      var init, last := docs[..|docs| - 1], docs[|docs| - 1];
      SplitLast(docs);
      NoRepeatsConcat(Ids(init), [last.id]);
      InsertedAll(records, init);
      assert docs == init + [last] && last.id in [last.id];
    }
  }

  lemma {:induction false} UnstoredUnique(valid: seq<Record>, records: seq<Record>)
    requires TrimmedIds(valid) && NoRepeats(Keys(valid))
    ensures NoRepeats(Ids(Unstored(valid, records)))
    ensures forall t :: t in Ids(Unstored(valid, records)) ==> t !in Ids(records) && t in Ids(valid)
  {
    hide Trim;
    if valid != [] {
      var init, last := valid[..|valid| - 1], valid[|valid| - 1];
      SplitLast(valid);
      NoRepeatsConcat(Keys(init), [Trim(last.id)]);
      UnstoredUnique(init, records);
      assert Keys(init) == Ids(init);
      KeysOfMore(Unstored(init, records), last);
      NoRepeatsConcat(Ids(Unstored(init, records)), [last.id]);
    }
  }

  /** Identifiers without surrounding blanks never make a run raise, whatever is stored. */
  lemma {:induction false} TrimmedNeverRaises(db: Db, streams: seq<Stream>)
    requires TrimmedIds(AllValid(streams))
    ensures !Raises(db, streams, false)
  {
    hide Trim, ValidOf, AfterStream, StreamRaises;
    if streams != [] {
      var init, last := streams[..|streams| - 1], streams[|streams| - 1];
      var all := AllValid(init) + ValidOf(last);
      assert forall i :: 0 <= i < |AllValid(init)| ==> AllValid(init)[i] == all[i];
      assert forall i :: 0 <= i < |ValidOf(last)| ==> ValidOf(last)[i] == all[|AllValid(init)| + i];
      TrimmedNeverRaises(db, init);
      TrimmedStream(After(db, init, false), last);
    }
  }

  lemma TrimmedStream(db: Db, s: Stream)
    requires TrimmedIds(ValidOf(s))
    ensures !StreamRaises(db, s, false)
  {
    hide Trim, Valid, Unstored, Inserted;
    ValidKeys(Trim(s.employeeId), s.events);
    UnstoredUnique(ValidOf(s), db.records);
    InsertedAll(db.records, Unstored(ValidOf(s), db.records));
  }

  // ---- The second run ------------------------------------------------------------------------------

  /** Every record has its identifier stored, stripped or as it is. */
  predicate AllStored(valid: seq<Record>, records: seq<Record>) {
    forall i :: 0 <= i < |valid| ==> Trim(valid[i].id) in Ids(records) || valid[i].id in Ids(records)
  }

  /** Where everything is stored as it is, nothing goes in. */
  lemma {:induction false} InsertedNone(records: seq<Record>, docs: seq<Record>)
    requires forall i :: 0 <= i < |docs| ==> docs[i].id in Ids(records)
    ensures Inserted(records, docs) == []
  {
    if docs != [] { InsertedNone(records, docs[..|docs| - 1]); }
  }

  lemma {:induction false} UnstoredNone(valid: seq<Record>, records: seq<Record>)
    ensures Unstored(valid, records) == [] <==> forall k :: k in Keys(valid) ==> k in Ids(records)
    ensures AllStored(valid, records) ==>
      forall i :: 0 <= i < |Unstored(valid, records)| ==> Unstored(valid, records)[i].id in Ids(records)
  {
    hide Trim;
    if valid != [] {
      UnstoredNone(valid[..|valid| - 1], records);
      SplitLast(valid);
    }
  }

  lemma {:induction false} UnstoredMembers(valid: seq<Record>, records: seq<Record>, i: nat)
    requires i < |valid|
    ensures Trim(valid[i].id) in Ids(records) || valid[i].id in Ids(Unstored(valid, records))
  {
    hide Trim;
    var init, last := valid[..|valid| - 1], valid[|valid| - 1];
    if i < |init| { UnstoredMembers(init, records, i); }
    KeysOfMore(Unstored(init, records), last);
  }

  lemma StreamStores(db: Db, s: Stream)
    requires !StreamRaises(db, s, false)
    ensures AllStored(ValidOf(s), AfterStream(db, s, false).records)
    ensures forall t :: t in Ids(db.records) ==> t in Ids(AfterStream(db, s, false).records)
  {
    hide Trim, ValidOf, Unstored, Inserted;
    var docs := Unstored(ValidOf(s), db.records);
    InsertedIsPrefix(db.records, docs);
    ConcatIds(db.records, docs);
    forall i | 0 <= i < |ValidOf(s)|
      ensures Trim(ValidOf(s)[i].id) in Ids(db.records + docs) || ValidOf(s)[i].id in Ids(db.records + docs)
    {
      UnstoredMembers(ValidOf(s), db.records, i);
    }
  }

  lemma {:induction false} RunStores(db: Db, streams: seq<Stream>)
    requires !Raises(db, streams, false)
    ensures AllStored(AllValid(streams), After(db, streams, false).records)
  {
    hide Trim, ValidOf, AfterStream, StreamRaises;
    if streams != [] {
      var init, last := streams[..|streams| - 1], streams[|streams| - 1];
      RunStores(db, init);
      StreamStores(After(db, init, false), last);
    }
  }

  /** A run over what is stored writes no record, and raises at the first identifier that is stored with its
      blanks only. */
  lemma {:induction false} RunAgain(db: Db, streams: seq<Stream>)
    requires AllStored(AllValid(streams), db.records)
    ensures After(db, streams, false).records == db.records
    ensures Raises(db, streams, false) <==> exists k :: k in Keys(AllValid(streams)) && k !in Ids(db.records)
    ensures !Raises(db, streams, false) ==> Summarised(db, streams, false).written == 0
  {
    hide Trim, ValidOf, AfterStream, StreamRaises, SummaryAfter, Keys, Ids;
    if streams != [] {
      var init, last := streams[..|streams| - 1], streams[|streams| - 1];
      var all := AllValid(init) + ValidOf(last);
      assert forall i :: 0 <= i < |AllValid(init)| ==> AllValid(init)[i] == all[i];
      assert forall i :: 0 <= i < |ValidOf(last)| ==> ValidOf(last)[i] == all[|AllValid(init)| + i];
      RunAgain(db, init);
      ConcatIds(AllValid(init), ValidOf(last));
      var before := After(db, init, false);
      StreamAgain(before, last, Summarised(db, init, false));
    }
    NoKeysAtAll();
  }

  lemma NoKeysAtAll()
    ensures Keys([]) == []
  {
  }

  lemma StreamAgain(db: Db, s: Stream, sofar: Summary)
    requires AllStored(ValidOf(s), db.records)
    ensures AfterStream(db, s, false).records == db.records
    ensures StreamRaises(db, s, false) <==> exists k :: k in Keys(ValidOf(s)) && k !in Ids(db.records)
    ensures !StreamRaises(db, s, false) ==> SummaryAfter(sofar, db, s).written == sofar.written
  {
    hide Trim, Valid, Unstored, Inserted, Keys, Ids, Repeated, MissingIds;
    UnstoredNone(ValidOf(s), db.records);
    InsertedNone(db.records, Unstored(ValidOf(s), db.records));
    assert db.records + [] == db.records;
  }

  /** After a run that did not raise, a second run writes no record. It raises exactly when some legacy
      identifier, stripped, is neither stored before the first run nor occurs without blanks among the
      events that count. With trimmed identifiers it never does. */
  lemma SecondRunIdle(db: Db, streams: seq<Stream>)
    requires !Raises(db, streams, false)
    ensures var again := After(db, streams, false);
      && After(again, streams, false).records == again.records
      && (!Raises(again, streams, false) ==> Summarised(again, streams, false).written == 0)
      && (Raises(again, streams, false) <==>
          exists k :: k in Keys(AllValid(streams)) && k !in Ids(db.records) && k !in Ids(AllValid(streams)))
    ensures TrimmedIds(AllValid(streams)) ==> !Raises(After(db, streams, false), streams, false)
  {
    hide After, Summarised, AllValid, Trim, Raises, AllStored;
    var again := After(db, streams, false);
    RunStores(db, streams);
    RunAgain(again, streams);
    forall k | k in Keys(AllValid(streams))
      ensures k in Ids(again.records) <==> k in Ids(db.records) || k in Ids(AllValid(streams))
    {
      KeyIsTrimmed(AllValid(streams), k);
      IdsAfter(db, streams, k);
    }
    if TrimmedIds(AllValid(streams)) { TrimmedNeverRaises(again, streams); }
  }

  lemma TrimExamples()
    ensures Trim("e") == "e" && Trim(" a") == "a"
  {
    assert TrimLeft(" a") == TrimLeft("a") == "a";
  }

  /** One event whose identifier carries a blank: the first run stores it, and every later run raises on it,
      leaving the records as they are. */
  lemma PaddedIdStopsTheSecondRun()
    ensures var streams := [Stream("e", [Event(" a", "", "", "", "", "")])];
      var stored := After(EMPTY, streams, false);
      && !Raises(EMPTY, streams, false) && Ids(stored.records) == [" a"]
      && Raises(stored, streams, false) && After(stored, streams, false).records == stored.records
  {
    hide Trim, After, Raises, AllValid;
    TrimExamples();
    var e := Event(" a", "", "", "", "", "");
    var s := Stream("e", [e]);
    assert [e][..0] == [];
    assert Valid("e", [e]) == [RecordOf("e", e, 1)] && ValidOf(s) == Valid("e", [e]);
    OneRecord(s, RecordOf("e", e, 1));
    assert Keys(AllValid([s]))[0] == "a" && Ids(AllValid([s])) == [" a"];
    assert "a" in Keys(AllValid([s])) && "a" !in Ids(EMPTY.records) && "a" !in Ids(AllValid([s])) by {
      assert |"a"| == 1 && |" a"| == 2;
    }
    SecondRunIdle(EMPTY, [s]);
  }

  lemma OneRecord(s: Stream, r: Record)
    requires ValidOf(s) == [r]
    ensures AllValid([s]) == [r] && !Raises(EMPTY, [s], false) && After(EMPTY, [s], false).records == [r]
  {
    hide Trim, ValidOf;
    assert [s][..0] == [] && [r][..0] == [];
    assert Unstored([r], []) == [r] && Inserted([], [r]) == [r];
  }

  lemma KeyIsTrimmed(records: seq<Record>, k: string)
    requires k in Keys(records)
    ensures Trim(k) == k
  {
    var i :| 0 <= i < |records| && Keys(records)[i] == k;
    TrimTwice(records[i].id);
  }

  // ---- What a record says --------------------------------------------------------------------------

  /** A record tells of event `p` of a stream, which is the first there under its stripped identifier. */
  ghost predicate TellsOf(r: Record, s: Stream, p: nat) {
    && p < |s.events| && s.events[p].Event?
    && r.id == s.events[p].id && Trim(r.id) != "" && r.sequence == p + 1
    && r.employeeId == Trim(s.employeeId) && r.employeeId != "" && r.stamp == s.events[p].stamp
    && (if s.events[p].rangeFrom != "" then r.effectiveFrom == s.events[p].rangeFrom
        else r.effectiveFrom == s.events[p].from)
    && (if s.events[p].rangeTo != "" then r.effectiveTo == s.events[p].rangeTo else r.effectiveTo == s.events[p].to)
    && forall q :: 0 <= q < p && s.events[q].Event? ==> Trim(s.events[q].id) != Trim(r.id)
  }

  lemma {:induction false} ValidTells(s: Stream, n: nat)
    requires n <= |s.events| && Trim(s.employeeId) != ""
    ensures forall r :: r in Valid(Trim(s.employeeId), s.events[..n]) ==> exists p: nat :: p < n && TellsOf(r, s, p)
    ensures forall p :: 0 <= p < n && HasId(s.events[p]) ==>
      Trim(s.events[p].id) in Keys(Valid(Trim(s.employeeId), s.events[..n]))
  {
    hide Trim;
    if n > 0 {
      var before, e := Valid(Trim(s.employeeId), s.events[..n - 1]), s.events[n - 1];
      ValidTells(s, n - 1);
      assert s.events[..n][..n - 1] == s.events[..n - 1];
      if HasId(e) && Trim(e.id) !in Keys(before) {
        var r := RecordOf(Trim(s.employeeId), e, n);
        KeysOfMore(before, r);
        forall q | 0 <= q < n - 1 && s.events[q].Event? ensures Trim(s.events[q].id) != Trim(r.id) {
          assert Trim(s.events[q].id) != "" ==> HasId(s.events[q]);
        }
        assert TellsOf(r, s, n - 1);
      }
    }
  }

  lemma {:induction false} InsertedFrom(records: seq<Record>, docs: seq<Record>, r: Record)
    requires r in Inserted(records, docs)
    ensures r in docs
  {
    if docs != [] && r !in Inserted(records, docs[..|docs| - 1]) { assert r == docs[|docs| - 1]; }
    else if docs != [] { InsertedFrom(records, docs[..|docs| - 1], r); }
  }

  lemma {:induction false} UnstoredFrom(valid: seq<Record>, records: seq<Record>, r: Record)
    requires r in Unstored(valid, records)
    ensures r in valid && Trim(r.id) !in Ids(records)
  {
    hide Trim, Ids;
    if r in Unstored(valid[..|valid| - 1], records) { UnstoredFrom(valid[..|valid| - 1], records, r); }
  }

  /** Every record that a run has written, wherever it stopped, tells of an event of one of the streams. */
  lemma {:induction false} RecordsTell(db: Db, streams: seq<Stream>, dryRun: bool, r: Record)
    requires r in After(db, streams, dryRun).records && r !in db.records
    ensures exists i: nat, p: nat :: i < |streams| && TellsOf(r, streams[i], p)
  {
    hide Trim, Valid, Unstored, Inserted, TellsOf;
    if streams != [] {
      var n := |streams| - 1;
      var before := After(db, streams[..n], dryRun);
      if r in before.records {
        RecordsTell(db, streams[..n], dryRun, r);
        var i: nat, p: nat :| i < n && TellsOf(r, streams[..n][i], p);
        assert TellsOf(r, streams[i], p);
      } else {
        InsertedFrom(before.records, Unstored(ValidOf(streams[n]), before.records), r);
        UnstoredFrom(ValidOf(streams[n]), before.records, r);
        assert streams[n].events[..|streams[n].events|] == streams[n].events;
        ValidTells(streams[n], |streams[n].events|);
        var p: nat :| p < |streams[n].events| && TellsOf(r, streams[n], p);
        assert TellsOf(r, streams[n], p);
      }
    }
  }

  /** The stripped identifiers of the first events of a stream, and of all of them. */
  ghost function IdsUpTo(s: Stream, n: nat): set<string>
    requires n <= |s.events|
  {
    set p | 0 <= p < n && s.events[p].Event? && Trim(s.events[p].id) != "" :: Trim(s.events[p].id)
  }

  ghost function IdsIn(s: Stream): set<string> {
    IdsUpTo(s, |s.events|)
  }

  /** The stream row counts the identifiers of the stream and bears the latest stamp of their first events. */
  lemma {:induction false} StreamRowTells(db: Db, s: Stream)
    requires Trim(s.employeeId) != ""
    ensures var after := AfterStream(db, s, false).metas;
      if IdsIn(s) == {} then after == db.metas
      else
        && after.Keys == db.metas.Keys + {Trim(s.employeeId)}
        && (forall e :: e in db.metas && e != Trim(s.employeeId) ==> after[e] == db.metas[e])
        && after[Trim(s.employeeId)].eventCount == |IdsIn(s)|
        && (forall r, p: nat :: TellsOf(r, s, p) ==> LessEq(Trim(r.stamp), after[Trim(s.employeeId)].updatedAt))
        && exists r, p: nat :: TellsOf(r, s, p) && after[Trim(s.employeeId)].updatedAt == Trim(r.stamp)
  {
    hide Trim, Valid, Unstored, Inserted, TellsOf, LatestStamp;
    var n := |s.events|;
    assert s.events[..n] == s.events;
    ValidTells(s, n);
    ValidCounts(s);
    var valid := ValidOf(s);
    if valid != [] {
      LatestIsLast(valid);
      forall r, p: nat | TellsOf(r, s, p) ensures LessEq(Trim(r.stamp), LatestStamp(valid)) {
        TellsIsValid(s, r, p);
      }
      var r :| r in valid && LatestStamp(valid) == Trim(r.stamp);
      var p: nat :| p < n && TellsOf(r, s, p);
    }
  }

  lemma {:induction false} LatestIsLast(valid: seq<Record>)
    requires valid != []
    ensures forall r :: r in valid ==> LessEq(Trim(r.stamp), LatestStamp(valid))
    ensures exists r :: r in valid && LatestStamp(valid) == Trim(r.stamp)
  {
    hide Trim, Less;
    var init, last := valid[..|valid| - 1], valid[|valid| - 1];
    LessTotal("", Trim(last.stamp));
    if init != [] {
      LatestIsLast(init);
      var old_, x := LatestStamp(init), Trim(last.stamp);
      forall r | r in valid ensures LessEq(Trim(r.stamp), LatestStamp(valid)) {
        LessEqIsTotalOrder(Trim(r.stamp), old_, x);
        LessEqIsTotalOrder(old_, x, x);
      }
      if LatestStamp(valid) == x { assert last in valid; }
    } else {
      assert valid == [last] && LatestStamp(init) == "";
      EmptyFirst(Trim(last.stamp));
    }
  }

  lemma EmptyFirst(t: string)
    ensures LessEq("", t) && LessEq(t, t)
  {
  }

  /** What tells of an event of a stream is one of its valid records. */
  lemma {:induction false} TellsIsValid(s: Stream, r: Record, p: nat)
    requires TellsOf(r, s, p)
    ensures r in ValidOf(s)
  {
    hide Trim, Keys;
    var n := p + 1;
    var before, e := Valid(Trim(s.employeeId), s.events[..p]), s.events[p];
    ValidTells(s, p);
    if Trim(e.id) in Keys(before) { KeyFromEvent(s, p, Trim(e.id)); }
    assert s.events[..n][..p] == s.events[..p];
    assert r == RecordOf(Trim(s.employeeId), e, n);
    assert r in Valid(Trim(s.employeeId), s.events[..n]);
    ValidGrows(Trim(s.employeeId), s.events, n, r);
    assert s.events[..|s.events|] == s.events;
  }

  lemma KeyHasRecord(records: seq<Record>, k: string)
    requires k in Keys(records)
    ensures exists r :: r in records && Trim(r.id) == k
  {
    hide Trim;
    var i :| 0 <= i < |records| && Keys(records)[i] == k;
    assert records[i] in records;
  }

  /** The keys of the valid records are the stripped identifiers of the events so far. */
  lemma {:induction false} KeyFromEvent(s: Stream, n: nat, k: string)
    requires n <= |s.events| && Trim(s.employeeId) != "" && k in Keys(Valid(Trim(s.employeeId), s.events[..n]))
    ensures k in IdsUpTo(s, n)
  {
    hide Trim, Keys, Valid;
    var before := Valid(Trim(s.employeeId), s.events[..n]);
    KeyHasRecord(before, k);
    ValidTells(s, n);
    var b :| b in before && Trim(b.id) == k;
    var q: nat :| q < n && TellsOf(b, s, q);
  }

  lemma {:induction false} ValidGrows(employeeId: string, events: seq<Event>, n: nat, r: Record)
    requires n <= |events| && r in Valid(employeeId, events[..n])
    ensures r in Valid(employeeId, events)
    decreases |events|
  {
    hide Trim, Keys;
    if n == |events| {
      assert events[..n] == events;
    } else {
      var init := events[..|events| - 1];
      assert init[..n] == events[..n];
      ValidGrows(employeeId, init, n, r);
    }
  }

  lemma {:induction false} ValidCounts(s: Stream)
    requires Trim(s.employeeId) != ""
    ensures |ValidOf(s)| == |IdsIn(s)|
  {
    hide Trim;
    assert s.events[..|s.events|] == s.events;
    ValidCountsTo(s, |s.events|);
  }

  lemma {:induction false} ValidCountsTo(s: Stream, n: nat)
    requires n <= |s.events| && Trim(s.employeeId) != ""
    ensures |Valid(Trim(s.employeeId), s.events[..n])| == |IdsUpTo(s, n)|
  {
    hide Trim, Keys, IdsUpTo;
    if n == 0 {
      NoIdsYet(s);
    } else {
      var before, e := Valid(Trim(s.employeeId), s.events[..n - 1]), s.events[n - 1];
      ValidCountsTo(s, n - 1);
      ValidTells(s, n - 1);
      IdsOneMore(s, n);
      assert s.events[..n][..n - 1] == s.events[..n - 1];
      if HasId(e) && Trim(e.id) in Keys(before) {
        KeyFromEvent(s, n - 1, Trim(e.id));
        assert IdsUpTo(s, n) == IdsUpTo(s, n - 1);
      } else if HasId(e) {
        NotAmongIds(s, n - 1, Trim(e.id));
      }
    }
  }

  lemma {:induction false} NoIdsYet(s: Stream)
    ensures IdsUpTo(s, 0) == {}
  {
  }

  lemma {:induction false} IdsOneMore(s: Stream, n: nat)
    requires 0 < n <= |s.events|
    ensures IdsUpTo(s, n) == IdsUpTo(s, n - 1) + if HasId(s.events[n - 1]) then {Trim(s.events[n - 1].id)} else {}
  {
    hide Trim;
  }

  lemma {:induction false} NotAmongIds(s: Stream, n: nat, k: string)
    requires n <= |s.events| && Trim(s.employeeId) != "" && k !in Keys(Valid(Trim(s.employeeId), s.events[..n]))
    ensures k !in IdsUpTo(s, n)
  {
    hide Trim, Keys, Valid;
    ValidTells(s, n);
    assert forall p :: 0 <= p < n && s.events[p].Event? && Trim(s.events[p].id) != "" ==> HasId(s.events[p]);
  }

  // ---- The check afterwards -------------------------------------------------------------------------

  /** All legacy identifiers, in order, of the streams with an employee and of the others. */
  function LegacyIds(streams: seq<Stream>): seq<string> {
    if streams == [] then [] else LegacyIds(streams[..|streams| - 1]) + EventIds(streams[|streams| - 1].events)
  }

  function LegacyMissing(streams: seq<Stream>): nat {
    if streams == [] then 0 else LegacyMissing(streams[..|streams| - 1]) + MissingIds(streams[|streams| - 1].events)
  }

  /** The number of identified events by employee; of two streams of one employee the later counts. */
  function LegacyCounts(streams: seq<Stream>): map<string, nat> {
    if streams == [] then map[]
    else
      var before, s := LegacyCounts(streams[..|streams| - 1]), streams[|streams| - 1];
      if Trim(s.employeeId) != "" && EventIds(s.events) != [] then before[Trim(s.employeeId) := |EventIds(s.events)|]
      else before
  }

  function NamedKeys(records: seq<Record>): seq<string> {
    if records == [] then []
    else NamedKeys(records[..|records| - 1]) + if Trim(records[|records| - 1].id) == "" then []
      else [Trim(records[|records| - 1].id)]
  }

  datatype Checks = Checks(
    allBackfilled: bool, noOrphans: bool, legacyUnique: bool, recordsUnique: bool, haveIds: bool,
    metaPresent: bool, metaCountsMatch: bool)

  predicate AllPass(c: Checks) {
    c.allBackfilled && c.noOrphans && c.legacyUnique && c.recordsUnique && c.haveIds && c.metaPresent
      && c.metaCountsMatch
  }

  function DataChecks(db: Db, streams: seq<Stream>): Checks {
    var legacy, stored, counts := LegacyIds(streams), NamedKeys(db.records), LegacyCounts(streams);
    Checks(
      forall i :: 0 <= i < |legacy| ==> legacy[i] in stored,
      forall i :: 0 <= i < |stored| ==> stored[i] in legacy,
      NoRepeats(legacy), NoRepeats(stored), LegacyMissing(streams) == 0,
      forall e :: e in counts ==> e in db.metas,
      forall e :: e in counts ==> e in db.metas && db.metas[e].eventCount == counts[e])
  }

  /** The data checks of `verify_service_event_records_cutover`. */
  method VerifyCutover(db: Db, streams: seq<Stream>) returns (c: Checks)
    ensures c == DataChecks(db, streams)
  {
    hide Trim, EventIds, MissingIds, NamedKeys, NoRepeats;
    var legacy: seq<string>, counts: map<string, nat>, missing := [], map[], 0;
    var i := 0;
    while i < |streams|
      invariant 0 <= i <= |streams|
      invariant legacy == LegacyIds(streams[..i]) && counts == LegacyCounts(streams[..i])
        && missing == LegacyMissing(streams[..i])
    {
      assert streams[..i + 1][..i] == streams[..i];
      var found, unnamed := CountEvents(streams[i].events);
      legacy, missing := legacy + found, missing + unnamed;
      if Trim(streams[i].employeeId) != "" && |found| != 0 {
        counts := counts[Trim(streams[i].employeeId) := |found|];
      }
      i := i + 1;
    }
    assert streams[..i] == streams;
    var stored := NamedKeys(db.records);
    c := Checks(
      forall k :: 0 <= k < |legacy| ==> legacy[k] in stored,
      forall k :: 0 <= k < |stored| ==> stored[k] in legacy,
      NoRepeats(legacy), NoRepeats(stored), missing == 0,
      forall e :: e in counts ==> e in db.metas,
      forall e :: e in counts ==> e in db.metas && db.metas[e].eventCount == counts[e]);
  }

  method CountEvents(events: seq<Event>) returns (found: seq<string>, unnamed: nat)
    ensures found == EventIds(events) && unnamed == MissingIds(events)
  {
    found, unnamed := [], 0;
    var i := 0;
    while i < |events|
      invariant 0 <= i <= |events|
      invariant found == EventIds(events[..i]) && unnamed == MissingIds(events[..i])
    {
      assert events[..i + 1][..i] == events[..i];
      if HasId(events[i]) { found := found + [Trim(events[i].id)]; } else { unnamed := unnamed + 1; }
      i := i + 1;
    }
    assert events[..i] == events;
  }

  /** No identified event lies in a stream without an employee. */
  predicate AllOwned(streams: seq<Stream>) {
    forall i :: 0 <= i < |streams| ==> Trim(streams[i].employeeId) == "" ==> EventIds(streams[i].events) == []
  }

  lemma {:induction false} OwnedKeys(streams: seq<Stream>)
    ensures forall k :: k in Keys(AllValid(streams)) ==> k in LegacyIds(streams)
    ensures AllOwned(streams) ==> forall k :: k in LegacyIds(streams) ==> k in Keys(AllValid(streams))
    ensures "" !in LegacyIds(streams)
  {
    hide Trim, Valid, EventIds;
    if streams != [] {
      var init, last := streams[..|streams| - 1], streams[|streams| - 1];
      OwnedKeys(init);
      ValidKeys(Trim(last.employeeId), last.events);
      ConcatIds(AllValid(init), ValidOf(last));
      assert AllOwned(streams) ==> AllOwned(init);
    }
  }

  /** If no identifier repeats and every one is backfilled, every one has an employee. */
  lemma {:induction false} BackfilledAreOwned(streams: seq<Stream>)
    requires NoRepeats(LegacyIds(streams))
    requires forall k :: k in LegacyIds(streams) ==> k in Keys(AllValid(streams))
    ensures AllOwned(streams)
  {
    hide Trim, Valid, EventIds;
    if streams != [] {
      var init, last := streams[..|streams| - 1], streams[|streams| - 1];
      var ids := EventIds(last.events);
      NoRepeatsConcat(LegacyIds(init), ids);
      OwnedKeys(init);
      ValidKeys(Trim(last.employeeId), last.events);
      ConcatIds(AllValid(init), ValidOf(last));
      forall k | k in LegacyIds(init) ensures k in Keys(AllValid(init)) { assert k in LegacyIds(streams); }
      BackfilledAreOwned(init);
      assert ids != [] ==> ids[0] in ids && ids[0] in LegacyIds(streams);
    }
  }

  lemma {:induction false} UnstoredKeysUnique(valid: seq<Record>, records: seq<Record>)
    requires NoRepeats(Keys(valid))
    ensures NoRepeats(Keys(Unstored(valid, records)))
    ensures forall k :: k in Keys(Unstored(valid, records)) ==> k in Keys(valid)
  {
    hide Trim;
    if valid != [] {
      var init, last := valid[..|valid| - 1], valid[|valid| - 1];
      SplitLast(valid);
      NoRepeatsConcat(Keys(init), [Trim(last.id)]);
      UnstoredKeysUnique(init, records);
      KeysOfMore(Unstored(init, records), last);
      NoRepeatsConcat(Keys(Unstored(init, records)), [Trim(last.id)]);
    }
  }

  lemma IdsFromKeys(docs: seq<Record>, records: seq<Record>)
    requires NoRepeats(Keys(docs)) && forall k :: k in Keys(docs) ==> k !in Keys(records)
    ensures NoRepeats(Ids(docs)) && forall t :: t in Ids(docs) ==> t !in Ids(records)
  {
    hide Trim;
    forall i, j | 0 <= i < j < |docs| ensures Ids(docs)[i] != Ids(docs)[j] { assert Keys(docs)[i] != Keys(docs)[j]; }
    forall t | t in Ids(docs) ensures t !in Ids(records) {
      IdsHaveKeys(docs, t);
      IdsHaveKeys(records, t);
    }
  }

  /** Identifiers that never repeat do not make a run into empty collections raise. */
  lemma {:induction false} KeysUniqueAfter(streams: seq<Stream>)
    requires NoRepeats(LegacyIds(streams))
    ensures !Raises(EMPTY, streams, false)
    ensures NoRepeats(Keys(After(EMPTY, streams, false).records))
    ensures forall k :: k in Keys(After(EMPTY, streams, false).records) ==> k in LegacyIds(streams)
  {
    hide Trim, Valid, EventIds, Unstored, Inserted;
    if streams != [] {
      var init, last := streams[..|streams| - 1], streams[|streams| - 1];
      var db := After(EMPTY, init, false);
      NoRepeatsConcat(LegacyIds(init), EventIds(last.events));
      KeysUniqueAfter(init);
      ValidKeys(Trim(last.employeeId), last.events);
      var unstored := Unstored(ValidOf(last), db.records);
      UnstoredKeysUnique(ValidOf(last), db.records);
      IdsFromKeys(unstored, db.records);
      InsertedAll(db.records, unstored);
      ConcatIds(db.records, unstored);
      NoRepeatsConcat(Keys(db.records), Keys(unstored));
    }
  }

  lemma {:induction false} AllNamed(records: seq<Record>)
    requires "" !in Keys(records)
    ensures NamedKeys(records) == Keys(records)
  {
    hide Trim;
    if records != [] {
      SplitLast(records);
      assert Trim(records[|records| - 1].id) in Keys(records);
      AllNamed(records[..|records| - 1]);
    }
  }

  /** When no identifier repeats, the stream rows agree with the legacy counts. */
  lemma {:induction false} MetasMatch(streams: seq<Stream>)
    requires NoRepeats(LegacyIds(streams))
    ensures After(EMPTY, streams, false).metas.Keys == LegacyCounts(streams).Keys
    ensures forall e :: e in LegacyCounts(streams) ==>
      After(EMPTY, streams, false).metas[e].eventCount == LegacyCounts(streams)[e]
  {
    hide Trim, Valid, EventIds, Unstored, Inserted, StreamRaises;
    if streams != [] {
      var init, last := streams[..|streams| - 1], streams[|streams| - 1];
      NoRepeatsConcat(LegacyIds(init), EventIds(last.events));
      KeysUniqueAfter(init);
      MetasMatch(init);
      ValidKeys(Trim(last.employeeId), last.events);
      SameEmptiness(Trim(last.employeeId), last.events);
    }
  }

  lemma SameEmptiness(employeeId: string, events: seq<Event>)
    ensures Valid(employeeId, events) == [] <==> EventIds(events) == []
    ensures |Keys(Valid(employeeId, events))| == |Valid(employeeId, events)|
  {
    hide Trim, Valid, EventIds;
    ValidKeys(employeeId, events);
    var keys, ids := Keys(Valid(employeeId, events)), EventIds(events);
    if keys != [] { assert keys[0] in keys; }
    if ids != [] { assert ids[0] in ids; }
  }

  /** After a full run into empty collections, whether it raised or not, all data checks pass exactly when
      every legacy event has an identifier, no identifier repeats anywhere, and none lies in a stream
      without an employee; and then it has not raised. */
  lemma BackfillMeetsItsCheck(streams: seq<Stream>)
    ensures AllPass(DataChecks(After(EMPTY, streams, false), streams)) <==>
      LegacyMissing(streams) == 0 && NoRepeats(LegacyIds(streams)) && AllOwned(streams)
    ensures AllPass(DataChecks(After(EMPTY, streams, false), streams)) ==> !Raises(EMPTY, streams, false)
  {
    hide After, Raises, LegacyMissing, LegacyIds, AllOwned, AllValid, LegacyCounts, NamedKeys, Keys, NoRepeats;
    var db := After(EMPTY, streams, false);
    var legacy, stored := LegacyIds(streams), NamedKeys(db.records);
    if NoRepeats(legacy) {
      OwnedKeys(streams);
      KeysUniqueAfter(streams);
      forall k ensures k in Keys(db.records) <==> k in Keys(AllValid(streams)) {
        IdsAfter(EMPTY, streams, k);
        NoKeys(k);
      }
      AllNamed(db.records);
      MetasMatch(streams);
      if AllPass(DataChecks(db, streams)) { BackfilledAreOwned(streams); }
    }
  }

  lemma NoKeys(k: string)
    ensures k !in Keys([])
  {
  }
}
