/** The plan that gives every employee a code by appointment year and seniority, and when planning again after
    it is applied changes nothing. */
module EmployeeCode {
  import opened Prelude
  import opened Text

  /** An identity row; absent fields are empty strings. */
  datatype Identity = Identity(employeeId: string, code: string, employmentType: string, engagement: string,
      createdAt: string)

  datatype Row = Row(employeeId: string, code: string, employmentType: string, engagement: string, createdAt: string,
      year: int, initial: char)

  datatype PlanError = MissingEmployeeId | BadDate(employeeId: string) | BadEmploymentType(employeeId: string)

  datatype Planned = Planned(employeeId: string, year: int, engagement: string, oldCode: string, newCode: string,
      changed: bool)

  datatype Plan = Plan(employees: seq<Planned>, years: map<int, nat>, errors: seq<PlanError>)

  /** The first letter of an employment type; none where it is refused. */
  type Initial = string -> Option<char>

  /** `{n:04d}`. */
  function FourDigits(n: nat): string {
    if n < 10000 then Pad(n, 4) else Decimal(n)
  }

  function Code(year: int, initial: char, sequence: nat): string {
    "MADC-" + (ShowInt(year) + ("-" + ([initial] + FourDigits(sequence))))
  }

  /** `_normalize_appointment_year`. */
  function AppointmentYear(engagement: string): Option<int> {
    var t := Trim(engagement);
    if |t| != 10 || t[4] != '-' || t[7] != '-' then None
    else
      var year, month, day := ParseInt(t[..4]), ParseInt(t[5..7]), ParseInt(t[8..10]);
      if year.None? || month.None? || day.None? then None
      else if month.value < 1 || month.value > 12 || day.value < 1 || day.value > 31 then None
      else year
  }

  function RowOf(initial: Initial, id: Identity): Result<Row, PlanError> {
    if Trim(id.employeeId) == "" then Err(MissingEmployeeId)
    else if AppointmentYear(id.engagement).None? then Err(BadDate(Trim(id.employeeId)))
    else if initial(Trim(id.employmentType)).None? then Err(BadEmploymentType(Trim(id.employeeId)))
    else Ok(Row(Trim(id.employeeId), Trim(id.code), Trim(id.employmentType), Trim(id.engagement), Trim(id.createdAt),
                AppointmentYear(id.engagement).value, initial(Trim(id.employmentType)).value))
  }

  function Collect<T, U>(f: T -> Option<U>, s: seq<T>): seq<U> {
    if s == [] then []
    else
      var before, x := Collect(f, s[..|s| - 1]), f(s[|s| - 1]);
      if x.Some? then before + [x.value] else before
  }

  function Accepted(initial: Initial): Identity -> Option<Row> {
    (id: Identity) => match RowOf(initial, id) case Ok(r) => Some(r) case Err(_) => None
  }

  function Refused(initial: Initial): Identity -> Option<PlanError> {
    (id: Identity) => match RowOf(initial, id) case Ok(_) => None case Err(e) => Some(e)
  }

  function ValidRows(initial: Initial, ids: seq<Identity>): seq<Row> {
    Collect(Accepted(initial), ids)
  }

  function Errors(initial: Initial, ids: seq<Identity>): seq<PlanError> {
    Collect(Refused(initial), ids)
  }

  // ---- Seniority order ----------------------------------------------------------------------

  predicate Precedes(a: Row, b: Row) {
    if a.engagement != b.engagement then Less(a.engagement, b.engagement)
    else if a.createdAt != b.createdAt then Less(a.createdAt, b.createdAt)
    else if a.code != b.code then Less(a.code, b.code)
    else LessEq(a.employeeId, b.employeeId)
  }

  /** Stable insertion: after its equals. */
  function Insert(sorted: seq<Row>, r: Row): seq<Row> {
    if sorted != [] && !Precedes(sorted[|sorted| - 1], r)
      then Insert(sorted[..|sorted| - 1], r) + [sorted[|sorted| - 1]] else sorted + [r]
  }

  function Sort(rows: seq<Row>): seq<Row> {
    if rows == [] then [] else Insert(Sort(rows[..|rows| - 1]), rows[|rows| - 1])
  }

  ghost predicate Sorted(rows: seq<Row>) {
    forall i, j :: 0 <= i < j < |rows| ==> Precedes(rows[i], rows[j])
  }

  // ---- Numbering ------------------------------------------------------------------------------

  /** How many rows fall in a year. */
  function Count(rows: seq<Row>, year: int): nat {
    if rows == [] then 0 else Count(rows[..|rows| - 1], year) + if rows[|rows| - 1].year == year then 1 else 0
  }

  /** The new code of row `i`: its number among the rows of its year up to it. */
  function CodeAt(rows: seq<Row>, i: nat): string
    requires i < |rows|
  {
    Code(rows[i].year, rows[i].initial, Count(rows[..i + 1], rows[i].year))
  }

  function PlannedAt(rows: seq<Row>, i: nat): Planned
    requires i < |rows|
  {
    Planned(rows[i].employeeId, rows[i].year, rows[i].engagement, rows[i].code, CodeAt(rows, i),
      rows[i].code != CodeAt(rows, i))
  }

  ghost predicate Numbers(rows: seq<Row>, employees: seq<Planned>, years: map<int, nat>) {
    && |employees| == |rows|
    && (forall i :: 0 <= i < |rows| ==> employees[i] == PlannedAt(rows, i))
    && (forall y :: y in years <==> Count(rows, y) > 0)
    && (forall y :: y in years ==> years[y] == Count(rows, y))
  }

  /** `build_employee_code_migration_plan`. */
  method BuildPlan(initial: Initial, identities: seq<Identity>) returns (plan: Plan)
    ensures Numbers(Sort(ValidRows(initial, identities)), plan.employees, plan.years)
    ensures plan.errors == Errors(initial, identities)
  {
    var rows: seq<Row>, errors := [], [];
    var i := 0;
    while i < |identities|
      invariant 0 <= i <= |identities|
      invariant rows == ValidRows(initial, identities[..i]) && errors == Errors(initial, identities[..i])
    {
      assert identities[..i + 1][..i] == identities[..i];
      assert Accepted(initial)(identities[i]) == match RowOf(initial, identities[i]) case Ok(r) => Some(r)
        case Err(_) => None;
      match RowOf(initial, identities[i]) {
        case Err(e) => errors := errors + [e];
        case Ok(r) => rows := rows + [r];
      }
      i := i + 1;
    }
    assert identities[..i] == identities;
    var employees, years := Number(Sort(rows));
    return Plan(employees, years, errors);
  }

  method Number(rows: seq<Row>) returns (employees: seq<Planned>, years: map<int, nat>)
    ensures Numbers(rows, employees, years)
  {
    hide Code, Count;
    NoRows();
    employees, years := [], map[];
    var i := 0;
    while i < |rows|
      invariant 0 <= i <= |rows|
      invariant |employees| == i && forall j :: 0 <= j < i ==> employees[j] == PlannedAt(rows, j)
      invariant forall y :: y in years <==> Count(rows[..i], y) > 0
      invariant forall y :: y in years ==> years[y] == Count(rows[..i], y)
    {
      var r := rows[i];
      CountStep(rows, i);
      years := years[r.year := (if r.year in years then years[r.year] else 0) + 1];
      var code := Code(r.year, r.initial, years[r.year]);
      employees := employees + [Planned(r.employeeId, r.year, r.engagement, r.code, code, r.code != code)];
      i := i + 1;
    }
    assert rows[..i] == rows;
  }

  lemma NoRows()
    ensures forall y :: Count([], y) == 0
  {
  }

  lemma CountStep(rows: seq<Row>, i: nat)
    requires i < |rows|
    ensures forall y :: Count(rows[..i + 1], y) == Count(rows[..i], y) + if rows[i].year == y then 1 else 0
  {
    assert rows[..i + 1][..i] == rows[..i];
  }

  /** Every identity is planned or refused. */
  lemma {:induction false} EveryIdentityAccounted(initial: Initial, ids: seq<Identity>)
    ensures |Sort(ValidRows(initial, ids))| + |Errors(initial, ids)| == |ids|
  {
    hide RowOf;
    Accounted(initial, ids);
    SortPermutes(ValidRows(initial, ids));
  }

  lemma {:induction false} Accounted(initial: Initial, ids: seq<Identity>)
    ensures |ValidRows(initial, ids)| + |Errors(initial, ids)| == |ids|
  {
    hide RowOf;
    if ids != [] { Accounted(initial, ids[..|ids| - 1]); }
  }

  lemma {:induction false} InsertPermutes(sorted: seq<Row>, r: Row)
    ensures multiset(Insert(sorted, r)) == multiset(sorted) + multiset{r}
    ensures |Insert(sorted, r)| == |sorted| + 1
  {
    hide Precedes;
    if sorted != [] && !Precedes(sorted[|sorted| - 1], r) {
      InsertPermutes(sorted[..|sorted| - 1], r);
      assert sorted == sorted[..|sorted| - 1] + [sorted[|sorted| - 1]];
    }
  }

  lemma {:induction false} AppendCounts<T>(s: seq<T>, x: T)
    ensures multiset(s + [x]) == multiset(s) + multiset{x}
  {
  }

  lemma {:induction false} SortPermutes(rows: seq<Row>)
    ensures multiset(Sort(rows)) == multiset(rows) && |Sort(rows)| == |rows|
  {
    if rows != [] {
      hide Insert;
      var init, last := rows[..|rows| - 1], rows[|rows| - 1];
      SortPermutes(init);
      InsertPermutes(Sort(init), last);
      AppendCounts(init, last);
      assert rows == init + [last];
    }
  }

  lemma PrecedesIsTotal(a: Row, b: Row, c: Row)
    ensures Precedes(a, b) || Precedes(b, a)
    ensures Precedes(a, b) && Precedes(b, c) ==> Precedes(a, c)
    ensures Precedes(a, b) && Precedes(b, a) ==>
      a.engagement == b.engagement && a.createdAt == b.createdAt && a.code == b.code && a.employeeId == b.employeeId
  {
    hide Less;
    StringOrder(a.engagement, b.engagement, c.engagement);
    StringOrder(a.createdAt, b.createdAt, c.createdAt);
    StringOrder(a.code, b.code, c.code);
    LessEqIsTotalOrder(a.employeeId, b.employeeId, c.employeeId);
  }

  lemma StringOrder(a: string, b: string, c: string)
    ensures Less(a, b) || a == b || Less(b, a)
    ensures !(Less(a, b) && Less(b, a)) && !Less(a, a)
    ensures Less(a, b) && Less(b, c) ==> Less(a, c)
  {
    LessTotal(a, b);
    LessIrreflexive(a);
    if Less(a, b) && Less(b, a) { LessTransitive(a, b, a); }
    if Less(a, b) && Less(b, c) { LessTransitive(a, b, c); }
  }

  lemma {:induction false} InsertSorted(sorted: seq<Row>, r: Row)
    requires Sorted(sorted)
    ensures Sorted(Insert(sorted, r))
  {
    hide Precedes;
    if sorted != [] {
      var init, last := sorted[..|sorted| - 1], sorted[|sorted| - 1];
      if !Precedes(last, r) {
        InsertSorted(init, r);
        var s := Insert(init, r);
        InsertPermutes(init, r);
        PrecedesIsTotal(last, r, r);
        forall i | 0 <= i < |s| ensures Precedes(s[i], last) {
          assert s[i] in multiset(s);
          if s[i] != r { assert s[i] in init; }
        }
      } else {
        forall i | 0 <= i < |sorted| ensures Precedes(sorted[i], r) { PrecedesIsTotal(sorted[i], last, r); }
      }
    }
  }

  lemma {:induction false} SortSorts(rows: seq<Row>)
    ensures Sorted(Sort(rows))
  {
    if rows != [] {
      SortSorts(rows[..|rows| - 1]);
      InsertSorted(Sort(rows[..|rows| - 1]), rows[|rows| - 1]);
    }
  }

  // ---- Who is numbered first ------------------------------------------------------------------

  /** Blanks around the fields apart: engaged earlier, on equal dates created earlier, then under the smaller old
      code, then with the smaller id. */
  predicate Senior(a: Identity, b: Identity) {
    || Less(Trim(a.engagement), Trim(b.engagement))
    || (Trim(a.engagement) == Trim(b.engagement) && (
         || Less(Trim(a.createdAt), Trim(b.createdAt))
         || (Trim(a.createdAt) == Trim(b.createdAt) && (
              || Less(Trim(a.code), Trim(b.code))
              || (Trim(a.code) == Trim(b.code) && Less(Trim(a.employeeId), Trim(b.employeeId)))))))
  }

  /** The planned row of an identity, which numbers it `n` within its year. */
  ghost predicate Plans(initial: Initial, id: Identity, e: Planned, n: nat) {
    && e.employeeId == Trim(id.employeeId) && e.oldCode == Trim(id.code) && e.engagement == Trim(id.engagement)
    && AppointmentYear(id.engagement) == Some(e.year) && initial(Trim(id.employmentType)).Some?
    && e.newCode == Code(e.year, initial(Trim(id.employmentType)).value, n)
    && (e.changed <==> Trim(id.code) != e.newCode)
  }

  /** An identity is planned exactly when it has an id, a date and a known employment type. */
  predicate Plannable(initial: Initial, id: Identity) {
    Trim(id.employeeId) != "" && AppointmentYear(id.engagement).Some? && initial(Trim(id.employmentType)).Some?
  }

  lemma PlannableIsRead(initial: Initial, id: Identity)
    ensures RowOf(initial, id).Ok? <==> Plannable(initial, id)
    ensures RowOf(initial, id) == Err(MissingEmployeeId) <==> Trim(id.employeeId) == ""
    ensures RowOf(initial, id) == Err(BadDate(Trim(id.employeeId))) <==>
      Trim(id.employeeId) != "" && AppointmentYear(id.engagement).None?
    ensures RowOf(initial, id) == Err(BadEmploymentType(Trim(id.employeeId))) <==>
      && Trim(id.employeeId) != "" && AppointmentYear(id.engagement).Some?
      && initial(Trim(id.employmentType)).None?
  {
    hide Trim, AppointmentYear;
  }

  lemma {:induction false} SeniorPrecedes(initial: Initial, a: Identity, b: Identity)
    requires Plannable(initial, a) && Plannable(initial, b) && Senior(a, b)
    ensures !Precedes(RowOf(initial, b).value, RowOf(initial, a).value)
  {
    hide Trim, Less, AppointmentYear;
    StringOrder(Trim(a.engagement), Trim(b.engagement), "");
    StringOrder(Trim(a.createdAt), Trim(b.createdAt), "");
    StringOrder(Trim(a.code), Trim(b.code), "");
    StringOrder(Trim(a.employeeId), Trim(b.employeeId), "");
  }

  lemma {:induction false} RowIsPlanned(initial: Initial, ids: seq<Identity>, employees: seq<Planned>,
      years: map<int, nat>, i: nat) returns (k: nat)
    requires Numbers(Sort(ValidRows(initial, ids)), employees, years)
    requires i < |ids| && Plannable(initial, ids[i])
    ensures k < |employees| && Sort(ValidRows(initial, ids))[k] == RowOf(initial, ids[i]).value
    ensures var rows := Sort(ValidRows(initial, ids));
      Plans(initial, ids[i], employees[k], Count(rows[..k + 1], rows[k].year))
  {
    hide Trim, AppointmentYear, Sort, ValidRows, Count, Code;
    var rows, r := Sort(ValidRows(initial, ids)), RowOf(initial, ids[i]).value;
    assert Accepted(initial)(ids[i]) == Some(r);
    RowsAreFrom(initial, ids, r);
    SortPermutes(ValidRows(initial, ids));
    SameMembers(ValidRows(initial, ids), rows);
    k :| 0 <= k < |rows| && rows[k] == r;
    RowReads(initial, ids[i]);
    assert employees[k] == PlannedAt(rows, k);
  }

  /** Every identity that can be planned is, and of two in one year the senior one comes first and has the
      smaller number. */
  lemma {:induction false} SeniorFirst(initial: Initial, ids: seq<Identity>, employees: seq<Planned>,
      years: map<int, nat>, i: nat, j: nat)
    requires Numbers(Sort(ValidRows(initial, ids)), employees, years)
    requires i < |ids| && j < |ids| && Plannable(initial, ids[i]) && Plannable(initial, ids[j])
    requires Senior(ids[i], ids[j])
    ensures exists k, l, m: nat, n: nat ::
      && 0 <= k < l < |employees| && Plans(initial, ids[i], employees[k], m) && Plans(initial, ids[j], employees[l], n)
      && (employees[k].year == employees[l].year ==> m < n)
  {
    hide Trim, AppointmentYear, Sort, ValidRows, Count, Code, Precedes, Plans, Senior, RowOf, Plannable, Less;
    var rows := Sort(ValidRows(initial, ids));
    var k := RowIsPlanned(initial, ids, employees, years, i);
    var l := RowIsPlanned(initial, ids, employees, years, j);
    SortSorts(ValidRows(initial, ids));
    SeniorPrecedes(initial, ids[i], ids[j]);
    PrecedesIsTotal(rows[k], rows[k], rows[k]);
    assert k < l;
    var m, n := Count(rows[..k + 1], rows[k].year), Count(rows[..l + 1], rows[l].year);
    assert employees[k].year == rows[k].year && employees[l].year == rows[l].year;
    if rows[k].year == rows[l].year { CountGrows(rows, k + 1, l + 1, rows[l].year); }
    assert Plans(initial, ids[i], employees[k], m) && Plans(initial, ids[j], employees[l], n);
  }

  /** A date is read exactly as year, month and day, which must lie in 1 to 12 and 1 to 31. */
  lemma {:induction false} DateRoundTrip(year: nat, month: nat, day: nat)
    requires year < 10000 && month < 100 && day < 100
    ensures AppointmentYear(Pad(year, 4) + "-" + Pad(month, 2) + "-" + Pad(day, 2)) ==
      if 1 <= month <= 12 && 1 <= day <= 31 then Some(year) else None
  {
    hide Pad, Trim, Value;
    var t := Pad(year, 4) + "-" + Pad(month, 2) + "-" + Pad(day, 2);
    assert t[..4] == Pad(year, 4) && t[5..7] == Pad(month, 2) && t[8..10] == Pad(day, 2);
    TrimOfTrimmed(t);
    PadIsParsed(year, 4);
    PadIsParsed(month, 2);
    PadIsParsed(day, 2);
  }

  lemma {:induction false} PadIsParsed(n: nat, w: nat)
    requires (w == 2 && n < 100) || (w == 4 && n < 10000)
    ensures ParseInt(Pad(n, w)) == Some(n)
  {
    hide Pad, Value, ParseInt;
    FourNines();
    ValueOfPad(n, w);
    ParseSigns(Pad(n, w));
  }

  lemma {:induction false} DecimalStep(n: nat, d: nat, numeral: string)
    requires d < 10 && Decimal(n) == numeral && n > 0
    ensures Decimal(10 * n + d) == numeral + [DigitChar(d)]
  {
  }

  lemma {:induction false} PadStep(n: nat, w: nat, d: nat, numeral: string)
    requires d < 10 && Pad(n, w) == numeral
    ensures Pad(10 * n + d, w + 1) == numeral + [DigitChar(d)]
  {
  }

  lemma {:induction false} Numerals()
    ensures Decimal(2020) == "2020" && Decimal(12345) == "12345" && Pad(42, 4) == "0042"
  {
    hide Decimal, Pad;
    FirstDigits();
    DecimalStep(2, 0, "2");
    DecimalStep(20, 2, "20");
    DecimalStep(202, 0, "202");
    DecimalStep(1, 2, "1");
    DecimalStep(12, 3, "12");
    DecimalStep(123, 4, "123");
    DecimalStep(1234, 5, "1234");
    PadStep(0, 0, 0, "");
    PadStep(0, 1, 0, "0");
    PadStep(0, 2, 4, "00");
    PadStep(4, 3, 2, "004");
  }

  lemma {:induction false} FirstDigits()
    ensures Decimal(1) == "1" && Decimal(2) == "2" && Pad(0, 0) == ""
  {
  }

  /** As in the tests of the script: the year, the letter, and four digits with zeros in front; more digits where
      four do not suffice. */
  lemma {:induction false} CodeExamples()
    ensures Code(2020, 'R', 42) == "MADC-2020-R0042" && Code(2020, 'C', 12345) == "MADC-2020-C12345"
  {
    hide Decimal, Pad;
    Numerals();
  }

  // ---- Distinct codes ---------------------------------------------------------------------------

  lemma ValueOfFour(n: nat)
    ensures AllDigits(FourDigits(n)) && Value(FourDigits(n)) == n
  {
    assert Pow10(4) == 10000 by { assert Pow10(1) == 10 && Pow10(2) == 100 && Pow10(3) == 1000; }
    if n < 10000 { ValueOfPad(n, 4); } else { ValueOfDecimal(n); }
  }

  lemma DashComesFirst(a: string, x: string)
    requires AllDigits(a)
    ensures var s := a + ("-" + x); |a| < |s| && s[|a|] == '-' && forall i :: 0 <= i < |a| ==> s[i] != '-'
  {
  }

  lemma DigitsThenDash(a: string, b: string, x: string, y: string)
    requires AllDigits(a) && AllDigits(b) && a + ("-" + x) == b + ("-" + y)
    ensures a == b && x == y
  {
    var s, t := a + ("-" + x), b + ("-" + y);
    DashComesFirst(a, x);
    DashComesFirst(b, y);
    assert |a| == |b|;
    assert s[..|a|] == a && t[..|b|] == b;
    assert s[|a| + 1..] == x && t[|b| + 1..] == y;
  }

  lemma YearThenDash(a: int, b: int, x: string, y: string)
    requires ShowInt(a) + ("-" + x) == ShowInt(b) + ("-" + y)
    ensures a == b && x == y
  {
    hide Decimal;
    var p, q := Decimal(Abs(a)), Decimal(Abs(b));
    SignFirst(a, x);
    SignFirst(b, y);
    DigitsThenDash(p, q, x, y);
    ValueOfDecimal(Abs(a));
    ValueOfDecimal(Abs(b));
  }

  function Abs(n: int): nat {
    if n < 0 then -n else n
  }

  lemma SignFirst(a: int, x: string)
    ensures var s, p := ShowInt(a) + ("-" + x), Decimal(Abs(a)) + ("-" + x);
      s != [] && (s[0] == '-' <==> a < 0) && p == if a < 0 then s[1..] else s
  {
    hide Decimal;
    var d := Decimal(Abs(a));
    if a < 0 { assert ShowInt(a) + ("-" + x) == "-" + (d + ("-" + x)); }
  }

  /** A code determines the year, the letter and the number, also when the number outgrows four digits. */
  lemma CodeInjective(y1: int, c1: char, n1: nat, y2: int, c2: char, n2: nat)
    requires Code(y1, c1, n1) == Code(y2, c2, n2)
    ensures y1 == y2 && c1 == c2 && n1 == n2
  {
    hide ShowInt, FourDigits;
    var x, y := [c1] + FourDigits(n1), [c2] + FourDigits(n2);
    assert Code(y1, c1, n1)[5..] == ShowInt(y1) + ("-" + x);
    assert Code(y2, c2, n2)[5..] == ShowInt(y2) + ("-" + y);
    YearThenDash(y1, y2, x, y);
    assert x[0] == c1 && y[0] == c2 && x[1..] == FourDigits(n1) && y[1..] == FourDigits(n2);
    ValueOfFour(n1);
    ValueOfFour(n2);
  }

  lemma {:induction false} CountGrows(rows: seq<Row>, i: nat, j: nat, year: int)
    requires i <= j <= |rows|
    ensures Count(rows[..i], year) <= Count(rows[..j], year)
    ensures i < j && rows[j - 1].year == year ==> Count(rows[..i], year) < Count(rows[..j], year)
    decreases j
  {
    hide Count;
    if i < j {
      CountGrows(rows, i, j - 1, year);
      CountStep(rows, j - 1);
    }
  }

  /** No two rows of a plan get the same code. */
  lemma CodesDistinct(rows: seq<Row>, i: nat, j: nat)
    requires i < j < |rows|
    ensures CodeAt(rows, i) != CodeAt(rows, j)
  {
    hide Code, Count;
    if CodeAt(rows, i) == CodeAt(rows, j) {
      var m, n := Count(rows[..i + 1], rows[i].year), Count(rows[..j + 1], rows[j].year);
      CodeInjective(rows[i].year, rows[i].initial, m, rows[j].year, rows[j].initial, n);
      CountGrows(rows, i + 1, j + 1, rows[i].year);
    }
  }

  /** Within a year the numbers are 1, 2, 3, ... in seniority order, up to the counter of the year. */
  lemma NumbersAreConsecutive(rows: seq<Row>, year: int, n: nat) returns (i: nat)
    requires 1 <= n <= Count(rows, year)
    ensures i < |rows| && rows[i].year == year && Count(rows[..i + 1], year) == n
    decreases |rows|
  {
    hide Code;
    var k := |rows| - 1;
    assert rows[..k + 1] == rows;
    CountStep(rows, k);
    if rows[k].year == year && Count(rows, year) == n {
      i := k;
    } else {
      i := NumbersAreConsecutive(rows[..k], year, n);
      assert rows[..k][..i + 1] == rows[..i + 1];
    }
  }

  // ---- Independence of the input order --------------------------------------------------------------

  lemma {:induction false} CollectConcat<T, U>(f: T -> Option<U>, a: seq<T>, b: seq<T>)
    ensures Collect(f, a + b) == Collect(f, a) + Collect(f, b)
  {
    if b == [] {
      assert a + b == a;
    } else {
      CollectConcat(f, a, b[..|b| - 1]);
      assert (a + b)[..|a + b| - 1] == a + b[..|b| - 1];
    }
  }

  lemma {:induction false} RemoveOne<T>(a: seq<T>, b: seq<T>, k: nat)
    requires a != [] && k < |b| && b[k] == a[|a| - 1] && multiset(a) == multiset(b)
    ensures multiset(a[..|a| - 1]) == multiset(b[..k] + b[k + 1..])
  {
    WithoutOne(a, |a| - 1);
    WithoutOne(b, k);
    assert a[..|a| - 1] + a[|a|..] == a[..|a| - 1];
  }

  lemma {:induction false} WithoutOne<T>(s: seq<T>, k: nat)
    requires k < |s|
    ensures multiset(s[..k] + s[k + 1..]) == multiset(s) - multiset{s[k]}
  {
    var left, right := s[..k], s[k + 1..];
    assert s == left + ([s[k]] + right);
    assert multiset(s) == multiset(left) + (multiset{s[k]} + multiset(right));
    assert multiset(left + right) == multiset(left) + multiset(right);
  }

  /** The collected values do not depend on the order. */
  lemma {:induction false} CollectPermutes<T, U>(f: T -> Option<U>, a: seq<T>, b: seq<T>)
    requires multiset(a) == multiset(b)
    ensures multiset(Collect(f, a)) == multiset(Collect(f, b))
    decreases |a|
  {
    if a == [] {
      assert |b| == |multiset(b)| == 0;
    } else {
      var init, x := a[..|a| - 1], a[|a| - 1];
      assert a == init + [x];
      assert x in multiset(b);
      var k :| 0 <= k < |b| && b[k] == x;
      var left, right := b[..k], b[k + 1..];
      assert b == left + [x] + right;
      RemoveOne(a, b, k);
      CollectPermutes(f, init, left + right);
      CollectConcat(f, left, right);
      CollectConcat(f, left + [x], right);
      CollectConcat(f, left, [x]);
      assert [x][..0] == [];
    }
  }

  ghost predicate OneRowPerId(rows: seq<Row>) {
    forall a, b :: a in rows && b in rows && a.employeeId == b.employeeId ==> a == b
  }

  lemma LastIsSame(a: seq<Row>, b: seq<Row>)
    requires Sorted(a) && Sorted(b) && a != [] && b != [] && OneRowPerId(a)
    requires forall x :: x in a <==> x in b
    ensures a[|a| - 1] == b[|b| - 1]
  {
    hide Precedes;
    var x, y := a[|a| - 1], b[|b| - 1];
    assert x in b && y in a;
    PrecedesIsTotal(x, y, x);
    PrecedesIsTotal(x, x, x);
    assert Precedes(x, y) && Precedes(y, x);
  }

  /** Rows in order are determined by what they are. */
  lemma {:induction false} SortedUnique(a: seq<Row>, b: seq<Row>)
    requires Sorted(a) && Sorted(b) && multiset(a) == multiset(b) && OneRowPerId(a)
    ensures a == b
  {
    hide Precedes;
    assert |a| == |multiset(a)| == |multiset(b)| == |b|;
    if a != [] {
      SameMembers(a, b);
      LastIsSame(a, b);
      RemoveOne(a, b, |b| - 1);
      assert b[..|b| - 1] + b[|b|..] == b[..|b| - 1];
      SortedUnique(a[..|a| - 1], b[..|b| - 1]);
    }
  }

  /** The plan does not depend on the order of the identities, when an employee id has one row. */
  lemma PlanIgnoresOrder(initial: Initial, a: seq<Identity>, b: seq<Identity>)
    requires multiset(a) == multiset(b) && OneRowPerId(ValidRows(initial, a))
    ensures Sort(ValidRows(initial, a)) == Sort(ValidRows(initial, b))
    ensures multiset(Errors(initial, a)) == multiset(Errors(initial, b))
  {
    var p, q := ValidRows(initial, a), ValidRows(initial, b);
    CollectPermutes(Accepted(initial), a, b);
    CollectPermutes(Refused(initial), a, b);
    SortPermutes(p);
    SortPermutes(q);
    SortSorts(p);
    SortSorts(q);
    SameMembers(p, Sort(p));
    SortedUnique(Sort(p), Sort(q));
  }

  lemma SameMembers<T>(a: seq<T>, b: seq<T>)
    requires multiset(a) == multiset(b)
    ensures forall x :: x in a <==> x in b
  {
    forall x ensures x in a <==> x in b { assert x in a <==> x in multiset(a); assert x in b <==> x in multiset(b); }
  }

  // ---- Applying the plan, and planning again -----------------------------------------------------------

  ghost predicate UniqueIds(rows: seq<Row>) {
    forall i, j :: 0 <= i < j < |rows| ==> rows[i].employeeId != rows[j].employeeId
  }

  /** The sorted rows with their new codes. */
  function Recoded(rows: seq<Row>): (r: seq<Row>)
    ensures |r| == |rows| && forall i :: 0 <= i < |rows| ==> r[i] == rows[i].(code := CodeAt(rows, i))
  {
    seq(|rows|, i requires 0 <= i < |rows| => rows[i].(code := CodeAt(rows, i)))
  }

  /** Neighbours of the plan that agree in both dates. */
  predicate Tied(rows: seq<Row>, i: nat) {
    i + 1 < |rows| && rows[i].engagement == rows[i + 1].engagement && rows[i].createdAt == rows[i + 1].createdAt
  }

  /** Neighbours that agree in both dates have ascending codes. */
  predicate TiesAscend(rows: seq<Row>) {
    forall i: nat :: i + 1 < |rows| && Tied(rows, i) ==> Less(CodeAt(rows, i), CodeAt(rows, i + 1))
  }

  /** The rows keep the codes they have when numbered in this order. */
  predicate KeepsCodes(rows: seq<Row>) {
    forall i :: 0 <= i < |rows| ==> rows[i].code == CodeAt(rows, i)
  }

  /** The year of a row is read off its engagement date. */
  predicate YearsFit(rows: seq<Row>) {
    forall i, j :: 0 <= i < |rows| && 0 <= j < |rows| && rows[i].engagement == rows[j].engagement ==>
      rows[i].year == rows[j].year
  }

  lemma {:induction false} RecodedCount(rows: seq<Row>, i: nat, year: int)
    requires i <= |rows|
    ensures Count(Recoded(rows)[..i], year) == Count(rows[..i], year)
  {
    hide Code, Count;
    if i > 0 {
      RecodedCount(rows, i - 1, year);
      CountStep(rows, i - 1);
      CountStep(Recoded(rows), i - 1);
    } else {
      NoRows();
    }
  }

  lemma RecodedCode(rows: seq<Row>, i: nat)
    requires i < |rows|
    ensures CodeAt(Recoded(rows), i) == CodeAt(rows, i)
  {
    hide Code, Count;
    RecodedCount(rows, i + 1, rows[i].year);
  }

  lemma {:induction false} SortedByNeighbours(rows: seq<Row>, i: nat, j: nat)
    requires forall k: nat :: k + 1 < |rows| ==> Precedes(rows[k], rows[k + 1])
    requires i < j < |rows|
    ensures Precedes(rows[i], rows[j])
    decreases j
  {
    hide Precedes;
    if i < j - 1 {
      SortedByNeighbours(rows, i, j - 1);
      PrecedesIsTotal(rows[i], rows[j - 1], rows[j]);
    }
    assert Precedes(rows[j - 1], rows[j - 1 + 1]);
  }

  lemma RecodedSorted(rows: seq<Row>)
    requires Sorted(rows) && TiesAscend(rows)
    ensures Sorted(Recoded(rows))
  {
    hide Code, Count, Less, LessEq, CodeAt;
    var r := Recoded(rows);
    forall k: nat | k + 1 < |r| ensures Precedes(r[k], r[k + 1]) {
      assert Precedes(rows[k], rows[k + 1]);
      assert Tied(rows, k) ==> Less(CodeAt(rows, k), CodeAt(rows, k + 1));
      StringOrder(CodeAt(rows, k), CodeAt(rows, k + 1), "");
    }
    forall i, j | 0 <= i < j < |r| ensures Precedes(r[i], r[j]) { SortedByNeighbours(r, i, j); }
  }

  lemma RecodedOneRowPerId(rows: seq<Row>)
    requires UniqueIds(rows)
    ensures OneRowPerId(Recoded(rows))
  {
    hide CodeAt;
  }

  lemma AscendingTiesKeep(rows: seq<Row>, again: seq<Row>)
    requires Sorted(rows) && UniqueIds(rows) && Sorted(again) && multiset(again) == multiset(Recoded(rows))
    requires TiesAscend(rows)
    ensures KeepsCodes(again)
  {
    hide CodeAt, TiesAscend, Sorted, UniqueIds, OneRowPerId;
    RecodedSorted(rows);
    RecodedOneRowPerId(rows);
    SortedUnique(Recoded(rows), again);
    forall i | 0 <= i < |rows| ensures again[i].code == CodeAt(again, i) { RecodedCode(rows, i); }
  }

  lemma KeptTieAscends(rows: seq<Row>, again: seq<Row>, i: nat)
    requires YearsFit(rows) && Sorted(again) && multiset(again) == multiset(Recoded(rows))
    requires KeepsCodes(again) && Tied(rows, i)
    ensures Less(CodeAt(rows, i), CodeAt(rows, i + 1))
  {
    hide Code, Count, Less, LessEq, Sorted, Precedes, Recoded;
    var r, year := Recoded(rows), rows[i].year;
    SameMembers(again, r);
    assert r[i] in r && r[i + 1] in r;
    var a :| 0 <= a < |again| && again[a] == r[i];
    var b :| 0 <= b < |again| && again[b] == r[i + 1];
    var m, n := Count(rows[..i + 1], year), Count(rows[..i + 2], year);
    CountStep(rows, i + 1);
    assert n == m + 1;
    CodeInjective(year, rows[i].initial, m, year, again[a].initial, Count(again[..a + 1], year));
    CodeInjective(year, rows[i + 1].initial, n, year, again[b].initial, Count(again[..b + 1], year));
    if b <= a { CountGrows(again, b + 1, a + 1, year); }
    CodesDistinct(rows, i, i + 1);
    OrderedTie(again, a, b);
  }

  lemma OrderedTie(rows: seq<Row>, a: nat, b: nat)
    requires Sorted(rows) && a < b < |rows| && rows[a].engagement == rows[b].engagement
      && rows[a].createdAt == rows[b].createdAt
    requires rows[a].code != rows[b].code
    ensures Less(rows[a].code, rows[b].code)
  {
    hide Less;
    assert Precedes(rows[a], rows[b]);
  }

  lemma ReplanByCodes(rows: seq<Row>, again: seq<Row>)
    requires Sorted(rows) && UniqueIds(rows) && YearsFit(rows)
    requires Sorted(again) && multiset(again) == multiset(Recoded(rows))
    ensures KeepsCodes(again) <==> TiesAscend(rows)
  {
    hide CodeAt, Sorted, UniqueIds, YearsFit, KeepsCodes, Less, Recoded;
    if TiesAscend(rows) { AscendingTiesKeep(rows, again); }
    if KeepsCodes(again) {
      forall i: nat | i + 1 < |rows| && Tied(rows, i) ensures Less(CodeAt(rows, i), CodeAt(rows, i + 1)) {
        KeptTieAscends(rows, again, i);
      }
    }
  }

  lemma {:induction false} CommonPrefix(p: string, x: string, y: string)
    ensures Less(p + x, p + y) <==> Less(x, y)
  {
    if p == [] {
      assert p + x == x && p + y == y;
    } else {
      CommonPrefix(p[1..], x, y);
      assert (p + x)[1..] == p[1..] + x && (p + y)[1..] == p[1..] + y;
    }
  }

  /** Codes of one year compare by letter and then by number, as long as the numbers have four digits. */
  lemma CodeOrder(year: int, c1: char, n1: nat, c2: char, n2: nat)
    ensures Less(Code(year, c1, n1), Code(year, c2, n2)) <==>
      c1 < c2 || (c1 == c2 && Less(FourDigits(n1), FourDigits(n2)))
    ensures n1 < 10000 && n2 < 10000 ==> (Less(FourDigits(n1), FourDigits(n2)) <==> n1 < n2)
  {
    hide ShowInt, FourDigits;
    var x, y := [c1] + FourDigits(n1), [c2] + FourDigits(n2);
    var p := "MADC-" + (ShowInt(year) + "-");
    assert Code(year, c1, n1) == p + x && Code(year, c2, n2) == p + y;
    CommonPrefix(p, x, y);
    assert x[1..] == FourDigits(n1) && y[1..] == FourDigits(n2);
    if n1 < 10000 && n2 < 10000 { FourDigitsOrder(n1, n2); }
  }

  lemma FourDigitsOrder(m: nat, n: nat)
    requires m < 10000 && n < 10000
    ensures Less(FourDigits(m), FourDigits(n)) <==> m < n
  {
    hide Less, Pad;
    FourNines();
    EmptyIsLeast();
    PadOrder(m, n, 4, [], []);
    assert Pad(m, 4) + [] == Pad(m, 4) && Pad(n, 4) + [] == Pad(n, 4);
  }

  lemma {:induction false} DecimalIsPad(n: nat, w: nat)
    requires w >= 1 && n < Pow10(w) && (w == 1 || Pow10(w - 1) <= n)
    ensures Decimal(n) == Pad(n, w)
  {
    if w > 1 { DecimalIsPad(n / 10, w - 1); }
  }

  lemma {:induction false} Pow10Grows(v: nat, w: nat)
    requires v < w
    ensures Pow10(v) < Pow10(w)
  {
    if v < w - 1 { Pow10Grows(v, w - 1); }
  }

  /** The number of digits. */
  lemma {:induction false} Width(n: nat) returns (w: nat)
    requires n >= 1
    ensures w >= 1 && Pow10(w - 1) <= n < Pow10(w)
  {
    if n < 10 {
      w := 1;
      assert Pow10(1) == 10;
    } else {
      w := Width(n / 10);
      w := w + 1;
    }
  }

  /** The last number of its width, from four digits on. */
  ghost predicate LastOfWidth(n: nat) {
    exists w: nat :: w >= 4 && n + 1 == Pow10(w)
  }

  lemma FourNines()
    ensures Pow10(2) == 100 && Pow10(3) == 1000 && Pow10(4) == 10000
  {
    assert Pow10(1) == 10 && Pow10(2) == 100;
  }

  /** As texts of at least four digits, a number comes before the next one unless it is the last of its width. */
  lemma NextNumberOrder(n: nat)
    ensures Less(FourDigits(n), FourDigits(n + 1)) <==> !LastOfWidth(n)
  {
    hide Pad, Decimal, Less;
    FourNines();
    if n < 9999 {
      PadOrder(n, n + 1, 4, [], []);
      assert Pad(n, 4) + [] == Pad(n, 4) && Pad(n + 1, 4) + [] == Pad(n + 1, 4);
      EmptyIsLeast();
      forall w: nat | w >= 4 ensures n + 1 != Pow10(w) { if w > 4 { Pow10Grows(4, w); } }
    } else {
      if n == 9999 { DecimalIsPad(n, 4); }
      assert FourDigits(n) == Decimal(n) && FourDigits(n + 1) == Decimal(n + 1);
      var w := Width(n);
      if w < 4 { Pow10Grows(w, 4); }
      DecimalIsPad(n, w);
      if n + 1 < Pow10(w) { SameWidth(n, w); } else { NextWidth(n, w); }
    }
  }

  lemma EmptyIsLeast()
    ensures !Less([], []) && forall s: string :: s != [] ==> Less([], s)
  {
  }

  lemma SameWidth(n: nat, w: nat)
    requires w >= 4 && Pow10(w - 1) <= n && n + 1 < Pow10(w)
    ensures Less(Pad(n, w), Decimal(n + 1)) && !LastOfWidth(n)
  {
    hide Pad, Decimal, Less;
    DecimalIsPad(n + 1, w);
    PadOrder(n, n + 1, w, [], []);
    assert Pad(n, w) + [] == Pad(n, w) && Pad(n + 1, w) + [] == Pad(n + 1, w);
    forall v: nat | v >= 4 ensures n + 1 != Pow10(v) {
      if v > w { Pow10Grows(w, v); }
      if v < w - 1 { Pow10Grows(v, w - 1); }
    }
  }

  lemma NextWidth(n: nat, w: nat)
    requires w >= 4 && n + 1 == Pow10(w)
    ensures !Less(Pad(n, w), Decimal(n + 1)) && LastOfWidth(n)
  {
    hide Decimal, Less;
    Pow10Grows(w, w + 1);
    DecimalIsPad(n + 1, w + 1);
    assert (n + 1) / 10 == Pow10(w - 1) && (n + 1) % 10 == 0;
    assert Pad(n + 1, w + 1) == Pad(Pow10(w - 1), w) + [DigitChar(0)];
    Pow10Grows(0, w - 1);
    PadOrder(n, Pow10(w - 1), w, [], [DigitChar(0)]);
    assert Pad(n, w) + [] == Pad(n, w);
  }

  /** The letters of tied neighbours ascend, or are equal and the number of the first is not the last of its
      width. The numbers are those of seniority within the year. */
  ghost predicate TieInOrder(rows: seq<Row>, i: nat)
    requires i + 1 < |rows|
  {
    || rows[i].initial < rows[i + 1].initial
    || (rows[i].initial == rows[i + 1].initial && !LastOfWidth(Count(rows[..i + 1], rows[i].year)))
  }

  ghost predicate TiesInOrder(rows: seq<Row>) {
    forall i: nat :: i + 1 < |rows| && Tied(rows, i) ==> TieInOrder(rows, i)
  }

  lemma TieOrder(rows: seq<Row>, i: nat)
    requires YearsFit(rows) && Tied(rows, i)
    ensures Less(CodeAt(rows, i), CodeAt(rows, i + 1)) <==> TieInOrder(rows, i)
  {
    hide Code, Count, Less, FourDigits, LastOfWidth;
    var year := rows[i].year;
    assert rows[i + 1].year == year;
    var n := Count(rows[..i + 1], year);
    CountStep(rows, i + 1);
    CodeOrder(year, rows[i].initial, n, rows[i + 1].initial, n + 1);
    NextNumberOrder(n);
  }

  /** Planning again after the new codes are in place keeps every code exactly when the ties of the plan are
      in order; so always when no two rows agree in both dates. */
  lemma ReplanKeepsCodes(rows: seq<Row>, again: seq<Row>)
    requires Sorted(rows) && UniqueIds(rows) && YearsFit(rows)
    requires Sorted(again) && multiset(again) == multiset(Recoded(rows))
    ensures KeepsCodes(again) <==> TiesInOrder(rows)
  {
    hide CodeAt, Sorted, UniqueIds, YearsFit, KeepsCodes, Less, Recoded, TieInOrder;
    ReplanByCodes(rows, again);
    forall i: nat | i + 1 < |rows| && Tied(rows, i)
      ensures Less(CodeAt(rows, i), CodeAt(rows, i + 1)) <==> TieInOrder(rows, i)
    {
      TieOrder(rows, i);
    }
  }

  // ---- The codes of the plan in place --------------------------------------------------------------------

  /** `update_one`: the first identity with exactly this id. */
  function Updated(ids: seq<Identity>, employeeId: string, code: string): (r: seq<Identity>)
    ensures |r| == |ids|
  {
    if ids == [] then []
    else if ids[0].employeeId == employeeId then [ids[0].(code := code)] + ids[1..]
    else [ids[0]] + Updated(ids[1..], employeeId, code)
  }

  function AfterUpdates(ids: seq<Identity>, employees: seq<Planned>): (r: seq<Identity>)
    ensures |r| == |ids|
  {
    if employees == [] then ids
    else
      var before, e := AfterUpdates(ids, employees[..|employees| - 1]), employees[|employees| - 1];
      if e.changed then Updated(before, e.employeeId, e.newCode) else before
  }

  /** Every identity has an id of its own, written without blanks around it. */
  ghost predicate CleanIds(ids: seq<Identity>) {
    && (forall i :: 0 <= i < |ids| ==> Trim(ids[i].employeeId) == ids[i].employeeId)
    && (forall i, j :: 0 <= i < j < |ids| ==> ids[i].employeeId != ids[j].employeeId)
  }

  lemma {:induction false} UpdatedAt(ids: seq<Identity>, employeeId: string, code: string, i: nat)
    requires i < |ids| && forall j :: 0 <= j < |ids| && j != i ==> ids[j].employeeId != ids[i].employeeId
    ensures Updated(ids, employeeId, code)[i] ==
      if ids[i].employeeId == employeeId then ids[i].(code := code) else ids[i]
  {
    if i > 0 && ids[0].employeeId != employeeId {
      assert forall j :: 0 <= j < |ids| - 1 ==> ids[1..][j] == ids[j + 1];
      UpdatedAt(ids[1..], employeeId, code, i - 1);
    }
  }

  function CodeAfter(employees: seq<Planned>, id: Identity): Identity {
    if employees == [] then id
    else
      var before, e := CodeAfter(employees[..|employees| - 1], id), employees[|employees| - 1];
      if e.changed && e.employeeId == id.employeeId then before.(code := e.newCode) else before
  }

  lemma {:induction false} AfterUpdatesAt(ids: seq<Identity>, employees: seq<Planned>)
    requires CleanIds(ids)
    ensures forall i :: 0 <= i < |ids| ==> AfterUpdates(ids, employees)[i] == CodeAfter(employees, ids[i])
    ensures forall i :: 0 <= i < |ids| ==> AfterUpdates(ids, employees)[i].employeeId == ids[i].employeeId
  {
    hide Trim, Updated;
    if employees != [] {
      var init, e := employees[..|employees| - 1], employees[|employees| - 1];
      var before := AfterUpdates(ids, init);
      AfterUpdatesAt(ids, init);
      if e.changed {
        forall i | 0 <= i < |ids| ensures Updated(before, e.employeeId, e.newCode)[i] ==
          if before[i].employeeId == e.employeeId then before[i].(code := e.newCode) else before[i]
        {
          UpdatedAt(before, e.employeeId, e.newCode, i);
        }
      }
    }
  }

  /** Of the planned rows only the one with its id touches an identity. */
  lemma {:induction false} CodeAfterOwn(employees: seq<Planned>, id: Identity, k: nat)
    requires k < |employees| && employees[k].employeeId == id.employeeId
    requires forall j :: 0 <= j < |employees| && j != k ==> employees[j].employeeId != id.employeeId
    ensures CodeAfter(employees, id) == if employees[k].changed then id.(code := employees[k].newCode) else id
  {
    var init := employees[..|employees| - 1];
    if k < |init| { CodeAfterOwn(init, id, k); } else { CodeAfterOther(init, id); }
  }

  lemma {:induction false} CodeAfterOther(employees: seq<Planned>, id: Identity)
    requires forall j :: 0 <= j < |employees| ==> employees[j].employeeId != id.employeeId
    ensures CodeAfter(employees, id) == id
  {
    if employees != [] { CodeAfterOther(employees[..|employees| - 1], id); }
  }

  lemma {:induction false} CodeIsTrimmed(year: int, initial: char, n: nat)
    ensures Trim(Code(year, initial, n)) == Code(year, initial, n)
  {
    hide ShowInt, FourDigits, Trim;
    var c := Code(year, initial, n);
    ValueOfFour(n);
    assert c[0] == 'M' && c[|c| - 1] == FourDigits(n)[|FourDigits(n)| - 1];
    TrimOfTrimmed(c);
  }

  lemma {:induction false} RowOfRecoded(initial: Initial, id: Identity, code: string)
    requires RowOf(initial, id).Ok?
    ensures RowOf(initial, id.(code := code)) == Ok(RowOf(initial, id).value.(code := Trim(code)))
  {
    hide Trim, AppointmentYear;
  }

  // ---- Migrated, then planned again ---------------------------------------------------------------------

  /** The code that the numbering of `rows` gives an employee. */
  function CodeOf(rows: seq<Row>, employeeId: string): Option<string> {
    if rows == [] then None
    else
      var before, k := CodeOf(rows[..|rows| - 1], employeeId), |rows| - 1;
      if before.Some? then before else if rows[k].employeeId == employeeId then Some(CodeAt(rows, k)) else None
  }

  lemma {:induction false} CodeOfAt(rows: seq<Row>, i: nat)
    requires UniqueIds(rows) && i < |rows|
    ensures CodeOf(rows, rows[i].employeeId) == Some(CodeAt(rows, i))
  {
    hide Code, Count;
    var init := rows[..|rows| - 1];
    if i < |init| {
      CodeOfAt(init, i);
      assert init[..i + 1] == rows[..i + 1];
    } else {
      CodeOfNone(init, rows[i].employeeId);
    }
  }

  lemma {:induction false} CodeOfNone(rows: seq<Row>, employeeId: string)
    requires forall i :: 0 <= i < |rows| ==> rows[i].employeeId != employeeId
    ensures CodeOf(rows, employeeId) == None
  {
    hide CodeAt;
    if rows != [] { CodeOfNone(rows[..|rows| - 1], employeeId); }
  }

  function Renamed(rows: seq<Row>): Row -> Option<Row> {
    (r: Row) => match CodeOf(rows, r.employeeId) case Some(c) => Some(r.(code := c)) case None => None
  }

  lemma {:induction false} RenamedIsRecoded(rows: seq<Row>, n: nat)
    requires UniqueIds(rows) && n <= |rows|
    ensures Collect(Renamed(rows), rows[..n]) == Recoded(rows)[..n]
  {
    hide CodeOf, CodeAt;
    if n > 0 {
      RenamedIsRecoded(rows, n - 1);
      CodeOfAt(rows, n - 1);
      assert rows[..n][..n - 1] == rows[..n - 1];
    }
  }

  function Renames(rows: seq<Row>, r: Option<Row>): Option<Row> {
    match r case None => None case Some(x) => Renamed(rows)(x)
  }

  /** The rows read after the migration are the rows read before it, renamed. */
  lemma {:induction false} CollectRenamed(initial: Initial, before: seq<Identity>, after: seq<Identity>, rows: seq<Row>)
    requires |before| == |after|
    requires forall i :: 0 <= i < |before| ==>
      Accepted(initial)(after[i]) == Renames(rows, Accepted(initial)(before[i]))
    requires forall i :: 0 <= i < |before| && Accepted(initial)(before[i]).Some? ==>
      Renamed(rows)(Accepted(initial)(before[i]).value).Some?
    ensures ValidRows(initial, after) == Collect(Renamed(rows), ValidRows(initial, before))
  {
    hide RowOf, CodeOf;
    if before != [] {
      var n := |before| - 1;
      assert forall i :: 0 <= i < n ==> before[..n][i] == before[i] && after[..n][i] == after[i];
      CollectRenamed(initial, before[..n], after[..n], rows);
      var done, x := ValidRows(initial, before[..n]), Accepted(initial)(before[n]);
      if x.Some? {
        assert ValidRows(initial, before) == done + [x.value];
        assert (done + [x.value])[..|done|] == done;
      }
    }
  }

  lemma {:induction false} RowsAreFrom(initial: Initial, ids: seq<Identity>, r: Row)
    ensures r in ValidRows(initial, ids) <==> exists i :: 0 <= i < |ids| && Accepted(initial)(ids[i]) == Some(r)
  {
    hide RowOf;
    if ids != [] {
      var init := ids[..|ids| - 1];
      RowsAreFrom(initial, init, r);
      if r in ValidRows(initial, init) {
        var i :| 0 <= i < |init| && Accepted(initial)(init[i]) == Some(r);
        assert Accepted(initial)(ids[i]) == Some(r);
      }
      if exists i :: 0 <= i < |ids| && Accepted(initial)(ids[i]) == Some(r) {
        var i :| 0 <= i < |ids| && Accepted(initial)(ids[i]) == Some(r);
        if i < |init| { assert Accepted(initial)(init[i]) == Some(r); }
      }
    }
  }

  lemma {:induction false} RowReads(initial: Initial, id: Identity)
    requires RowOf(initial, id).Ok?
    ensures var r := RowOf(initial, id).value;
      r.employeeId == Trim(id.employeeId) && r.code == Trim(id.code) && AppointmentYear(r.engagement) == Some(r.year)
  {
    hide ParseInt, TrimLeft, TrimRight;
    TrimIsTrimmed(id.engagement);
  }

  lemma {:induction false} ValidRowsUnique(initial: Initial, ids: seq<Identity>)
    requires CleanIds(ids)
    ensures UniqueIds(ValidRows(initial, ids))
  {
    hide RowOf, Trim;
    if ids != [] {
      var init, last := ids[..|ids| - 1], ids[|ids| - 1];
      ValidRowsUnique(initial, init);
      var rows := ValidRows(initial, init);
      if Accepted(initial)(last).Some? {
        RowReads(initial, last);
        forall k | 0 <= k < |rows| ensures rows[k].employeeId != last.employeeId {
          RowsAreFrom(initial, init, rows[k]);
          var i :| 0 <= i < |init| && Accepted(initial)(init[i]) == Some(rows[k]);
          RowReads(initial, init[i]);
        }
      }
    }
  }

  lemma {:induction false} UniqueOneRow(rows: seq<Row>)
    requires UniqueIds(rows)
    ensures OneRowPerId(rows) && forall x :: multiset(rows)[x] <= 1
  {
    forall x ensures multiset(rows)[x] <= 1 { OnceAtMost(rows, x); }
  }

  lemma {:induction false} OnceAtMost(rows: seq<Row>, x: Row)
    requires UniqueIds(rows)
    ensures multiset(rows)[x] <= 1
  {
    if rows != [] {
      var init, last := rows[..|rows| - 1], rows[|rows| - 1];
      assert rows == init + [last];
      OnceAtMost(init, x);
      if x == last { assert x !in init; assert x !in multiset(init); }
    }
  }

  lemma {:induction false} PermutedUnique(a: seq<Row>, b: seq<Row>)
    requires UniqueIds(a) && multiset(a) == multiset(b)
    ensures UniqueIds(b)
  {
    UniqueOneRow(a);
    SameMembers(a, b);
    forall i, j | 0 <= i < j < |b| ensures b[i].employeeId != b[j].employeeId {
      assert b[i] in a && b[j] in a;
      if b[i] == b[j] { TwiceInside(b, i, j); }
    }
  }

  lemma {:induction false} TwiceInside(b: seq<Row>, i: nat, j: nat)
    requires i < j < |b| && b[i] == b[j]
    ensures multiset(b)[b[i]] >= 2
  {
    assert b == b[..j] + b[j..];
    assert b[i] in b[..j] && b[i] in b[j..] by { assert b[..j][i] == b[i] && b[j..][0] == b[j]; }
    assert b[i] in multiset(b[..j]) && b[i] in multiset(b[j..]);
  }

  /** One identity, migrated, reads as its row with the new code. */
  lemma {:induction false} MigratedRow(initial: Initial, ids: seq<Identity>, rows: seq<Row>, employees: seq<Planned>,
      i: nat)
    requires CleanIds(ids) && i < |ids| && UniqueIds(rows) && |employees| == |rows|
    requires forall k :: 0 <= k < |rows| ==> employees[k] == PlannedAt(rows, k)
    requires forall r :: r in rows <==> r in ValidRows(initial, ids)
    ensures Accepted(initial)(CodeAfter(employees, ids[i])) == Renames(rows, Accepted(initial)(ids[i]))
    ensures Accepted(initial)(ids[i]).Some? ==> Renamed(rows)(Accepted(initial)(ids[i]).value).Some?
  {
    hide RowOf, Trim, Code, Count, CodeOf, CodeAfter, ValidRows;
    var x := Accepted(initial)(ids[i]);
    if x.Some? {
      var r := x.value;
      RowsAreFrom(initial, ids, r);
      var k :| 0 <= k < |rows| && rows[k] == r;
      RowReads(initial, ids[i]);
      CodeOfAt(rows, k);
      CodeAfterOwn(employees, ids[i], k);
      RowOfRecoded(initial, ids[i], CodeAt(rows, k));
      CodeIsTrimmed(rows[k].year, rows[k].initial, Count(rows[..k + 1], rows[k].year));
    } else {
      RefusedUntouched(initial, ids, rows, employees, i);
    }
  }

  lemma {:induction false} RefusedUntouched(initial: Initial, ids: seq<Identity>, rows: seq<Row>,
      employees: seq<Planned>, i: nat)
    requires CleanIds(ids) && i < |ids| && |employees| == |rows|
    requires forall k :: 0 <= k < |rows| ==> employees[k] == PlannedAt(rows, k)
    requires forall r :: r in rows <==> r in ValidRows(initial, ids)
    requires Accepted(initial)(ids[i]).None?
    ensures CodeAfter(employees, ids[i]) == ids[i]
  {
    hide RowOf, Trim, CodeAt, ValidRows, CodeAfter;
    forall k | 0 <= k < |rows| ensures employees[k].employeeId != ids[i].employeeId {
      assert rows[k] in rows;
      RowsAreFrom(initial, ids, rows[k]);
      var j :| 0 <= j < |ids| && Accepted(initial)(ids[j]) == Some(rows[k]);
      RowReads(initial, ids[j]);
    }
    CodeAfterOther(employees, ids[i]);
  }

  lemma {:induction false} YearsFitRows(initial: Initial, ids: seq<Identity>, rows: seq<Row>)
    requires forall r :: r in rows <==> r in ValidRows(initial, ids)
    ensures YearsFit(rows)
  {
    hide RowOf, ValidRows, AppointmentYear;
    forall r | r in rows ensures AppointmentYear(r.engagement) == Some(r.year) {
      RowsAreFrom(initial, ids, r);
      var i :| 0 <= i < |ids| && Accepted(initial)(ids[i]) == Some(r);
      RowReads(initial, ids[i]);
    }
  }

  /** After a migration the sorted rows are the rows of the plan with their new codes, sorted anew. */
  lemma {:induction false} MigratedRows(initial: Initial, ids: seq<Identity>, employees: seq<Planned>,
      years: map<int, nat>)
    requires CleanIds(ids) && Numbers(Sort(ValidRows(initial, ids)), employees, years)
    ensures var rows, again := Sort(ValidRows(initial, ids)), Sort(ValidRows(initial, AfterUpdates(ids, employees)));
      && Sorted(rows) && UniqueIds(rows) && YearsFit(rows)
      && Sorted(again) && multiset(again) == multiset(Recoded(rows))
  {
    hide RowOf, Sort, KeepsCodes, TiesInOrder, PlannedAt, CodeAfter, Trim, Recoded, CodeOf, ValidRows, Sorted,
      UniqueIds, YearsFit;
    var valid := ValidRows(initial, ids);
    var rows, after := Sort(valid), AfterUpdates(ids, employees);
    SortPermutes(valid);
    SortSorts(valid);
    SameMembers(valid, rows);
    ValidRowsUnique(initial, ids);
    PermutedUnique(valid, rows);
    YearsFitRows(initial, ids, rows);
    AfterUpdatesAt(ids, employees);
    forall i | 0 <= i < |ids|
      ensures Accepted(initial)(after[i]) == Renames(rows, Accepted(initial)(ids[i]))
      ensures Accepted(initial)(ids[i]).Some? ==> Renamed(rows)(Accepted(initial)(ids[i]).value).Some?
    {
      MigratedRow(initial, ids, rows, employees, i);
    }
    CollectRenamed(initial, ids, after, rows);
    CollectPermutes(Renamed(rows), valid, rows);
    RenamedWhole(rows);
    var again := ValidRows(initial, after);
    SortPermutes(again);
    SortSorts(again);
  }

  /** Planning again after a migration proposes no change exactly when neighbours of the first plan that
      agree in engagement date and creation time have ascending letters, or equal letters and numbers of
      one width. */
  lemma SecondMigrationIdle(initial: Initial, ids: seq<Identity>, employees: seq<Planned>, years: map<int, nat>)
    requires CleanIds(ids) && Numbers(Sort(ValidRows(initial, ids)), employees, years)
    ensures KeepsCodes(Sort(ValidRows(initial, AfterUpdates(ids, employees)))) <==>
      TiesInOrder(Sort(ValidRows(initial, ids)))
  {
    hide Sort, ValidRows, Sorted, UniqueIds, YearsFit, KeepsCodes, TiesInOrder, Numbers;
    MigratedRows(initial, ids, employees, years);
    ReplanKeepsCodes(Sort(ValidRows(initial, ids)), Sort(ValidRows(initial, AfterUpdates(ids, employees))));
  }

  lemma {:induction false} RenamedWhole(rows: seq<Row>)
    requires UniqueIds(rows)
    ensures Collect(Renamed(rows), rows) == Recoded(rows)
  {
    hide CodeOf, CodeAt;
    RenamedIsRecoded(rows, |rows|);
    assert rows[..|rows|] == rows && Recoded(rows)[..|rows|] == Recoded(rows);
  }

  // ---- Two employees whom planning again swaps -----------------------------------------------------------

  const FIRST: Identity := Identity("e1", "a", "REGULAR", "2020-01-01", "")
  const SECOND: Identity := Identity("e2", "b", "CONTRACT", "2020-01-01", "")

  const FIRST_ROW: Row := Row("e1", "a", "REGULAR", "2020-01-01", "", 2020, 'R')
  const SECOND_ROW: Row := Row("e2", "b", "CONTRACT", "2020-01-01", "", 2020, 'C')

  lemma NumberTexts()
    ensures ParseInt("2020") == Some(2020) && ParseInt("01") == Some(1)
  {
    var y := "2020";
    assert Trim(y) == y && Trim("01") == "01";
    assert y[..3][..2][..1][..0] == [] && y[..3][..2][..1] == "2" && y[..3][..2] == "20" && y[..3] == "202";
    assert Value("2") == 2 && Value("20") == 20 && Value("202") == 202 && Value(y) == 2020;
    assert "01"[..1] == "0" && "0"[..0] == [] && Value("0") == 0 && Value("01") == 1;
  }

  lemma DateIsRead()
    ensures Trim("2020-01-01") == "2020-01-01" && AppointmentYear("2020-01-01") == Some(2020)
  {
    hide ParseInt;
    var t := "2020-01-01";
    assert Trim(t) == t;
    assert t[..4] == "2020" && t[5..7] == "01" && t[8..10] == "01";
    NumberTexts();
  }

  lemma NamesAreTrimmed()
    ensures Trim("e1") == "e1" && Trim("e2") == "e2" && Trim("a") == "a" && Trim("b") == "b" && Trim("") == ""
    ensures Trim("REGULAR") == "REGULAR" && Trim("CONTRACT") == "CONTRACT"
  {
    hide Trim;
    TrimOfTrimmed("e1");
    TrimOfTrimmed("e2");
    TrimOfTrimmed("a");
    TrimOfTrimmed("b");
    TrimOfTrimmed("");
    TrimOfTrimmed("REGULAR");
    TrimOfTrimmed("CONTRACT");
  }

  lemma RowsAreRead(initial: Initial)
    requires initial("REGULAR") == Some('R') && initial("CONTRACT") == Some('C')
    ensures Accepted(initial)(FIRST) == Some(FIRST_ROW) && Accepted(initial)(SECOND) == Some(SECOND_ROW)
  {
    hide AppointmentYear, Trim;
    DateIsRead();
    NamesAreTrimmed();
    assert RowOf(initial, FIRST) == Ok(FIRST_ROW);
    assert RowOf(initial, SECOND) == Ok(SECOND_ROW);
  }

  lemma CollectTwo<T, U>(f: T -> Option<U>, x: T, y: T)
    requires f(x).Some? && f(y).Some?
    ensures Collect(f, [x, y]) == [f(x).value, f(y).value]
  {
    assert [x, y][..1] == [x] && [x][..0] == [];
    assert Collect(f, [x]) == [f(x).value];
  }

  lemma SortTwo(a: Row, b: Row)
    requires Precedes(a, b)
    ensures Sort([a, b]) == [a, b]
  {
    hide Precedes;
    assert [a, b][..1] == [a] && [a][..0] == [];
    assert Sort([a]) == [a];
  }

  lemma RowsAreSorted(initial: Initial)
    requires initial("REGULAR") == Some('R') && initial("CONTRACT") == Some('C')
    ensures Sort(ValidRows(initial, [FIRST, SECOND])) == [FIRST_ROW, SECOND_ROW]
  {
    hide Sort, RowOf, Collect;
    RowsAreRead(initial);
    CollectTwo(Accepted(initial), FIRST, SECOND);
    assert Precedes(FIRST_ROW, SECOND_ROW) by { assert Less("a", "b"); }
    SortTwo(FIRST_ROW, SECOND_ROW);
  }

  lemma PlanOfTwo(employees: seq<Planned>, years: map<int, nat>)
    requires Numbers([FIRST_ROW, SECOND_ROW], employees, years)
    ensures |employees| == 2 && employees[0].newCode == Code(2020, 'R', 1) && employees[1].newCode == Code(2020, 'C', 2)
    ensures !TiesInOrder([FIRST_ROW, SECOND_ROW])
  {
    hide Code, LastOfWidth;
    var rows := [FIRST_ROW, SECOND_ROW];
    assert rows[..1] == [FIRST_ROW] && rows[..2] == rows && [FIRST_ROW][..0] == [];
    assert Count([], 2020) == 0 && Count([FIRST_ROW], 2020) == 1 && Count(rows, 2020) == 2;
    assert employees[0] == PlannedAt(rows, 0) && employees[1] == PlannedAt(rows, 1);
    assert Tied(rows, 0) && !TieInOrder(rows, 0);
  }

  lemma PairPermuted(a: seq<Row>, x: Row, y: Row)
    requires multiset(a) == multiset([x, y]) && a != [x, y]
    ensures a == [y, x]
  {
    assert |a| == |multiset(a)| == |multiset([x, y])| == 2;
    assert a[0] in multiset([x, y]) && a[1] in multiset([x, y]);
    assert a == [a[0], a[1]];
    assert multiset(a)[a[0]] == if a[0] == a[1] then 2 else 1;
  }

  lemma CodesInPlace(a: Row, b: Row)
    requires a.year == b.year == 2020
    ensures CodeAt([a, b], 0) == Code(2020, a.initial, 1) && CodeAt([a, b], 1) == Code(2020, b.initial, 2)
  {
    hide Code;
    var rows := [a, b];
    assert rows[..1] == [a] && rows[..2] == rows && [a][..0] == [];
    assert Count([], 2020) == 0 && Count([a], 2020) == 1 && Count(rows, 2020) == 2;
  }

  /** Two employees agree in both dates, the first under a later letter: the plan numbers them 1 and 2, and
      planning again after the migration numbers them 2 and 1. */
  lemma LettersCanSwapTies(initial: Initial, employees: seq<Planned>, years: map<int, nat>)
    requires initial("REGULAR") == Some('R') && initial("CONTRACT") == Some('C')
    requires Numbers(Sort(ValidRows(initial, [FIRST, SECOND])), employees, years)
    ensures |employees| == 2 && employees[0].newCode == Code(2020, 'R', 1) && employees[1].newCode == Code(2020, 'C', 2)
    ensures var again := Sort(ValidRows(initial, AfterUpdates([FIRST, SECOND], employees)));
      && |again| == 2 && again[0].employeeId == "e2" && again[1].employeeId == "e1" && !KeepsCodes(again)
      && CodeAt(again, 0) == Code(2020, 'C', 1) && CodeAt(again, 1) == Code(2020, 'R', 2)
  {
    hide Code, CodeAt, KeepsCodes, ValidRows, Sort, Sorted, AfterUpdates, Numbers, TiesInOrder, Trim;
    RowsAreSorted(initial);
    PlanOfTwo(employees, years);
    NamesAreTrimmed();
    assert CleanIds([FIRST, SECOND]) by { assert "e1"[1] == '1' && "e2"[1] == '2'; }
    SecondMigrationIdle(initial, [FIRST, SECOND], employees, years);
    MigratedRows(initial, [FIRST, SECOND], employees, years);
    SwappedRows(Sort(ValidRows(initial, AfterUpdates([FIRST, SECOND], employees))));
  }

  lemma SwappedRows(again: seq<Row>)
    requires multiset(again) == multiset(Recoded([FIRST_ROW, SECOND_ROW])) && !KeepsCodes(again)
    ensures |again| == 2 && again[0].employeeId == "e2" && again[1].employeeId == "e1"
    ensures CodeAt(again, 0) == Code(2020, 'C', 1) && CodeAt(again, 1) == Code(2020, 'R', 2)
  {
    hide Code, CodeAt;
    CodesInPlace(FIRST_ROW, SECOND_ROW);
    var x, y := FIRST_ROW.(code := Code(2020, 'R', 1)), SECOND_ROW.(code := Code(2020, 'C', 2));
    assert Recoded([FIRST_ROW, SECOND_ROW]) == [x, y];
    CodesInPlace(x, y);
    CodesInPlace(y, x);
    PairPermuted(again, x, y);
  }
}
