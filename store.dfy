/** The fee tracker's state updates: each takes the current GlobalState
    snapshot and returns the next one (add, delete, pay, CSV import and the
    three setters), plus the staff views derived from the list. Fresh ids,
    which the application draws with crypto.randomUUID, are parameters. */
module Store {
  import opened Types
  import opened Seqs
  import Text
  import Dashboard

  // ------------------------------------------------------------ records

  /** The serial label `SN-<n>`. */
  function Serial(n: nat): (r: string)
    ensures |r| > 3 && r[..3] == "SN-"
  {
    "SN-" + Text.NatToString(n)
  }

  /** Two serials are equal only for the same ordinal. */
  lemma SerialInjective(m: nat, n: nat)
    requires Serial(m) == Serial(n)
    ensures m == n
  {
    assert Text.NatToString(m) == Serial(m)[3..];
    assert Text.NatToString(n) == Serial(n)[3..];
    Text.NatToStringInjective(m, n);
  }

  /** A record as it is created: Unpaid, no payment date, no remark. */
  function NewStudent(id: string, serial: string, name: string, phone: string, cat: FeeCategory): (s: Student)
    ensures s.status == Unpaid && s.paymentDate.None? && s.remarks.None? && Consistent(s)
  {
    Student(id, serial, name, phone, Unpaid, cat, None, None)
  }

  /** The state used when nothing was saved: no students, the given default
      fee table, no due date, Registration active. */
  function DefaultState(defaultFees: FeeConfig): (st: GlobalState)
    ensures st.students == [] && st.feeConfig == defaultFees
    ensures st.dueDate == "" && st.activeCategory == Registration
  {
    GlobalState([], defaultFees, "", Registration)
  }

  // ---------------------------------------------------------------- add

  /** `addStudent`: appends one Unpaid record of the active category whose
      serial is one past the current length; nothing else changes. */
  function AddStudent(st: GlobalState, id: string, name: string, phone: string): (r: GlobalState)
    ensures |r.students| == |st.students| + 1
    ensures r.students[..|st.students|] == st.students
    ensures r.students[|st.students|] == NewStudent(id, Serial(|st.students| + 1), name, phone, st.activeCategory)
    ensures r.feeConfig == st.feeConfig && r.dueDate == st.dueDate && r.activeCategory == st.activeCategory
  {
    var s := NewStudent(id, Serial(|st.students| + 1), name, phone, st.activeCategory);
    st.(students := st.students + [s])
  }

  // ------------------------------------------------------------- delete

  /** `deleteStudent`: keeps exactly the records whose id differs, in their
      original order; an absent id changes nothing. */
  function DeleteStudent(st: GlobalState, id: string): (r: GlobalState)
    ensures forall i :: 0 <= i < |r.students| ==> r.students[i].id != id && r.students[i] in st.students
    ensures forall i :: 0 <= i < |st.students| && st.students[i].id != id ==> st.students[i] in r.students
    ensures id !in Ids(st.students) ==> r == st
    ensures r.feeConfig == st.feeConfig && r.dueDate == st.dueDate && r.activeCategory == st.activeCategory
  {
    var kept := Filter(st.students, (s: Student) => s.id != id);
    FilterKeepsSatisfying(st.students, (s: Student) => s.id != id);
    if id !in Ids(st.students) then
      FilterKeepsAll(st.students, (s: Student) => s.id != id);
      st.(students := kept)
    else
      st.(students := kept)
  }

  /** With unique ids, deleting a present id removes exactly that record and
      closes the gap, leaving the others in order. */
  lemma DeleteRemovesOne(st: GlobalState, i: nat)
    requires i < |st.students| && UniqueIds(st.students)
    ensures DeleteStudent(st, st.students[i].id).students == st.students[..i] + st.students[i + 1..]
  {
    var s, id := st.students, st.students[i].id;
    var keep := (s: Student) => s.id != id;
    var a, b := s[..i], s[i + 1..];
    assert s == a + [s[i]] + b;
    FilterSkips(a, s[i], b, keep);
    forall j | 0 <= j < |a + b| ensures keep((a + b)[j]) {
      if j < |a| {
        assert (a + b)[j] == s[j];
      } else {
        assert (a + b)[j] == s[j + 1];
      }
    }
    FilterKeepsAll(a + b, keep);
  }

  // ---------------------------------------------------------------- pay

  /** A record after payment: Paid, with the given date and remark. */
  function PaidRecord(s: Student, date: string, remark: string): (p: Student)
    ensures p.status == Paid && p.paymentDate == Some(date) && p.remarks == Some(remark) && Consistent(p)
    ensures p.id == s.id && p.serialNumber == s.serialNumber && p.name == s.name
    ensures p.phone == s.phone && p.category == s.category
  {
    s.(status := Paid, paymentDate := Some(date), remarks := Some(remark))
  }

  /** The `map` inside `updateFeeStatus`: every record with the id is paid,
      every other record is left as it is, and the order is kept. */
  function MarkPaid(students: seq<Student>, id: string, date: string, remark: string): (r: seq<Student>)
    ensures |r| == |students|
    ensures forall i :: 0 <= i < |r| ==>
      r[i] == if students[i].id == id then PaidRecord(students[i], date, remark) else students[i]
  {
    if students == [] then []
    else
      var head := if students[0].id == id then PaidRecord(students[0], date, remark) else students[0];
      [head] + MarkPaid(students[1..], id, date, remark)
  }

  /** `updateFeeStatus`: marks the records with the id as Paid; nothing else changes. */
  function UpdateFeeStatus(st: GlobalState, id: string, date: string, remark: string): (r: GlobalState)
    ensures r.students == MarkPaid(st.students, id, date, remark)
    ensures r.feeConfig == st.feeConfig && r.dueDate == st.dueDate && r.activeCategory == st.activeCategory
  {
    st.(students := MarkPaid(st.students, id, date, remark))
  }

  /** Paying an id that is not in the list changes nothing. */
  lemma UpdateAbsentIsNoop(st: GlobalState, id: string, date: string, remark: string)
    requires id !in Ids(st.students)
    ensures UpdateFeeStatus(st, id, date, remark) == st
  {
    var r := UpdateFeeStatus(st, id, date, remark);
    assert r.students == st.students;
  }

  /** Paying twice leaves the second date and remark, and the record stays Paid. */
  lemma UpdateOverwrites(st: GlobalState, id: string, d1: string, r1: string, d2: string, r2: string)
    ensures UpdateFeeStatus(UpdateFeeStatus(st, id, d1, r1), id, d2, r2) == UpdateFeeStatus(st, id, d2, r2)
  {
    var a := UpdateFeeStatus(UpdateFeeStatus(st, id, d1, r1), id, d2, r2).students;
    var b := UpdateFeeStatus(st, id, d2, r2).students;
    assert forall i :: 0 <= i < |a| ==> a[i] == b[i];
  }

  /** MarkPaid works record by record, so it distributes over concatenation. */
  lemma MarkPaidConcat(a: seq<Student>, b: seq<Student>, id: string, date: string, remark: string)
    ensures MarkPaid(a + b, id, date, remark) == MarkPaid(a, id, date, remark) + MarkPaid(b, id, date, remark)
  {
    var l, r := MarkPaid(a + b, id, date, remark), MarkPaid(a, id, date, remark) + MarkPaid(b, id, date, remark);
    assert forall i :: 0 <= i < |l| ==> l[i] == r[i];
  }

  /** Paying the one Unpaid record of the active category that has the id
      moves it from the dashboard's unpaid count to its paid count; the total
      does not change. */
  lemma PayMovesOneToPaid(st: GlobalState, i: nat, date: string, remark: string)
    requires i < |st.students| && UniqueIds(st.students)
    requires st.students[i].status == Unpaid && st.students[i].category == st.activeCategory
    ensures var r := UpdateFeeStatus(st, st.students[i].id, date, remark);
      var cat := st.activeCategory;
      Dashboard.Total(r.students, cat) == Dashboard.Total(st.students, cat) &&
      Dashboard.PaidCount(r.students, cat) == Dashboard.PaidCount(st.students, cat) + 1 &&
      Dashboard.UnpaidCount(r.students, cat) + 1 == Dashboard.UnpaidCount(st.students, cat)
  {
    var s, cat := st.students, st.activeCategory;
    var a, x, b := s[..i], s[i], s[i + 1..];
    assert s == a + [x] + b;
    PayOne(s, i, date, remark);
    Dashboard.CountsAround(a, x, b, cat);
    Dashboard.CountsAround(a, PaidRecord(x, date, remark), b, cat);
  }

  /** With unique ids, paying a present id replaces exactly that record by its paid version. */
  lemma PayOne(s: seq<Student>, i: nat, date: string, remark: string)
    requires i < |s| && UniqueIds(s)
    ensures MarkPaid(s, s[i].id, date, remark) == s[..i] + [PaidRecord(s[i], date, remark)] + s[i + 1..]
  {
    var r := MarkPaid(s, s[i].id, date, remark);
    var t := s[..i] + [PaidRecord(s[i], date, remark)] + s[i + 1..];
    forall j | 0 <= j < |r| ensures r[j] == t[j] {
      if j < i {
        assert s[j].id != s[i].id && t[j] == s[j];
      } else if j > i {
        assert s[i].id != s[j].id && t[j] == s[j];
      }
    }
  }

  // ---------------------------------------------------------- csv import

  /** The two fields the importer takes from a line. */
  datatype Row = Row(name: string, phone: string)

  /** `line.trim()` is truthy: the line holds a character other than whitespace. */
  function NonBlank(line: string): (b: bool)
    ensures b <==> !Text.AllWhitespace(line)
  {
    Text.Trim(line) != ""
  }

  /** `text.split('\n').slice(1).filter(line => line.trim())`: every line
      after the first that is not blank, in order. */
  function DataLines(text: string): (lines: seq<string>)
    ensures forall i :: 0 <= i < |lines| ==> NonBlank(lines[i]) && '\n' !in lines[i]
  {
    Filter(Text.Split(text, '\n')[1..], NonBlank)
  }

  /** The k-th comma field of a line, trimmed; "" when the line has fewer
      fields (where JavaScript's destructuring gives undefined). */
  function Field(fields: seq<string>, k: nat): (f: string)
    requires forall i :: 0 <= i < |fields| ==> ',' !in fields[i]
    ensures ',' !in f && Text.Trim(f) == f
  {
    if k < |fields| then
      var t := Text.TrimStart(fields[k]);
      assert ',' !in t;
      Text.TrimIdempotent(fields[k]);
      Text.Trim(fields[k])
    else ""
  }

  /** `s || fallback` on strings: the empty string is falsy. */
  function OrDefault(s: string, fallback: string): (r: string)
    ensures s != "" ==> r == s
    ensures s == "" ==> r == fallback
    ensures fallback != "" ==> r != ""
  {
    if s == "" then fallback else s
  }

  /** The record fields of one line: the trimmed first and second comma
      fields, "Unknown" and "N/A" when empty or absent; further fields are
      ignored. */
  function ParseLine(line: string): (r: Row)
    ensures r.name != "" && r.phone != ""
  {
    var fields := Text.Split(line, ',');
    Row(OrDefault(Field(fields, 0), "Unknown"), OrDefault(Field(fields, 1), "N/A"))
  }

  /** Neither field of a parsed line holds a comma, and each is trimmed
      unless it was defaulted. */
  lemma ParseLineClean(line: string)
    ensures var r := ParseLine(line);
      ',' !in r.name && ',' !in r.phone &&
      (r.name == "Unknown" || Text.Trim(r.name) == r.name) &&
      (r.phone == "N/A" || Text.Trim(r.phone) == r.phone)
  {
    var fields := Text.Split(line, ',');
    var n, p := Field(fields, 0), Field(fields, 1);
    var r := ParseLine(line);
    assert r == Row(OrDefault(n, "Unknown"), OrDefault(p, "N/A"));
    DefaultsHaveNoComma();
    if n == "" {
      assert r.name == "Unknown";
    } else {
      assert r.name == n;
    }
    if p == "" {
      assert r.phone == "N/A";
    } else {
      assert r.phone == p;
    }
  }

  lemma DefaultsHaveNoComma()
    ensures ',' !in "Unknown" && ',' !in "N/A"
  {
    assert "Unknown" == ['U', 'n', 'k', 'n', 'o', 'w', 'n'];
    assert "N/A" == ['N', '/', 'A'];
  }

  /** The rows the importer builds from a file's text: each data line
      parsed on its own, in order. */
  function ParseCsv(text: string): seq<Row> {
    Map(DataLines(text), ParseLine)
  }

  /** The new records of an import: Unpaid, in category `cat`, with serials
      continuing after `start` existing records; `newId(k)` is the fresh id
      drawn for the k-th row. */
  function ImportedStudents(rows: seq<Row>, newId: nat -> string, start: nat, cat: FeeCategory): (r: seq<Student>)
    ensures |r| == |rows|
    ensures forall k :: 0 <= k < |r| ==>
      r[k].id == newId(k) && r[k].serialNumber == Serial(start + k + 1) &&
      r[k].name == rows[k].name && r[k].phone == rows[k].phone && r[k].category == cat &&
      r[k].status == Unpaid && r[k].paymentDate.None? && r[k].remarks.None?
  {
    seq(|rows|, k requires 0 <= k < |rows| => NewStudent(newId(k), Serial(start + k + 1), rows[k].name, rows[k].phone, cat))
  }

  /** The state update of `handleCsvUpload`: the imported batch is appended
      after the existing records; nothing else changes. */
  function ImportCsv(st: GlobalState, text: string, newId: nat -> string): (r: GlobalState)
    ensures |r.students| == |st.students| + |DataLines(text)|
    ensures r.students[..|st.students|] == st.students
    ensures forall j :: |st.students| <= j < |r.students| ==>
      r.students[j].status == Unpaid && r.students[j].paymentDate.None? && r.students[j].remarks.None? &&
      r.students[j].category == st.activeCategory && r.students[j].serialNumber == Serial(j + 1)
    ensures r.feeConfig == st.feeConfig && r.dueDate == st.dueDate && r.activeCategory == st.activeCategory
  {
    var batch := ImportedStudents(ParseCsv(text), newId, |st.students|, st.activeCategory);
    var all := st.students + batch;
    st.(students := all)
  }

  /** The record imported from the k-th data line: id `newId(k)`, serial
      `SN-(n+k+1)` after the n existing records, and the line's name and phone. */
  lemma ImportedRecord(st: GlobalState, text: string, newId: nat -> string, k: nat)
    requires k < |DataLines(text)|
    ensures var row := ParseLine(DataLines(text)[k]);
      ImportCsv(st, text, newId).students[|st.students| + k] ==
        NewStudent(newId(k), Serial(|st.students| + k + 1), row.name, row.phone, st.activeCategory)
  {
    var n, rows := |st.students|, ParseCsv(text);
    var batch := ImportedStudents(rows, newId, n, st.activeCategory);
    assert ImportCsv(st, text, newId).students == st.students + batch;
    assert (st.students + batch)[n + k] == batch[k];
    assert batch[k] == NewStudent(newId(k), Serial(n + k + 1), rows[k].name, rows[k].phone, st.activeCategory);
    assert rows[k] == ParseLine(DataLines(text)[k]);
  }

  /** A line without a comma gives its trimmed self as the name ("Unknown"
      when that is empty) and "N/A" as the phone. */
  lemma ParseLineWithoutComma(line: string)
    requires ',' !in line
    ensures ParseLine(line) == Row(OrDefault(Text.Trim(line), "Unknown"), "N/A")
  {
    Text.SplitWithoutSeparator(line, ',');
    var fields := Text.Split(line, ',');
    assert fields == [line];
    assert Field(fields, 0) == Text.Trim(line) && Field(fields, 1) == "";
  }

  /** A line with exactly one comma: the name is the trimmed text before it,
      the phone the trimmed text after it, each replaced by its default
      when empty. */
  lemma ParseTwoFields(a: string, b: string)
    requires ',' !in a && ',' !in b
    ensures ParseLine(a + "," + b) == Row(OrDefault(Text.Trim(a), "Unknown"), OrDefault(Text.Trim(b), "N/A"))
  {
    SplitPair(a, b);
    assert Field([a, b], 0) == Text.Trim(a) && Field([a, b], 1) == Text.Trim(b);
  }

  /** Fields after the second never matter. */
  lemma ParseLineIgnoresExtraFields(a: string, b: string, rest: string)
    requires ',' !in a && ',' !in b
    ensures ParseLine(a + "," + b + "," + rest) == ParseLine(a + "," + b)
  {
    var long, short := a + "," + b + "," + rest, a + "," + b;
    assert long == a + [','] + (b + [','] + rest);
    assert short == a + [','] + b;
    Text.SplitAtFirstSeparator(a, b + [','] + rest, ',');
    Text.SplitAtFirstSeparator(b, rest, ',');
    Text.SplitAtFirstSeparator(a, b, ',');
    Text.SplitWithoutSeparator(b, ',');
    var fl, fs := Text.Split(long, ','), Text.Split(short, ',');
    assert fl[0] == fs[0] == a && fl[1] == fs[1] == b;
    assert Field(fl, 0) == Field(fs, 0) && Field(fl, 1) == Field(fs, 1);
  }

  /** A blank first field gives the name "Unknown", whatever follows. */
  lemma ParseLineWithoutName(blank: string, rest: string)
    requires ',' !in blank && Text.AllWhitespace(blank)
    ensures ParseLine(blank + "," + rest).name == "Unknown"
  {
    assert blank + "," + rest == blank + [','] + rest;
    Text.SplitAtFirstSeparator(blank, rest, ',');
    var fields := Text.Split(blank + "," + rest, ',');
    assert fields[0] == blank;
    assert Field(fields, 0) == "";
  }

  /** A blank second field gives the phone "N/A", whatever follows. */
  lemma ParseLineWithoutPhone(name: string, blank: string, rest: string)
    requires ',' !in name && ',' !in blank && Text.AllWhitespace(blank)
    ensures ParseLine(name + "," + blank).phone == "N/A"
    ensures ParseLine(name + "," + blank + "," + rest).phone == "N/A"
  {
    ParseTwoFields(name, blank);
    ParseLineIgnoresExtraFields(name, blank, rest);
  }

  /** A field the importer reads back unchanged: non-empty, no comma, no
      line break, no surrounding whitespace. */
  predicate CleanField(f: string) {
    f != [] && ',' !in f && '\n' !in f && !Text.IsWhitespace(f[0]) && !Text.IsWhitespace(f[|f| - 1])
  }

  /** The text layout the importer expects: a header line, then one
      `name,phone` line per row. */
  function CsvText(header: string, rows: seq<Row>): string {
    Text.Join([header] + seq(|rows|, i requires 0 <= i < |rows| => rows[i].name + "," + rows[i].phone), '\n')
  }

  /** A line made of two comma-free parts and one comma splits into those parts. */
  lemma SplitPair(name: string, phone: string)
    requires ',' !in name && ',' !in phone
    ensures Text.Split(name + "," + phone, ',') == [name, phone]
  {
    assert name + "," + phone == name + [','] + phone;
    Text.SplitAtFirstSeparator(name, phone, ',');
    Text.SplitWithoutSeparator(phone, ',');
  }

  /** One clean `name,phone` line reads back as its row. */
  lemma ParseCleanLine(row: Row)
    requires CleanField(row.name) && CleanField(row.phone)
    ensures NonBlank(row.name + "," + row.phone)
    ensures ParseLine(row.name + "," + row.phone) == row
  {
    var name, phone := row.name, row.phone;
    SplitPair(name, phone);
    Text.TrimClean(name);
    Text.TrimClean(phone);
    assert Field([name, phone], 0) == name && Field([name, phone], 1) == phone;
    assert (name + "," + phone)[0] == name[0];
  }

  /** Importing the text laid out from clean rows gives back exactly those
      rows, in order, whatever the header says. */
  lemma {:induction false} ImportRoundTrip(header: string, rows: seq<Row>)
    requires '\n' !in header
    requires forall i :: 0 <= i < |rows| ==> CleanField(rows[i].name) && CleanField(rows[i].phone)
    ensures ParseCsv(CsvText(header, rows)) == rows
  {
    var lines := seq(|rows|, i requires 0 <= i < |rows| => rows[i].name + "," + rows[i].phone);
    var parts := [header] + lines;
    var parsed := Map(lines, ParseLine);
    forall i | 0 <= i < |rows|
      ensures NonBlank(lines[i]) && parsed[i] == rows[i] && '\n' !in lines[i]
    {
      ParseCleanLine(rows[i]);
      assert lines[i] == rows[i].name + [','] + rows[i].phone;
    }
    Text.SplitJoin(parts, '\n');
    assert Text.Split(CsvText(header, rows), '\n')[1..] == lines;
    FilterKeepsAll(lines, NonBlank);
    assert DataLines(CsvText(header, rows)) == lines;
    assert parsed == rows;
  }

  /** None of the lines holds a line break. */
  predicate SingleLines(lines: seq<string>) {
    forall i :: 0 <= i < |lines| ==> '\n' !in lines[i]
  }

  lemma SingleLinesConcat(a: seq<string>, b: seq<string>)
    requires SingleLines(a) && SingleLines(b)
    ensures SingleLines(a + b)
  {
    forall i | 0 <= i < |a + b| ensures '\n' !in (a + b)[i] {
      if i >= |a| { assert (a + b)[i] == b[i - |a|]; }
    }
  }

  /** Of a text laid out as a header line and further lines, the data lines
      are the further lines that are not blank. */
  lemma DataLinesOfJoin(header: string, lines: seq<string>)
    requires '\n' !in header && SingleLines(lines)
    ensures DataLines(Text.Join([header] + lines, '\n')) == Filter(lines, NonBlank)
  {
    SingleLinesConcat([header], lines);
    Text.SplitJoin([header] + lines, '\n');
    assert ([header] + lines)[1..] == lines;
  }

  /** Blank lines (empty or all whitespace) anywhere after the header are
      skipped: removing one does not change what is imported. */
  lemma BlankLinesIgnored(header: string, a: seq<string>, blank: string, b: seq<string>)
    requires '\n' !in header && '\n' !in blank && Text.AllWhitespace(blank)
    requires SingleLines(a) && SingleLines(b)
    ensures ParseCsv(Text.Join([header] + (a + [blank] + b), '\n')) == ParseCsv(Text.Join([header] + (a + b), '\n'))
  {
    SingleLinesConcat(a, [blank]);
    SingleLinesConcat(a + [blank], b);
    SingleLinesConcat(a, b);
    DataLinesOfJoin(header, a + [blank] + b);
    DataLinesOfJoin(header, a + b);
    assert !NonBlank(blank);
    FilterSkips(a, blank, b, NonBlank);
  }

  // ------------------------------------------------------------ setters

  /** `setCategory`: only the active category changes. */
  function SetCategory(st: GlobalState, cat: FeeCategory): (r: GlobalState)
    ensures r.activeCategory == cat
    ensures r.students == st.students && r.feeConfig == st.feeConfig && r.dueDate == st.dueDate
  {
    st.(activeCategory := cat)
  }

  /** The fee-table setter: only the fee table changes. */
  function SetFeeConfig(st: GlobalState, cfg: FeeConfig): (r: GlobalState)
    ensures r.feeConfig == cfg
    ensures r.students == st.students && r.dueDate == st.dueDate && r.activeCategory == st.activeCategory
  {
    st.(feeConfig := cfg)
  }

  /** The fee-setup inputs: one category's amount replaced, the other two
      kept as they were. */
  function WithFee(cfg: FeeConfig, cat: FeeCategory, amount: int): (r: FeeConfig)
    ensures Dashboard.FeeAmount(r, cat) == amount
    ensures forall c: FeeCategory :: c != cat ==> Dashboard.FeeAmount(r, c) == Dashboard.FeeAmount(cfg, c)
  {
    match cat
    case Registration => cfg.(registration := amount)
    case Admission => cfg.(admission := amount)
    case Monthly => cfg.(monthly := amount)
  }

  /** The due-date setter: only the due date changes. */
  function SetDueDate(st: GlobalState, date: string): (r: GlobalState)
    ensures r.dueDate == date
    ensures r.students == st.students && r.feeConfig == st.feeConfig && r.activeCategory == st.activeCategory
  {
    st.(dueDate := date)
  }

  // ------------------------------------------------------ admin table

  /** The admin's student table: the records of the active category, in list
      order, as many as the dashboard's total. */
  function AdminTable(st: GlobalState): (r: seq<Student>)
    ensures forall i :: 0 <= i < |r| ==> r[i].category == st.activeCategory && r[i] in st.students
    ensures forall i :: 0 <= i < |st.students| && st.students[i].category == st.activeCategory ==> st.students[i] in r
    ensures |r| == Dashboard.Total(st.students, st.activeCategory)
  {
    Dashboard.CategoryStudents(st.students, st.activeCategory)
  }

  // ---------------------------------------------------------- staff views

  /** `getPendingCount`: the Unpaid records of a category; the same number
      the admin dashboard shows as pending for that category. */
  function PendingCount(students: seq<Student>, cat: FeeCategory): (r: nat)
    ensures r == Dashboard.UnpaidCount(students, cat)
  {
    var both := (s: Student) => s.category == cat && s.status == Unpaid;
    FilterAnd(students, (s: Student) => s.category == cat, (s: Student) => s.status == Unpaid, both);
    |Filter(students, both)|
  }

  /** `unpaidStudents`: the staff queue, exactly the Unpaid records of the
      active category in list order. */
  function UnpaidQueue(students: seq<Student>, cat: FeeCategory): (r: seq<Student>)
    ensures r == Dashboard.UnpaidOnly(Dashboard.CategoryStudents(students, cat))
    ensures |r| == PendingCount(students, cat)
    ensures forall i :: 0 <= i < |r| ==> r[i].status == Unpaid && r[i].category == cat
  {
    var both := (s: Student) => s.status == Unpaid && s.category == cat;
    FilterAnd(students, (s: Student) => s.category == cat, (s: Student) => s.status == Unpaid, both);
    Filter(students, both)
  }

  /** The staff deadline card: "N/A" when no due date is set, "OVERDUE"
      once a whole day has passed, otherwise the day count. */
  function StaffDaysLabel(c: Dashboard.Countdown): (r: string)
    ensures r == "N/A" <==> c.NotSet?
    ensures r == "OVERDUE" <==> c.Overdue?
    ensures c.DaysLeft? ==> (forall i :: 0 <= i < |r| ==> Text.IsDigit(r[i])) && Text.ParseNat(r) == c.days
  {
    match c
    case NotSet => "N/A"
    case Overdue => "OVERDUE"
    case DaysLeft(d) =>
      Text.ParseNatToString(d);
      Text.NatToString(d)
  }

  // ------------------------------------------------- sequences of updates

  /** Everything the admin and staff screens can do to the state. */
  datatype Action =
    | Add(id: string, name: string, phone: string)
    | Delete(id: string)
    | Pay(id: string, date: string, remark: string)
    | Import(text: string, newId: nat -> string)
    | ChooseCategory(cat: FeeCategory)
    | ConfigureFees(cfg: FeeConfig)
    | ChooseDueDate(date: string)

  function Apply(st: GlobalState, a: Action): GlobalState {
    match a
    case Add(id, name, phone) => AddStudent(st, id, name, phone)
    case Delete(id) => DeleteStudent(st, id)
    case Pay(id, date, remark) => UpdateFeeStatus(st, id, date, remark)
    case Import(text, newId) => ImportCsv(st, text, newId)
    case ChooseCategory(cat) => SetCategory(st, cat)
    case ConfigureFees(cfg) => SetFeeConfig(st, cfg)
    case ChooseDueDate(date) => SetDueDate(st, date)
  }

  function Run(st: GlobalState, actions: seq<Action>): GlobalState
    decreases |actions|
  {
    if actions == [] then st else Run(Apply(st, actions[0]), actions[1..])
  }

  /** Every update keeps the record invariant: Unpaid records carry no
      payment date or remark, Paid ones carry a payment date. */
  lemma ApplyKeepsConsistent(st: GlobalState, a: Action)
    requires AllConsistent(st.students)
    ensures AllConsistent(Apply(st, a).students)
  {
    var s, r := st.students, Apply(st, a).students;
    match a {
      case Add(id, name, phone) => AppendKeepsConsistent(s, r);
      case Import(text, newId) => AppendKeepsConsistent(s, r);
      case Delete(id) =>
        forall i | 0 <= i < |r| ensures Consistent(r[i]) {
          var j :| 0 <= j < |s| && s[j] == r[i];
        }
      case Pay(id, date, remark) =>
      case ChooseCategory(cat) =>
      case ConfigureFees(cfg) =>
      case ChooseDueDate(date) =>
    }
  }

  /** The import on its own keeps the record invariant. */
  lemma ImportKeepsConsistent(st: GlobalState, text: string, newId: nat -> string)
    requires AllConsistent(st.students)
    ensures AllConsistent(ImportCsv(st, text, newId).students)
  {
    AppendKeepsConsistent(st.students, ImportCsv(st, text, newId).students);
  }

  lemma AppendKeepsConsistent(s: seq<Student>, r: seq<Student>)
    requires |s| <= |r| && r[..|s|] == s && AllConsistent(s)
    requires forall j :: |s| <= j < |r| ==> r[j].status == Unpaid && r[j].paymentDate.None? && r[j].remarks.None?
    ensures AllConsistent(r)
  {
    forall j | 0 <= j < |s| ensures Consistent(r[j]) {
      assert r[j] == r[..|s|][j];
    }
  }

  lemma {:induction false} RunKeepsConsistent(st: GlobalState, actions: seq<Action>)
    requires AllConsistent(st.students)
    ensures AllConsistent(Run(st, actions).students)
    decreases |actions|
  {
    if actions != [] {
      ApplyKeepsConsistent(st, actions[0]);
      RunKeepsConsistent(Apply(st, actions[0]), actions[1..]);
    }
  }

  /** Nothing is turned back from Paid to Unpaid: every Unpaid record
      after an update is an unchanged record from before it or a new record
      with a fresh id. */
  ghost predicate NeverUnpays(before: seq<Student>, after: seq<Student>) {
    forall j :: 0 <= j < |after| && after[j].status == Unpaid ==>
      after[j] in before || after[j].id !in Ids(before)
  }

  /** The ids an update hands out are fresh and pairwise different, as
      crypto.randomUUID's are. */
  ghost predicate FreshIds(st: GlobalState, a: Action) {
    match a
    case Add(id, _, _) => id !in Ids(st.students)
    case Import(_, newId) =>
      (forall k: nat :: newId(k) !in Ids(st.students)) &&
      (forall k: nat, l: nat :: k != l ==> newId(k) != newId(l))
    case _ => true
  }

  /** Every update of a run hands out fresh ids. */
  ghost predicate AllFresh(st: GlobalState, actions: seq<Action>)
    decreases |actions|
  {
    actions == [] || (FreshIds(st, actions[0]) && AllFresh(Apply(st, actions[0]), actions[1..]))
  }

  /** With fresh ids, no update makes two records share an id. */
  lemma ApplyKeepsUniqueIds(st: GlobalState, a: Action)
    requires UniqueIds(st.students) && FreshIds(st, a)
    ensures UniqueIds(Apply(st, a).students)
  {
    var s, r := st.students, Apply(st, a).students;
    match a {
      case Add(id, name, phone) =>
        AppendKeepsUniqueIds(s, r);
      case Import(text, newId) =>
        ImportKeepsUniqueIds(st, text, newId);
      case Delete(id) =>
        FilterKeepsUniqueIds(s, (x: Student) => x.id != id);
      case Pay(id, date, remark) =>
        PayKeepsIds(s, id, date, remark);
      case ChooseCategory(cat) =>
      case ConfigureFees(cfg) =>
      case ChooseDueDate(date) =>
    }
  }

  /** An import whose ids are new and pairwise different keeps ids unique. */
  lemma ImportKeepsUniqueIds(st: GlobalState, text: string, newId: nat -> string)
    requires UniqueIds(st.students)
    requires forall k: nat :: newId(k) !in Ids(st.students)
    requires forall k: nat, l: nat :: k != l ==> newId(k) != newId(l)
    ensures UniqueIds(ImportCsv(st, text, newId).students)
  {
    var s, r := st.students, ImportCsv(st, text, newId).students;
    forall j | |s| <= j < |r| ensures r[j].id == newId(j - |s|) {
      ImportedRecord(st, text, newId, j - |s|);
    }
    AppendKeepsUniqueIds(s, r);
  }

  /** Paying keeps every record's id in its place. */
  lemma PayKeepsIds(s: seq<Student>, id: string, date: string, remark: string)
    ensures var r := MarkPaid(s, id, date, remark);
      |r| == |s| && forall k :: 0 <= k < |r| ==> r[k].id == s[k].id
  {
  }

  lemma {:induction false} RunKeepsUniqueIds(st: GlobalState, actions: seq<Action>)
    requires UniqueIds(st.students) && AllFresh(st, actions)
    ensures UniqueIds(Run(st, actions).students)
    decreases |actions|
  {
    if actions != [] {
      ApplyKeepsUniqueIds(st, actions[0]);
      RunKeepsUniqueIds(Apply(st, actions[0]), actions[1..]);
    }
  }

  /** Appending records whose ids are new and pairwise different keeps ids unique. */
  lemma AppendKeepsUniqueIds(s: seq<Student>, r: seq<Student>)
    requires |s| <= |r| && r[..|s|] == s && UniqueIds(s)
    requires forall j :: |s| <= j < |r| ==> r[j].id !in Ids(s)
    requires forall i, j :: |s| <= i < j < |r| ==> r[i].id != r[j].id
    ensures UniqueIds(r)
  {
    forall i, j | 0 <= i < j < |r| ensures r[i].id != r[j].id {
      if i < |s| {
        assert r[i] == r[..|s|][i] == s[i];
        assert s[i].id in Ids(s);
        if j < |s| {
          assert r[j] == r[..|s|][j] == s[j];
        }
      }
    }
  }

  /** A filter never makes two records share an id. */
  lemma {:induction false} FilterKeepsUniqueIds(s: seq<Student>, p: Student -> bool)
    requires UniqueIds(s)
    ensures UniqueIds(Filter(s, p))
  {
    if s != [] {
      var t := s[1..];
      assert UniqueIds(t) by {
        forall i, j | 0 <= i < j < |t| ensures t[i].id != t[j].id {
          assert t[i] == s[i + 1] && t[j] == s[j + 1];
        }
      }
      FilterKeepsUniqueIds(t, p);
      if p(s[0]) {
        var ft := Filter(t, p);
        var r := [s[0]] + ft;
        assert Filter(s, p) == r;
        forall i, j | 0 <= i < j < |r| ensures r[i].id != r[j].id {
          assert r[j] == ft[j - 1];
          if i == 0 {
            assert ft[j - 1] in t;
            var m :| 0 <= m < |t| && t[m] == ft[j - 1];
            assert t[m] == s[m + 1];
          } else {
            assert r[i] == ft[i - 1];
          }
        }
      }
    }
  }

  lemma ApplyNeverUnpays(st: GlobalState, a: Action)
    requires FreshIds(st, a)
    ensures NeverUnpays(st.students, Apply(st, a).students)
  {
    match a {
      case Add(id, name, phone) => AppendNeverUnpays(st.students, Apply(st, a).students);
      case Import(text, newId) => AppendNeverUnpays(st.students, Apply(st, a).students);
      case Pay(id, date, remark) => PayNeverUnpays(st.students, id, date, remark);
      case Delete(id) =>
      case ChooseCategory(cat) =>
      case ConfigureFees(cfg) =>
      case ChooseDueDate(date) =>
    }
  }

  /** Appending Unpaid records with fresh ids unpays nothing. */
  lemma AppendNeverUnpays(s: seq<Student>, r: seq<Student>)
    requires |s| <= |r| && r[..|s|] == s
    requires forall j :: |s| <= j < |r| ==> r[j].id !in Ids(s)
    ensures NeverUnpays(s, r)
  {
    forall j | 0 <= j < |r| && r[j].status == Unpaid
      ensures r[j] in s || r[j].id !in Ids(s)
    {
      if j < |s| {
        assert r[j] == r[..|s|][j];
      }
    }
  }

  lemma PayNeverUnpays(s: seq<Student>, id: string, date: string, remark: string)
    ensures NeverUnpays(s, MarkPaid(s, id, date, remark))
  {
    var r := MarkPaid(s, id, date, remark);
    forall j | 0 <= j < |r| && r[j].status == Unpaid
      ensures r[j] in s
    {
      assert r[j] == s[j];
    }
  }

  /** The k-th record (from 1) carries serial SN-k. */
  predicate SerialsByPosition(students: seq<Student>) {
    forall k :: 0 <= k < |students| ==> students[k].serialNumber == Serial(k + 1)
  }

  lemma ApplyKeepsSerials(st: GlobalState, a: Action)
    requires !a.Delete? && SerialsByPosition(st.students)
    ensures SerialsByPosition(Apply(st, a).students)
  {
    var s, r := st.students, Apply(st, a).students;
    match a {
      case Add(id, name, phone) =>
        AppendKeepsSerials(s, r);
      case Import(text, newId) =>
        AppendKeepsSerials(s, r);
      case Pay(id, date, remark) =>
        assert forall k :: 0 <= k < |r| ==> r[k].serialNumber == s[k].serialNumber;
      case _ =>
    }
  }

  lemma AppendKeepsSerials(s: seq<Student>, r: seq<Student>)
    requires |s| <= |r| && r[..|s|] == s && SerialsByPosition(s)
    requires forall k :: |s| <= k < |r| ==> r[k].serialNumber == Serial(k + 1)
    ensures SerialsByPosition(r)
  {
    forall k | 0 <= k < |s| ensures r[k].serialNumber == Serial(k + 1) {
      assert r[k] == r[..|s|][k];
    }
  }

  /** Records numbered by position never share a serial. */
  lemma SerialsDistinct(students: seq<Student>)
    requires SerialsByPosition(students)
    ensures forall i, j :: 0 <= i < j < |students| ==> students[i].serialNumber != students[j].serialNumber
  {
    forall i, j | 0 <= i < j < |students|
      ensures students[i].serialNumber != students[j].serialNumber
    {
      if Serial(i + 1) == Serial(j + 1) {
        SerialInjective(i + 1, j + 1);
      }
    }
  }

  /** Starting from a list numbered by position (the empty one, say), adds
      and imports, with payments and setters in between but no deletion,
      number the records SN-1, SN-2, … in insertion order, whatever category
      each was added under, so no two records share a serial. */
  lemma {:induction false} SerialsFollowInsertion(st: GlobalState, actions: seq<Action>)
    requires SerialsByPosition(st.students)
    requires forall i :: 0 <= i < |actions| ==> !actions[i].Delete?
    ensures SerialsByPosition(Run(st, actions).students)
    ensures var s := Run(st, actions).students;
      forall i, j :: 0 <= i < j < |s| ==> s[i].serialNumber != s[j].serialNumber
    decreases |actions|
  {
    if actions != [] {
      ApplyKeepsSerials(st, actions[0]);
      SerialsFollowInsertion(Apply(st, actions[0]), actions[1..]);
    }
    SerialsDistinct(Run(st, actions).students);
  }

  /** Serials come from the current length, so after a deletion the next
      record can repeat a serial still in use. */
  lemma DeleteThenAddRepeatsSerial(fees: FeeConfig)
    ensures var st := Run(DefaultState(fees), [Add("a", "A", "1"), Add("b", "B", "2"), Delete("a"), Add("c", "C", "3")]);
      |st.students| == 2 && st.students[0].serialNumber == st.students[1].serialNumber == "SN-2"
  {
    var s0 := DefaultState(fees);
    var s1 := AddStudent(s0, "a", "A", "1");
    var s2 := AddStudent(s1, "b", "B", "2");
    var s3 := DeleteStudent(s2, "a");
    assert s3.students == [s2.students[1]];
    var s4 := AddStudent(s3, "c", "C", "3");
    assert Run(s0, [Add("a", "A", "1"), Add("b", "B", "2"), Delete("a"), Add("c", "C", "3")]) == s4;
  }
}
