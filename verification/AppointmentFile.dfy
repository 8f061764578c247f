/** Reading the importer's CSV file: appointment lines under date, status and branch headers. */
module AppointmentFile {
  import opened Seqs
  import opened Text

  /** What a date cell says: `BadDate` has the form of a date header but names no day of the calendar. */
  datatype DateCell = NoDate | BadDate | Date(day: int)

  /** The decoded cells of an appointment line. */
  datatype Fields = Fields(
    start: int, end: int, client: string, services: seq<string>, qty: int, legacyUser: string, phone: string)

  /** Decoding single cells is left open; None when a time or a number in them cannot be read. */
  datatype Readers = Readers(date: string -> DateCell, fields: seq<string> -> Option<Fields>)

  datatype CsvRow = CsvRow(
    ref: string, fields: Fields, day: int, legacyStatus: string, branchName: string, lineNo: nat)

  /** What one line is to the importer. */
  datatype Line =
    | Ignored
    | Appointment(ref: string, fields: Option<Fields>)
    | DateLine(date: Option<int>)
    | StatusLine(status: string)
    | BranchLine(name: string)

  datatype Kind = DateKind | StatusKind | BranchKind

  const COLUMNS := 14

  function Padding(n: int): (r: seq<string>)
    ensures |r| == if n > 0 then n else 0
  {
    if n <= 0 then [] else [""] + Padding(n - 1)
  }

  /** The cells of a line, stripped, and filled up to fourteen. */
  function Cells(raw: seq<string>): (cells: seq<string>)
    ensures |cells| >= COLUMNS && |cells| >= |raw|
    ensures forall i :: 0 <= i < |raw| ==> cells[i] == Strip(raw[i])
  {
    seq(|raw|, i requires 0 <= i < |raw| => Strip(raw[i])) + Padding(COLUMNS - |raw|)
  }

  predicate AllDigits(s: string) {
    s != "" && Digits(s)
  }

  predicate IsRef(s: string) {
    |s| > 1 && s[0] == 'A' && AllDigits(s[1..])
  }

  predicate IsStatus(s: string) {
    Lower(s) in {"confirmed", "new", "requested", "cancelled", "completed", "arrived", "no show"}
  }

  predicate IsBranch(cells: seq<string>)
    requires |cells| >= COLUMNS
  {
    && (forall i :: 1 <= i < 13 ==> cells[i] == "")
    && AllDigits(cells[13])
    && !("grand total" <= Lower(cells[0])) && !("appointment list" <= Lower(cells[0]))
  }

  /** The tests in the order the loop makes them. */
  function Classify(rd: Readers, raw: seq<string>): Line {
    var cells := Cells(raw);
    var first := cells[0];
    if first == "" then Ignored
    else if IsRef(first) then Appointment(first, rd.fields(cells))
    else
      match rd.date(first)
      case Date(day) => DateLine(Some(day))
      case BadDate => DateLine(None)
      case NoDate =>
        if IsStatus(first) then StatusLine(Lower(first))
        else if IsBranch(cells) then BranchLine(first)
        else Ignored
  }

  function Lines(rd: Readers, raws: seq<seq<string>>): (lines: seq<Line>)
    ensures |lines| == |raws| && forall i :: 0 <= i < |raws| ==> lines[i] == Classify(rd, raws[i])
  {
    seq(|raws|, i requires 0 <= i < |raws| => Classify(rd, raws[i]))
  }

  datatype Headers = Headers(day: Option<int>, branch: string, status: string)

  datatype Parsed = Parsed(headers: Headers, rows: seq<CsvRow>) | Failed(lineNo: nat)

  /** One line read after the lines that led to `p`. */
  function ParseLine(p: Parsed, line: Line, lineNo: nat): Parsed {
    if p.Failed? then p
    else
      match line
      case Ignored => p
      case Appointment(ref, fields) =>
        if p.headers.day.None? || fields.None? then Failed(lineNo)
        else
          p.(rows := p.rows +
                     [CsvRow(ref, fields.value, p.headers.day.value, p.headers.status, p.headers.branch, lineNo)])
      case DateLine(date) =>
        if date.None? then Failed(lineNo) else p.(headers := p.headers.(day := date))
      case StatusLine(status) => p.(headers := p.headers.(status := status))
      case BranchLine(name) => p.(headers := p.headers.(branch := name))
  }

  /** Resumes from `p` over lines numbered from `from + 1`. */
  function ParseFrom(p: Parsed, lines: seq<Line>, from: nat): Parsed {
    if lines == [] then p
    else ParseLine(ParseFrom(p, lines[..|lines| - 1], from), lines[|lines| - 1], from + |lines|)
  }

  function Parse(lines: seq<Line>): Parsed {
    ParseFrom(Parsed(Headers(None, "", ""), []), lines, 0)
  }

  // The loop itself.

  method ParseCsv(rd: Readers, raws: seq<seq<string>>) returns (r: Parsed)
    ensures r == Parse(Lines(rd, raws))
  {
    ghost var lines := Lines(rd, raws);
    var rows: seq<CsvRow> := [];
    var day: Option<int> := None;
    var branch, status := "", "";
    var i := 0;
    while i < |raws|
      invariant i <= |raws|
      invariant Parse(lines[..i]) == Parsed(Headers(day, branch, status), rows)
    {
      ParseNext(lines, i);
      var cells := Cells(raws[i]);
      var first := cells[0];
      i := i + 1;
      if first == "" {
        continue;
      }
      if IsRef(first) {
        var fields := rd.fields(cells);
        if day.None? || fields.None? {
          StaysFailed(lines, i);
          return Failed(i);
        }
        rows := rows + [CsvRow(first, fields.value, day.value, status, branch, i)];
        continue;
      }
      var date := rd.date(first);
      if date.BadDate? {
        StaysFailed(lines, i);
        return Failed(i);
      }
      if date.Date? {
        day := Some(date.day);
        continue;
      }
      if IsStatus(first) {
        status := Lower(first);
        continue;
      }
      if IsBranch(cells) {
        branch := first;
      }
    }
    assert lines[..i] == lines;
    return Parsed(Headers(day, branch, status), rows);
  }

  /** Parsing a concatenation is parsing the first part, then resuming from where it left off. */
  lemma {:induction false} ParseConcat(p: Parsed, a: seq<Line>, b: seq<Line>, from: nat)
    ensures ParseFrom(p, a + b, from) == ParseFrom(ParseFrom(p, a, from), b, from + |a|)
  {
    if b == [] {
      assert a + b == a;
    } else {
      assert (a + b)[..|a + b| - 1] == a + b[..|b| - 1];
      ParseConcat(p, a, b[..|b| - 1], from);
    }
  }

  lemma {:induction false} ParseNext(lines: seq<Line>, i: nat)
    requires i < |lines|
    ensures Parse(lines[..i + 1]) == ParseLine(Parse(lines[..i]), lines[i], i + 1)
  {
    assert lines[..i + 1][..i] == lines[..i];
  }

  lemma {:induction false} FailureStays(lineNo: nat, lines: seq<Line>, from: nat)
    ensures ParseFrom(Failed(lineNo), lines, from) == Failed(lineNo)
  {
    if lines != [] {
      FailureStays(lineNo, lines[..|lines| - 1], from);
    }
  }

  lemma {:induction false} StaysFailed(lines: seq<Line>, i: nat)
    requires i <= |lines| && Parse(lines[..i]).Failed?
    ensures Parse(lines) == Parse(lines[..i])
  {
    assert lines == lines[..i] + lines[i..];
    ParseConcat(Parsed(Headers(None, "", ""), []), lines[..i], lines[i..], 0);
    FailureStays(Parse(lines[..i]).lineNo, lines[i..], i);
  }

  // What the result means, line by line.

  predicate IsKind(line: Line, kind: Kind) {
    match kind
    case DateKind => line.DateLine?
    case StatusKind => line.StatusLine?
    case BranchKind => line.BranchLine?
  }

  function LastOf(lines: seq<Line>, kind: Kind): (j: Option<nat>)
    ensures j.Some? ==> j.value < |lines| && IsKind(lines[j.value], kind)
  {
    if lines == [] then None
    else if IsKind(lines[|lines| - 1], kind) then Some(|lines| - 1)
    else LastOf(lines[..|lines| - 1], kind)
  }

  /** It is the nearest one: every later line is of another kind. */
  lemma {:induction false} LastIsNearest(lines: seq<Line>, kind: Kind, k: nat)
    requires k < |lines| && IsKind(lines[k], kind)
    ensures LastOf(lines, kind).Some? && k <= LastOf(lines, kind).value
  {
    if k < |lines| - 1 && !IsKind(lines[|lines| - 1], kind) {
      LastIsNearest(lines[..|lines| - 1], kind, k);
    }
  }

  /** The headers in force after `lines`, each read off the nearest header line of its kind. */
  function HeadersAt(lines: seq<Line>): Headers {
    var date, status, branch := LastOf(lines, DateKind), LastOf(lines, StatusKind), LastOf(lines, BranchKind);
    Headers(
      if date.None? then None else lines[date.value].date,
      if branch.None? then "" else lines[branch.value].name,
      if status.None? then "" else lines[status.value].status)
  }

  lemma {:induction false} LastNext(lines: seq<Line>, line: Line, kind: Kind)
    ensures LastOf(lines + [line], kind) == if IsKind(line, kind) then Some(|lines|) else LastOf(lines, kind)
  {
    assert (lines + [line])[..|lines|] == lines;
  }

  lemma {:induction false} HeadersNext(lines: seq<Line>, line: Line, rows: seq<CsvRow>)
    ensures var p := ParseLine(Parsed(HeadersAt(lines), rows), line, |lines| + 1);
            p.Parsed? ==> p.headers == HeadersAt(lines + [line])
  {
    LastNext(lines, line, DateKind);
    LastNext(lines, line, StatusKind);
    LastNext(lines, line, BranchKind);
  }

  /** The row an appointment line stands for, with the headers in force there. */
  predicate IsRowOf(lines: seq<Line>, row: CsvRow) {
    && 1 <= row.lineNo <= |lines|
    && lines[row.lineNo - 1] == Appointment(row.ref, Some(row.fields))
    && HeadersAt(lines[..row.lineNo - 1]) == Headers(Some(row.day), row.branchName, row.legacyStatus)
  }

  ghost predicate Truthful(lines: seq<Line>, rows: seq<CsvRow>) {
    forall r <- rows :: IsRowOf(lines, r)
  }

  predicate InFileOrder(rows: seq<CsvRow>) {
    forall i, j :: 0 <= i < j < |rows| ==> rows[i].lineNo < rows[j].lineNo
  }

  predicate HasRow(rows: seq<CsvRow>, lineNo: nat) {
    exists r <- rows :: r.lineNo == lineNo
  }

  predicate Complete(lines: seq<Line>, rows: seq<CsvRow>) {
    forall i :: 0 <= i < |lines| && lines[i].Appointment? ==> HasRow(rows, i + 1)
  }

  /** One row per appointment line, in file order. */
  ghost predicate RowsMatch(lines: seq<Line>, rows: seq<CsvRow>) {
    Truthful(lines, rows) && InFileOrder(rows) && Complete(lines, rows)
  }

  lemma {:induction false} RowStays(lines: seq<Line>, line: Line, row: CsvRow)
    requires IsRowOf(lines, row)
    ensures IsRowOf(lines + [line], row)
  {
    assert (lines + [line])[..row.lineNo - 1] == lines[..row.lineNo - 1];
  }

  lemma {:induction false} RowsStay(lines: seq<Line>, line: Line, rows: seq<CsvRow>)
    requires Truthful(lines, rows)
    ensures Truthful(lines + [line], rows)
  {
    forall r | r in rows
      ensures IsRowOf(lines + [line], r)
    {
      RowStays(lines, line, r);
    }
  }

  lemma {:induction false} OrderExtends(lines: seq<Line>, rows: seq<CsvRow>, row: CsvRow)
    requires Truthful(lines, rows) && InFileOrder(rows) && row.lineNo == |lines| + 1
    ensures InFileOrder(rows + [row])
  {
    assert forall i :: 0 <= i < |rows| ==> IsRowOf(lines, rows[i]) by {
      assert forall i :: 0 <= i < |rows| ==> rows[i] in rows;
    }
  }

  lemma {:induction false} CompleteExtends(lines: seq<Line>, line: Line, rows: seq<CsvRow>, row: CsvRow)
    requires Complete(lines, rows) && row.lineNo == |lines| + 1
    ensures Complete(lines + [line], rows + [row])
  {
    forall i | 0 <= i < |lines + [line]| && (lines + [line])[i].Appointment?
      ensures HasRow(rows + [row], i + 1)
    {
      if i < |lines| {
        assert HasRow(rows, i + 1);
      } else {
        assert row in rows + [row];
      }
    }
  }

  lemma {:induction false} NewRowIsTrue(lines: seq<Line>, line: Line, row: CsvRow)
    requires line == Appointment(row.ref, Some(row.fields)) && row.lineNo == |lines| + 1
    requires HeadersAt(lines) == Headers(Some(row.day), row.branchName, row.legacyStatus)
    ensures IsRowOf(lines + [line], row)
  {
    assert (lines + [line])[..|lines|] == lines;
  }

  /** Each row carries the nearest preceding date, status and branch; every appointment line has exactly its row. */
  lemma {:induction false} ParsedFile(lines: seq<Line>)
    requires Parse(lines).Parsed?
    ensures Parse(lines).headers == HeadersAt(lines)
    ensures RowsMatch(lines, Parse(lines).rows)
  {
    if lines != [] {
      var front, last := lines[..|lines| - 1], lines[|lines| - 1];
      assert lines == front + [last];
      ParsedFile(front);
      var rows := Parse(front).rows;
      HeadersNext(front, last, rows);
      RowsStay(front, last, rows);
      if last.Appointment? {
        var row := Parse(lines).rows[|rows|];
        assert Parse(lines).rows == rows + [row];
        NewRowIsTrue(front, last, row);
        OrderExtends(front, rows, row);
        CompleteExtends(front, last, rows, row);
      } else {
        assert Parse(lines).rows == rows;
      }
    }
  }

  /** Reading stops at a bad date header, an unreadable appointment, or one before any date header. */
  predicate Faulty(lines: seq<Line>, i: nat)
    requires i < |lines|
  {
    match lines[i]
    case Appointment(_, fields) => fields.None? || forall k :: 0 <= k < i ==> !lines[k].DateLine?
    case DateLine(date) => date.None?
    case _ => false
  }

  lemma {:induction false} FaultyFront(lines: seq<Line>, i: nat)
    requires i + 1 < |lines|
    ensures Faulty(lines, i) <==> Faulty(lines[..|lines| - 1], i)
  {
    var front := lines[..|lines| - 1];
    assert forall k :: 0 <= k <= i ==> front[k] == lines[k];
  }

  /** The file is read iff no line is faulty; otherwise the first faulty line is reported. */
  lemma {:induction false} FailsAtFirstFault(lines: seq<Line>)
    ensures match Parse(lines)
            case Parsed(_, _) => forall i: nat :: i < |lines| ==> !Faulty(lines, i)
            case Failed(n) =>
              1 <= n <= |lines| && Faulty(lines, n - 1) && forall i: nat :: i < n - 1 ==> !Faulty(lines, i)
  {
    if lines != [] {
      var front, last := lines[..|lines| - 1], lines[|lines| - 1];
      FailsAtFirstFault(front);
      forall i: nat | i < |front|
        ensures Faulty(lines, i) <==> Faulty(front, i)
      {
        FaultyFront(lines, i);
      }
      if Parse(front).Parsed? {
        assert lines == front + [last];
        LastLineFaultyIff(front, last);
      }
    }
  }

  lemma {:induction false} LastLineFaultyIff(front: seq<Line>, last: Line)
    requires Parse(front).Parsed?
    ensures Parse(front + [last]) == Failed(|front| + 1) || Parse(front + [last]).Parsed?
    ensures Faulty(front + [last], |front|) <==> Parse(front + [last]).Failed?
  {
    assert (front + [last])[..|front|] == front;
    DayInForceIff(front);
    assert forall k :: 0 <= k < |front| ==> (front + [last])[k] == front[k];
  }

  /** In a file that was read, a day is in force exactly when there is a date header. */
  lemma {:induction false} DayInForceIff(lines: seq<Line>)
    requires Parse(lines).Parsed?
    ensures Parse(lines).headers.day.Some? <==> exists k :: 0 <= k < |lines| && lines[k].DateLine?
  {
    if lines != [] {
      var front := lines[..|lines| - 1];
      DayInForceIff(front);
      assert forall k :: 0 <= k < |front| ==> front[k] == lines[k];
      if lines[|lines| - 1].DateLine? {
        assert Parse(lines).headers.day.Some?;
      }
    }
  }

  // Which raw line is which.

  /** 'A' and digits in the first cell make an appointment line, whatever the other cells say. */
  lemma {:induction false} AppointmentIff(rd: Readers, raw: seq<string>)
    requires raw != []
    ensures Classify(rd, raw).Appointment? <==>
            && |Strip(raw[0])| >= 2 && Strip(raw[0])[0] == 'A'
            && forall k :: 1 <= k < |Strip(raw[0])| ==> '0' <= Strip(raw[0])[k] <= '9'
    ensures Classify(rd, raw).Appointment? ==> Classify(rd, raw).ref == Strip(raw[0])
  {
    assert Cells(raw)[0] == Strip(raw[0]);
    RefIff(Strip(raw[0]));
  }

  /** An appointment's fields are read from the stripped cells, blank ones added up to the fourteenth column. */
  lemma {:induction false} FieldsAreReadStripped(rd: Readers, raw: seq<string>, cells: seq<string>)
    requires Classify(rd, raw).Appointment?
    requires |cells| == if |raw| < 14 then 14 else |raw|
    requires forall i :: 0 <= i < |cells| ==> cells[i] == if i < |raw| then Strip(raw[i]) else ""
    ensures Classify(rd, raw).fields == rd.fields(cells)
  {
    var padding := Padding(14 - |raw|);
    forall k | 0 <= k < |padding|
      ensures padding[k] == ""
    {
      PaddingIsEmpty(14 - |raw|, k);
    }
    assert Cells(raw) == cells;
  }

  lemma {:induction false} RefIff(s: string)
    ensures IsRef(s) <==> |s| >= 2 && s[0] == 'A' && forall k :: 1 <= k < |s| ==> '0' <= s[k] <= '9'
  {
    if IsRef(s) {
      forall k | 1 <= k < |s|
        ensures '0' <= s[k] <= '9'
      {
        assert s[1..][k - 1] == s[k] && s[k] in s[1..];
      }
    } else if |s| >= 2 && s[0] == 'A' {
      var c :| c in s[1..] && !('0' <= c <= '9');
      var m :| 0 <= m < |s[1..]| && s[1..][m] == c;
      assert s[m + 1] == c;
    }
  }

  /** A line without a first cell says nothing. */
  lemma {:induction false} BlankLine(rd: Readers, raw: seq<string>)
    requires raw == [] || Strip(raw[0]) == ""
    ensures Classify(rd, raw) == Ignored
  {
    if raw == [] {
      assert Cells(raw)[0] == "";
    } else {
      assert Cells(raw)[0] == Strip(raw[0]);
    }
  }

  /** The status headers, in any case, as long as the cell is no date. */
  lemma {:induction false} StatusLines(rd: Readers, raw: seq<string>, status: string)
    requires raw != [] && Lower(Strip(raw[0])) == status && rd.date(Strip(raw[0])) == NoDate
    requires status == "confirmed" || status == "new" || status == "requested" || status == "cancelled" ||
             status == "completed" || status == "arrived" || status == "no show"
    ensures Classify(rd, raw) == StatusLine(status)
  {
    var first := Strip(raw[0]);
    assert Cells(raw)[0] == first;
    assert |status| >= 2 && 'a' <= status[1] <= 'z';
    NotARef(first);
  }

  lemma {:induction false} NotARef(s: string)
    requires |s| >= 2 && 'a' <= Lower(s)[1] <= 'z'
    ensures !IsRef(s)
  {
    assert s[1..][0] == s[1] && s[1] in s[1..];
  }

  /** Any other name alone on its line with a count in the last column is the branch that follows. */
  lemma {:induction false} BranchLines(rd: Readers, raw: seq<string>, name: string)
    requires |raw| >= 14 && Strip(raw[0]) == name != "" && rd.date(name) == NoDate
    requires !IsRef(name) && !IsStatus(name)
    ensures Classify(rd, raw) == BranchLine(name) <==>
            && (forall i :: 1 <= i < 13 ==> Strip(raw[i]) == "")
            && Strip(raw[13]) != "" && (forall c <- Strip(raw[13]) :: '0' <= c <= '9')
            && !("grand total" <= Lower(name)) && !("appointment list" <= Lower(name))
    ensures Classify(rd, raw) == BranchLine(name) || Classify(rd, raw) == Ignored
  {
    assert forall i :: 0 <= i < |raw| ==> Cells(raw)[i] == Strip(raw[i]);
  }

  /** A date cell sets the day, or stops the reading if there is no such day. */
  lemma {:induction false} DateLines(rd: Readers, raw: seq<string>)
    requires raw != [] && Strip(raw[0]) != "" && !IsRef(Strip(raw[0]))
    ensures forall day :: rd.date(Strip(raw[0])) == Date(day) ==> Classify(rd, raw) == DateLine(Some(day))
    ensures rd.date(Strip(raw[0])) == BadDate ==> Classify(rd, raw) == DateLine(None)
  {
    assert Cells(raw)[0] == Strip(raw[0]);
  }

  /** A line of fewer than fourteen cells has no count in the last one, and is no branch header. */
  lemma {:induction false} ShortLineIsNoBranch(rd: Readers, raw: seq<string>)
    requires |raw| < 14
    ensures !Classify(rd, raw).BranchLine?
  {
    PaddingIsEmpty(14 - |raw|, 13 - |raw|);
    assert Cells(raw)[13] == Padding(14 - |raw|)[13 - |raw|] == "";
  }

  lemma {:induction false} PaddingIsEmpty(n: nat, k: nat)
    requires k < n
    ensures Padding(n)[k] == ""
  {
    if k > 0 {
      PaddingIsEmpty(n - 1, k - 1);
    }
  }
}
