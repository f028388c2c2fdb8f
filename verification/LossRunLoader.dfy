/** The loss-run loader of src/calibration/loader.ts: the CSV is cut into rows that become records or
  skip reports, and the records are grouped by vessel class. `Number` is a parameter. */
module LossRunLoader {
  import opened Common

  // ---- Text ----

  predicate IsSpace(c: char) {
    c == ' ' || '\t' <= c <= '\r'
  }

  function TrimLeft(s: string): string {
    if s != "" && IsSpace(s[0]) then TrimLeft(s[1..]) else s
  }

  function TrimRight(s: string): string {
    if s != "" && IsSpace(s[|s| - 1]) then TrimRight(s[..|s| - 1]) else s
  }

  function Trim(s: string): string {
    TrimLeft(TrimRight(s))
  }

  /** String.split: the pieces between the separators, at least one. */
  function Split(s: string, separator: char): (pieces: seq<string>)
    ensures |pieces| >= 1
  {
    if s == "" then [""]
    else
      var rest := Split(s[1..], separator);
      if s[0] == separator then [""] + rest else [[s[0]] + rest[0]] + rest[1..]
  }

  function Join(pieces: seq<string>, separator: char): string
    requires pieces != []
  {
    if |pieces| == 1 then pieces[0] else pieces[0] + [separator] + Join(pieces[1..], separator)
  }

  /** Splitting loses nothing: no piece holds the separator, and joining gives the text back. */
  lemma {:induction false} SplitThenJoin(s: string, separator: char)
    ensures Join(Split(s, separator), separator) == s
    ensures forall i :: 0 <= i < |Split(s, separator)| ==> separator !in Split(s, separator)[i]
  {
    if s != "" {
      SplitThenJoin(s[1..], separator);
      var rest, pieces := Split(s[1..], separator), Split(s, separator);
      assert s == [s[0]] + s[1..];
      if s[0] == separator {
        assert pieces[1..] == rest;
      } else {
        assert pieces[1..] == rest[1..];
      }
    }
  }

  function TrimAll(pieces: seq<string>): (r: seq<string>)
    ensures |r| == |pieces| && forall i :: 0 <= i < |r| ==> r[i] == Trim(pieces[i])
  {
    seq(|pieces|, i requires 0 <= i < |pieces| => Trim(pieces[i]))
  }

  function UnixLines(s: string): string {
    if |s| >= 2 && s[0] == '\r' && s[1] == '\n' then "\n" + UnixLines(s[2..])
    else if s == "" then "" else [s[0]] + UnixLines(s[1..])
  }

  function Lower(s: string): (r: string)
    ensures |r| == |s|
  {
    if s == "" then ""
    else [if 'A' <= s[0] <= 'Z' then s[0] - 'A' + 'a' else s[0]] + Lower(s[1..])
  }

  function LowerAll(pieces: seq<string>): (r: seq<string>)
    ensures |r| == |pieces|
  {
    seq(|pieces|, i requires 0 <= i < |pieces| => Lower(pieces[i]))
  }

  // ---- What trimming, lower case and line ends do ----

  /** Space, tab, line feed, vertical tab, form feed or carriage return. */
  predicate White(c: char) {
    c as int in {9, 10, 11, 12, 13, 32}
  }

  ghost predicate AllWhite(s: string) {
    forall i :: 0 <= i < |s| ==> White(s[i])
  }

  /** Neither end is white. */
  ghost predicate Tight(s: string) {
    s != "" ==> !White(s[0]) && !White(s[|s| - 1])
  }

  lemma {:induction false} TrimLeftCuts(s: string) returns (cut: string)
    ensures s == cut + TrimLeft(s) && AllWhite(cut)
    ensures TrimLeft(s) != "" ==> !White(TrimLeft(s)[0])
  {
    cut := "";
    if s != "" && IsSpace(s[0]) {
      var more := TrimLeftCuts(s[1..]);
      cut := [s[0]] + more;
      var rest := TrimLeft(s[1..]);
      assert TrimLeft(s) == rest;
      hide TrimLeft;
      assert s == [s[0]] + (more + rest) == cut + rest;
    }
  }

  lemma {:induction false} TrimRightCuts(s: string) returns (cut: string)
    ensures s == TrimRight(s) + cut && AllWhite(cut)
    ensures TrimRight(s) != "" ==> !White(TrimRight(s)[|TrimRight(s)| - 1])
  {
    cut := "";
    if s != "" && IsSpace(s[|s| - 1]) {
      var more := TrimRightCuts(s[..|s| - 1]);
      cut := more + [s[|s| - 1]];
      var rest := TrimRight(s[..|s| - 1]);
      assert TrimRight(s) == rest;
      hide TrimRight;
      assert s == (rest + more) + [s[|s| - 1]] == rest + cut;
    }
  }

  /** Trimming cuts white text off both ends, and all of it. */
  lemma TrimCuts(s: string) returns (before: string, after: string)
    ensures s == before + Trim(s) + after && AllWhite(before) && AllWhite(after) && Tight(Trim(s))
  {
    after := TrimRightCuts(s);
    before := TrimLeftCuts(TrimRight(s));
    var t := Trim(s);
    if t != "" {
      assert TrimRight(s)[|TrimRight(s)| - 1] == t[|t| - 1];
    }
  }

  /** There is only one way to do so. */
  lemma TrimIsUnique(before: string, s: string, after: string)
    requires AllWhite(before) && AllWhite(after) && Tight(s)
    ensures Trim(before + s + after) == s
  {
    var whole := before + s + after;
    var a, b := TrimCuts(whole);
    var t := Trim(whole);
    assert whole == a + t + b;
    assert t != "" ==> whole[|a|] == t[0];
    if s == "" {
      assert forall p :: 0 <= p < |whole| ==> White(whole[p]);
    } else {
      var i, j := |before|, |before| + |s| - 1;
      assert whole[i] == s[0] && whole[j] == s[|s| - 1];
      assert forall p :: 0 <= p < |a| ==> whole[p] == a[p];
      assert forall p :: |a| + |t| <= p < |whole| ==> whole[p] == b[p - |a| - |t|];
      assert forall p :: 0 <= p < i ==> whole[p] == before[p];
      assert forall p :: j < p < |whole| ==> whole[p] == after[p - j - 1];
      assert |a| <= i && |a| + |t| > j;
      assert whole[|a|] == t[0] && whole[|a| + |t| - 1] == t[|t| - 1];
      assert |a| == i && |a| + |t| - 1 == j;
      assert t == whole[|a|..|a| + |t|] == s;
    }
  }

  /** Lower case changes capital letters, each to the letter 32 places on, and nothing else. */
  lemma {:induction false} LowerAt(s: string, i: nat)
    requires i < |s|
    ensures Lower(s)[i] as int == s[i] as int + if 65 <= s[i] as int <= 90 then 32 else 0
  {
    if i > 0 {
      LowerAt(s[1..], i - 1);
    }
  }

  /** Lines ended as Windows does. */
  function CrLf(lines: seq<string>): string
    requires lines != []
  {
    if |lines| == 1 then lines[0] else lines[0] + "\r\n" + CrLf(lines[1..])
  }

  lemma {:induction false} UnixLinesOfLine(line: string, rest: string)
    requires '\r' !in line
    ensures UnixLines(line + rest) == line + UnixLines(rest)
  {
    hide UnixLines;
    if line == "" {
      assert line + rest == rest;
    } else {
      UnixLinesOfLine(line[1..], rest);
      UnixLinesStep(line + rest);
      assert (line + rest)[1..] == line[1..] + rest;
      assert line == [line[0]] + line[1..];
    }
  }

  lemma UnixLinesStep(s: string)
    requires s != "" && s[0] != '\r'
    ensures UnixLines(s) == [s[0]] + UnixLines(s[1..])
  {
  }

  lemma {:induction false} UnixLinesOfCrLf(lines: seq<string>)
    requires lines != [] && forall i :: 0 <= i < |lines| ==> '\r' !in lines[i]
    ensures UnixLines(CrLf(lines)) == Join(lines, '\n')
  {
    hide UnixLines;
    if |lines| == 1 {
      UnixLinesOfLine(lines[0], "");
      UnixLinesOfNothing();
      assert lines[0] + "" == lines[0];
    } else {
      var rest := CrLf(lines[1..]);
      UnixLinesOfCrLf(lines[1..]);
      UnixLinesOfLine(lines[0], "\r\n" + rest);
      UnixLineEnd(rest);
      assert CrLf(lines) == lines[0] + ("\r\n" + rest);
    }
  }

  lemma UnixLinesOfNothing()
    ensures UnixLines("") == ""
  {
  }

  lemma UnixLineEnd(rest: string)
    ensures UnixLines("\r\n" + rest) == "\n" + UnixLines(rest)
  {
    assert ("\r\n" + rest)[2..] == rest;
  }

  /** Joining pieces without separators and splitting again gives them back. */
  lemma {:induction false} JoinThenSplit(pieces: seq<string>, separator: char)
    requires pieces != [] && forall i :: 0 <= i < |pieces| ==> separator !in pieces[i]
    ensures Split(Join(pieces, separator), separator) == pieces
  {
    if |pieces| == 1 {
      SplitWhole(pieces[0], separator);
    } else {
      var rest := Join(pieces[1..], separator);
      JoinThenSplit(pieces[1..], separator);
      SplitFirst(pieces[0], rest, separator);
      assert Join(pieces, separator) == pieces[0] + ([separator] + rest);
    }
  }

  lemma {:induction false} SplitWhole(s: string, separator: char)
    requires separator !in s
    ensures Split(s, separator) == [s]
  {
    if s != "" {
      SplitWhole(s[1..], separator);
      assert s == [s[0]] + s[1..];
    }
  }

  lemma {:induction false} SplitFirst(s: string, rest: string, separator: char)
    requires separator !in s
    ensures Split(s + ([separator] + rest), separator) == [s] + Split(rest, separator)
  {
    var text := s + ([separator] + rest);
    if s == "" {
      assert text == [separator] + rest && text[1..] == rest;
    } else {
      SplitFirst(s[1..], rest, separator);
      assert text[0] == s[0] && text[1..] == s[1..] + ([separator] + rest);
      assert s == [s[0]] + s[1..];
    }
  }

  function NonBlank(lines: seq<string>): seq<string> {
    if lines == [] then []
    else NonBlank(lines[..|lines| - 1]) + if lines[|lines| - 1] == "" then [] else [lines[|lines| - 1]]
  }

  /** The trimmed physical lines of a file, blank ones included. */
  function PhysicalLines(csv: string): seq<string> {
    TrimAll(Split(UnixLines(csv), '\n'))
  }

  /** The trimmed, non-blank lines of a file. */
  function Lines(csv: string): seq<string> {
    NonBlank(PhysicalLines(csv))
  }

  // ---- Rows ----

  datatype Record = Record(year: real, vesselClass: string, exposure: real, unit: string,
                           claims: real, severity: real, premium: real)

  datatype RowError = WrongColumns | BadNumber(column: string) | YearOutOfRange | ZeroExposure
    | FractionalClaims | EmptyColumn(column: string)

  datatype Row = Good(record: Record) | Bad(error: RowError)

  datatype LoadError = EmptyInput | MissingColumn(column: string)

  datatype Skip = Skip(lineNumber: nat, reason: RowError)

  datatype ParseResult = Parsed(records: seq<Record>, skipped: seq<Skip>) | Failed(error: LoadError)

  const REQUIRED := ["policy_year", "vessel_class", "exposure_value", "exposure_unit", "claim_count",
                     "severity_total", "premium_earned"]

  /** The last column with that name, as the map is overwritten from left to right. */
  function LastIndex(header: seq<string>, name: string): (i: nat)
    requires name in header
    ensures i < |header| && header[i] == name
    ensures forall j :: i < j < |header| ==> header[j] != name
  {
    if header[|header| - 1] == name then |header| - 1 else LastIndex(header[..|header| - 1], name)
  }

  /** A finite, non-negative number. */
  predicate Countable(number: string -> Option<real>, raw: string) {
    number(raw).Some? && number(raw).value >= 0.0
  }

  predicate HasColumns(cells: seq<string>, idx: map<string, nat>) {
    forall name :: name in REQUIRED ==> name in idx && idx[name] < |cells|
  }

  function Cell(cells: seq<string>, idx: map<string, nat>, name: string): string
    requires HasColumns(cells, idx) && name in REQUIRED
  {
    cells[idx[name]]
  }

  function TryParseRow(cells: seq<string>, idx: map<string, nat>, number: string -> Option<real>): Row
    requires HasColumns(cells, idx)
  {
    ParseFields(
      Cell(cells, idx, "policy_year"), Cell(cells, idx, "exposure_value"), Cell(cells, idx, "claim_count"),
      Cell(cells, idx, "severity_total"), Cell(cells, idx, "premium_earned"), Cell(cells, idx, "vessel_class"),
      Cell(cells, idx, "exposure_unit"), number)
  }

  /** The checks of a row, in their order. */
  function ParseFields(year: string, exposure: string, claims: string, severity: string, premium: string,
                       vesselClass: string, unit: string, number: string -> Option<real>): Row {
    if !Countable(number, year) then Bad(BadNumber("policy_year"))
    else if number(year).value < 1900.0 || number(year).value > 2200.0 then Bad(YearOutOfRange)
    else if !Countable(number, exposure) then Bad(BadNumber("exposure_value"))
    else if number(exposure).value == 0.0 then Bad(ZeroExposure)
    else if !Countable(number, claims) then Bad(BadNumber("claim_count"))
    else if number(claims).value.Floor as real != number(claims).value then Bad(FractionalClaims)
    else if !Countable(number, severity) then Bad(BadNumber("severity_total"))
    else if !Countable(number, premium) then Bad(BadNumber("premium_earned"))
    else if vesselClass == "" then Bad(EmptyColumn("vessel_class"))
    else if unit == "" then Bad(EmptyColumn("exposure_unit"))
    else
      Good(Record(number(year).value, vesselClass, number(exposure).value, unit, number(claims).value,
                  number(severity).value, number(premium).value))
  }

  /** What a record may hold. */
  predicate Plausible(r: Record) {
    && 1900.0 <= r.year <= 2200.0 && r.exposure > 0.0
    && r.claims >= 0.0 && r.claims.Floor as real == r.claims && r.severity >= 0.0 && r.premium >= 0.0
    && r.vesselClass != "" && r.unit != ""
  }

  /** Every named column is the field of that name. */
  predicate Reads(r: Record, cells: seq<string>, idx: map<string, nat>, number: string -> Option<real>)
    requires HasColumns(cells, idx)
  {
    && number(Cell(cells, idx, "policy_year")) == Some(r.year)
    && number(Cell(cells, idx, "exposure_value")) == Some(r.exposure)
    && number(Cell(cells, idx, "claim_count")) == Some(r.claims)
    && number(Cell(cells, idx, "severity_total")) == Some(r.severity)
    && number(Cell(cells, idx, "premium_earned")) == Some(r.premium)
    && Cell(cells, idx, "vessel_class") == r.vesselClass && Cell(cells, idx, "exposure_unit") == r.unit
  }

  /** A row becomes the record r iff its columns read as r and r is plausible, whatever the order of the
    checks. */
  lemma RowIsRecordIff(cells: seq<string>, idx: map<string, nat>, number: string -> Option<real>, r: Record)
    requires HasColumns(cells, idx)
    ensures TryParseRow(cells, idx, number) == Good(r) <==> Reads(r, cells, idx, number) && Plausible(r)
  {
    hide Cell;
  }

  /** Does this fault apply to the row? */
  predicate Fails(e: RowError, cells: seq<string>, idx: map<string, nat>, number: string -> Option<real>)
    requires HasColumns(cells, idx)
  {
    match e
    case WrongColumns => false
    case BadNumber(column) => Rank(e) > 0 && column in REQUIRED && !Countable(number, Cell(cells, idx, column))
    case EmptyColumn(column) => Rank(e) > 0 && column in REQUIRED && Cell(cells, idx, column) == ""
    case YearOutOfRange =>
      var year := number(Cell(cells, idx, "policy_year"));
      year.Some? && !(1900.0 <= year.value <= 2200.0)
    case ZeroExposure => number(Cell(cells, idx, "exposure_value")) == Some(0.0)
    case FractionalClaims =>
      var claims := number(Cell(cells, idx, "claim_count"));
      claims.Some? && claims.value.Floor as real != claims.value
  }

  /** The order in which faults are looked for, from 1; 0 for what is no fault of a cell. */
  function Rank(e: RowError): nat {
    match e
    case BadNumber(column) =>
      if column == "policy_year" then 1
      else if column == "exposure_value" then 3
      else if column == "claim_count" then 5
      else if column == "severity_total" then 7
      else if column == "premium_earned" then 8 else 0
    case YearOutOfRange => 2
    case ZeroExposure => 4
    case FractionalClaims => 6
    case EmptyColumn(column) => if column == "vessel_class" then 9 else if column == "exposure_unit" then 10 else 0
    case WrongColumns => 0
  }

  /** The reported reason applies, and none that is looked for before it does. */
  lemma ReasonIsFirst(cells: seq<string>, idx: map<string, nat>, number: string -> Option<real>, e: RowError,
                      other: RowError)
    requires HasColumns(cells, idx) && TryParseRow(cells, idx, number) == Bad(e)
    ensures Fails(e, cells, idx, number)
    ensures Fails(other, cells, idx, number) ==> Rank(e) <= Rank(other)
  {
    hide Cell;
    assert REQUIRED[0] == "policy_year" && REQUIRED[1] == "vessel_class" && REQUIRED[2] == "exposure_value";
    assert REQUIRED[3] == "exposure_unit" && REQUIRED[4] == "claim_count" && REQUIRED[5] == "severity_total";
    assert REQUIRED[6] == "premium_earned";
  }

  /** Columns are found by name alone: their order and any further columns make no difference. */
  lemma ColumnsByNameOnly(a: seq<string>, i: map<string, nat>, b: seq<string>, j: map<string, nat>,
                          number: string -> Option<real>)
    requires HasColumns(a, i) && HasColumns(b, j)
    requires forall name :: name in REQUIRED ==> Cell(a, i, name) == Cell(b, j, name)
    ensures TryParseRow(a, i, number) == TryParseRow(b, j, number)
  {
    hide Cell, ParseFields;
    forall k | 0 <= k < |REQUIRED|
      ensures Cell(a, i, REQUIRED[k]) == Cell(b, j, REQUIRED[k])
    {
    }
    assert REQUIRED[0] == "policy_year" && REQUIRED[1] == "vessel_class" && REQUIRED[2] == "exposure_value";
    assert REQUIRED[3] == "exposure_unit" && REQUIRED[4] == "claim_count" && REQUIRED[5] == "severity_total";
    assert REQUIRED[6] == "premium_earned";
  }

  function Header(lines: seq<string>): seq<string>
    requires lines != []
  {
    LowerAll(TrimAll(Split(lines[0], ',')))
  }

  predicate ValidHeader(header: seq<string>) {
    forall name :: name in REQUIRED ==> name in header
  }

  function IndexMap(header: seq<string>): map<string, nat> {
    map name | name in header :: LastIndex(header, name)
  }

  /** What a line becomes under a header. */
  function RowOf(line: string, header: seq<string>, number: string -> Option<real>): Row
    requires ValidHeader(header)
  {
    var cells := TrimAll(Split(line, ','));
    if |cells| != |header| then Bad(WrongColumns) else TryParseRow(cells, IndexMap(header), number)
  }

  function Rows(lines: seq<string>, header: seq<string>, number: string -> Option<real>): seq<Row>
    requires ValidHeader(header)
  {
    if lines == [] then []
    else Rows(lines[..|lines| - 1], header, number) + [RowOf(lines[|lines| - 1], header, number)]
  }

  method BuildIndex(header: seq<string>) returns (idx: map<string, nat>)
    ensures idx == IndexMap(header)
  {
    idx := map[];
    for i := 0 to |header|
      invariant idx == IndexMap(header[..i])
    {
      idx := idx[header[i] := i];
      assert header[..i + 1][..i] == header[..i];
    }
    assert header[..|header|] == header;
  }

  /** Records and skips together account for every line after the header, each in its place: the
    records are the good rows in order, the skips the bad rows with their line numbers. */
  ghost predicate Accounts(rows: seq<Row>, records: seq<Record>, skipped: seq<Skip>) {
    records == GoodRows(rows) && skipped == BadRows(rows, 2)
  }

  function RecordIn(row: Row): seq<Record> {
    if row.Good? then [row.record] else []
  }

  function SkipIn(row: Row, lineNumber: nat): seq<Skip> {
    if row.Bad? then [Skip(lineNumber, row.error)] else []
  }

  function GoodRows(rows: seq<Row>): seq<Record> {
    if rows == [] then []
    else GoodRows(rows[..|rows| - 1]) + RecordIn(rows[|rows| - 1])
  }

  function BadRows(rows: seq<Row>, first: nat): seq<Skip> {
    if rows == [] then []
    else
      var last := |rows| - 1;
      BadRows(rows[..last], first) + SkipIn(rows[last], first + last)
  }

  method ParseLossRunCSV(csv: string, number: string -> Option<real>) returns (r: ParseResult)
    ensures r == Failed(EmptyInput) <==> Lines(csv) == []
    ensures r.Failed? && r.error.MissingColumn? <==> Lines(csv) != [] && !ValidHeader(Header(Lines(csv)))
    ensures r.Failed? && r.error.MissingColumn? ==> IsFirstMissing(Header(Lines(csv)), r.error.column)
    ensures r.Parsed? ==> Accounts(Rows(Lines(csv)[1..], Header(Lines(csv)), number), r.records, r.skipped)
    ensures r.Parsed? ==> |r.records| + |r.skipped| == |Lines(csv)| - 1
  {
    hide Rows, GoodRows, BadRows, Lines, Header, LastIndex, TryParseRow;
    var lines := Lines(csv);
    if lines == [] {
      return Failed(EmptyInput);
    }
    var header := Header(lines);
    for i := 0 to |REQUIRED|
      invariant forall j :: 0 <= j < i ==> REQUIRED[j] in header
    {
      if REQUIRED[i] !in header {
        return Failed(MissingColumn(REQUIRED[i]));
      }
    }
    var records, skipped := ParseLines(lines, header, number);
    NothingIsLost(Rows(lines[1..], header, number), 2);
    RowsCount(lines[1..], header, number);
    r := Parsed(records, skipped);
  }

  method ParseLines(lines: seq<string>, header: seq<string>, number: string -> Option<real>)
    returns (records: seq<Record>, skipped: seq<Skip>)
    requires lines != [] && ValidHeader(header)
    ensures Accounts(Rows(lines[1..], header, number), records, skipped)
  {
    hide LastIndex, TryParseRow, Rows, GoodRows, BadRows, Split;
    var idx := BuildIndex(header);
    records, skipped := [], [];
    ghost var data := lines[1..];
    NoRows(header, number);
    assert data[..0] == [];
    for i := 1 to |lines|
      invariant Accounts(Rows(data[..i - 1], header, number), records, skipped)
    {
      RowsStep(data, i - 1, header, number);
      var cells := TrimAll(Split(lines[i], ','));
      if |cells| != |header| {
        skipped := skipped + [Skip(i + 1, WrongColumns)];
      } else {
        match TryParseRow(cells, idx, number)
        case Bad(error) => skipped := skipped + [Skip(i + 1, error)];
        case Good(record) => records := records + [record];
      }
    }
    assert data[..|lines| - 1] == data;
  }

  lemma {:induction false} RowsCount(data: seq<string>, header: seq<string>, number: string -> Option<real>)
    requires ValidHeader(header)
    ensures |Rows(data, header, number)| == |data|
  {
    hide RowOf;
    if data != [] {
      RowsCount(data[..|data| - 1], header, number);
    }
  }

  lemma NoRows(header: seq<string>, number: string -> Option<real>)
    requires ValidHeader(header)
    ensures Accounts(Rows([], header, number), [], [])
  {
  }

  lemma {:induction false} RowsStep(data: seq<string>, i: nat, header: seq<string>, number: string -> Option<real>)
    requires i < |data| && ValidHeader(header)
    ensures |Rows(data[..i], header, number)| == i
    ensures Rows(data[..i + 1], header, number) == Rows(data[..i], header, number) + [RowOf(data[i], header, number)]
    ensures var before, after, row :=
                Rows(data[..i], header, number),
                Rows(data[..i + 1], header, number),
                RowOf(data[i], header, number);
            && GoodRows(after) == GoodRows(before) + RecordIn(row)
            && BadRows(after, 2) == BadRows(before, 2) + SkipIn(row, 2 + i)
  {
    hide RowOf;
    assert data[..i + 1][..i] == data[..i];
    var before, row := Rows(data[..i], header, number), RowOf(data[i], header, number);
    assert (before + [row])[..|before|] == before;
    if i > 0 {
      RowsStep(data, i - 1, header, number);
    }
  }

  ghost predicate IsFirstMissing(header: seq<string>, name: string) {
    exists i :: 0 <= i < |REQUIRED| && REQUIRED[i] == name && name !in header
      && forall j :: 0 <= j < i ==> REQUIRED[j] in header
  }

  lemma {:induction false} RowsAddUp(rows: seq<Row>, first: nat)
    ensures |GoodRows(rows)| + |BadRows(rows, first)| == |rows|
  {
    if rows != [] {
      RowsAddUp(rows[..|rows| - 1], first);
    }
  }

  lemma {:induction false} SkipsAreBadRows(rows: seq<Row>, first: nat, k: Skip)
    ensures k in BadRows(rows, first) <==>
      first <= k.lineNumber < first + |rows| && rows[k.lineNumber - first] == Bad(k.reason)
  {
    if rows != [] {
      SkipsAreBadRows(rows[..|rows| - 1], first, k);
    }
  }

  lemma {:induction false} SkipsAscend(rows: seq<Row>, first: nat)
    ensures forall i, j :: 0 <= i < j < |BadRows(rows, first)| ==>
      BadRows(rows, first)[i].lineNumber < BadRows(rows, first)[j].lineNumber
  {
    if rows != [] {
      var last := |rows| - 1;
      SkipsAscend(rows[..last], first);
      forall i | 0 <= i < |BadRows(rows[..last], first)|
        ensures BadRows(rows[..last], first)[i].lineNumber < first + last
      {
        SkipsAreBadRows(rows[..last], first, BadRows(rows[..last], first)[i]);
      }
    }
  }

  /** Every data line is a record or a skip and never both; skips are reported in increasing order of
    line, at exactly the lines whose row is bad and for its reason. */
  lemma NothingIsLost(rows: seq<Row>, first: nat)
    ensures |GoodRows(rows)| + |BadRows(rows, first)| == |rows|
    ensures forall i, j :: 0 <= i < j < |BadRows(rows, first)| ==>
      BadRows(rows, first)[i].lineNumber < BadRows(rows, first)[j].lineNumber
    ensures forall k ::
      k in BadRows(rows, first) <==>
        first <= k.lineNumber < first + |rows| && rows[k.lineNumber - first] == Bad(k.reason)
  {
    hide GoodRows, BadRows;
    RowsAddUp(rows, first);
    SkipsAscend(rows, first);
    forall k
      ensures k in BadRows(rows, first) <==>
        first <= k.lineNumber < first + |rows| && rows[k.lineNumber - first] == Bad(k.reason)
    {
      SkipsAreBadRows(rows, first, k);
    }
  }

  // ---- Reported line numbers ----

  /** The number reported for physical line p, counted from 0, when that line is not blank. */
  function Reported(lines: seq<string>, p: nat): nat
    requires p < |lines|
  {
    |NonBlank(lines[..p])| + 1
  }

  lemma {:induction false} NonBlankGrows(lines: seq<string>, p: nat)
    requires p <= |lines|
    ensures NonBlank(lines[..p]) <= NonBlank(lines)
    ensures |NonBlank(lines[..p])| <= p
    ensures p < |lines| && lines[p] != "" ==> NonBlank(lines[..p]) + [lines[p]] <= NonBlank(lines)
  {
    var last := |lines| - 1;
    if p == |lines| {
      assert lines[..p] == lines;
      if p > 0 {
        NonBlankGrows(lines[..last], last);
        assert lines[..last][..last] == lines[..last];
      }
    } else {
      NonBlankGrows(lines[..last], p);
      assert lines[..last][..p] == lines[..p];
    }
  }

  lemma {:induction false} AllKeptIff(lines: seq<string>)
    ensures |NonBlank(lines)| == |lines| <==> "" !in lines
  {
    if lines != [] {
      var last := |lines| - 1;
      AllKeptIff(lines[..last]);
      NonBlankGrows(lines[..last], last);
      assert lines[..last][..last] == lines[..last];
      assert lines == lines[..last] + [lines[last]];
    }
  }

  /** A line keeps its content; its reported number is its number in the file if and only if no blank
    line comes before it. */
  lemma LineNumberIsPhysicalIff(lines: seq<string>, p: nat)
    requires p < |lines| && lines[p] != ""
    ensures Reported(lines, p) <= |NonBlank(lines)| && NonBlank(lines)[Reported(lines, p) - 1] == lines[p]
    ensures Reported(lines, p) == p + 1 <==> "" !in lines[..p]
  {
    NonBlankGrows(lines, p);
    var kept := NonBlank(lines[..p]) + [lines[p]];
    assert kept[|kept| - 1] == NonBlank(lines)[|kept| - 1];
    AllKeptIff(lines[..p]);
  }

  /** What the parser returns, line by line of the file: a non-blank line after the header is skipped for
      a reason, under its reported number, iff that is what becomes of its row. */
  lemma SkipsCarryReportedNumbers(csv: string, number: string -> Option<real>, skipped: seq<Skip>, p: nat, e: RowError)
    requires Lines(csv) != [] && ValidHeader(Header(Lines(csv)))
    requires skipped == BadRows(Rows(Lines(csv)[1..], Header(Lines(csv)), number), 2)
    requires p < |PhysicalLines(csv)| && PhysicalLines(csv)[p] != "" && Reported(PhysicalLines(csv), p) > 1
    ensures Skip(Reported(PhysicalLines(csv), p), e) in skipped
       <==> RowOf(PhysicalLines(csv)[p], Header(Lines(csv)), number) == Bad(e)
  {
    hide Lines, Header, RowOf, Rows, BadRows, PhysicalLines;
    LinesAreNonBlank(csv);
    SkipOfLine(PhysicalLines(csv), Header(Lines(csv)), number, p, e);
  }

  lemma SkipOfLine(lines: seq<string>, header: seq<string>, number: string -> Option<real>, p: nat, e: RowError)
    requires ValidHeader(header) && NonBlank(lines) != []
    requires p < |lines| && lines[p] != "" && Reported(lines, p) > 1
    ensures Skip(Reported(lines, p), e) in BadRows(Rows(NonBlank(lines)[1..], header, number), 2)
       <==> RowOf(lines[p], header, number) == Bad(e)
  {
    hide RowOf, Rows, BadRows, NonBlank, ValidHeader;
    var n, data := Reported(lines, p), NonBlank(lines)[1..];
    LineNumberIsPhysicalIff(lines, p);
    var rows := Rows(data, header, number);
    RowAt(data, header, number, n - 2);
    NothingIsLost(rows, 2);
    assert data[n - 2] == lines[p];
    hide Reported;
  }

  lemma LinesAreNonBlank(csv: string)
    ensures Lines(csv) == NonBlank(PhysicalLines(csv))
  {
  }

  lemma {:induction false} RowAt(data: seq<string>, header: seq<string>, number: string -> Option<real>, i: nat)
    requires i < |data| && ValidHeader(header)
    ensures |Rows(data, header, number)| == |data|
    ensures Rows(data, header, number)[i] == RowOf(data[i], header, number)
  {
    hide RowOf;
    RowsCount(data[..|data| - 1], header, number);
    if i < |data| - 1 {
      RowAt(data[..|data| - 1], header, number, i);
    }
  }

  // ---- A file written by rows reads back ----

  /** Cells that make up a line as a spreadsheet writes it: padded or not, except at the line's ends. */
  ghost predicate Writable(cells: seq<string>) {
    && cells != [] && cells[0] != "" && cells[|cells| - 1] != ""
    && !White(cells[0][0]) && !White(cells[|cells| - 1][|cells[|cells| - 1]| - 1])
    && forall i :: 0 <= i < |cells| ==> ',' !in cells[i] && '\r' !in cells[i] && '\n' !in cells[i]
  }

  function Written(rows: seq<seq<string>>): (lines: seq<string>)
    ensures |lines| == |rows|
    ensures forall i :: 0 <= i < |lines| && rows[i] != [] ==> lines[i] == Join(rows[i], ',')
  {
    seq(|rows|, i requires 0 <= i < |rows| => if rows[i] == [] then "" else Join(rows[i], ','))
  }

  lemma {:induction false} JoinedEnds(cells: seq<string>)
    requires cells != [] && cells[0] != "" && cells[|cells| - 1] != ""
    ensures var s, last := Join(cells, ','), cells[|cells| - 1];
            s != "" && s[0] == cells[0][0] && s[|s| - 1] == last[|last| - 1]
  {
    if |cells| > 1 {
      JoinedEndsAfterFirst(cells[1..]);
    }
  }

  lemma {:induction false} JoinedEndsAfterFirst(cells: seq<string>)
    requires cells != [] && cells[|cells| - 1] != ""
    ensures var s, last := Join(cells, ','), cells[|cells| - 1];
            s != "" && s[|s| - 1] == last[|last| - 1]
  {
    if |cells| > 1 {
      JoinedEndsAfterFirst(cells[1..]);
    }
  }

  lemma {:induction false} JoinHolds(pieces: seq<string>, separator: char, c: char)
    requires pieces != [] && c != separator && forall i :: 0 <= i < |pieces| ==> c !in pieces[i]
    ensures c !in Join(pieces, separator)
  {
    if |pieces| > 1 {
      JoinHolds(pieces[1..], separator, c);
    }
  }

  /** A written line has no line end in it, is neither blank nor padded, and splits into its cells. */
  lemma WrittenLine(cells: seq<string>)
    requires Writable(cells)
    ensures var s := Join(cells, ',');
            s != "" && Trim(s) == s && '\r' !in s && '\n' !in s && Split(s, ',') == cells
  {
    var s := Join(cells, ',');
    JoinedEnds(cells);
    JoinHolds(cells, ',', '\r');
    JoinHolds(cells, ',', '\n');
    JoinThenSplit(cells, ',');
    TrimIsUnique("", s, "");
    assert "" + s + "" == s;
  }

  lemma {:induction false} NoneBlank(lines: seq<string>)
    requires forall i :: 0 <= i < |lines| ==> lines[i] != ""
    ensures NonBlank(lines) == lines
  {
    if lines != [] {
      NoneBlank(lines[..|lines| - 1]);
      assert lines == lines[..|lines| - 1] + [lines[|lines| - 1]];
    }
  }

  /** The lines of a written file are the lines written. */
  lemma WrittenLines(rows: seq<seq<string>>)
    requires rows != [] && forall i :: 0 <= i < |rows| ==> Writable(rows[i])
    ensures Lines(CrLf(Written(rows))) == Written(rows)
  {
    var lines := Written(rows);
    forall i | 0 <= i < |lines|
      ensures lines[i] != "" && Trim(lines[i]) == lines[i] && '\r' !in lines[i] && '\n' !in lines[i]
    {
      WrittenLine(rows[i]);
    }
    hide Trim, Join;
    UnixLinesOfCrLf(lines);
    JoinThenSplit(lines, '\n');
    assert TrimAll(lines) == lines;
    NoneBlank(lines);
  }

  lemma {:induction false} AllGood(rows: seq<Row>, records: seq<Record>)
    requires |rows| == |records| && forall i :: 0 <= i < |rows| ==> rows[i] == Good(records[i])
    ensures GoodRows(rows) == records && BadRows(rows, 2) == []
  {
    hide GoodRows, BadRows;
    if rows == [] {
      NoRowsGood();
    } else {
      var last := |rows| - 1;
      AllGood(rows[..last], records[..last]);
      LastGood(rows, records[last]);
      assert records == records[..last] + [records[last]];
    }
  }

  lemma NoRowsGood()
    ensures GoodRows([]) == [] && BadRows([], 2) == []
  {
  }

  lemma LastGood(rows: seq<Row>, r: Record)
    requires rows != [] && rows[|rows| - 1] == Good(r)
    ensures GoodRows(rows) == GoodRows(rows[..|rows| - 1]) + [r]
    ensures BadRows(rows, 2) == BadRows(rows[..|rows| - 1], 2)
  {
  }

  /** Main theorem, a round trip: a file of any plausible records, with its columns in any order, titles in
      any case, cells padded inside the lines and Windows line ends, parses to exactly those records and
      skips nothing. `titles` and `rows` are what is written; each row reads as its record. */
  lemma WrittenFileReadsBack(titles: seq<string>, rows: seq<seq<string>>, records: seq<Record>,
                             number: string -> Option<real>)
    requires |rows| == |records| && Writable(titles) && forall i :: 0 <= i < |rows| ==> Writable(rows[i])
    requires var header := LowerAll(TrimAll(titles));
             && ValidHeader(header)
             && forall i :: 0 <= i < |rows| ==>
                  && |rows[i]| == |header| && HasColumns(TrimAll(rows[i]), IndexMap(header))
                  && Reads(records[i], TrimAll(rows[i]), IndexMap(header), number) && Plausible(records[i])
    ensures var lines := Lines(CrLf(Written([titles] + rows)));
            && lines != [] && ValidHeader(Header(lines))
            && GoodRows(Rows(lines[1..], Header(lines), number)) == records
            && BadRows(Rows(lines[1..], Header(lines), number), 2) == []
  {
    var all, header := [titles] + rows, LowerAll(TrimAll(titles));
    hide Lines, CrLf, Trim, Lower, Split, Join, IndexMap, Reads, TryParseRow, Rows, GoodRows, BadRows;
    WrittenLines(all);
    var lines := Written(all);
    WrittenLine(titles);
    assert Header(lines) == header;
    var data := lines[1..];
    RowsCount(data, header, number);
    var found := Rows(data, header, number);
    forall i | 0 <= i < |rows|
      ensures found[i] == Good(records[i])
    {
      WrittenLine(rows[i]);
      assert data[i] == Join(rows[i], ',');
      RowAt(data, header, number, i);
      RowIsRecordIff(TrimAll(rows[i]), IndexMap(header), number, records[i]);
    }
    AllGood(found, records);
  }

  // ---- Vessel classes ----

  datatype Key = ContainerShip | Tugboat

  const LABELS := [
    ("container ship", ContainerShip), ("container vessel", ContainerShip), ("containership", ContainerShip),
    ("tugboat", Tugboat), ("tug ", Tugboat), ("tug-", Tugboat), ("harbor tug", Tugboat)]

  predicate Includes(haystack: string, needle: string) {
    needle <= haystack || (haystack != "" && Includes(haystack[1..], needle))
  }

  function FirstMatch(haystack: string, labels: seq<(string, Key)>): Option<Key> {
    if labels == [] then None
    else if Includes(haystack, labels[0].0) then Some(labels[0].1)
    else FirstMatch(haystack, labels[1..])
  }

  function NormalizeVesselClass(raw: string): Option<Key> {
    FirstMatch(Trim(Lower(raw)), LABELS)
  }

  lemma {:induction false} LowerTwice(s: string)
    ensures Lower(Lower(s)) == Lower(s)
  {
    if s != "" {
      LowerTwice(s[1..]);
      assert Lower(s)[1..] == Lower(s[1..]);
    }
  }

  /** The needle stands somewhere in the haystack. */
  ghost predicate Occurs(needle: string, haystack: string) {
    exists i :: 0 <= i <= |haystack| && needle <= haystack[i..]
  }

  lemma {:induction false} IncludesIff(haystack: string, needle: string)
    ensures Includes(haystack, needle) <==> Occurs(needle, haystack)
  {
    assert haystack[0..] == haystack;
    if haystack != "" {
      IncludesIff(haystack[1..], needle);
      if Includes(haystack[1..], needle) {
        var i :| 0 <= i <= |haystack| - 1 && needle <= haystack[1..][i..];
        assert haystack[1..][i..] == haystack[i + 1..];
      }
      if i :| 0 <= i <= |haystack| && needle <= haystack[i..] {
        if i > 0 {
          assert haystack[1..][i - 1..] == haystack[i..];
        }
      }
    }
  }

  lemma MatchFrom(haystack: string, k: nat)
    requires k < |LABELS|
    ensures FirstMatch(haystack, LABELS[k..])
         == if Occurs(LABELS[k].0, haystack) then Some(LABELS[k].1)
            else FirstMatch(haystack, LABELS[k + 1..])
  {
    hide Includes, Occurs;
    IncludesIff(haystack, LABELS[k].0);
    assert LABELS[k..][1..] == LABELS[k + 1..];
  }

  ghost predicate IsContainerLabel(haystack: string) {
    Occurs("container ship", haystack) || Occurs("container vessel", haystack) || Occurs("containership", haystack)
  }

  ghost predicate IsTugLabel(haystack: string) {
    Occurs("tugboat", haystack) || Occurs("tug ", haystack)
    || Occurs("tug-", haystack) || Occurs("harbor tug", haystack)
  }

  /** The seven labels in three lines: a container label anywhere in the trimmed, lower-case name wins
    over a tug label, and a name with neither is dropped. */
  lemma NormalizeIff(raw: string)
    ensures var haystack := Trim(Lower(raw));
            && (NormalizeVesselClass(raw) == Some(ContainerShip) <==> IsContainerLabel(haystack))
            && (NormalizeVesselClass(raw) == Some(Tugboat) <==> IsTugLabel(haystack) && !IsContainerLabel(haystack))
            && (NormalizeVesselClass(raw) == None <==> !IsTugLabel(haystack) && !IsContainerLabel(haystack))
  {
    hide Includes, Occurs, Trim, Lower, FirstMatch;
    var haystack := Trim(Lower(raw));
    MatchFrom(haystack, 0);
    MatchFrom(haystack, 1);
    MatchFrom(haystack, 2);
    MatchFrom(haystack, 3);
    MatchFrom(haystack, 4);
    MatchFrom(haystack, 5);
    MatchFrom(haystack, 6);
    NoLabels(haystack);
    assert LABELS[0..] == LABELS && LABELS[7..] == [];
  }

  lemma NoLabels(haystack: string)
    ensures FirstMatch(haystack, []) == None
  {
  }

  /** Spelling in capitals does not matter. */
  lemma NormalizeIgnoresCase(raw: string)
    ensures NormalizeVesselClass(Lower(raw)) == NormalizeVesselClass(raw)
  {
    LowerTwice(raw);
  }

  // ---- Aggregation ----

  datatype Stats = Stats(key: Key, vesselYears: nat, claims: real, severity: real, exposure: real, premium: real,
                         frequency: real, meanSeverity: Option<real>, lossRatio: real, earliest: real, latest: real)

  function Select(records: seq<Record>, key: Option<Key>): seq<Record> {
    if records == [] then []
    else
      var last := records[|records| - 1];
      Select(records[..|records| - 1], key) + if NormalizeVesselClass(last.vesselClass) == key then [last] else []
  }

  function Total(records: seq<Record>, column: Record -> real): real {
    if records == [] then 0.0 else Total(records[..|records| - 1], column) + column(records[|records| - 1])
  }

  function MinYear(records: seq<Record>): real
    requires records != []
  {
    var last := records[|records| - 1].year;
    if |records| == 1 then last
    else if MinYear(records[..|records| - 1]) < last then MinYear(records[..|records| - 1]) else last
  }

  function MaxYear(records: seq<Record>): real
    requires records != []
  {
    var last := records[|records| - 1].year;
    if |records| == 1 then last
    else if MaxYear(records[..|records| - 1]) > last then MaxYear(records[..|records| - 1]) else last
  }

  function StatsOf(key: Key, records: seq<Record>): Stats
    requires records != []
  {
    var claims := Total(records, (r: Record) => r.claims);
    var severity := Total(records, (r: Record) => r.severity);
    var premium := Total(records, (r: Record) => r.premium);
    Stats(key, |records|, claims, severity, Total(records, (r: Record) => r.exposure), premium,
          claims / |records| as real, if claims > 0.0 then Some(severity / claims) else None,
          if premium > 0.0 then severity / premium else 0.0, MinYear(records), MaxYear(records))
  }

  /** The insertion-ordered counters of labels that match nothing. */
  function Bump(counts: seq<(string, nat)>, name: string): seq<(string, nat)> {
    if counts == [] then [(name, 1)]
    else if counts[0].0 == name then [(name, counts[0].1 + 1)] + counts[1..]
    else [counts[0]] + Bump(counts[1..], name)
  }

  function CountOf(counts: seq<(string, nat)>, name: string): nat {
    if counts == [] then 0 else (if counts[0].0 == name then counts[0].1 else 0) + CountOf(counts[1..], name)
  }

  function SumOf(counts: seq<(string, nat)>): nat {
    if counts == [] then 0 else counts[0].1 + SumOf(counts[1..])
  }

  function Labels(counts: seq<(string, nat)>): set<string> {
    if counts == [] then {} else {counts[0].0} + Labels(counts[1..])
  }

  /** No label is listed twice. */
  predicate Distinct(counts: seq<(string, nat)>) {
    counts == [] || (counts[0].0 !in Labels(counts[1..]) && Distinct(counts[1..]))
  }

  lemma {:induction false} BumpAddsOne(counts: seq<(string, nat)>, name: string)
    requires Distinct(counts)
    ensures SumOf(Bump(counts, name)) == SumOf(counts) + 1
    ensures forall l :: CountOf(Bump(counts, name), l) == CountOf(counts, l) + if l == name then 1 else 0
    ensures Distinct(Bump(counts, name)) && Labels(Bump(counts, name)) == Labels(counts) + {name}
  {
    if counts != [] && counts[0].0 != name {
      BumpAddsOne(counts[1..], name);
    }
  }

  function WithLabel(records: seq<Record>, name: string): nat {
    if records == [] then 0
    else WithLabel(records[..|records| - 1], name) + if records[|records| - 1].vesselClass == name then 1 else 0
  }

  /** The group-by loop: a class has statistics if and only if it has records, they are those of exactly
    its records, and each unmatched label is counted once per row. */
  method AggregateByVesselClass(records: seq<Record>) returns (stats: map<Key, Stats>, dropped: seq<(string, nat)>)
    ensures forall k :: k in stats <==> Select(records, Some(k)) != []
    ensures forall k :: k in stats ==> stats[k] == StatsOf(k, Select(records, Some(k)))
    ensures forall k :: k in stats && |Select(records, Some(k))| == 1 ==>
        ShowsRecord(stats[k], k, Select(records, Some(k))[0])
    ensures Distinct(dropped) && SumOf(dropped) == |Select(records, None)|
    ensures forall name :: CountOf(dropped, name) == WithLabel(Select(records, None), name)
  {
    var grouped: map<Key, seq<Record>>;
    grouped, dropped := GroupRecords(records);
    stats := map[];
    var keys := grouped.Keys;
    while keys != {}
      invariant keys <= grouped.Keys && stats.Keys == grouped.Keys - keys
      invariant forall k :: k in stats ==> stats[k] == StatsOf(k, grouped[k])
    {
      var k :| k in keys;
      stats := stats[k := StatsOf(k, grouped[k])];
      keys := keys - {k};
    }
    forall k | k in stats && |Select(records, Some(k))| == 1
      ensures ShowsRecord(stats[k], k, Select(records, Some(k))[0])
    {
      assert Select(records, Some(k)) == [Select(records, Some(k))[0]];
      OneRecordShows(k, Select(records, Some(k))[0]);
    }
  }

  /** Every figure is the record's own, field by field. */
  predicate ShowsRecord(s: Stats, key: Key, r: Record) {
    && s.key == key && s.vesselYears == 1
    && s.claims == r.claims == s.frequency && s.severity == r.severity
    && s.exposure == r.exposure && s.premium == r.premium
    && s.meanSeverity == (if r.claims > 0.0 then Some(r.severity / r.claims) else None)
    && s.lossRatio == (if r.premium > 0.0 then r.severity / r.premium else 0.0)
    && s.earliest == r.year == s.latest
  }

  lemma OneRecordShows(key: Key, r: Record)
    ensures ShowsRecord(StatsOf(key, [r]), key, r)
  {
    OneTotal(r, (x: Record) => x.claims);
    OneTotal(r, (x: Record) => x.severity);
    OneTotal(r, (x: Record) => x.exposure);
    OneTotal(r, (x: Record) => x.premium);
    hide Total;
  }

  lemma OneTotal(r: Record, column: Record -> real)
    ensures Total([r], column) == column(r)
  {
    assert [r][..0] == [];
  }

  method GroupRecords(records: seq<Record>) returns (grouped: map<Key, seq<Record>>, dropped: seq<(string, nat)>)
    ensures forall k :: k in grouped <==> Select(records, Some(k)) != []
    ensures forall k :: k in grouped ==> grouped[k] == Select(records, Some(k))
    ensures Distinct(dropped) && SumOf(dropped) == |Select(records, None)|
    ensures forall name :: CountOf(dropped, name) == WithLabel(Select(records, None), name)
  {
    hide Select, NormalizeVesselClass, Bump, CountOf, SumOf, Distinct, WithLabel;
    grouped, dropped := map[], [];
    NoCounts();
    assert records[..0] == [];
    for i := 0 to |records|
      invariant forall k :: k in grouped <==> Select(records[..i], Some(k)) != []
      invariant forall k :: k in grouped ==> grouped[k] == Select(records[..i], Some(k))
      invariant Distinct(dropped) && SumOf(dropped) == |Select(records[..i], None)|
      invariant forall name :: CountOf(dropped, name) == WithLabel(Select(records[..i], None), name)
    {
      SelectStep(records, i);
      var name := records[i].vesselClass;
      match NormalizeVesselClass(name)
      case None =>
        BumpAddsOne(dropped, name);
        WithOneMore(Select(records[..i], None), records[i]);
        dropped := Bump(dropped, name);
        assert Select(records[..i + 1], None) == Select(records[..i], None) + [records[i]];
      case Some(key) =>
        assert Select(records[..i + 1], None) == Select(records[..i], None);
        var bucket := if key in grouped then grouped[key] else [];
        grouped := grouped[key := bucket + [records[i]]];
    }
    assert records[..|records|] == records;
  }

  lemma SelectStep(records: seq<Record>, i: nat)
    requires i < |records|
    ensures var found := NormalizeVesselClass(records[i].vesselClass);
            forall key ::
              Select(records[..i + 1], key) == Select(records[..i], key) + if found == key then [records[i]] else []
  {
    assert records[..i + 1][..i] == records[..i];
  }

  lemma NoCounts()
    ensures forall key :: Select([], key) == []
    ensures Distinct([]) && SumOf([]) == 0
    ensures forall name :: CountOf([], name) == 0 == WithLabel([], name)
  {
  }

  lemma WithOneMore(records: seq<Record>, r: Record)
    ensures forall name ::
      WithLabel(records + [r], name) == WithLabel(records, name) + if r.vesselClass == name then 1 else 0
  {
    assert (records + [r])[..|records|] == records;
  }

  /** Every record is counted in exactly one class or dropped. */
  lemma {:induction false} EveryRecordIsCounted(records: seq<Record>)
    ensures |records|
         == |Select(records, Some(ContainerShip))| + |Select(records, Some(Tugboat))| + |Select(records, None)|
    ensures forall key, r :: r in Select(records, key) <==> r in records && NormalizeVesselClass(r.vesselClass) == key
  {
    forall key
      ensures forall r :: r in Select(records, key) <==> r in records && NormalizeVesselClass(r.vesselClass) == key
    {
      SelectKeeps(records, key);
    }
    ClassesPartition(records);
  }

  lemma {:induction false} SelectKeeps(records: seq<Record>, key: Option<Key>)
    ensures forall r :: r in Select(records, key) <==> r in records && NormalizeVesselClass(r.vesselClass) == key
  {
    hide NormalizeVesselClass;
    if records != [] {
      var last := |records| - 1;
      SelectKeeps(records[..last], key);
      assert records == records[..last] + [records[last]];
    }
  }

  lemma {:induction false} ClassesPartition(records: seq<Record>)
    ensures |records|
         == |Select(records, Some(ContainerShip))| + |Select(records, Some(Tugboat))| + |Select(records, None)|
  {
    hide NormalizeVesselClass, Select;
    NoSelection();
    if records != [] {
      var last := |records| - 1;
      ClassesPartition(records[..last]);
      SelectStep(records, last);
      assert records[..last + 1] == records;
      OneOfThree(NormalizeVesselClass(records[last].vesselClass));
    }
  }

  lemma OneOfThree(found: Option<Key>)
    ensures found in {None, Some(ContainerShip), Some(Tugboat)}
  {
    if found.Some? {
      match found.value
      case ContainerShip =>
      case Tugboat =>
    }
  }

  lemma NoSelection()
    ensures forall key :: Select([], key) == []
  {
  }

  /** The derived figures give the totals back, and a mean severity exists iff there was a claim. */
  lemma RatiosRecoverTotals(key: Key, records: seq<Record>)
    requires records != []
    ensures var s := StatsOf(key, records);
            && s.frequency * s.vesselYears as real == s.claims
            && (s.premium > 0.0 ==> s.lossRatio * s.premium == s.severity)
            && (s.meanSeverity.Some? <==> s.claims > 0.0)
            && (s.claims > 0.0 ==> s.meanSeverity.value * s.claims == s.severity)
  {
    hide Total, MinYear, MaxYear;
    var s := StatsOf(key, records);
    assert s.frequency == s.claims / s.vesselYears as real;
  }

  // ---- Concatenation ----

  lemma {:induction false} SelectDistributes(a: seq<Record>, b: seq<Record>, key: Option<Key>)
    ensures Select(a + b, key) == Select(a, key) + Select(b, key)
  {
    hide NormalizeVesselClass;
    if b == [] {
      assert a + b == a;
    } else {
      assert (a + b)[..|a + b| - 1] == a + b[..|b| - 1];
      SelectDistributes(a, b[..|b| - 1], key);
    }
  }

  lemma {:induction false} TotalDistributes(a: seq<Record>, b: seq<Record>, column: Record -> real)
    ensures Total(a + b, column) == Total(a, column) + Total(b, column)
  {
    if b == [] {
      assert a + b == a;
    } else {
      assert (a + b)[..|a + b| - 1] == a + b[..|b| - 1];
      TotalDistributes(a, b[..|b| - 1], column);
    }
  }

  /** The reported years are attained and bound every year. */
  lemma {:induction false} YearsAreBounds(records: seq<Record>)
    requires records != []
    ensures forall r :: r in records ==> MinYear(records) <= r.year <= MaxYear(records)
    ensures exists r :: r in records && r.year == MinYear(records)
    ensures exists r :: r in records && r.year == MaxYear(records)
  {
    hide MinYear, MaxYear;
    var init, last := records[..|records| - 1], records[|records| - 1];
    assert records == init + [last] && last in records;
    YearsStep(records);
    if init != [] {
      YearsAreBounds(init);
      var first :| first in init && first.year == MinYear(init);
      var latest :| latest in init && latest.year == MaxYear(init);
      assert first in records && latest in records;
    }
  }

  lemma YearsStep(records: seq<Record>)
    requires records != []
    ensures var init, year := records[..|records| - 1], records[|records| - 1].year;
            && MinYear(records) == (if init != [] && MinYear(init) < year then MinYear(init) else year)
            && MaxYear(records) == (if init != [] && MaxYear(init) > year then MaxYear(init) else year)
  {
  }

  /** The statistics of a class, if any record belongs to it. */
  function StatsIn(records: seq<Record>, key: Key): Option<Stats> {
    var selected := Select(records, Some(key));
    if selected == [] then None else Some(StatsOf(key, selected))
  }

  /** u has the totals of s and t together, and its years span theirs. */
  predicate AddsUp(s: Stats, t: Stats, u: Stats) {
    && u.vesselYears == s.vesselYears + t.vesselYears && u.claims == s.claims + t.claims
    && u.severity == s.severity + t.severity && u.exposure == s.exposure + t.exposure
    && u.premium == s.premium + t.premium
    && u.earliest == (if s.earliest < t.earliest then s.earliest else t.earliest)
    && u.latest == (if s.latest > t.latest then s.latest else t.latest)
  }

  /** A class of one record shows that record, so with the theorem after this one, which cuts any file into
      single records, every total is the sum of the column of its own name. */
  lemma SingleRecordShowsItself(r: Record, key: Key)
    requires NormalizeVesselClass(r.vesselClass) == Some(key)
    ensures StatsIn([r], key).Some? && ShowsRecord(StatsIn([r], key).value, key, r)
  {
    hide StatsOf, NormalizeVesselClass;
    assert [r][..0] == [];
    assert Select([r], Some(key)) == [r];
    OneRecordShows(key, r);
  }

  /** Two files read as one: a class of both files has the sums of the totals and years that span both,
      a class of one file keeps its statistics, and a class of neither has none; dropped rows add up. */
  lemma ConcatenationAddsTotals(a: seq<Record>, b: seq<Record>, key: Key)
    ensures var x, y, z := StatsIn(a, key), StatsIn(b, key), StatsIn(a + b, key);
            && (x.None? ==> z == y) && (y.None? ==> z == x)
            && (x.Some? && y.Some? ==> z.Some? && AddsUp(x.value, y.value, z.value))
    ensures |Select(a + b, None)| == |Select(a, None)| + |Select(b, None)|
  {
    hide Select, StatsOf, AddsUp;
    SelectDistributes(a, b, Some(key));
    SelectDistributes(a, b, None);
    var x, y := Select(a, Some(key)), Select(b, Some(key));
    assert x == [] ==> x + y == y;
    assert y == [] ==> x + y == x;
    if x != [] && y != [] {
      StatsOfBoth(key, x, y);
    }
  }

  lemma StatsOfBoth(key: Key, x: seq<Record>, y: seq<Record>)
    requires x != [] && y != []
    ensures AddsUp(StatsOf(key, x), StatsOf(key, y), StatsOf(key, x + y))
  {
    hide Total, MinYear, MaxYear;
    TotalDistributes(x, y, (r: Record) => r.claims);
    TotalDistributes(x, y, (r: Record) => r.severity);
    TotalDistributes(x, y, (r: Record) => r.exposure);
    TotalDistributes(x, y, (r: Record) => r.premium);
    YearsOfBoth(x, y);
  }

  lemma {:induction false} YearsOfBoth(a: seq<Record>, b: seq<Record>)
    requires a != [] && b != []
    ensures MinYear(a + b) == if MinYear(a) < MinYear(b) then MinYear(a) else MinYear(b)
    ensures MaxYear(a + b) == if MaxYear(a) > MaxYear(b) then MaxYear(a) else MaxYear(b)
  {
    assert (a + b)[..|a + b| - 1] == a + b[..|b| - 1];
    if |b| == 1 {
      assert a + b[..0] == a;
    } else {
      YearsOfBoth(a, b[..|b| - 1]);
    }
  }
}
