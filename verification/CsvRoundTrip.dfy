/**
 * Printing a table then parsing it gives the table back, for any mixture of
 * quoted and bare fields and of LF and CRLF line ends (section 2 of RFC 4180).
 */
module CsvRoundTrip {
  import opened Csv

  /** How one field, one line and one file are written. */
  datatype FieldStyle = Bare | Quoted

  datatype LineEnd = LF | CRLF

  datatype Line = Line(fields: seq<string>, styles: seq<FieldStyle>, end: LineEnd)

  function Escape(c: char): string {
    if c == '"' then "\"\"" else [c]
  }

  function Doubled(field: string): string {
    if field == "" then "" else Escape(field[0]) + Doubled(field[1..])
  }

  /** A field that may be written without quotes. */
  predicate Plain(field: string, delimiter: char) {
    forall i :: 0 <= i < |field| ==> field[i] != '"' && field[i] != delimiter && field[i] != '\n' && field[i] != '\r'
  }

  predicate WritableField(field: string, style: FieldStyle, delimiter: char) {
    style.Bare? ==> Plain(field, delimiter)
  }

  predicate WritableLine(line: Line, delimiter: char) {
    && |line.styles| == |line.fields| > 0
    && forall i :: 0 <= i < |line.fields| ==> WritableField(line.fields[i], line.styles[i], delimiter)
  }

  function PrintField(field: string, style: FieldStyle): string {
    if style.Bare? then field else "\"" + Doubled(field) + "\""
  }

  function PrintFields(fields: seq<string>, styles: seq<FieldStyle>, delimiter: char): string
    requires |styles| == |fields| > 0
  {
    if |fields| == 1 then PrintField(fields[0], styles[0])
    else PrintField(fields[0], styles[0]) + [delimiter] + PrintFields(fields[1..], styles[1..], delimiter)
  }

  function PrintEnd(end: LineEnd): string {
    if end.LF? then "\n" else "\r\n"
  }

  function PrintLine(line: Line, delimiter: char): string
    requires WritableLine(line, delimiter)
  {
    PrintFields(line.fields, line.styles, delimiter) + PrintEnd(line.end)
  }

  function PrintLines(lines: seq<Line>, delimiter: char): string
    requires forall i :: 0 <= i < |lines| ==> WritableLine(lines[i], delimiter)
  {
    if lines == [] then "" else PrintLine(lines[0], delimiter) + PrintLines(lines[1..], delimiter)
  }

  function Fields(lines: seq<Line>): (t: Table)
    ensures |t| == |lines| && forall i :: 0 <= i < |t| ==> t[i] == lines[i].fields
  {
    seq(|lines|, i requires 0 <= i < |lines| => lines[i].fields)
  }

  predicate Separator(delimiter: char) {
    delimiter != '"' && delimiter != '\n' && delimiter != '\r'
  }

  // ------------------------------------------------------------------------
  //  Scanning what was printed
  // ------------------------------------------------------------------------

  lemma {:induction false} ScanPlain(s: State, field: string, rest: string, delimiter: char)
    requires !s.inQuotes && Plain(field, delimiter) && Separator(delimiter)
    ensures Scan(s, field + rest, delimiter) == Scan(s.(field := s.field + field), rest, delimiter)
    decreases |field|
  {
    if field == "" {
      assert field + rest == rest;
      assert s.field + field == s.field;
    } else {
      var text := field + rest;
      assert text[1..] == field[1..] + rest;
      var next := s.(field := s.field + [field[0]]);
      ScanPlain(next, field[1..], rest, delimiter);
      assert s.field + [field[0]] + field[1..] == s.field + field;
    }
  }

  lemma ScanQuotedChar(s: State, c: char, rest: string, delimiter: char)
    requires s.inQuotes
    ensures Scan(s, Escape(c) + rest, delimiter)
         == Scan(s.(field := s.field + [c]), rest, delimiter)
  {
  }

  lemma {:induction false} ScanDoubled(s: State, field: string, rest: string, delimiter: char)
    requires s.inQuotes
    ensures Scan(s, Doubled(field) + rest, delimiter) == Scan(s.(field := s.field + field), rest, delimiter)
    decreases |field|
  {
    hide Scan, Escape;
    if field == "" {
      assert Doubled(field) + rest == rest;
      assert s.field + field == s.field;
    } else {
      var c := field[0];
      var others := Doubled(field[1..]) + rest;
      assert Doubled(field) + rest == Escape(c) + others;
      ScanQuotedChar(s, c, others, delimiter);
      ScanDoubled(s.(field := s.field + [c]), field[1..], rest, delimiter);
      assert s.field + [c] + field[1..] == s.field + field;
    }
  }

  /** A printed field followed by anything but a quote leaves its value behind. */
  lemma ScanField(s: State, field: string, style: FieldStyle, rest: string, delimiter: char)
    requires !s.inQuotes && s.field == "" && WritableField(field, style, delimiter) && Separator(delimiter)
    requires rest != "" && rest[0] != '"'
    ensures Scan(s, PrintField(field, style) + rest, delimiter) == Scan(s.(field := field), rest, delimiter)
  {
    if style.Bare? {
      ScanPlain(s, field, rest, delimiter);
      assert s.field + field == field;
    } else {
      var text := PrintField(field, style) + rest;
      var inside := s.(inQuotes := true);
      var closing := "\"" + rest;
      assert text[0] == '"' && text[1..] == Doubled(field) + closing;
      ScanDoubled(inside, field, closing, delimiter);
      assert inside.field + field == field;
      assert !Escaped(closing, true) && closing[1..] == rest;
    }
  }

  lemma ScanOne(s: State, c: char, rest: string, delimiter: char)
    requires !s.inQuotes
    ensures Scan(s, [c] + rest, delimiter) == Scan(Step(s, c, delimiter), rest, delimiter)
  {
  }

  lemma ScanEnd(s: State, end: LineEnd, rest: string, delimiter: char)
    requires !s.inQuotes && Separator(delimiter)
    ensures Scan(s, PrintEnd(end) + rest, delimiter)
         == Scan(State(s.rows + [s.row + [s.field]], [], "", false), rest, delimiter)
  {
  }

  lemma ScanFieldThenDelimiter(s: State, field: string, style: FieldStyle, others: string, delimiter: char)
    requires !s.inQuotes && s.field == "" && WritableField(field, style, delimiter) && Separator(delimiter)
    ensures Scan(s, PrintField(field, style) + [delimiter] + others, delimiter)
         == Scan(s.(row := s.row + [field]), others, delimiter)
  {
    hide Scan, PrintField;
    assert PrintField(field, style) + [delimiter] + others == PrintField(field, style) + ([delimiter] + others);
    ScanField(s, field, style, [delimiter] + others, delimiter);
    ScanOne(s.(field := field), delimiter, others, delimiter);
  }

  predicate WritableFields(fields: seq<string>, styles: seq<FieldStyle>, delimiter: char) {
    |styles| == |fields| > 0 && forall i :: 0 <= i < |fields| ==> WritableField(fields[i], styles[i], delimiter)
  }

  lemma {:induction false} ScanLine(
    s: State, fields: seq<string>, styles: seq<FieldStyle>, end: LineEnd, rest: string, delimiter: char)
    requires !s.inQuotes && s.field == "" && Separator(delimiter)
    requires WritableFields(fields, styles, delimiter)
    ensures Scan(s, PrintFields(fields, styles, delimiter) + PrintEnd(end) + rest, delimiter)
         == Scan(State(s.rows + [s.row + fields], [], "", false), rest, delimiter)
    decreases |fields|
  {
    hide Scan, PrintField, WritableField;
    var tail := PrintEnd(end) + rest;
    if |fields| == 1 {
      assert PrintFields(fields, styles, delimiter) + PrintEnd(end) + rest == PrintField(fields[0], styles[0]) + tail;
      ScanField(s, fields[0], styles[0], tail, delimiter);
      ScanEnd(s.(field := fields[0]), end, rest, delimiter);
      assert [fields[0]] == fields;
    } else {
      var others := PrintFields(fields[1..], styles[1..], delimiter) + PrintEnd(end) + rest;
      assert PrintFields(fields, styles, delimiter) + PrintEnd(end) + rest
          == PrintField(fields[0], styles[0]) + [delimiter] + others;
      ScanFieldThenDelimiter(s, fields[0], styles[0], others, delimiter);
      ScanLine(s.(row := s.row + [fields[0]]), fields[1..], styles[1..], end, rest, delimiter);
      assert s.row + [fields[0]] + fields[1..] == s.row + fields;
    }
  }

  lemma {:induction false} ScanLines(rows: Table, lines: seq<Line>, rest: string, delimiter: char)
    requires Separator(delimiter)
    requires forall i :: 0 <= i < |lines| ==> WritableLine(lines[i], delimiter)
    ensures Scan(State(rows, [], "", false), PrintLines(lines, delimiter) + rest, delimiter)
         == Scan(State(rows + Fields(lines), [], "", false), rest, delimiter)
    decreases |lines|
  {
    hide Scan, PrintFields, PrintEnd;
    if lines == [] {
      assert PrintLines(lines, delimiter) + rest == rest;
      assert rows + Fields(lines) == rows;
    } else {
      var first := lines[0];
      var others := PrintLines(lines[1..], delimiter) + rest;
      assert PrintLines(lines, delimiter) + rest
          == PrintFields(first.fields, first.styles, delimiter) + PrintEnd(first.end) + others;
      ScanLine(State(rows, [], "", false), first.fields, first.styles, first.end, others, delimiter);
      assert [] + first.fields == first.fields;
      ScanLines(rows + [first.fields], lines[1..], rest, delimiter);
      assert rows + [first.fields] + Fields(lines[1..]) == rows + Fields(lines);
    }
  }

  /** Every table of non-empty rows comes back exactly, however its fields and lines were written. */
  lemma RoundTrip(lines: seq<Line>, delimiter: char)
    requires Separator(delimiter)
    requires forall i :: 0 <= i < |lines| ==> WritableLine(lines[i], delimiter)
    ensures Parsed(PrintLines(lines, delimiter), delimiter) == Fields(lines)
  {
    ScanLines([], lines, "", delimiter);
    assert PrintLines(lines, delimiter) + "" == PrintLines(lines, delimiter);
    assert [] + Fields(lines) == Fields(lines);
  }

  /**
   * The line end of the last line may be missing, exactly when that line is
   * not a single empty field: a file cannot tell such a line from no line.
   */
  lemma RoundTripUnterminated(lines: seq<Line>, last: Line, delimiter: char)
    requires Separator(delimiter) && WritableLine(last, delimiter)
    requires forall i :: 0 <= i < |lines| ==> WritableLine(lines[i], delimiter)
    ensures var text := PrintLines(lines, delimiter) + PrintFields(last.fields, last.styles, delimiter);
      Parsed(text, delimiter) == Fields(lines) + [last.fields] <==> last.fields != [""]
  {
    hide Scan, PrintLines, PrintFields;
    ScanLines([], lines, PrintFields(last.fields, last.styles, delimiter), delimiter);
    assert [] + Fields(lines) == Fields(lines);
    var start := State(Fields(lines), [], "", false);
    var e := ScanLast(start, last.fields, last.styles, delimiter);
    assert start.row + last.fields == last.fields;
    if |last.fields| == 1 {
      assert last.fields == [e.field];
    }
  }

  lemma {:induction false} ScanLast(s: State, fields: seq<string>, styles: seq<FieldStyle>, delimiter: char)
    returns (e: State)
    requires !s.inQuotes && s.field == "" && Separator(delimiter)
    requires WritableFields(fields, styles, delimiter)
    ensures e == Scan(s, PrintFields(fields, styles, delimiter), delimiter)
    ensures e.rows == s.rows && e.row + [e.field] == s.row + fields && |e.row| == |s.row| + |fields| - 1
    decreases |fields|
  {
    hide Scan, PrintField, WritableField;
    if |fields| == 1 {
      e := Scan(s, PrintField(fields[0], styles[0]), delimiter);
      ScanLastField(s, fields[0], styles[0], delimiter);
      assert [fields[0]] == fields;
    } else {
      var others := PrintFields(fields[1..], styles[1..], delimiter);
      assert PrintFields(fields, styles, delimiter) == PrintField(fields[0], styles[0]) + [delimiter] + others;
      ScanFieldThenDelimiter(s, fields[0], styles[0], others, delimiter);
      e := ScanLast(s.(row := s.row + [fields[0]]), fields[1..], styles[1..], delimiter);
      assert s.row + [fields[0]] + fields[1..] == s.row + fields;
    }
  }

  lemma ScanLastField(s: State, field: string, style: FieldStyle, delimiter: char)
    requires !s.inQuotes && s.field == "" && WritableField(field, style, delimiter) && Separator(delimiter)
    ensures Scan(s, PrintField(field, style), delimiter) == s.(field := field)
  {
    if style.Bare? {
      ScanPlain(s, field, "", delimiter);
      assert field + "" == field && s.field + field == field;
    } else {
      var text := PrintField(field, style);
      var inside := s.(inQuotes := true);
      assert text[0] == '"' && text[1..] == Doubled(field) + "\"";
      ScanDoubled(inside, field, "\"", delimiter);
      assert inside.field + field == field;
    }
  }
}
