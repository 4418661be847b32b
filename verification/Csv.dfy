/**
 * The reader of the fleet file (tools/provisioning/src/lib/csv.ts): delimiter
 * detection, splitting with quotes, and the checks on the rows.
 */
module Csv {
  import opened Wrappers

  type Table = seq<seq<string>>

  const DELIMITERS: seq<char> := [';', ',', '\t']

  // ------------------------------------------------------------------------
  //  Splitting
  // ------------------------------------------------------------------------

  /** The variables of the character loop. */
  datatype State = State(rows: Table, row: seq<string>, field: string, inQuotes: bool)

  const START := State([], [], "", false)

  /** One iteration on `c`; `next` tells whether a quote follows. */
  function Step(s: State, c: char, delimiter: char): State {
    if s.inQuotes then
      if c == '"' then s.(inQuotes := false) else s.(field := s.field + [c])
    else if c == '"' then s.(inQuotes := true)
    else if c == delimiter then s.(row := s.row + [s.field], field := "")
    else if c == '\n' then State(s.rows + [s.row + [s.field]], [], "", false)
    else if c == '\r' then s
    else s.(field := s.field + [c])
  }

  /** A doubled quote inside quotes, which the loop consumes at once. */
  predicate Escaped(text: string, inQuotes: bool) {
    inQuotes && |text| >= 2 && text[0] == '"' && text[1] == '"'
  }

  function Scan(s: State, text: string, delimiter: char): State
    decreases |text|
  {
    if text == "" then s
    else if Escaped(text, s.inQuotes) then Scan(s.(field := s.field + "\""), text[2..], delimiter)
    else Scan(Step(s, text[0], delimiter), text[1..], delimiter)
  }

  /** The last line may lack its line end. */
  function Close(s: State): Table {
    if s.field != "" || s.row != [] then s.rows + [s.row + [s.field]] else s.rows
  }

  function Parsed(text: string, delimiter: char): Table {
    Close(Scan(START, text, delimiter))
  }

  /** `parseDelimited`. */
  method ParseDelimited(text: string, delimiter: char) returns (rows: Table)
    ensures rows == Parsed(text, delimiter)
  {
    rows := [];
    var row: seq<string> := [];
    var field := "";
    var inQuotes := false;
    var index := 0;
    while index < |text|
      invariant 0 <= index <= |text|
      invariant Scan(START, text, delimiter) == Scan(State(rows, row, field, inQuotes), text[index..], delimiter)
    {
      var c := text[index];
      if inQuotes {
        if c == '"' {
          if index + 1 < |text| && text[index + 1] == '"' {
            field := field + "\"";
            index := index + 1;
          } else {
            inQuotes := false;
          }
        } else {
          field := field + [c];
        }
      } else if c == '"' {
        inQuotes := true;
      } else if c == delimiter {
        row := row + [field];
        field := "";
      } else if c == '\n' {
        row := row + [field];
        rows := rows + [row];
        row := [];
        field := "";
      } else if c != '\r' {
        field := field + [c];
      }
      index := index + 1;
    }
    if |field| > 0 || |row| > 0 {
      row := row + [field];
      rows := rows + [row];
    }
  }

  // ------------------------------------------------------------------------
  //  Delimiter detection
  // ------------------------------------------------------------------------

  /** Whether position `i` is outside quotes: an even number of quotes before it. */
  function Quotes(line: string): nat {
    if line == "" then 0
    else Quotes(line[..|line| - 1]) + (if line[|line| - 1] == '"' then 1 else 0)
  }

  /** Occurrences of a delimiter outside quotes. */
  function Occurrences(line: string, delimiter: char): nat {
    if line == "" then 0
    else
      var last := |line| - 1;
      Occurrences(line[..last], delimiter)
      + (if line[last] == delimiter && Quotes(line[..last]) % 2 == 0 then 1 else 0)
  }

  lemma NoneYet(delimiter: char)
    ensures Occurrences("", delimiter) == Quotes("") == 0
  {
  }

  lemma OneMoreChar(line: string, index: nat, delimiter: char)
    requires index < |line|
    ensures Quotes(line[..index + 1]) == Quotes(line[..index]) + (if line[index] == '"' then 1 else 0)
    ensures Occurrences(line[..index + 1], delimiter) == Occurrences(line[..index], delimiter)
      + (if line[index] == delimiter && Quotes(line[..index]) % 2 == 0 then 1 else 0)
  {
    assert line[..index + 1][..index] == line[..index];
  }

  /** The most frequent delimiter, the semicolon first on a tie, then the comma. */
  function DelimiterOf(line: string): char {
    var semicolons, commas, tabs := Occurrences(line, ';'), Occurrences(line, ','), Occurrences(line, '\t');
    if semicolons >= commas && semicolons >= tabs then ';' else if commas >= tabs then ',' else '\t'
  }

  /** `detectDelimiter`: the most frequent one outside quotes, the earliest listed on a tie. */
  method DetectDelimiter(line: string) returns (best: char)
    ensures best in DELIMITERS
    ensures forall d :: d in DELIMITERS ==> Occurrences(line, d) <= Occurrences(line, best)
    ensures forall i, j :: 0 <= i < j < |DELIMITERS| && DELIMITERS[j] == best ==>
      Occurrences(line, DELIMITERS[i]) < Occurrences(line, best)
    ensures best == DelimiterOf(line)
  {
    hide Occurrences, Quotes;
    best := ';';
    var bestCount := -1;
    var k := 0;
    while k < |DELIMITERS|
      invariant 0 <= k <= |DELIMITERS|
      invariant k == 0 ==> bestCount == -1
      invariant k > 0 ==> best in DELIMITERS[..k] && bestCount == Occurrences(line, best)
      invariant forall i :: 0 <= i < k ==> Occurrences(line, DELIMITERS[i]) <= bestCount
      invariant forall i, j :: 0 <= i < j < k && DELIMITERS[j] == best ==> Occurrences(line, DELIMITERS[i]) < bestCount
    {
      var candidate := DELIMITERS[k];
      var count := 0;
      var inQuotes := false;
      var index := 0;
      NoneYet(candidate);
      while index < |line|
        invariant 0 <= index <= |line|
        invariant count == Occurrences(line[..index], candidate)
        invariant inQuotes <==> Quotes(line[..index]) % 2 == 1
      {
        var c := line[index];
        OneMoreChar(line, index, candidate);
        if c == '"' {
          inQuotes := !inQuotes;
        } else if c == candidate && !inQuotes {
          count := count + 1;
        }
        index := index + 1;
      }
      assert line[..|line|] == line;
      if count > bestCount {
        bestCount := count;
        best := candidate;
      }
      k := k + 1;
    }
    assert DELIMITERS[0] == ';' && DELIMITERS[1] == ',' && DELIMITERS[2] == '\t';
  }

  // ------------------------------------------------------------------------
  //  The rows of the fleet
  // ------------------------------------------------------------------------

  /** Which column, if any, feeds each field; several may feed the same one. */
  datatype Column = AssetTag | SerialNumber | DepotName | KioskMode | Ignored

  datatype FleetRow = FleetRow(
    assetTag: string, serialNumber: Option<string>, depot: Option<string>, kioskMode: Option<string>, line: nat)

  datatype FleetError =
    | NoColumn
    | NoRow
    | MissingTag(line: nat)
    | RefusedTag(line: nat, tag: string)
    | DuplicateTag(line: nat, previous: nat, tag: string)
    | UnknownMode(line: nat, mode: string)

  /** `trim`, `toUpperCase` and the tag pattern of the library, which the reader only calls. */
  datatype Text = Text(trim: string -> string, upper: string -> string, validTag: string -> bool)

  const KIOSK_MODES: seq<string> := ["KIOSK", "RESTRICTED", "STANDARD"]

  /** The value of a field: the last non-blank cell among the columns that feed it. */
  function Cell(t: Text, mapping: seq<Column>, cells: seq<string>, field: Column): Option<string> {
    if mapping == [] then None
    else
      var last := |mapping| - 1;
      var value := if last < |cells| then t.trim(cells[last]) else t.trim("");
      if mapping[last] == field && value != "" then Some(value)
      else Cell(t, mapping[..last], cells, field)
  }

  function Tag(t: Text, mapping: seq<Column>, cells: seq<string>): string {
    var cell := Cell(t, mapping, cells, AssetTag);
    t.upper(if cell.Some? then cell.value else "")
  }

  /** The row a line of cells becomes, mode in capitals. */
  function ToRow(t: Text, mapping: seq<Column>, cells: seq<string>, line: nat): FleetRow {
    var mode := Cell(t, mapping, cells, KioskMode);
    FleetRow(Tag(t, mapping, cells), Cell(t, mapping, cells, SerialNumber), Cell(t, mapping, cells, DepotName),
             if mode.Some? then Some(t.upper(mode.value)) else None, line)
  }

  /** Nothing wrong with a row by itself. */
  predicate Acceptable(t: Text, mapping: seq<Column>, cells: seq<string>) {
    var mode := Cell(t, mapping, cells, KioskMode);
    && Tag(t, mapping, cells) != "" && t.validTag(Tag(t, mapping, cells))
    && (mode.Some? ==> t.upper(mode.value) in KIOSK_MODES)
  }

  /** The tag of line `index` of the table appears on no line between the header and it. */
  ghost predicate NewTag(t: Text, mapping: seq<Column>, table: Table, index: nat)
    requires index < |table|
  {
    forall i :: 1 <= i < index ==> Tag(t, mapping, table[i]) != Tag(t, mapping, table[index])
  }

  ghost predicate GoodLine(t: Text, mapping: seq<Column>, table: Table, index: nat)
    requires index < |table|
  {
    Acceptable(t, mapping, table[index]) && NewTag(t, mapping, table, index)
  }

  /** The table line an error is about. */
  function ErrorLine(e: FleetError): nat {
    match e
    case MissingTag(line) => line
    case RefusedTag(line, _) => line
    case DuplicateTag(line, _, _) => line
    case UnknownMode(line, _) => line
    case NoColumn | NoRow => 1
  }

  /** The `seen` map: every tag of the lines before `index`, with the number of a line that bears it. */
  ghost predicate Seen(t: Text, mapping: seq<Column>, table: Table, index: nat, seen: map<string, nat>) {
    && 1 <= index <= |table|
    && (forall i :: 1 <= i < index ==> Tag(t, mapping, table[i]) in seen)
    && forall tag :: tag in seen ==> 1 < seen[tag] <= index && Tag(t, mapping, table[seen[tag] - 1]) == tag
  }

  /** An error names its line, and says what is wrong with it; a duplicate also names an earlier line with the same tag. */
  ghost predicate Accurate(t: Text, mapping: seq<Column>, table: Table, index: nat, e: FleetError)
    requires index < |table|
  {
    var tag, mode := Tag(t, mapping, table[index]), Cell(t, mapping, table[index], KioskMode);
    && !e.NoColumn? && !e.NoRow? && ErrorLine(e) == index + 1
    && (e.MissingTag? <==> tag == "")
    && (e.RefusedTag? <==> tag != "" && !t.validTag(tag))
    && (e.RefusedTag? ==> e.tag == tag)
    && (e.DuplicateTag? ==> e.tag == tag && 1 < e.previous <= index && Tag(t, mapping, table[e.previous - 1]) == tag)
    && (e.UnknownMode? ==> NewTag(t, mapping, table, index) && mode == Some(e.mode) && t.upper(e.mode) !in KIOSK_MODES)
  }

  /** The checks on one line, in order. */
  method CheckLine(t: Text, mapping: seq<Column>, table: Table, index: nat, seen: map<string, nat>)
    returns (e: Option<FleetError>)
    requires index < |table| && Seen(t, mapping, table, index, seen)
    ensures e.None? <==> GoodLine(t, mapping, table, index)
    ensures e.Some? ==> Accurate(t, mapping, table, index, e.value)
  {
    hide Cell, Tag;
    var line := index + 1;
    var cells := table[index];
    var assetTag := Tag(t, mapping, cells);
    if assetTag == "" {
      return Some(MissingTag(line));
    }
    if !t.validTag(assetTag) {
      return Some(RefusedTag(line, assetTag));
    }
    if assetTag in seen {
      assert !NewTag(t, mapping, table, index);
      return Some(DuplicateTag(line, seen[assetTag], assetTag));
    }
    var mode := Cell(t, mapping, cells, KioskMode);
    if mode.Some? && t.upper(mode.value) !in KIOSK_MODES {
      return Some(UnknownMode(line, mode.value));
    }
    e := None;
  }

  /**
   * The rows of `parseFleetCsv`, once the header is mapped. Line numbers count
   * the header. It succeeds exactly when every line is acceptable and new; its
   * tags are then pairwise distinct. Otherwise it names the first line that is not.
   */
  method ParseFleetRows(t: Text, mapping: seq<Column>, table: Table) returns (r: Result<seq<FleetRow>, FleetError>)
    requires |table| >= 1
    ensures r.Ok? <==> AssetTag in mapping && |table| > 1
                       && forall i :: 1 <= i < |table| ==> GoodLine(t, mapping, table, i)
    ensures r.Ok? ==> |r.value| == |table| - 1
    ensures r.Ok? ==> forall i :: 0 <= i < |r.value| ==> r.value[i] == ToRow(t, mapping, table[i + 1], i + 2)
    ensures r.Ok? ==> forall i, j :: 0 <= i < j < |r.value| ==> r.value[i].assetTag != r.value[j].assetTag
    ensures r.Err? ==> (r.error.NoColumn? <==> AssetTag !in mapping) && (r.error.NoRow? ==> |table| == 1)
    ensures r.Err? && !r.error.NoColumn? && !r.error.NoRow? ==>
      var bad := ErrorLine(r.error) - 1;
      && 1 <= bad < |table| && !GoodLine(t, mapping, table, bad) && Accurate(t, mapping, table, bad, r.error)
      && forall i :: 1 <= i < bad ==> GoodLine(t, mapping, table, i)
  {
    hide Cell, Tag, Acceptable;
    if AssetTag !in mapping {
      return Err(NoColumn);
    }
    var rows: seq<FleetRow> := [];
    var seen: map<string, nat> := map[];
    var index := 1;
    while index < |table|
      invariant 1 <= index <= |table| && |rows| == index - 1
      invariant forall i :: 0 <= i < |rows| ==> rows[i] == ToRow(t, mapping, table[i + 1], i + 2)
      invariant forall i :: 1 <= i < index ==> GoodLine(t, mapping, table, i)
      invariant Seen(t, mapping, table, index, seen)
    {
      var e := CheckLine(t, mapping, table, index, seen);
      if e.Some? {
        return Err(e.value);
      }
      seen := seen[Tag(t, mapping, table[index]) := index + 1];
      rows := rows + [ToRow(t, mapping, table[index], index + 1)];
      index := index + 1;
    }
    if |rows| == 0 {
      return Err(NoRow);
    }
    forall i, j | 0 <= i < j < |rows| ensures rows[i].assetTag != rows[j].assetTag {
      assert GoodLine(t, mapping, table, j + 1);
    }
    r := Ok(rows);
  }
}
