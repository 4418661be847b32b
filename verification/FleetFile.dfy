/**
 * The whole reader of the fleet file (`parseFleetCsv` of
 * tools/provisioning/src/lib/csv.ts): trimming, splitting, blank lines, header, rows.
 */
module FleetFile {
  import opened Wrappers
  import opened Csv

  /** The library calls of the reader: those on cells, and the normalisation of a header. */
  datatype Library = Library(text: Text, normalize: string -> string)

  const HEADER_ALIASES: map<string, Column> := map[
    "asset_tag" := AssetTag, "assettag" := AssetTag, "etiquette" := AssetTag,
    "identifiant" := AssetTag, "telephone" := AssetTag,
    "serial" := SerialNumber, "serialnumber" := SerialNumber, "serial_number" := SerialNumber,
    "numero_de_serie" := SerialNumber, "n_de_serie" := SerialNumber, "serie" := SerialNumber,
    "depot" := DepotName, "site" := DepotName, "agence" := DepotName,
    "kiosk_mode" := KioskMode, "kioskmode" := KioskMode, "mode" := KioskMode, "mode_kiosque" := KioskMode
  ]

  /** Names every JavaScript object answers to: such a header feeds no field, and is not reported either. */
  const INHERITED: set<string> := {"constructor", "__proto__"}

  datatype ParsedFleet = ParsedFleet(rows: seq<FleetRow>, ignored: seq<string>, delimiter: char)

  /** How the reader ends otherwise; all but `TypeError` are a `ProvisioningError`. */
  datatype Failure = EmptyFile | TypeError | Rejected(error: FleetError)

  // ------------------------------------------------------------------------
  //  Before the rows
  // ------------------------------------------------------------------------

  function WithoutBom(text: string): string {
    if text != "" && text[0] as int == 0xFEFF then text[1..] else text
  }

  function Trimmed(lib: Library, text: string): string {
    lib.text.trim(WithoutBom(text))
  }

  /** `split('\n')[0]`. */
  function FirstLine(text: string): string {
    if text == "" || text[0] == '\n' then "" else [text[0]] + FirstLine(text[1..])
  }

  predicate Blank(t: Text, cell: string) {
    t.trim(cell) == ""
  }

  predicate BlankRow(t: Text, row: seq<string>) {
    forall i :: 0 <= i < |row| ==> Blank(t, row[i])
  }

  function NotBlank(t: Text, table: Table): (r: Table)
    ensures forall row :: row in r <==> row in table && !BlankRow(t, row)
  {
    if table == [] then []
    else
      var last := table[|table| - 1];
      var before := NotBlank(t, table[..|table| - 1]);
      assert forall row :: row in table <==> row in table[..|table| - 1] || row == last;
      if BlankRow(t, last) then before else before + [last]
  }

  /** The cells of the text, blank lines included. */
  function Cells(lib: Library, text: string): Table {
    var trimmed := Trimmed(lib, text);
    Parsed(trimmed, DelimiterOf(FirstLine(trimmed)))
  }

  function TableOf(lib: Library, text: string): Table {
    NotBlank(lib.text, Cells(lib, text))
  }

  function ColumnOf(lib: Library, cell: string): Column {
    var header := lib.normalize(cell);
    if header in HEADER_ALIASES then HEADER_ALIASES[header] else Ignored
  }

  function Mapping(lib: Library, header: seq<string>): (r: seq<Column>)
    ensures |r| == |header| && forall i :: 0 <= i < |r| ==> r[i] == ColumnOf(lib, header[i])
  {
    seq(|header|, i requires 0 <= i < |header| => ColumnOf(lib, header[i]))
  }

  predicate Reported(lib: Library, cell: string) {
    var header := lib.normalize(cell);
    header !in HEADER_ALIASES && header !in INHERITED && header != ""
  }

  /** The unknown columns, in order, under their normalised names. */
  function IgnoredColumns(lib: Library, header: seq<string>): (r: seq<string>)
    ensures forall name :: name in r <==> exists cell :: cell in header && Reported(lib, cell) && lib.normalize(cell) == name
  {
    if header == [] then []
    else
      var last := header[|header| - 1];
      var before := IgnoredColumns(lib, header[..|header| - 1]);
      assert forall cell :: cell in header <==> cell in header[..|header| - 1] || cell == last;
      if Reported(lib, last) then before + [lib.normalize(last)] else before
  }

  // ------------------------------------------------------------------------
  //  The reader
  // ------------------------------------------------------------------------

  method ReadFirstLine(text: string) returns (line: string)
    ensures line == FirstLine(text)
  {
    line := "";
    var i := 0;
    while i < |text| && text[i] != '\n'
      invariant 0 <= i <= |text| && FirstLine(text) == line + FirstLine(text[i..])
    {
      line := line + [text[i]];
      i := i + 1;
    }
  }

  /** The file has text, but none of its cells has. */
  ghost predicate OnlyBlankCells(lib: Library, text: string) {
    && Trimmed(lib, text) != ""
    && forall row, cell :: row in Cells(lib, text) && cell in row ==> Blank(lib.text, cell)
  }

  lemma NoTableExactly(lib: Library, text: string)
    ensures Trimmed(lib, text) != "" ==> (TableOf(lib, text) == [] <==> OnlyBlankCells(lib, text))
  {
    hide Parsed, DelimiterOf;
    var cells := Cells(lib, text);
    if TableOf(lib, text) == [] {
      forall row, cell | row in cells && cell in row ensures Blank(lib.text, cell) {
        assert row !in TableOf(lib, text);
      }
    } else {
      var row := TableOf(lib, text)[0];
      assert row in cells && !BlankRow(lib.text, row);
    }
  }

  /** Every line after the header is acceptable, and its tag is new. */
  ghost predicate GoodFleet(lib: Library, mapping: seq<Column>, table: Table) {
    AssetTag in mapping && |table| > 1 && forall i :: 1 <= i < |table| ==> GoodLine(lib.text, mapping, table, i)
  }

  /**
   * `parseFleetCsv`, on any text. A blank text is refused; a text whose cells are
   * all blank, and no other, ends in a TypeError; otherwise the fleet is read
   * exactly when its lines are all good, and the first bad one is named.
   */
  method ParseFleetCsv(lib: Library, text: string) returns (r: Result<ParsedFleet, Failure>)
    ensures r == Err(EmptyFile) <==> Trimmed(lib, text) == ""
    ensures r == Err(TypeError) <==> OnlyBlankCells(lib, text)
    ensures r.Ok? ==> Trimmed(lib, text) != "" && TableOf(lib, text) != []
    ensures Trimmed(lib, text) != "" && TableOf(lib, text) != [] ==>
      var table := TableOf(lib, text);
      var mapping := Mapping(lib, table[0]);
      && (r.Ok? <==> GoodFleet(lib, mapping, table))
      && (r.Ok? ==>
            && r.value.delimiter == DelimiterOf(FirstLine(Trimmed(lib, text)))
            && r.value.ignored == IgnoredColumns(lib, table[0])
            && |r.value.rows| == |table| - 1
            && (forall i :: 0 <= i < |r.value.rows| ==> r.value.rows[i] == ToRow(lib.text, mapping, table[i + 1], i + 2))
            && (forall i, j :: 0 <= i < j < |r.value.rows| ==> r.value.rows[i].assetTag != r.value.rows[j].assetTag))
      && (r.Err? ==> r.error.Rejected? && FirstBad(lib, mapping, table, r.error.error))
  {
    hide Parsed, DelimiterOf, Cell, Tag, Acceptable, ToRow, OnlyBlankCells;
    var trimmed := lib.text.trim(WithoutBom(text));
    if |trimmed| == 0 {
      assert !OnlyBlankCells(lib, text) by {
        BlankText(lib, text);
      }
      return Err(EmptyFile);
    }
    var line := ReadFirstLine(trimmed);
    var delimiter := DetectDelimiter(line);
    var cells := ParseDelimited(trimmed, delimiter);
    var table := NotBlank(lib.text, cells);
    NoTableExactly(lib, text);
    if |table| == 0 {
      return Err(TypeError);
    }
    var mapping := Mapping(lib, table[0]);
    var rows := ParseFleetRows(lib.text, mapping, table);
    if rows.Err? {
      return Err(Rejected(rows.error));
    }
    r := Ok(ParsedFleet(rows.value, IgnoredColumns(lib, table[0]), delimiter));
  }

  /** The error is about the header, the absence of rows, or the first line that is not good. */
  ghost predicate FirstBad(lib: Library, mapping: seq<Column>, table: Table, e: FleetError)
    requires table != []
  {
    match e
    case NoColumn => AssetTag !in mapping
    case NoRow => AssetTag in mapping && |table| == 1
    case _ =>
      var bad := ErrorLine(e) - 1;
      && AssetTag in mapping && 1 <= bad < |table|
      && !GoodLine(lib.text, mapping, table, bad) && Accurate(lib.text, mapping, table, bad, e)
      && forall i :: 1 <= i < bad ==> GoodLine(lib.text, mapping, table, i)
  }

  lemma BlankText(lib: Library, text: string)
    ensures Trimmed(lib, text) == "" ==> !OnlyBlankCells(lib, text)
  {
  }

  /** A file of one semicolon: not blank, two blank cells. */
  lemma OneSemicolonIsATypeError(lib: Library)
    requires lib.text.trim(";") == ";" && lib.text.trim("") == ""
    ensures OnlyBlankCells(lib, ";")
  {
    assert ";"[1..] == "";
    assert FirstLine(";") == ";";
    NoneYet(';');
    NoneYet(',');
    NoneYet('\t');
    assert ";"[..0] == "";
    OneMoreChar(";", 0, ';');
    OneMoreChar(";", 0, ',');
    OneMoreChar(";", 0, '\t');
    assert ";"[..1] == ";";
    assert DelimiterOf(";") == ';';
    var s := State([], [""], "", false);
    assert Step(START, ';', ';') == s;
    assert Scan(s, ";"[1..], ';') == s;
    assert !Escaped(";", false) && ";"[0] == ';';
    assert Scan(START, ";", ';') == s;
    assert [""] + [""] == ["", ""];
    assert Parsed(";", ';') == [["", ""]];
  }
}
