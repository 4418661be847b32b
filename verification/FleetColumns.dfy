/** What a line of the fleet file becomes, by the names of its columns (tools/provisioning/src/lib/csv.ts). */
module FleetColumns {
  import opened Wrappers
  import opened Csv
  import opened FleetFile

  // ------------------------------------------------------------------------
  //  Before the header
  // ------------------------------------------------------------------------

  /** A byte order mark in front is dropped, and nothing else, before the text is trimmed. */
  lemma MarkIsDropped(lib: Library, text: string, mark: char)
    requires mark as int == 0xFEFF
    ensures Trimmed(lib, [mark] + text) == lib.text.trim(text)
    ensures text == "" || text[0] != mark ==> Trimmed(lib, text) == lib.text.trim(text)
  {
    assert ([mark] + text)[1..] == text;
  }

  function QuotesBefore(line: string, i: nat): set<nat> {
    set j: nat | j < i && j < |line| && line[j] == '"'
  }

  /** Where a character stands in a line after an even number of quotes. */
  function Outside(line: string, c: char): set<nat> {
    set i: nat | i < |line| && line[i] == c && |QuotesBefore(line, i)| % 2 == 0
  }

  lemma {:induction false} QuotesCounted(line: string, i: nat)
    requires i <= |line|
    ensures Quotes(line[..i]) == |QuotesBefore(line, i)|
  {
    if i == 0 {
      assert QuotesBefore(line, 0) == {};
    } else {
      QuotesCounted(line, i - 1);
      OneMoreChar(line, i - 1, ';');
      assert QuotesBefore(line, i) ==
        if line[i - 1] == '"' then QuotesBefore(line, i - 1) + {i - 1} else QuotesBefore(line, i - 1);
    }
  }

  function OutsideBefore(line: string, c: char, n: nat): set<nat> {
    set i | i in Outside(line, c) && i < n
  }

  lemma OneMoreOutside(line: string, c: char, n: nat)
    requires n < |line|
    ensures |OutsideBefore(line, c, n + 1)| ==
      |OutsideBefore(line, c, n)| + (if line[n] == c && |QuotesBefore(line, n)| % 2 == 0 then 1 else 0)
  {
    hide QuotesBefore;
    var before, after := OutsideBefore(line, c, n), OutsideBefore(line, c, n + 1);
    if n in Outside(line, c) {
      assert after == before + {n};
    } else {
      assert after == before;
    }
  }

  lemma NoneOutsideYet(line: string, c: char)
    ensures OutsideBefore(line, c, 0) == {}
  {
  }

  lemma {:induction false} OccurrencesCounted(line: string, c: char, n: nat)
    requires n <= |line|
    ensures Occurrences(line[..n], c) == |OutsideBefore(line, c, n)|
  {
    hide Occurrences, Quotes, QuotesBefore, Outside, OutsideBefore;
    if n == 0 {
      NoneYet(c);
      NoneOutsideYet(line, c);
    } else {
      OccurrencesCounted(line, c, n - 1);
      OneMoreChar(line, n - 1, c);
      QuotesCounted(line, n - 1);
      OneMoreOutside(line, c, n - 1);
    }
  }

  lemma OutsideCounted(line: string, c: char)
    ensures Occurrences(line, c) == |Outside(line, c)|
  {
    OccurrencesCounted(line, c, |line|);
    assert line[..|line|] == line && OutsideBefore(line, c, |line|) == Outside(line, c);
  }

  /** A semicolon unless commas or tabs outside quotes outnumber them, then a comma unless tabs outnumber those. */
  lemma DelimiterExactly(line: string)
    ensures var (semicolons, commas, tabs) := (|Outside(line, ';')|, |Outside(line, ',')|, |Outside(line, '\t')|);
      && (DelimiterOf(line) == ';' <==> semicolons >= commas && semicolons >= tabs)
      && (DelimiterOf(line) == ',' <==> commas >= tabs && (commas > semicolons || tabs > semicolons))
      && DelimiterOf(line) in {';', ',', '\t'}
  {
    OutsideCounted(line, ';');
    OutsideCounted(line, ',');
    OutsideCounted(line, '\t');
    hide Occurrences, Outside;
  }

  // ------------------------------------------------------------------------
  //  Columns
  // ------------------------------------------------------------------------

  /** The normalised headers that announce a field. */
  function Names(field: Column): set<string> {
    match field
    case AssetTag => {"asset_tag", "assettag", "etiquette", "identifiant", "telephone"}
    case SerialNumber => {"serial", "serialnumber", "serial_number", "numero_de_serie", "n_de_serie", "serie"}
    case DepotName => {"depot", "site", "agence"}
    case KioskMode => {"kiosk_mode", "kioskmode", "mode", "mode_kiosque"}
    case Ignored => {}
  }

  lemma HeadersAreNames(lib: Library, cell: string, field: Column)
    requires field != Ignored
    ensures ColumnOf(lib, cell) == field <==> lib.normalize(cell) in Names(field)
  {
  }

  /** A column under one of the names, whose cell on the line is not blank. */
  predicate Filled(lib: Library, header: seq<string>, cells: seq<string>, field: Column, k: nat) {
    && k < |header| && k < |cells| && lib.normalize(header[k]) in Names(field) && lib.text.trim(cells[k]) != ""
  }

  /** The trimmed cell of the last filled column of the field, if any. */
  ghost predicate Reads(lib: Library, header: seq<string>, cells: seq<string>, field: Column, value: Option<string>) {
    match value
    case None => forall k: nat :: !Filled(lib, header, cells, field, k)
    case Some(v) =>
      exists k: nat :: Filled(lib, header, cells, field, k) && v == lib.text.trim(cells[k])
        && forall later: nat :: later > k ==> !Filled(lib, header, cells, field, later)
  }

  lemma {:induction false} CellReads(lib: Library, header: seq<string>, cells: seq<string>, field: Column)
    requires field != Ignored && lib.text.trim("") == ""
    ensures Reads(lib, header, cells, field, Cell(lib.text, Mapping(lib, header), cells, field))
  {
    if header == [] {
      assert Cell(lib.text, Mapping(lib, header), cells, field) == None;
    } else {
      hide ColumnOf, Names, Reads;
      var last := |header| - 1;
      var shorter := header[..last];
      assert Mapping(lib, header)[..last] == Mapping(lib, shorter);
      CellReads(lib, shorter, cells, field);
      HeadersAreNames(lib, header[last], field);
      forall k: nat | k < last
        ensures Filled(lib, shorter, cells, field, k) <==> Filled(lib, header, cells, field, k)
      {
      }
      if Filled(lib, header, cells, field, last) {
        assert Cell(lib.text, Mapping(lib, header), cells, field) == Some(lib.text.trim(cells[last]));
      } else {
        SameReads(lib, header, cells, field, Cell(lib.text, Mapping(lib, shorter), cells, field));
      }
    }
  }

  lemma SameReads(lib: Library, header: seq<string>, cells: seq<string>, field: Column, value: Option<string>)
    requires header != [] && Reads(lib, header[..|header| - 1], cells, field, value)
    requires !Filled(lib, header, cells, field, |header| - 1)
    ensures Reads(lib, header, cells, field, value)
  {
    hide Names;
    var last := |header| - 1;
    forall k: nat | k < last
      ensures Filled(lib, header[..last], cells, field, k) <==> Filled(lib, header, cells, field, k)
    {
    }
  }

  /**
   * A line becomes the phone its columns describe: of each field the last cell that is
   * not blank under one of its names, the tag and the mode in capitals.
   */
  lemma RowOfALine(lib: Library, header: seq<string>, cells: seq<string>, line: nat)
    returns (tag: Option<string>, mode: Option<string>)
    requires lib.text.trim("") == ""
    ensures var row := ToRow(lib.text, Mapping(lib, header), cells, line);
      && Reads(lib, header, cells, AssetTag, tag) && Reads(lib, header, cells, KioskMode, mode)
      && row.assetTag == lib.text.upper(if tag.Some? then tag.value else "")
      && Reads(lib, header, cells, SerialNumber, row.serialNumber)
      && Reads(lib, header, cells, DepotName, row.depot)
      && row.kioskMode == (if mode.Some? then Some(lib.text.upper(mode.value)) else None)
      && row.line == line
  {
    hide Cell, Reads, Mapping;
    tag := Cell(lib.text, Mapping(lib, header), cells, AssetTag);
    mode := Cell(lib.text, Mapping(lib, header), cells, KioskMode);
    CellReads(lib, header, cells, AssetTag);
    CellReads(lib, header, cells, KioskMode);
    CellReads(lib, header, cells, SerialNumber);
    CellReads(lib, header, cells, DepotName);
  }

  /** A line is acceptable when it has a tag of the right form, and no mode or one of the three. */
  lemma AcceptableExactly(
    lib: Library, header: seq<string>, cells: seq<string>, tag: Option<string>, mode: Option<string>)
    requires lib.text.trim("") == ""
    requires Reads(lib, header, cells, AssetTag, tag) && Reads(lib, header, cells, KioskMode, mode)
    ensures Acceptable(lib.text, Mapping(lib, header), cells) <==>
      && lib.text.upper(if tag.Some? then tag.value else "") != ""
      && lib.text.validTag(lib.text.upper(if tag.Some? then tag.value else ""))
      && (mode.None? || lib.text.upper(mode.value) in {"KIOSK", "RESTRICTED", "STANDARD"})
  {
    var mapping := Mapping(lib, header);
    CellReads(lib, header, cells, AssetTag);
    CellReads(lib, header, cells, KioskMode);
    OneReading(lib, header, cells, AssetTag, tag, Cell(lib.text, mapping, cells, AssetTag));
    OneReading(lib, header, cells, KioskMode, mode, Cell(lib.text, mapping, cells, KioskMode));
    hide Cell, Reads, Mapping;
    assert forall m :: m in KIOSK_MODES <==> m in {"KIOSK", "RESTRICTED", "STANDARD"};
  }

  lemma OneReading(
    lib: Library, header: seq<string>, cells: seq<string>, field: Column, a: Option<string>, b: Option<string>)
    requires Reads(lib, header, cells, field, a) && Reads(lib, header, cells, field, b)
    ensures a == b
  {
    hide Filled;
  }

  /** The columns reported are those whose name is not empty, announces no field, and is not inherited by every object. */
  lemma ReportedExactly(lib: Library, header: seq<string>, name: string)
    ensures name in IgnoredColumns(lib, header) <==>
      && (exists k :: 0 <= k < |header| && lib.normalize(header[k]) == name)
      && name != "" && name != "constructor" && name != "__proto__"
      && forall field :: name !in Names(field)
  {
    if exists k :: 0 <= k < |header| && lib.normalize(header[k]) == name {
      var k :| 0 <= k < |header| && lib.normalize(header[k]) == name;
      KnownNames(name);
      assert header[k] in header;
      assert forall cell :: cell in header && lib.normalize(cell) == name ==>
        (Reported(lib, cell) <==> Reported(lib, header[k]));
    }
  }

  lemma KnownNames(name: string)
    ensures name in HEADER_ALIASES <==> exists field :: name in Names(field)
  {
    if name in HEADER_ALIASES {
      assert name in Names(HEADER_ALIASES[name]);
    }
  }
}
