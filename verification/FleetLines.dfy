/**
 * The line numbers of the fleet file (tools/provisioning/src/lib/csv.ts): a row is
 * numbered by its place in the table, once blank lines are gone.
 */
module FleetLines {
  import opened Wrappers
  import opened Csv
  import opened FleetFile

  // ------------------------------------------------------------------------
  //  Where rows begin
  // ------------------------------------------------------------------------

  function Breaks(text: string): nat {
    if text == "" then 0 else (if text[0] == '\n' then 1 else 0) + Breaks(text[1..])
  }

  /**
   * The line of the file on which each row begins, when the text left is on line
   * `line` and the current row has begun on line `begun`.
   */
  function LinesFrom(s: State, text: string, delimiter: char, line: nat, begun: nat): seq<nat>
    decreases |text|
  {
    if text == "" then (if s.field != "" || s.row != [] then [begun] else [])
    else if Escaped(text, s.inQuotes) then LinesFrom(s.(field := s.field + "\""), text[2..], delimiter, line, begun)
    else
      var next := Step(s, text[0], delimiter);
      var after := if text[0] == '\n' then line + 1 else line;
      if |next.rows| > |s.rows| then [begun] + LinesFrom(next, text[1..], delimiter, after, after)
      else LinesFrom(next, text[1..], delimiter, after, begun)
  }

  /** Line breaks inside the cells of a row, and of a table. */
  function InnerRow(row: seq<string>): nat {
    if row == [] then 0 else InnerRow(row[..|row| - 1]) + Breaks(row[|row| - 1])
  }

  function Inner(table: Table): nat {
    if table == [] then 0 else Inner(table[..|table| - 1]) + InnerRow(table[|table| - 1])
  }

  lemma {:induction false} BreaksAppend(a: string, b: string)
    ensures Breaks(a + b) == Breaks(a) + Breaks(b)
  {
    if a == "" {
      assert a + b == b;
    } else {
      assert (a + b)[1..] == a[1..] + b;
      BreaksAppend(a[1..], b);
    }
  }

  lemma OneChar(c: char)
    ensures Breaks([c]) == if c == '\n' then 1 else 0
  {
    assert [c][1..] == "";
  }

  lemma InnerAppend(table: Table, row: seq<string>, cell: string)
    ensures InnerRow(row + [cell]) == InnerRow(row) + Breaks(cell)
    ensures Inner(table + [row + [cell]]) == Inner(table) + InnerRow(row) + Breaks(cell)
  {
    assert (row + [cell])[..|row|] == row;
    assert (table + [row + [cell]])[..|table|] == table;
  }

  /** The rows before the current one fill the lines before it, and the current one those up to the current line. */
  predicate Placed(s: State, first: nat, line: nat, begun: nat) {
    && begun == first + |s.rows| + Inner(s.rows)
    && line == begun + InnerRow(s.row) + Breaks(s.field)
  }

  lemma StepPlaces(s: State, c: char, delimiter: char, first: nat, line: nat, begun: nat)
    requires Placed(s, first, line, begun) && delimiter != '\n'
    ensures var next, after := Step(s, c, delimiter), if c == '\n' then line + 1 else line;
      && (|next.rows| > |s.rows| ==> next.rows == s.rows + [s.row + [s.field]] && Placed(next, first, after, after))
      && (|next.rows| <= |s.rows| ==> next.rows == s.rows && Placed(next, first, after, begun))
  {
    InnerAppend(s.rows, s.row, s.field);
    BreaksAppend(s.field, [c]);
    OneChar(c);
  }

  /** The rows that have been read stay. */
  ghost predicate Extends(table: Table, rows: Table) {
    |rows| <= |table| && table[..|rows|] == rows
  }

  lemma ExtendsOn(table: Table, rows: Table, row: seq<string>)
    requires Extends(table, rows + [row])
    ensures Extends(table, rows) && table[|rows|] == row
  {
    assert table[..|rows|] == table[..|rows| + 1][..|rows|];
    assert table[..|rows| + 1][|rows|] == row;
  }

  lemma {:induction false} ScanExtends(s: State, text: string, delimiter: char)
    ensures Extends(Close(Scan(s, text, delimiter)), s.rows)
    decreases |text|
  {
    if text == "" {
    } else if Escaped(text, s.inQuotes) {
      ScanExtends(s.(field := s.field + "\""), text[2..], delimiter);
    } else {
      var next := Step(s, text[0], delimiter);
      ScanExtends(next, text[1..], delimiter);
      if next.rows != s.rows {
        ExtendsOn(Close(Scan(s, text, delimiter)), s.rows, s.row + [s.field]);
      }
    }
  }

  /** The line of each remaining row: the rows before it, and the line breaks inside their cells. */
  ghost predicate Numbered(lines: seq<nat>, table: Table, done: nat, first: nat) {
    && |lines| == |table| - done
    && forall k :: done <= k < |table| ==> lines[k - done] == first + k + Inner(table[..k])
  }

  lemma NumberedOn(begun: nat, lines: seq<nat>, table: Table, done: nat, first: nat)
    requires done < |table| && begun == first + done + Inner(table[..done])
    requires Numbered(lines, table, done + 1, first)
    ensures Numbered([begun] + lines, table, done, first)
  {
  }

  lemma {:induction false} LinesCount(s: State, text: string, delimiter: char, first: nat, line: nat, begun: nat)
    requires Placed(s, first, line, begun) && delimiter != '\n'
    ensures Numbered(LinesFrom(s, text, delimiter, line, begun), Close(Scan(s, text, delimiter)), |s.rows|, first)
    decreases |text|
  {
    var table := Close(Scan(s, text, delimiter));
    ScanExtends(s, text, delimiter);
    if text == "" {
      assert forall k :: |s.rows| <= k < |table| ==> table[..k] == s.rows;
    } else if Escaped(text, s.inQuotes) {
      BreaksAppend(s.field, "\"");
      OneChar('"');
      LinesCount(s.(field := s.field + "\""), text[2..], delimiter, first, line, begun);
    } else {
      var next := Step(s, text[0], delimiter);
      var after := if text[0] == '\n' then line + 1 else line;
      StepPlaces(s, text[0], delimiter, first, line, begun);
      if |next.rows| > |s.rows| {
        LinesCount(next, text[1..], delimiter, first, after, after);
        ScanExtends(next, text[1..], delimiter);
        NumberedOn(begun, LinesFrom(next, text[1..], delimiter, after, after), table, |s.rows|, first);
      } else {
        LinesCount(next, text[1..], delimiter, first, after, begun);
      }
    }
  }

  // ------------------------------------------------------------------------
  //  The line the reader names
  // ------------------------------------------------------------------------

  lemma {:induction false} NotBlankAppend(t: Text, a: Table, b: Table)
    ensures NotBlank(t, a + b) == NotBlank(t, a) + NotBlank(t, b)
    decreases |b|
  {
    if b == [] {
      assert a + b == a;
    } else {
      var last := |b| - 1;
      assert (a + b)[..|a + b| - 1] == a + b[..last];
      NotBlankAppend(t, a, b[..last]);
    }
  }

  /** What `parseFleetCsv` calls the line of row `k` of the text: its place among the rows that are not blank. */
  function NamedLine(lib: Library, text: string, k: nat): nat
    requires k < |Cells(lib, text)|
  {
    |NotBlank(lib.text, Cells(lib, text)[..k])| + 1
  }

  /** It is the place at which the reader finds that row. */
  lemma NamedLineFindsTheRow(lib: Library, text: string, k: nat)
    requires k < |Cells(lib, text)| && !BlankRow(lib.text, Cells(lib, text)[k])
    ensures var table, at := TableOf(lib, text), NamedLine(lib, text, k) - 1;
      at < |table| && table[at] == Cells(lib, text)[k]
  {
    hide Cells;
    var cells := Cells(lib, text);
    assert cells == cells[..k] + [cells[k]] + cells[k + 1..];
    NotBlankAppend(lib.text, cells[..k] + [cells[k]], cells[k + 1..]);
    NotBlankAppend(lib.text, cells[..k], [cells[k]]);
    assert NotBlank(lib.text, [cells[k]]) == [cells[k]];
  }

  /** The lines of the file on which the rows of the text begin, `lead` having been trimmed before them. */
  function FileLines(lib: Library, text: string, lead: string): seq<nat> {
    var trimmed := Trimmed(lib, text);
    LinesFrom(START, trimmed, DelimiterOf(FirstLine(trimmed)), 1 + Breaks(lead), 1 + Breaks(lead))
  }

  lemma {:induction false} FewerNotBlank(t: Text, table: Table)
    ensures |NotBlank(t, table)| <= |table|
    ensures |NotBlank(t, table)| == |table| <==> forall i :: 0 <= i < |table| ==> !BlankRow(t, table[i])
  {
    hide BlankRow;
    if table != [] {
      FewerNotBlank(t, table[..|table| - 1]);
    }
  }

  lemma {:induction false} NoneInnerRow(row: seq<string>)
    ensures InnerRow(row) == 0 <==> forall j :: 0 <= j < |row| ==> Breaks(row[j]) == 0
  {
    hide Breaks;
    if row != [] {
      NoneInnerRow(row[..|row| - 1]);
    }
  }

  lemma {:induction false} NoneInner(table: Table)
    ensures Inner(table) == 0 <==> forall i :: 0 <= i < |table| ==> InnerRow(table[i]) == 0
  {
    hide InnerRow;
    if table != [] {
      NoneInner(table[..|table| - 1]);
    }
  }

  /** No row before row `k` is blank or has a cell over several lines. */
  ghost predicate PlainBefore(lib: Library, text: string, k: nat)
    requires k < |Cells(lib, text)|
  {
    var cells := Cells(lib, text);
    forall i :: 0 <= i < k ==>
      !BlankRow(lib.text, cells[i]) && forall j :: 0 <= j < |cells[i]| ==> Breaks(cells[i][j]) == 0
  }

  /** A row begins after the line breaks trimmed before the header, the rows before it, and the breaks in their cells. */
  lemma FileLineOf(lib: Library, text: string, lead: string, k: nat)
    requires k < |Cells(lib, text)|
    ensures |FileLines(lib, text, lead)| == |Cells(lib, text)|
    ensures FileLines(lib, text, lead)[k] == 1 + Breaks(lead) + k + Inner(Cells(lib, text)[..k])
  {
    var trimmed := Trimmed(lib, text);
    var first, delimiter := 1 + Breaks(lead), DelimiterOf(FirstLine(trimmed));
    NothingBegun();
    NotALineBreak(FirstLine(trimmed));
    assert Placed(START, first, first, first);
    hide LinesFrom, Scan, Close, DelimiterOf, Breaks, Placed;
    LinesCount(START, trimmed, delimiter, first, first, first);
  }

  lemma NoneInnerAtAll(table: Table)
    ensures Inner(table) == 0 <==> forall i, j :: 0 <= i < |table| && 0 <= j < |table[i]| ==> Breaks(table[i][j]) == 0
  {
    hide Inner, InnerRow, Breaks;
    NoneInner(table);
    forall i | 0 <= i < |table|
      ensures InnerRow(table[i]) == 0 <==> forall j :: 0 <= j < |table[i]| ==> Breaks(table[i][j]) == 0
    {
      NoneInnerRow(table[i]);
    }
  }

  /**
   * On any text, the line the reader names is at most that of the file, and it is that
   * line exactly when no line break was trimmed before the header, and no earlier row
   * is blank or has a cell over several lines.
   */
  lemma NamedLineExactly(lib: Library, text: string, lead: string, k: nat)
    requires k < |Cells(lib, text)|
    ensures |FileLines(lib, text, lead)| == |Cells(lib, text)|
    ensures NamedLine(lib, text, k) <= FileLines(lib, text, lead)[k]
    ensures NamedLine(lib, text, k) == FileLines(lib, text, lead)[k] <==> Breaks(lead) == 0 && PlainBefore(lib, text, k)
  {
    hide Cells, FileLines, Breaks, Inner, BlankRow, NotBlank;
    FileLineOf(lib, text, lead, k);
    FewerNotBlank(lib.text, Cells(lib, text)[..k]);
    NoneInnerAtAll(Cells(lib, text)[..k]);
  }

  lemma NothingBegun()
    ensures Inner([]) == 0 && InnerRow([]) == 0 && Breaks("") == 0
  {
  }

  lemma NotALineBreak(line: string)
    ensures DelimiterOf(line) != '\n'
  {
  }

  /** A header, an empty line, a phone: the reader names line 2, the phone is on line 3. */
  lemma EmptyLineShiftsTheNumber(lib: Library)
    requires lib.text.trim("a\n\nb") == "a\n\nb" && lib.text.trim("a") != "" && lib.text.trim("") == ""
    ensures var text := "a\n\nb";
      Cells(lib, text) == [["a"], [""], ["b"]] && NamedLine(lib, text, 2) == 2 && FileLines(lib, text, "")[2] == 3
  {
    ThreeLines(lib);
    hide Cells, FileLines, NotBlank, Inner;
    FileLineOf(lib, "a\n\nb", "", 2);
    NothingBegun();
    TwoRows(lib);
  }

  lemma ThreeLines(lib: Library)
    requires lib.text.trim("a\n\nb") == "a\n\nb"
    ensures Cells(lib, "a\n\nb") == [["a"], [""], ["b"]]
  {
    var text := "a\n\nb";
    var delimiter := DelimiterOf(FirstLine(text));
    NotALineBreak(FirstLine(text));
    OtherDelimiters(FirstLine(text));
    hide DelimiterOf, FirstLine;
    assert text[1..] == "\n\nb" && text[1..][1..] == "\nb" && "\nb"[1..] == "b" && "b"[1..] == "";
    assert !Escaped(text, false);
    var one, two := State([], [], "a", false), State([["a"]], [], "", false);
    var three, four := State([["a"], [""]], [], "", false), State([["a"], [""]], [], "b", false);
    assert [] + ["a"] == ["a"] && [] + [["a"]] == [["a"]] && [] + [""] == [""] && [["a"]] + [[""]] == [["a"], [""]];
    assert [] + ["b"] == ["b"] && [["a"], [""]] + [["b"]] == [["a"], [""], ["b"]];
    assert Step(START, 'a', delimiter) == one && Step(one, '\n', delimiter) == two;
    assert Step(two, '\n', delimiter) == three && Step(three, 'b', delimiter) == four;
    assert Scan(four, "", delimiter) == four;
    assert Scan(three, "b", delimiter) == four;
    assert Scan(two, "\nb", delimiter) == four;
    assert Scan(one, "\n\nb", delimiter) == four;
  }

  lemma OtherDelimiters(line: string)
    ensures DelimiterOf(line) != 'a' && DelimiterOf(line) != 'b'
  {
  }

  lemma TwoRows(lib: Library)
    requires lib.text.trim("a") != "" && lib.text.trim("") == ""
    ensures var cells: Table := [["a"], [""], ["b"]]; |NotBlank(lib.text, cells[..2])| == 1 && Inner(cells[..2]) == 0
  {
    var cells: Table := [["a"], [""], ["b"]];
    assert cells[..2] == [["a"], [""]] && [["a"], [""]][..1] == [["a"]] && [["a"]][..0] == [];
    assert BlankRow(lib.text, [""]) && !BlankRow(lib.text, ["a"]) by {
      assert [""][0] == "" && ["a"][0] == "a";
      assert !Blank(lib.text, ["a"][0]);
    }
    assert NotBlank(lib.text, [["a"]]) == [["a"]];
    assert NotBlank(lib.text, [["a"], [""]]) == NotBlank(lib.text, [["a"]]);
    assert ["a"][..0] == [] && [""][..0] == [] && "a"[1..] == "";
    assert InnerRow(["a"]) == 0 && InnerRow([""]) == 0;
    assert Inner([["a"]]) == 0;
  }
}
