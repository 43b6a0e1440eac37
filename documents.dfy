/**
 * The spreadsheet writer of document_utils.py: the `Document` class, which writes a data
 * frame into the sheet "Tabelle 1", sets column widths and formats, an optional column
 * header row, the page header, the orientation and the print area; and the two callers
 * `dump_calendar` and `dump_services` with their fixed column-width lists.
 *
 * The sheet is modelled by what these calls leave in it: cell texts and formats keyed by
 * zero-based (row, column), the per-column width and format, the page header, the
 * orientation and the print-area reference. A data frame is modelled with its cells
 * already rendered as text.
 */
module Documents {
  import opened Wrappers

  const DEFAULT_FONT_SIZE: int := 12
  const DEFAULT_BORDER: int := 1
  const DEFAULT_HEADER_COLOR: string := "#d4d4d4"
  const DEFAULT_ROW_HEIGHT: int := 30

  /** The properties of an xlsxwriter format that the source sets; absent ones keep their default. */
  datatype CellFormat = CellFormat(
    bold: bool, border: int, textWrap: bool, fgColor: Option<string>,
    fontSize: int, valign: Option<string>, align: Option<string>)

  datatype Cell = Cell(text: string, format: Option<CellFormat>)

  /** A data frame: its column labels and its rows of rendered cells. */
  datatype Frame = Frame(columns: seq<string>, rows: seq<seq<string>>)

  /** A zero-based (row, column) position in the sheet. */
  datatype Pos = Pos(row: nat, col: nat)

  /** The position lies in the block where a frame's rows go when written from `startRow`. */
  predicate InData(rows: seq<seq<string>>, startRow: nat, p: Pos)
  {
    startRow <= p.row < startRow + |rows| && p.col < |rows[p.row - startRow]|
  }

  /** Where `to_excel(..., header=False, startrow=startRow)` puts the frame's cells (no format). */
  function DataCells(rows: seq<seq<string>>, startRow: nat): (m: map<Pos, Cell>)
    ensures forall p :: p in m ==> InData(rows, startRow, p)
    ensures forall p :: InData(rows, startRow, p) ==> p in m && m[p] == Cell(rows[p.row - startRow][p.col], None)
  {
    map r: nat, c: nat | startRow <= r < startRow + |rows| && c < |rows[r - startRow]|
      :: Pos(r, c) := Cell(rows[r - startRow][c], None)
  }

  /** The column labels in row 0, each in the header format. */
  function HeaderCells(columns: seq<string>, format: CellFormat): (m: map<Pos, Cell>)
    ensures forall p :: p in m <==> p.row == 0 && p.col < |columns|
    ensures forall p :: p in m ==> m[p] == Cell(columns[p.col], Some(format))
  {
    map c: nat | c < |columns| :: Pos(0, c) := Cell(columns[c], Some(format))
  }

  /** Writing one more label extends the header row by one cell. */
  lemma HeaderCellsExtend(columns: seq<string>, c: nat, format: CellFormat)
    requires c < |columns|
    ensures HeaderCells(columns[..c + 1], format) == HeaderCells(columns[..c], format)[Pos(0, c) := Cell(columns[c], Some(format))]
  {
    var a := HeaderCells(columns[..c + 1], format);
    var b := HeaderCells(columns[..c], format)[Pos(0, c) := Cell(columns[c], Some(format))];
    assert a.Keys == b.Keys;
  }

  /** Updating a union at a key is updating its right operand there. */
  lemma UpdateUnion<K, V>(a: map<K, V>, b: map<K, V>, k: K, v: V)
    ensures (a + b)[k := v] == a + b[k := v]
  {
  }

  lemma UnionEmpty<K, V>(a: map<K, V>)
    ensures a + map[] == a && map[] + a == a
  {
  }

  /** The column widths after `set_column` for each (column, width) in order; a later entry wins. */
  function ApplyWidths(m: map<string, (int, CellFormat)>, widths: seq<(string, int)>, format: CellFormat)
    : (r: map<string, (int, CellFormat)>)
    ensures forall k :: k in r <==> k in m || exists i :: 0 <= i < |widths| && widths[i].0 == k
    ensures forall k :: k in m && (forall i :: 0 <= i < |widths| ==> widths[i].0 != k) ==> r[k] == m[k]
    decreases |widths|
  {
    if widths == [] then m
    else
      var r := ApplyWidths(m[widths[0].0 := (widths[0].1, format)], widths[1..], format);
      assert forall i :: 0 < i < |widths| ==> widths[i] == widths[1..][i - 1];
      assert forall i :: 0 <= i < |widths| - 1 ==> widths[1..][i] == widths[i + 1];
      r
  }

  /** Each listed column ends with its last listed width, in the given format. */
  lemma {:induction false} ApplyWidthsLastWins(m: map<string, (int, CellFormat)>, widths: seq<(string, int)>,
                                               format: CellFormat, i: int)
    requires 0 <= i < |widths|
    requires forall j :: i < j < |widths| ==> widths[j].0 != widths[i].0
    ensures widths[i].0 in ApplyWidths(m, widths, format)
    ensures ApplyWidths(m, widths, format)[widths[i].0] == (widths[i].1, format)
    decreases |widths|
  {
    var m' := m[widths[0].0 := (widths[0].1, format)];
    var tail := widths[1..];
    if i == 0 {
      assert forall j :: 0 <= j < |tail| ==> tail[j].0 != widths[0].0 by {
        assert forall j :: 0 <= j < |tail| ==> tail[j] == widths[j + 1];
      }
    } else {
      assert tail[i - 1] == widths[i];
      assert forall j :: i - 1 < j < |tail| ==> tail[j] == widths[j + 1];
      ApplyWidthsLastWins(m', tail, format, i - 1);
    }
  }

  /** The column letter `chr(ord('@') + n)`: '@' for 0, 'A' for 1, … */
  function ColumnLetter(n: nat): char
    requires n < 0xD800 - 64
  {
    (64 + n) as char
  }

  function DigitChar(d: nat): char
    requires d < 10
  {
    ('0' as int + d) as char
  }

  predicate IsDigit(ch: char)
  {
    '0' <= ch <= '9'
  }

  /** `str(n)` for a natural number. */
  function Decimal(n: nat): (s: string)
    ensures |s| > 0
    ensures forall i :: 0 <= i < |s| ==> IsDigit(s[i])
    ensures |s| > 1 ==> s[0] != '0'
    decreases n
  {
    if n < 10 then [DigitChar(n)] else Decimal(n / 10) + [DigitChar(n % 10)]
  }

  function DigitValue(ch: char): nat
    requires IsDigit(ch)
  {
    ch as int - '0' as int
  }

  /** The number a string of decimal digits denotes. */
  function DecimalValue(s: string): nat
    requires forall i :: 0 <= i < |s| ==> IsDigit(s[i])
  {
    if s == [] then 0 else DecimalValue(s[..|s| - 1]) * 10 + DigitValue(s[|s| - 1])
  }

  /** Reading back `str(n)` gives n. */
  lemma {:induction false} DecimalRoundTrip(n: nat)
    ensures DecimalValue(Decimal(n)) == n
    decreases n
  {
    if n >= 10 {
      DecimalRoundTrip(n / 10);
      var s := Decimal(n);
      assert s[..|s| - 1] == Decimal(n / 10);
    }
  }

  /** The print-area reference `f'A1:{chr(ord("@") + columns)}{rows}'`. */
  function PrintAreaRef(columns: nat, rows: nat): (r: string)
    requires columns < 0xD800 - 64
    ensures |r| > 4 && r[..3] == "A1:"
    ensures r[3] as int == '@' as int + columns
    ensures forall i :: 4 <= i < |r| ==> IsDigit(r[i])
    ensures DecimalValue(r[4..]) == rows
  {
    var s := "A1:" + [ColumnLetter(columns)] + Decimal(rows);
    assert s[4..] == Decimal(rows);
    DecimalRoundTrip(rows);
    s
  }

  /** The column letter is an upper-case letter exactly for 1 to 26 columns, the n-th letter of the alphabet. */
  lemma ColumnLetterIsUppercase(n: nat)
    requires n < 0xD800 - 64
    ensures 'A' <= ColumnLetter(n) <= 'Z' <==> 1 <= n <= 26
    ensures ColumnLetter(n) as int - 'A' as int == n - 1
  {
  }

  /**
   * The reference determines the counts it was built from: its fourth character is the
   * column letter and the rest reads back as the row count.
   */
  lemma {:induction false} PrintAreaRefDetermines(c1: nat, r1: nat, c2: nat, r2: nat)
    requires c1 < 0xD800 - 64 && c2 < 0xD800 - 64
    requires PrintAreaRef(c1, r1) == PrintAreaRef(c2, r2)
    ensures c1 == c2 && r1 == r2
  {
    var a1, a2 := PrintAreaRef(c1, r1), PrintAreaRef(c2, r2);
    assert a1[3] == ColumnLetter(c1) && a2[3] == ColumnLetter(c2);
    assert a1[4..] == Decimal(r1) && a2[4..] == Decimal(r2);
    DecimalRoundTrip(r1);
    DecimalRoundTrip(r2);
  }

  /** The formats the constructor creates. */
  const DefaultFormat: CellFormat :=
    CellFormat(false, DEFAULT_BORDER, true, None, DEFAULT_FONT_SIZE, None, None)
  const ColHeaderFormat: CellFormat :=
    CellFormat(true, DEFAULT_BORDER, true, Some(DEFAULT_HEADER_COLOR), DEFAULT_FONT_SIZE, None, None)
  const HeaderFormat: CellFormat :=
    CellFormat(true, DEFAULT_BORDER, true, Some(DEFAULT_HEADER_COLOR), DEFAULT_FONT_SIZE, Some("top"), Some("center"))

  /** The sheet cells after the frame is written from `startRow` and then, with a header, the labels into row 0. */
  function FrameCells(before: map<Pos, Cell>, df: Frame, startRow: nat, withHeader: bool, headerFormat: CellFormat)
    : map<Pos, Cell>
  {
    before + DataCells(df.rows, startRow) + (if withHeader then HeaderCells(df.columns, headerFormat) else map[])
  }

  /** The sheet cells after `write`: the frame from row 0, then, with a header, the labels over row 0. */
  function WrittenCells(before: map<Pos, Cell>, df: Frame, withHeader: bool, headerFormat: CellFormat)
    : (m: map<Pos, Cell>)
    ensures forall p :: p in m <==>
      p in before || InData(df.rows, 0, p) || (withHeader && p.row == 0 && p.col < |df.columns|)
  {
    FrameCells(before, df, 0, withHeader, headerFormat)
  }

  /**
   * Every written cell lies in the rows the print area names: the rows 0 to |rows| - 1, the
   * print area's "A1" to row |rows|. (With a header and no data rows, the header row lies
   * outside the reference "A1:…0".)
   */
  lemma WrittenRowsWithinPrintArea(df: Frame, withHeader: bool, format: CellFormat)
    requires |df.rows| > 0 || !withHeader
    ensures forall p :: p in WrittenCells(map[], df, withHeader, format) ==> p.row < |df.rows|
  {
    var d := DataCells(df.rows, 0);
    var h := if withHeader then HeaderCells(df.columns, format) else map[];
    forall p | p in WrittenCells(map[], df, withHeader, format)
      ensures p.row < |df.rows|
    {
      assert p in d || p in h;
    }
  }

  /**
   * As written, a header row is written over row 0 after the frame was written from row 0:
   * the labels replace the first data row, and only the later rows keep their data.
   */
  lemma HeaderReplacesFirstRow(before: map<Pos, Cell>, df: Frame, format: CellFormat)
    ensures var cells := WrittenCells(before, df, true, format);
      forall c: nat :: c < |df.columns| ==> Pos(0, c) in cells && cells[Pos(0, c)] == Cell(df.columns[c], Some(format))
    ensures var cells := WrittenCells(before, df, true, format);
      forall r: nat, c: nat :: 1 <= r < |df.rows| && c < |df.rows[r]| ==>
        Pos(r, c) in cells && cells[Pos(r, c)] == Cell(df.rows[r][c], None)
  {
    var cells := WrittenCells(before, df, true, format);
    forall c: nat | c < |df.columns|
      ensures Pos(0, c) in cells && cells[Pos(0, c)] == Cell(df.columns[c], Some(format))
    {
      assert Pos(0, c) in HeaderCells(df.columns, format);
    }
    forall r: nat, c: nat | 1 <= r < |df.rows| && c < |df.rows[r]|
      ensures Pos(r, c) in cells && cells[Pos(r, c)] == Cell(df.rows[r][c], None)
    {
      assert InData(df.rows, 0, Pos(r, c));
      assert Pos(r, c) !in HeaderCells(df.columns, format);
    }
  }

  /**
   * With a header every cell of the sheet holds either a label (row 0, within the labels) or
   * the frame's own cell, which then lies outside the part of row 0 the labels cover.
   */
  lemma HeaderedSheetTexts(df: Frame, format: CellFormat)
    ensures var cells := WrittenCells(map[], df, true, format);
      forall p :: p in cells ==>
        || (p.row == 0 && p.col < |df.columns| && cells[p].text == df.columns[p.col])
        || (InData(df.rows, 0, p) && (p.row >= 1 || p.col >= |df.columns|) && cells[p].text == df.rows[p.row][p.col])
  {
    var d := DataCells(df.rows, 0);
    var h := HeaderCells(df.columns, format);
    var cells := WrittenCells(map[], df, true, format);
    forall p | p in cells
      ensures || (p.row == 0 && p.col < |df.columns| && cells[p].text == df.columns[p.col])
              || (InData(df.rows, 0, p) && (p.row >= 1 || p.col >= |df.columns|) && cells[p].text == df.rows[p.row][p.col])
    {
      if p in h {
        assert cells[p] == h[p];
      } else {
        assert p in d;
      }
    }
  }

  /**
   * A text that is no label, no cell of a later row and no cell of row 0 beyond the labels is
   * nowhere in the sheet written with a header, even when the first row holds it.
   */
  lemma FirstRowTextLost(df: Frame, format: CellFormat, x: string)
    requires x !in df.columns
    requires forall r, c :: 1 <= r < |df.rows| && 0 <= c < |df.rows[r]| ==> df.rows[r][c] != x
    requires |df.rows| > 0 ==> forall c :: |df.columns| <= c < |df.rows[0]| ==> df.rows[0][c] != x
    ensures var cells := WrittenCells(map[], df, true, format);
      forall p :: p in cells ==> cells[p].text != x
  {
    HeaderedSheetTexts(df, format);
    var cells := WrittenCells(map[], df, true, format);
    forall p | p in cells
      ensures cells[p].text != x
    {
      if p.row == 0 && p.col < |df.columns| {
        assert df.columns[p.col] in df.columns;
      }
    }
  }

  /** The example frame of two events with a date and a preacher each. */
  const TwoEvents: Frame := Frame(["Datum", "Predigt"], [["01.01", "Meier"], ["08.01", "Huber"]])

  /** In `dump_services` the first event's date and assignee are in no cell of the sheet. */
  lemma FirstServiceRowLost()
    ensures var cells := WrittenCells(map[], TwoEvents, true, HeaderFormat);
      forall p :: p in cells ==> cells[p].text != "01.01" && cells[p].text != "Meier"
  {
    var df := TwoEvents;
    assert "01.01"[0] == '0' && "Datum"[0] == 'D' && "Predigt"[0] == 'P' && "08.01"[1] == '8' && "Huber"[0] == 'H';
    assert "Meier"[0] == 'M' && "01.01"[1] == '1';
    assert forall r, c :: 1 <= r < |df.rows| && 0 <= c < |df.rows[r]| ==> df.rows[r][c] in {"08.01", "Huber"};
    FirstRowTextLost(df, HeaderFormat, "01.01");
    FirstRowTextLost(df, HeaderFormat, "Meier");
  }

  /** The row the frame starts in: 1 below a header row, else 0. */
  function HeaderOffset(withHeader: bool): nat
  {
    if withHeader then 1 else 0
  }

  /** The intended layout: with a header, the labels in row 0 and the frame from row 1. */
  function WrittenCellsBelowHeader(before: map<Pos, Cell>, df: Frame, withHeader: bool, headerFormat: CellFormat)
    : map<Pos, Cell>
  {
    FrameCells(before, df, HeaderOffset(withHeader), withHeader, headerFormat)
  }

  /** The print area of the intended layout counts the header row too. */
  function PrintAreaBelowHeader(columns: nat, df: Frame, withHeader: bool): string
    requires columns < 0xD800 - 64
  {
    PrintAreaRef(columns, |df.rows| + HeaderOffset(withHeader))
  }

  /** In the intended layout every data cell survives, one row below where it would be without a header. */
  lemma BelowHeaderKeepsEveryRow(df: Frame, withHeader: bool, format: CellFormat)
    ensures var cells := WrittenCellsBelowHeader(map[], df, withHeader, format);
      forall r: nat, c: nat :: r < |df.rows| && c < |df.rows[r]| ==>
        Pos(r + HeaderOffset(withHeader), c) in cells
        && cells[Pos(r + HeaderOffset(withHeader), c)] == Cell(df.rows[r][c], None)
  {
    var offset := HeaderOffset(withHeader);
    var h := if withHeader then HeaderCells(df.columns, format) else map[];
    var cells := WrittenCellsBelowHeader(map[], df, withHeader, format);
    forall r: nat, c: nat | r < |df.rows| && c < |df.rows[r]|
      ensures Pos(r + offset, c) in cells && cells[Pos(r + offset, c)] == Cell(df.rows[r][c], None)
    {
      assert InData(df.rows, offset, Pos(r + offset, c));
      assert Pos(r + offset, c) !in h;
    }
  }

  /** In the intended layout the header row holds the labels. */
  lemma BelowHeaderLabels(df: Frame, format: CellFormat)
    ensures var cells := WrittenCellsBelowHeader(map[], df, true, format);
      forall c: nat :: c < |df.columns| ==>
        Pos(0, c) in cells && cells[Pos(0, c)] == Cell(df.columns[c], Some(format))
  {
    var h := HeaderCells(df.columns, format);
    forall c: nat | c < |df.columns|
      ensures Pos(0, c) in h
    {
    }
  }

  /** In the intended layout every written cell lies in the rows the print area names. */
  lemma BelowHeaderWithinPrintArea(df: Frame, withHeader: bool, format: CellFormat)
    ensures forall p :: p in WrittenCellsBelowHeader(map[], df, withHeader, format) ==>
      p.row < |df.rows| + HeaderOffset(withHeader)
  {
    var d := DataCells(df.rows, HeaderOffset(withHeader));
    var h := if withHeader then HeaderCells(df.columns, format) else map[];
    forall p | p in WrittenCellsBelowHeader(map[], df, withHeader, format)
      ensures p.row < |df.rows| + HeaderOffset(withHeader)
    {
      assert p in d || p in h;
    }
  }

  class Document {
    var cells: map<Pos, Cell>
    var columnFormats: map<string, (int, CellFormat)>
    var defaultRowHeight: int
    var defaultFormat: CellFormat
    var colHeaderFormat: CellFormat
    var headerFormat: CellFormat
    var pageHeader: Option<string>
    var landscape: bool
    var printArea: Option<string>
    var closed: bool

    /** Opens the writer on an empty sheet "Tabelle 1" and creates the three formats. */
    constructor ()
      ensures cells == map[] && columnFormats == map[] && defaultRowHeight == DEFAULT_ROW_HEIGHT
      ensures defaultFormat == DefaultFormat && colHeaderFormat == ColHeaderFormat
      ensures headerFormat == HeaderFormat
      ensures pageHeader == None && !landscape && printArea == None && !closed
    {
      cells := map[];
      columnFormats := map[];
      defaultFormat := DefaultFormat;
      colHeaderFormat := ColHeaderFormat;
      headerFormat := HeaderFormat;
      defaultRowHeight := DEFAULT_ROW_HEIGHT;
      pageHeader := None;
      landscape := false;
      printArea := None;
      closed := false;
    }

    /** `_set_column`: one column gets a width and the default format. */
    method SetColumn(col: string, width: int)
      modifies this`columnFormats
      ensures columnFormats == old(columnFormats)[col := (width, defaultFormat)]
    {
      columnFormats := columnFormats[col := (width, defaultFormat)];
    }

    /** The loop of `write` over `col_widths`, one `_set_column` per entry. */
    method SetColumns(colWidths: seq<(string, int)>)
      modifies this`columnFormats
      ensures columnFormats == ApplyWidths(old(columnFormats), colWidths, defaultFormat)
    {
      for i := 0 to |colWidths|
        invariant ApplyWidths(columnFormats, colWidths[i..], defaultFormat)
          == ApplyWidths(old(columnFormats), colWidths, defaultFormat)
      {
        assert colWidths[i..][1..] == colWidths[i + 1..];
        SetColumn(colWidths[i].0, colWidths[i].1);
      }
    }

    /** `_set_header_column`: the frame's column labels written into row 0 in the header format. */
    method SetHeaderColumn(df: Frame)
      modifies this`cells
      ensures cells == old(cells) + HeaderCells(df.columns, headerFormat)
    {
      for c := 0 to |df.columns|
        invariant cells == old(cells) + HeaderCells(df.columns[..c], headerFormat)
      {
        HeaderCellsExtend(df.columns, c, headerFormat);
        UpdateUnion(old(cells), HeaderCells(df.columns[..c], headerFormat), Pos(0, c), Cell(df.columns[c], Some(headerFormat)));
        cells := cells[Pos(0, c) := Cell(df.columns[c], Some(headerFormat))];
      }
      assert df.columns[..|df.columns|] == df.columns;
    }

    /** The cell part of `write`: the frame from `startRow`, then, with a header, the labels in row 0. */
    method PutFrame(df: Frame, startRow: nat, withHeader: bool)
      modifies this`cells
      ensures cells == FrameCells(old(cells), df, startRow, withHeader, headerFormat)
    {
      cells := cells + DataCells(df.rows, startRow);
      if withHeader {
        SetHeaderColumn(df);
      } else {
        UnionEmpty(cells);
      }
    }

    /** `write`: frame, column widths, optional header row, page header, orientation, print area; then close. */
    method Write(df: Frame, colWidths: seq<(string, int)>, header: string, landscape: bool, withHeader: bool)
      requires !closed
      requires |colWidths| < 0xD800 - 64
      modifies this
      ensures cells == WrittenCells(old(cells), df, withHeader, headerFormat)
      ensures columnFormats == ApplyWidths(old(columnFormats), colWidths, defaultFormat)
      ensures pageHeader == Some(header)
      ensures this.landscape == (old(this.landscape) || landscape)
      ensures printArea == Some(PrintAreaRef(|colWidths|, |df.rows|))
      ensures closed
      ensures defaultRowHeight == old(defaultRowHeight) && defaultFormat == old(defaultFormat)
      ensures colHeaderFormat == old(colHeaderFormat) && headerFormat == old(headerFormat)
    {
      PutFrame(df, 0, withHeader);
      SetColumns(colWidths);
      pageHeader := Some(header);
      if landscape {
        this.landscape := true;
      }
      printArea := Some(PrintAreaRef(|colWidths|, |df.rows|));
      closed := true;
    }

    /** `write` as intended: with a header, the frame from row 1 and a print area that counts the header row. */
    method WriteBelowHeader(df: Frame, colWidths: seq<(string, int)>, header: string, landscape: bool, withHeader: bool)
      requires !closed
      requires |colWidths| < 0xD800 - 64
      modifies this
      ensures cells == WrittenCellsBelowHeader(old(cells), df, withHeader, headerFormat)
      ensures columnFormats == ApplyWidths(old(columnFormats), colWidths, defaultFormat)
      ensures pageHeader == Some(header)
      ensures this.landscape == (old(this.landscape) || landscape)
      ensures printArea == Some(PrintAreaBelowHeader(|colWidths|, df, withHeader))
      ensures closed
      ensures defaultRowHeight == old(defaultRowHeight) && defaultFormat == old(defaultFormat)
      ensures colHeaderFormat == old(colHeaderFormat) && headerFormat == old(headerFormat)
    {
      PutFrame(df, HeaderOffset(withHeader), withHeader);
      SetColumns(colWidths);
      pageHeader := Some(header);
      if landscape {
        this.landscape := true;
      }
      printArea := Some(PrintAreaBelowHeader(|colWidths|, df, withHeader));
      closed := true;
    }
  }

  /** `col_widths` of `dump_calendar`: weekday, date, time, appointment, subtitle, calendar. */
  const CalendarWidths: seq<(string, int)> :=
    [("A", 13), ("B", 15), ("C", 7), ("D", 40), ("E", 30), ("F", 30)]

  /** `col_widths` of `dump_services`: the date column and eight service columns. */
  const ServicesWidths: seq<(string, int)> :=
    [("A", 7), ("B", 30), ("C", 30), ("D", 30), ("E", 30), ("F", 30), ("G", 30), ("H", 30), ("I", 30)]

  /** `dump_calendar`: the frame without a header row, page header "Kalender". */
  method DumpCalendar(df: Frame) returns (doc: Document)
    ensures fresh(doc) && doc.closed
    ensures doc.cells == DataCells(df.rows, 0)
    ensures doc.columnFormats == ApplyWidths(map[], CalendarWidths, DefaultFormat)
    ensures forall i :: 0 <= i < |CalendarWidths| ==>
      CalendarWidths[i].0 in doc.columnFormats && doc.columnFormats[CalendarWidths[i].0] == (CalendarWidths[i].1, DefaultFormat)
    ensures doc.defaultRowHeight == DEFAULT_ROW_HEIGHT && doc.defaultFormat == DefaultFormat
    ensures doc.colHeaderFormat == ColHeaderFormat && doc.headerFormat == HeaderFormat
    ensures doc.pageHeader == Some("Kalender") && !doc.landscape
    ensures doc.printArea == Some("A1:F" + Decimal(|df.rows|))
  {
    doc := new Document();
    doc.Write(df, CalendarWidths, "Kalender", false, false);
    UnionEmpty(DataCells(df.rows, 0));
    CalendarAreaEndsAtF(|df.rows|);
    CalendarWidthsDistinct();
    WidthsEachApplied(CalendarWidths);
  }

  /** `dump_services`: the frame with a header row, page header "Dienste". */
  method DumpServices(df: Frame) returns (doc: Document)
    ensures fresh(doc) && doc.closed
    ensures doc.cells == DataCells(df.rows, 0) + HeaderCells(df.columns, HeaderFormat)
    ensures doc.columnFormats == ApplyWidths(map[], ServicesWidths, DefaultFormat)
    ensures forall i :: 0 <= i < |ServicesWidths| ==>
      ServicesWidths[i].0 in doc.columnFormats && doc.columnFormats[ServicesWidths[i].0] == (ServicesWidths[i].1, DefaultFormat)
    ensures doc.defaultRowHeight == DEFAULT_ROW_HEIGHT && doc.defaultFormat == DefaultFormat
    ensures doc.colHeaderFormat == ColHeaderFormat && doc.headerFormat == HeaderFormat
    ensures doc.pageHeader == Some("Dienste") && !doc.landscape
    ensures doc.printArea == Some("A1:I" + Decimal(|df.rows|))
  {
    doc := new Document();
    doc.Write(df, ServicesWidths, "Dienste", false, true);
    UnionEmpty(DataCells(df.rows, 0));
    ServicesAreaEndsAtI(|df.rows|);
    ServicesWidthsDistinct();
    WidthsEachApplied(ServicesWidths);
  }

  /**
   * Each width list names the columns A, B, … in order, so the print area's last column is the
   * last column given a width: F for the calendar, I for the services.
   */
  lemma CalendarAreaEndsAtF(rows: nat)
    ensures forall i :: 0 <= i < |CalendarWidths| ==> CalendarWidths[i].0 == [ColumnLetter(i + 1)]
    ensures PrintAreaRef(|CalendarWidths|, rows) == "A1:F" + Decimal(rows)
  {
  }

  lemma ServicesAreaEndsAtI(rows: nat)
    ensures forall i :: 0 <= i < |ServicesWidths| ==> ServicesWidths[i].0 == [ColumnLetter(i + 1)]
    ensures PrintAreaRef(|ServicesWidths|, rows) == "A1:I" + Decimal(rows)
  {
  }

  /** Each width list names every column once. */
  lemma CalendarWidthsDistinct()
    ensures forall i, j :: 0 <= i < j < |CalendarWidths| ==> CalendarWidths[i].0 != CalendarWidths[j].0
  {
    CalendarAreaEndsAtF(0);
  }

  lemma ServicesWidthsDistinct()
    ensures forall i, j :: 0 <= i < j < |ServicesWidths| ==> ServicesWidths[i].0 != ServicesWidths[j].0
  {
    ServicesAreaEndsAtI(0);
  }

  /** In a width list that names each column once, every listed column gets its own width. */
  lemma WidthsEachApplied(widths: seq<(string, int)>)
    requires forall i, j :: 0 <= i < j < |widths| ==> widths[i].0 != widths[j].0
    ensures forall i :: 0 <= i < |widths| ==>
      widths[i].0 in ApplyWidths(map[], widths, DefaultFormat)
      && ApplyWidths(map[], widths, DefaultFormat)[widths[i].0] == (widths[i].1, DefaultFormat)
  {
    forall i | 0 <= i < |widths|
      ensures widths[i].0 in ApplyWidths(map[], widths, DefaultFormat)
      ensures ApplyWidths(map[], widths, DefaultFormat)[widths[i].0] == (widths[i].1, DefaultFormat)
    {
      ApplyWidthsLastWins(map[], widths, DefaultFormat, i);
    }
  }
}
