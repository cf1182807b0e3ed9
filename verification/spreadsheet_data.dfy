/**
  `DCFLite.parseSpreadsheetData`: pasted spreadsheet text (rows on lines,
  cells separated by tabs or commas) becomes a grid of numbers and strings.

  JavaScript's `parseFloat` is not modelled: the parser takes it as the
  parameter `parseNumber`, whose `None` stands for NaN.
 */
module SpreadsheetData {
  import opened Wrappers
  import opened Strings

  /** One parsed cell: a JavaScript number, or the cell's trimmed text. */
  datatype Cell = Num(n: real) | Text(t: string)

  type Row = seq<Cell>

  /** `parseFloat`, with `None` for NaN. */
  type NumberParser = string -> Option<real>

  predicate IsSymbol(c: char) {
    c == '$' || c == ',' || c == '%'
  }

  predicate IsLineFeed(c: char) {
    c == '\n'
  }

  /** The cell separators of the regular expression `/\t|,/`. */
  predicate IsCellSeparator(c: char) {
    c == '\t' || c == ','
  }

  /** `s.replace(/[\$,%]/g, '')`: every currency, thousands and percent sign removed, the rest kept in order. */
  function StripSymbols(s: string): (r: string)
    ensures NoSeparator(r, IsSymbol)
    ensures |r| == |s| - |SeparatorsOf(s, IsSymbol)|
    ensures NoSeparator(s, IsSymbol) ==> r == s
  {
    if |s| == 0 then ""
    else if IsSymbol(s[0]) then StripSymbols(s[1..])
    else [s[0]] + StripSymbols(s[1..])
  }

  /** Removing the symbols keeps exactly the characters that are not symbols. */
  lemma {:induction false} StripSymbolsKeeps(s: string, c: char)
    ensures c in StripSymbols(s) <==> c in s && !IsSymbol(c)
  {
    if |s| > 0 {
      StripSymbolsKeeps(s[1..], c);
      assert s == [s[0]] + s[1..];
    }
  }

  /** Symbols are removed one character at a time: a symbol goes, any other character stays. */
  lemma StripSymbolsOne(c: char)
    ensures StripSymbols([c]) == if IsSymbol(c) then "" else [c]
  {
    assert [c][1..] == "";
  }

  /** Stripping works left to right: the kept characters of two texts come out
      in the order of the texts. Together with `StripSymbolsOne` this fixes the
      stripped text as the in-order sequence of the non-symbol characters. */
  lemma {:induction false} StripSymbolsConcat(a: string, b: string)
    ensures StripSymbols(a + b) == StripSymbols(a) + StripSymbols(b)
  {
    if |a| == 0 {
      assert a + b == b;
    } else {
      assert (a + b)[0] == a[0] && (a + b)[1..] == a[1..] + b;
      StripSymbolsConcat(a[1..], b);
      if !IsSymbol(a[0]) {
        assert [a[0]] + (StripSymbols(a[1..]) + StripSymbols(b)) == ([a[0]] + StripSymbols(a[1..])) + StripSymbols(b);
      }
    }
  }

  /** One cell: a number when `parseFloat` of its trimmed, symbol-free text
      is not NaN, and otherwise the trimmed text itself. */
  function ParseCell(raw: string, parseNumber: NumberParser): (c: Cell)
    ensures c.Num? <==> parseNumber(StripSymbols(Trim(raw))).Some?
    ensures c.Num? ==> Some(c.n) == parseNumber(StripSymbols(Trim(raw)))
    ensures c.Text? ==> c.t == Trim(raw) && IsTrimmed(c.t)
  {
    var text := Trim(raw);
    match parseNumber(StripSymbols(text))
    case Some(n) => Num(n)
    case None => Text(text)
  }

  /** `text.split(/\r?\n/)`: scanning from the left, a carriage return
      followed by a line feed, or a line feed alone, ends a line. */
  function Lines(text: string): (r: seq<string>)
    ensures |r| == |SeparatorsOf(text, IsLineFeed)| + 1
    ensures forall k :: 0 <= k < |r| ==> NoSeparator(r[k], IsLineFeed)
  {
    if |text| == 0 then [""]
    else if text[0] == '\n' then [""] + Lines(text[1..])
    else if |text| >= 2 && text[0] == '\r' && text[1] == '\n' then
      assert SeparatorsOf(text, IsLineFeed) == SeparatorsOf(text[1..], IsLineFeed);
      assert text[1..][1..] == text[2..];
      [""] + Lines(text[2..])
    else
      var rest := Lines(text[1..]);
      [[text[0]] + rest[0]] + rest[1..]
  }

  /** A text without line feeds is one line. */
  lemma {:induction false} OneLine(text: string)
    requires NoSeparator(text, IsLineFeed)
    ensures Lines(text) == [text]
  {
    if |text| > 0 {
      OneLine(text[1..]);
      assert text == [text[0]] + text[1..];
    }
  }

  /** The text opens with a line break: a line feed, or a carriage return followed by one. */
  predicate BreaksFirst(t: string) {
    |t| > 0 && (t[0] == '\n' || (|t| >= 2 && t[0] == '\r' && t[1] == '\n'))
  }

  /** How many characters the scanner consumes at the start of `t`. */
  function StepLength(t: string): nat {
    if |t| >= 2 && t[0] == '\r' && t[1] == '\n' then 2 else 1
  }

  /** One step of `Lines`. */
  lemma LinesUnfold(t: string)
    requires |t| > 0
    ensures BreaksFirst(t) ==> Lines(t) == [""] + Lines(t[StepLength(t)..])
    ensures !BreaksFirst(t) ==> Lines(t) == [[t[0]] + Lines(t[1..])[0]] + Lines(t[1..])[1..]
  {
  }

  /** Two texts that start with the same step have lines that differ only where their remainders do. */
  lemma LinesStep(a: string, s: string, tail: seq<string>)
    requires |a| > 0 && |s| > 0 && s[0] == a[0]
    requires BreaksFirst(a) == BreaksFirst(s) && StepLength(a) == StepLength(s)
    requires Lines(s[StepLength(s)..]) == Lines(a[StepLength(a)..]) + tail
    ensures Lines(s) == Lines(a) + tail
  {
    LinesUnfold(a);
    LinesUnfold(s);
    var k := StepLength(a);
    PieceStep(a[0], BreaksFirst(a), Lines(s), Lines(a), Lines(s[k..]), Lines(a[k..]), tail);
  }

  /** A CR-LF line break separates the lines before it from the lines after it. */
  lemma {:induction false} LinesAtCrLf(a: string, b: string)
    ensures Lines(a + "\r\n" + b) == Lines(a) + Lines(b)
    decreases |a|
  {
    var s := a + "\r\n" + b;
    if |a| == 0 {
      assert s[0] == '\r' && s[1] == '\n' && s[2..] == b;
      LinesUnfold(s);
    } else {
      var k := StepLength(a);
      assert s[0] == a[0] && s[1] == if |a| >= 2 then a[1] else '\r';
      assert s[k..] == a[k..] + "\r\n" + b;
      LinesAtCrLf(a[k..], b);
      LinesStep(a, s, Lines(b));
    }
  }

  /** A bare line feed does the same, unless the text before it ends in a
      carriage return (which then joins the line feed). */
  lemma {:induction false} LinesAtLf(a: string, b: string)
    requires |a| == 0 || a[|a| - 1] != '\r'
    ensures Lines(a + "\n" + b) == Lines(a) + Lines(b)
    decreases |a|
  {
    var s := a + "\n" + b;
    if |a| == 0 {
      assert s[0] == '\n' && s[1..] == b;
      LinesUnfold(s);
    } else {
      var k := StepLength(a);
      assert s[0] == a[0] && (|a| >= 2 ==> s[1] == a[1]);
      assert s[k..] == a[k..] + "\n" + b;
      LinesAtLf(a[k..], b);
      LinesStep(a, s, Lines(b));
    }
  }

  /** One line: `row.split(/\t|,/)` with every field parsed as a cell. */
  function ParseRow(line: string, parseNumber: NumberParser): (row: Row)
    ensures |row| == |SeparatorsOf(line, IsCellSeparator)| + 1
    ensures forall k :: 0 <= k < |row| ==> row[k] == ParseCell(SplitBy(line, IsCellSeparator)[k], parseNumber)
  {
    var fields := SplitBy(line, IsCellSeparator);
    seq(|fields|, k requires 0 <= k < |fields| => ParseCell(fields[k], parseNumber))
  }

  function ParseRows(lines: seq<string>, parseNumber: NumberParser): (rows: seq<Row>)
    ensures |rows| == |lines|
  {
    if |lines| == 0 then [] else [ParseRow(lines[0], parseNumber)] + ParseRows(lines[1..], parseNumber)
  }

  lemma {:induction false} ParseRowsConcat(a: seq<string>, b: seq<string>, parseNumber: NumberParser)
    ensures ParseRows(a + b, parseNumber) == ParseRows(a, parseNumber) + ParseRows(b, parseNumber)
  {
    if |a| > 0 {
      assert (a + b)[0] == a[0] && (a + b)[1..] == a[1..] + b;
      ParseRowsConcat(a[1..], b, parseNumber);
    } else {
      assert a + b == b;
    }
  }

  /** The row filter `row.length > 0 && row[0] !== ""`: a number never equals "". */
  predicate KeepRow(row: Row) {
    |row| > 0 && row[0] != Text("")
  }

  function KeepRows(rows: seq<Row>): (r: seq<Row>)
    ensures |r| <= |rows|
    ensures forall k :: 0 <= k < |r| ==> KeepRow(r[k])
    ensures forall k :: 0 <= k < |r| ==> r[k] in rows
    ensures forall row :: row in rows && KeepRow(row) ==> row in r
  {
    if |rows| == 0 then []
    else if KeepRow(rows[0]) then [rows[0]] + KeepRows(rows[1..])
    else KeepRows(rows[1..])
  }

  /** A single row is kept exactly when it passes the filter. */
  lemma KeepOneRow(row: Row)
    ensures KeepRows([row]) == if KeepRow(row) then [row] else []
  {
    assert [row][1..] == [];
  }

  /** Filtering keeps the order: the rows kept from two blocks are those of the first block, then those of the second. */
  lemma {:induction false} KeepRowsConcat(a: seq<Row>, b: seq<Row>)
    ensures KeepRows(a + b) == KeepRows(a) + KeepRows(b)
  {
    if |a| > 0 {
      assert (a + b)[0] == a[0] && (a + b)[1..] == a[1..] + b;
      KeepRowsConcat(a[1..], b);
    } else {
      assert a + b == b;
    }
  }

  /** `DCFLite.parseSpreadsheetData(text)`. */
  function ParseSpreadsheetData(text: string, parseNumber: NumberParser): (grid: seq<Row>)
    ensures |text| == 0 ==> grid == []
    ensures |grid| <= |SeparatorsOf(text, IsLineFeed)| + 1
    ensures forall k :: 0 <= k < |grid| ==> |grid[k]| > 0 && grid[k][0] != Text("")
  {
    if |text| == 0 then [] else KeepRows(ParseRows(Lines(text), parseNumber))
  }

  /** A single line gives one row, with one cell per tab- or comma-separated
      field, unless its first cell is empty text. */
  lemma ParseOneLine(line: string, parseNumber: NumberParser)
    requires |line| > 0 && NoSeparator(line, IsLineFeed)
    ensures var row := ParseRow(line, parseNumber);
            ParseSpreadsheetData(line, parseNumber) == if row[0] == Text("") then [] else [row]
  {
    OneLine(line);
    assert ParseRows([line], parseNumber) == [ParseRow(line, parseNumber)];
  }

  /** `parseFloat` reads no number from empty text: `parseFloat("")` is NaN. */
  predicate NanOnEmpty(parseNumber: NumberParser) {
    parseNumber("") == None
  }

  /** The rows of a text by the general path, without the early return for empty text. */
  function Grid(text: string, parseNumber: NumberParser): seq<Row> {
    KeepRows(ParseRows(Lines(text), parseNumber))
  }

  /** An empty line gives no row: its one cell is the empty text, which the filter drops. */
  lemma EmptyLineGivesNoRow(parseNumber: NumberParser)
    requires NanOnEmpty(parseNumber)
    ensures Grid("", parseNumber) == []
  {
    EmptyCell(parseNumber);
    EmptyRow(parseNumber);
    OneRow("", parseNumber);
    KeepOneRow([Text("")]);
  }

  lemma OneRow(line: string, parseNumber: NumberParser)
    requires Lines(line) == [line]
    ensures Grid(line, parseNumber) == KeepRows([ParseRow(line, parseNumber)])
  {
    assert [line][1..] == [];
  }

  lemma EmptyCell(parseNumber: NumberParser)
    requires NanOnEmpty(parseNumber)
    ensures ParseCell("", parseNumber) == Text("")
  {
    assert Trim("") == "";
    assert StripSymbols("") == "";
  }

  lemma EmptyRow(parseNumber: NumberParser)
    requires ParseCell("", parseNumber) == Text("")
    ensures ParseRow("", parseNumber) == [Text("")]
  {
    assert SplitBy("", IsCellSeparator) == [""];
  }

  /** The early return for empty text gives what the general path would. */
  lemma ParseIsGrid(text: string, parseNumber: NumberParser)
    requires NanOnEmpty(parseNumber)
    ensures ParseSpreadsheetData(text, parseNumber) == Grid(text, parseNumber)
  {
    if |text| == 0 {
      assert text == "";
      EmptyLineGivesNoRow(parseNumber);
    }
  }

  /** Rows follow the input's line order: the grid of two blocks joined by a
      line break is the grid of the first block followed by that of the second. */
  lemma ParseAtCrLf(a: string, b: string, parseNumber: NumberParser)
    requires NanOnEmpty(parseNumber)
    ensures ParseSpreadsheetData(a + "\r\n" + b, parseNumber)
         == ParseSpreadsheetData(a, parseNumber) + ParseSpreadsheetData(b, parseNumber)
  {
    LinesAtCrLf(a, b);
    ParseRowsConcat(Lines(a), Lines(b), parseNumber);
    KeepRowsConcat(ParseRows(Lines(a), parseNumber), ParseRows(Lines(b), parseNumber));
    ParseIsGrid(a, parseNumber);
    ParseIsGrid(b, parseNumber);
    ParseIsGrid(a + "\r\n" + b, parseNumber);
  }

  lemma ParseAtLf(a: string, b: string, parseNumber: NumberParser)
    requires NanOnEmpty(parseNumber)
    requires |a| == 0 || a[|a| - 1] != '\r'
    ensures ParseSpreadsheetData(a + "\n" + b, parseNumber)
         == ParseSpreadsheetData(a, parseNumber) + ParseSpreadsheetData(b, parseNumber)
  {
    LinesAtLf(a, b);
    ParseRowsConcat(Lines(a), Lines(b), parseNumber);
    KeepRowsConcat(ParseRows(Lines(a), parseNumber), ParseRows(Lines(b), parseNumber));
    ParseIsGrid(a, parseNumber);
    ParseIsGrid(b, parseNumber);
    ParseIsGrid(a + "\n" + b, parseNumber);
  }

  /** A trailing line break, as spreadsheet copies usually end with, adds no row. */
  lemma TrailingBreakAddsNoRow(a: string, parseNumber: NumberParser)
    requires NanOnEmpty(parseNumber)
    ensures ParseSpreadsheetData(a + "\r\n", parseNumber) == ParseSpreadsheetData(a, parseNumber)
    ensures |a| == 0 || a[|a| - 1] != '\r' ==> ParseSpreadsheetData(a + "\n", parseNumber) == ParseSpreadsheetData(a, parseNumber)
  {
    ParseAtCrLf(a, "", parseNumber);
    assert a + "\r\n" + "" == a + "\r\n";
    if |a| == 0 || a[|a| - 1] != '\r' {
      ParseAtLf(a, "", parseNumber);
      assert a + "\n" + "" == a + "\n";
    }
  }

  /** A blank line between two blocks adds no row, whether the lines end in
      CR-LF or, as in a pasted text-area value, in a bare LF. */
  lemma BlankLineAddsNoRow(a: string, b: string, parseNumber: NumberParser)
    requires NanOnEmpty(parseNumber)
    ensures ParseSpreadsheetData(a + "\r\n\r\n" + b, parseNumber) == ParseSpreadsheetData(a + "\r\n" + b, parseNumber)
    ensures |a| == 0 || a[|a| - 1] != '\r' ==>
              ParseSpreadsheetData(a + "\n\n" + b, parseNumber) == ParseSpreadsheetData(a + "\n" + b, parseNumber)
  {
    Regroup(a, b);
    ParseAtCrLf(a, "\r\n" + b, parseNumber);
    LeadingBreakAddsNoRow(b, parseNumber);
    ParseAtCrLf(a, b, parseNumber);
    if |a| == 0 || a[|a| - 1] != '\r' {
      RegroupLf(a, b);
      ParseAtLf(a, "\n" + b, parseNumber);
      ParseAtLf(a, b, parseNumber);
    }
  }

  /** A leading line break, CR-LF or bare LF, adds no row either. */
  lemma LeadingBreakAddsNoRow(b: string, parseNumber: NumberParser)
    requires NanOnEmpty(parseNumber)
    ensures ParseSpreadsheetData("\r\n" + b, parseNumber) == ParseSpreadsheetData(b, parseNumber)
    ensures ParseSpreadsheetData("\n" + b, parseNumber) == ParseSpreadsheetData(b, parseNumber)
  {
    NothingBefore(b);
    ParseAtCrLf("", b, parseNumber);
    ParseAtLf("", b, parseNumber);
    EmptyTextNoRows(parseNumber);
  }

  lemma NothingBefore(b: string)
    ensures "" + "\r\n" + b == "\r\n" + b
    ensures "" + "\n" + b == "\n" + b
  {
  }

  lemma EmptyTextNoRows(parseNumber: NumberParser)
    ensures ParseSpreadsheetData("", parseNumber) == []
  {
  }

  lemma Regroup(a: string, b: string)
    ensures a + "\r\n\r\n" + b == a + "\r\n" + ("\r\n" + b)
  {
  }

  lemma RegroupLf(a: string, b: string)
    ensures a + "\n\n" + b == a + "\n" + ("\n" + b)
  {
  }
}
