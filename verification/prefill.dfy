/**
  `autoPopulateFromData`: the parsed spreadsheet rows fill four form fields.
  A row is recognised by keywords in its lower-cased first cell, and the
  field receives the row's last cell. Rows are applied in order, so a later
  matching row overrides an earlier one.

  Converting a number to its JavaScript string (`String(n)`) is not
  modelled: it is the parameter `show`.
 */
module Prefill {
  import opened Strings
  import opened SpreadsheetData

  /** The fields the mapping can fill. */
  datatype Field = Units | Price | NetDebt | Shares

  /** The contents of the four fields. */
  datatype Fields = Fields(units: Cell, price: Cell, netDebt: Cell, shares: Cell)

  function Get(fs: Fields, f: Field): Cell {
    match f
    case Units => fs.units
    case Price => fs.price
    case NetDebt => fs.netDebt
    case Shares => fs.shares
  }

  function Set(fs: Fields, f: Field, c: Cell): (r: Fields)
    ensures Get(r, f) == c
    ensures forall g :: g != f ==> Get(r, g) == Get(fs, g)
  {
    match f
    case Units => fs.(units := c)
    case Price => fs.(price := c)
    case NetDebt => fs.(netDebt := c)
    case Shares => fs.(shares := c)
  }

  /** `String(row[0]).toLowerCase()`. */
  function KeyOf(row: Row, show: real -> string): string
    requires |row| > 0
  {
    match row[0]
    case Num(n) => ToLowerAscii(show(n))
    case Text(t) => ToLowerAscii(t)
  }

  /** The keyword test of each field on a lower-cased key. */
  predicate Matches(f: Field, key: string) {
    match f
    case Units => Contains(key, "unit") || Contains(key, "volume")
    case Price => Contains(key, "price")
    case NetDebt => Contains(key, "debt")
    case Shares => Contains(key, "shares")
  }

  function LastCell(row: Row): Cell
    requires |row| > 0
  {
    row[|row| - 1]
  }

  /** One row of the mapping: every field whose keyword the key contains
      takes the row's last cell; the other fields keep their contents. */
  function ApplyRow(fs: Fields, row: Row, show: real -> string): (r: Fields)
    requires |row| > 0
    ensures forall f :: Matches(f, KeyOf(row, show)) ==> Get(r, f) == LastCell(row)
    ensures forall f :: !Matches(f, KeyOf(row, show)) ==> Get(r, f) == Get(fs, f)
  {
    var key := KeyOf(row, show);
    var val := LastCell(row);
    var a := if Matches(Units, key) then Set(fs, Units, val) else fs;
    var b := if Matches(Price, key) then Set(a, Price, val) else a;
    var c := if Matches(NetDebt, key) then Set(b, NetDebt, val) else b;
    if Matches(Shares, key) then Set(c, Shares, val) else c
  }

  predicate AllNonEmpty(rows: seq<Row>) {
    forall k :: 0 <= k < |rows| ==> |rows[k]| > 0
  }

  /** `autoPopulateFromData`: the rows applied in order. Every row of a
      parsed grid has a first cell. A field ends up with its old contents or
      with the last cell of one of the rows. */
  function AutoPopulate(fs: Fields, rows: seq<Row>, show: real -> string): (r: Fields)
    requires AllNonEmpty(rows)
    ensures forall f :: Get(r, f) == Get(fs, f) || exists k :: 0 <= k < |rows| && Get(r, f) == LastCell(rows[k])
  {
    if |rows| == 0 then fs
    else
      var n := |rows| - 1;
      var front := rows[..n];
      assert forall j :: 0 <= j < n ==> front[j] == rows[j];
      ApplyRow(AutoPopulate(fs, front, show), rows[n], show)
  }

  /** The rows a grid from the spreadsheet parser hands to the mapping all
      have a first cell to read the key from. */
  lemma ParsedRowsHaveKeys(text: string, parseNumber: NumberParser)
    ensures AllNonEmpty(ParseSpreadsheetData(text, parseNumber))
  {
  }

  /** A field no row's key mentions keeps its contents. */
  lemma {:induction false} UnmatchedFieldKept(fs: Fields, rows: seq<Row>, show: real -> string, f: Field)
    requires AllNonEmpty(rows)
    requires forall k :: 0 <= k < |rows| ==> !Matches(f, KeyOf(rows[k], show))
    ensures Get(AutoPopulate(fs, rows, show), f) == Get(fs, f)
  {
    if |rows| > 0 {
      UnmatchedFieldKept(fs, rows[..|rows| - 1], show, f);
    }
  }

  /** The last row that mentions a field decides its contents: that row's
      last cell, whatever earlier rows wrote. */
  lemma {:induction false} LastMatchWins(fs: Fields, rows: seq<Row>, show: real -> string, f: Field, k: nat)
    requires AllNonEmpty(rows)
    requires k < |rows| && Matches(f, KeyOf(rows[k], show))
    requires forall j :: k < j < |rows| ==> !Matches(f, KeyOf(rows[j], show))
    ensures Get(AutoPopulate(fs, rows, show), f) == LastCell(rows[k])
  {
    var n := |rows| - 1;
    var front := rows[..n];
    var prev := AutoPopulate(fs, front, show);
    assert AutoPopulate(fs, rows, show) == ApplyRow(prev, rows[n], show);
    if k < n {
      assert forall j :: 0 <= j < n ==> front[j] == rows[j];
      assert AllNonEmpty(front);
      assert front[k] == rows[k];
      assert forall j :: k < j < n ==> !Matches(f, KeyOf(front[j], show));
      LastMatchWins(fs, front, show, f, k);
      assert Get(prev, f) == LastCell(rows[k]);
      assert !Matches(f, KeyOf(rows[n], show));
      assert Get(ApplyRow(prev, rows[n], show), f) == Get(prev, f);
    } else {
      assert Matches(f, KeyOf(rows[n], show));
      assert Get(ApplyRow(prev, rows[n], show), f) == LastCell(rows[n]);
    }
  }

  /** Applying two blocks of rows one after the other is applying the joined block. */
  lemma {:induction false} AutoPopulateConcat(fs: Fields, a: seq<Row>, b: seq<Row>, show: real -> string)
    requires AllNonEmpty(a) && AllNonEmpty(b)
    ensures AllNonEmpty(a + b)
    ensures AutoPopulate(fs, a + b, show) == AutoPopulate(AutoPopulate(fs, a, show), b, show)
  {
    if |b| == 0 {
      assert a + b == a;
    } else {
      var n := |b| - 1;
      assert (a + b)[..|a + b| - 1] == a + b[..n];
      assert (a + b)[|a + b| - 1] == b[n];
      AutoPopulateConcat(fs, a, b[..n], show);
    }
  }

  /** The keyword test ignores case: a row labelled "UNITS" fills the units field. */
  lemma UpperCaseLabelRecognised(show: real -> string)
    ensures Matches(Units, KeyOf([Text("UNITS"), Num(12.0)], show))
  {
    var key := KeyOf([Text("UNITS"), Num(12.0)], show);
    assert key[0] == 'u' && key[1] == 'n' && key[2] == 'i' && key[3] == 't';
    assert key[0..4] == "unit";
    assert OccursAt(key, "unit", 0);
  }
}
