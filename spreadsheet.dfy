/**
 * The `responses` sheet as the script sees it through the spreadsheet service:
 * an object whose cells the script reads and writes one call at a time. Its
 * contents are the grid of module Table; each operation is specified by the
 * function of that module that describes its effect.
 */
module Spreadsheet {
  import opened Wrappers
  import opened Table

  /**
   * The exception a range with column 0 raises: `col(name)` is 0 when the
   * header row lacks the name, and getRange refuses it.
   */
  const RangeError: string := "Exception: The starting column of the range is too small."

  class Sheet {
    /** Row r of the sheet is rows[r - 1]. */
    var rows: Grid

    constructor (g: Grid)
      ensures rows == g
    {
      rows := g;
    }

    /** getLastRow(): the index of the last row, 0 for an empty sheet. */
    function LastRow(): (n: nat)
      reads this
      ensures forall r: nat, c: nat | r > n :: Cell(rows, r, c) == ""
    {
      |rows|
    }

    /** getLastColumn(): the last column in which some row has content, 0 when none has. */
    function LastColumn(): (w: nat)
      reads this
      ensures forall r: nat, c: nat | c > w :: Cell(rows, r, c) == ""
      ensures w == 0 || exists r: nat | 1 <= r <= |rows| :: Cell(rows, r, w) != ""
    {
      var w := Width(rows);
      WidthCovers(rows);
      if w == 0 then w
      else
        WidthAttained(rows);
        var i :| 0 <= i < |rows| && Used(rows[i]) == w;
        assert Cell(rows, i + 1, w) != "";
        w
    }

    /** appendRow(values): a new last row. */
    method AppendRow(values: Row)
      modifies this
      ensures rows == old(rows) + [values]
    {
      rows := rows + [values];
    }

    /** getRange(1, 1, 1, getLastColumn()).getValues()[0]: the header row, as wide as the sheet. */
    method HeaderValues() returns (h: Row)
      requires rows != []
      ensures h == HeaderOf(rows)
    {
      h := HeaderOf(rows);
    }

    /** getRange(r, c).getValue(): the cell's content; a range at column 0 raises an exception. */
    method GetValue(r: nat, c: nat) returns (v: Result<string>)
      requires r >= 1
      ensures c == 0 ==> v == Failure(RangeError)
      ensures c >= 1 ==> v == Success(Cell(rows, r, c))
    {
      if c == 0 {
        v := Failure(RangeError);
      } else {
        v := Success(Cell(rows, r, c));
      }
    }

    /** getRange(r, c).setValue(v): one cell replaced. */
    method SetValue(r: nat, c: nat, v: string)
      requires 1 <= r <= |rows| && c >= 1
      modifies this
      ensures rows == SetCell(old(rows), r, c, v)
    {
      rows := SetCell(rows, r, c, v);
    }

    /** getRange(r, c, 1, |vs|).setValues([vs]): consecutive cells of one row replaced. */
    method SetValues(r: nat, c: nat, vs: Row)
      requires 1 <= r <= |rows| && c >= 1
      modifies this
      ensures rows == SetCells(old(rows), r, c, vs)
    {
      rows := SetCells(rows, r, c, vs);
    }
  }
}
