/**
 * Opening the `responses` sheet (`getSheet_`) and completing its header row
 * (`ensureExtraHeaders_`), as steps on the sheet object.
 */
module SheetSetup {
  import opened Table
  import opened Spreadsheet

  /**
   * ensureExtraHeaders_: reads the header row, keeps the extra headers it lacks
   * and writes them in one range right after the last column.
   */
  method EnsureExtraHeaders(sheet: Sheet)
    requires sheet.rows != []
    modifies sheet
    ensures sheet.rows == HeaderRepair(old(sheet.rows))
  {
    var headerRow := sheet.HeaderValues();
    var missing := Absent(ExtraHeaders, headerRow);
    if |missing| > 0 {
      sheet.SetValues(1, sheet.LastColumn() + 1, missing);
    }
  }

  /**
   * getSheet_: an empty sheet receives the full header row, any other sheet
   * has its header row completed; afterwards every extra header is present.
   */
  method GetSheet(sheet: Sheet)
    modifies sheet
    ensures sheet.rows == Prepared(old(sheet.rows))
    ensures HasExtraHeaders(sheet.rows[0])
  {
    if sheet.LastRow() == 0 {
      sheet.AppendRow(FullHeader);
    } else {
      EnsureExtraHeaders(sheet);
    }
    PreparedHasExtraHeaders(old(sheet.rows));
  }
}
