/**
 * The stateful part of the spreadsheet demo: `Sheet`, which owns the table
 * and writes it in place, and the selection state of `Controller` with its
 * mouse and key handlers. Element creation and rendering are not modelled.
 */
module Spreadsheet {
  import opened Wrappers
  import opened SheetRules
  import opened Grids

  class Sheet {
    const columnCount: int
    const rowCount: int
    var data: array2<Option<string>>

    ghost predicate Valid()
      reads this
    {
      columnCount == DefaultColumnCount && rowCount == DefaultColumnCount &&
      data.Length0 == columnCount && data.Length1 == rowCount
    }

    /** The table as a value, `data[row][column]`. */
    function Cells(): (t: Table)
      reads this`data, data
      requires data.Length0 == DefaultColumnCount && data.Length1 == DefaultColumnCount
      ensures SheetRules.Shaped(t)
      ensures forall x, y :: 0 <= x < DefaultColumnCount && 0 <= y < DefaultColumnCount ==> t[x][y] == data[x, y]
    {
      var a := data;
      seq(DefaultColumnCount, x requires 0 <= x < DefaultColumnCount reads a =>
        seq(DefaultColumnCount, y requires 0 <= y < DefaultColumnCount reads a => a[x, y]))
    }

    /** A new sheet: 8 columns, 8 rows, every cell `null`. */
    constructor ()
      ensures Valid() && fresh(data)
      ensures columnCount == 8 && rowCount == 8
      ensures Cells() == Blank()
    {
      columnCount := DefaultColumnCount;
      rowCount := DefaultColumnCount;
      data := new Option<string>[DefaultColumnCount, DefaultColumnCount]((_, _) => None);
      new;
      Clear(None, None);
    }

    /**
     * `setCell(row, column, value)`: writes exactly that cell when both
     * indexes are in range and changes nothing otherwise. A negative row
     * with a column below `columnCount` makes the source throw, so callers
     * must not pass one; a negative column lands outside the cells.
     */
    method SetCell(row: int, column: int, value: Option<string>)
      requires Valid()
      requires row < 0 ==> column >= columnCount
      modifies data
      ensures Valid()
      ensures forall x, y :: 0 <= x < data.Length0 && 0 <= y < data.Length1 ==>
        data[x, y] == if x == row && y == column then value else old(data[x, y])
      ensures !(0 <= row < data.Length0 && 0 <= column < columnCount) ==> Cells() == old(Cells())
    {
      if row < data.Length0 && column < columnCount {
        if 0 <= column {
          data[row, column] := value;
        }
      }
      if !(0 <= row < data.Length0 && 0 <= column < columnCount) {
        SquareEquality(Cells(), old(Cells()), DefaultColumnCount);
      }
    }

    /**
     * `clear(from, to)`. With neither bound it replaces the table by a
     * fresh blank one. With both it nulls the inclusive rectangle in two
     * nested loops; a rectangle that is not inverted must lie on the sheet.
     * With only one bound the source throws, so callers must not do that.
     */
    method Clear(from: Option<Pos>, to: Option<Pos>)
      requires data.Length0 == DefaultColumnCount && data.Length1 == DefaultColumnCount
      requires columnCount == DefaultColumnCount && rowCount == DefaultColumnCount
      requires from.Some? <==> to.Some?
      requires from.Some? && from.value.0 <= to.value.0 && from.value.1 <= to.value.1 ==>
        InSheet(from.value) && InSheet(to.value)
      modifies this`data, data
      ensures Valid()
      ensures from.None? ==> fresh(data) && Cells() == Blank()
      ensures from.Some? ==> data == old(data) && Cells() == ClearRect(old(Cells()), from.value, to.value)
    {
      if from.None? && to.None? {
        data := new Option<string>[columnCount, rowCount]((_, _) => None);
        SquareEquality(Cells(), Blank(), DefaultColumnCount);
      } else {
        var lo, hi := from.value, to.value;
        var x := lo.0;
        while x <= hi.0
          invariant data == old(data)
          invariant x == lo.0 || lo.0 <= x <= hi.0 + 1
          invariant forall i, j :: 0 <= i < 8 && 0 <= j < 8 ==>
            data[i, j] == if lo.0 <= i < x && lo.1 <= j <= hi.1 then None else old(data[i, j])
        {
          var y := lo.1;
          while y <= hi.1
            invariant data == old(data)
            invariant y == lo.1 || lo.1 <= y <= hi.1 + 1
            invariant forall i, j :: 0 <= i < 8 && 0 <= j < 8 ==>
              data[i, j] == if (lo.0 <= i < x && lo.1 <= j <= hi.1) || (i == x && lo.1 <= j < y) then None
                            else old(data[i, j])
          {
            data[x, y] := None;
            y := y + 1;
          }
          x := x + 1;
        }
        SquareEquality(Cells(), ClearRect(old(Cells()), lo, hi), DefaultColumnCount);
      }
    }
  }

  /** The selection state of the spreadsheet view. */
  class Controller {
    const sheet: Sheet
    var dragging: bool
    var downSelected: Option<Pos>
    var upSelected: Option<Pos>

    ghost predicate Valid()
      reads this, sheet
    {
      sheet.Valid() &&
      (downSelected.Some? ==> InSheet(downSelected.value)) &&
      (upSelected.Some? ==> InSheet(upSelected.value))
    }

    constructor (sheet: Sheet)
      requires sheet.Valid()
      ensures Valid() && this.sheet == sheet
      ensures !dragging && downSelected == None && upSelected == None
    {
      this.sheet := sheet;
      dragging := false;
      downSelected := None;
      upSelected := None;
    }

    /**
     * `selectCell(row, column)`: both corners become the anchor retargeted
     * coordinate by coordinate; the selection stays on the sheet.
     */
    method SelectCell(row: int, column: int)
      requires Valid() && downSelected.Some?
      modifies this`downSelected, this`upSelected
      ensures Valid()
      ensures downSelected == upSelected == Some(Retarget(old(downSelected).value, row, column))
    {
      var newRow := downSelected.value.0;
      var newColumn := downSelected.value.1;
      if row >= 0 && row < sheet.rowCount {
        newRow := row;
      }
      if column >= 0 && column < sheet.columnCount {
        newColumn := column;
      }
      downSelected := Some((newRow, newColumn));
      upSelected := Some((newRow, newColumn));
    }

    /** The cell's `onMouseDown`: both corners on the cell, dragging on. */
    method MouseDown(x: int, y: int)
      requires Valid() && InSheet((x, y))
      modifies this`downSelected, this`upSelected, this`dragging
      ensures Valid()
      ensures downSelected == Some((x, y)) && upSelected == Some((x, y)) && dragging
    {
      downSelected := Some((x, y));
      upSelected := Some((x, y));
      dragging := true;
    }

    /** The cell's `onMouseUp`: only the far corner moves, dragging off. */
    method MouseUp(x: int, y: int)
      requires Valid() && InSheet((x, y))
      modifies this`upSelected, this`dragging
      ensures Valid()
      ensures upSelected == Some((x, y)) && !dragging && downSelected == old(downSelected)
    {
      upSelected := Some((x, y));
      dragging := false;
    }

    /**
     * The root's `keyup` listener. The four arrow keys retarget the anchor
     * by one cell; other keys starting with "Arrow" do nothing; Backspace
     * clears the rectangle between the corners, or the whole sheet when no
     * corner is set; every other key does nothing.
     */
    method KeyUp(key: string)
      requires Valid()
      requires StartsWithArrow(key) && ArrowDelta(key).Some? ==> downSelected.Some?
      requires !StartsWithArrow(key) && key == "Backspace" ==> (downSelected.Some? <==> upSelected.Some?)
      modifies this`downSelected, this`upSelected, sheet`data, sheet.data
      ensures Valid() && dragging == old(dragging)
      ensures StartsWithArrow(key) ==> sheet.data == old(sheet.data) && sheet.Cells() == old(sheet.Cells())
      ensures StartsWithArrow(key) && ArrowDelta(key).Some? ==>
        var a := old(downSelected).value;
        var d := ArrowDelta(key).value;
        downSelected == upSelected == Some(Retarget(a, a.0 + d.0, a.1 + d.1))
      ensures StartsWithArrow(key) && ArrowDelta(key).None? ==>
        downSelected == old(downSelected) && upSelected == old(upSelected)
      ensures !StartsWithArrow(key) ==> downSelected == old(downSelected) && upSelected == old(upSelected)
      ensures !StartsWithArrow(key) && key == "Backspace" && old(downSelected).Some? ==>
        sheet.data == old(sheet.data) &&
        sheet.Cells() == ClearRect(old(sheet.Cells()), old(downSelected).value, old(upSelected).value)
      ensures !StartsWithArrow(key) && key == "Backspace" && old(downSelected).None? ==>
        fresh(sheet.data) && sheet.Cells() == Blank()
      ensures !StartsWithArrow(key) && key != "Backspace" ==>
        sheet.data == old(sheet.data) && sheet.Cells() == old(sheet.Cells())
    {
      if StartsWithArrow(key) {
        var delta := ArrowDelta(key);
        if delta.Some? {
          var a := downSelected.value;
          SelectCell(a.0 + delta.value.0, a.1 + delta.value.1);
        }
      } else if key == "Backspace" {
        sheet.Clear(downSelected, upSelected);
      }
    }
  }
}
