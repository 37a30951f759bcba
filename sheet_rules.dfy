/**
 * The value-level rules of the spreadsheet demo: the table of nullable
 * cells, the rectangle that `clear(from, to)` empties, the clamping of
 * `selectCell`, the arrow-key targets, and the selected/editing test of
 * `render`.
 */
module SheetRules {
  import opened Wrappers
  import opened Grids

  /** `DEFAULT_COLUMN_COUNT`, used for both dimensions. */
  const DefaultColumnCount: nat := 8

  /** `data[row][column]`; `None` is the source's `null`. */
  type Table = seq<seq<Option<string>>>

  /** A (row, column) pair as the source's two-element arrays hold it. */
  type Pos = (int, int)

  predicate Shaped(t: Table) {
    IsSquare(t, DefaultColumnCount)
  }

  predicate InSheet(p: Pos) {
    0 <= p.0 < DefaultColumnCount && 0 <= p.1 < DefaultColumnCount
  }

  /** The table that `clear()` builds: every cell `null`. */
  function Blank(): (t: Table)
    ensures Shaped(t)
    ensures forall x, y :: 0 <= x < |t| && 0 <= y < |t[x]| ==> t[x][y].None?
  {
    seq(DefaultColumnCount, x => seq(DefaultColumnCount, y => None))
  }

  /** The inclusive rectangle with corners `from` and `to`. */
  predicate InRect(x: int, y: int, from: Pos, to: Pos) {
    from.0 <= x <= to.0 && from.1 <= y <= to.1
  }

  /** The table after `clear(from, to)`. */
  function ClearRect(t: Table, from: Pos, to: Pos): (r: Table)
    requires Shaped(t)
    ensures Shaped(r)
    ensures forall x, y :: 0 <= x < |t| && 0 <= y < |t[x]| ==> r[x][y] == None || r[x][y] == t[x][y]
  {
    seq(|t|, x requires 0 <= x < |t| =>
      seq(|t[x]|, y requires 0 <= y < |t[x]| => if InRect(x, y, from, to) then None else t[x][y]))
  }

  /** Clearing a rectangle twice is clearing it once. */
  lemma ClearRectIdempotent(t: Table, from: Pos, to: Pos)
    requires Shaped(t)
    ensures ClearRect(ClearRect(t, from, to), from, to) == ClearRect(t, from, to)
  {
    var once := ClearRect(t, from, to);
    forall x | 0 <= x < |t| ensures ClearRect(once, from, to)[x] == once[x] {
    }
  }

  /** An inverted rectangle clears nothing. */
  lemma ClearRectEmpty(t: Table, from: Pos, to: Pos)
    requires Shaped(t)
    requires from.0 > to.0 || from.1 > to.1
    ensures ClearRect(t, from, to) == t
  {
    forall x | 0 <= x < |t| ensures ClearRect(t, from, to)[x] == t[x] {
    }
  }

  /** The whole-sheet rectangle gives what `clear()` gives. */
  lemma ClearRectWhole(t: Table)
    requires Shaped(t)
    ensures ClearRect(t, (0, 0), (DefaultColumnCount - 1, DefaultColumnCount - 1)) == Blank()
  {
    var whole := ClearRect(t, (0, 0), (DefaultColumnCount - 1, DefaultColumnCount - 1));
    forall x | 0 <= x < |t| ensures whole[x] == Blank()[x] {
    }
  }

  /**
   * `selectCell(row, column)` with anchor `anchor`: each coordinate is taken
   * from the argument when it is in range and kept from the anchor otherwise.
   */
  function Retarget(anchor: Pos, row: int, column: int): (r: Pos)
    ensures InSheet(anchor) ==> InSheet(r)
    ensures (r.0 == row || r.0 == anchor.0) && (r.1 == column || r.1 == anchor.1)
    ensures r.0 == row <== 0 <= row < DefaultColumnCount
    ensures r.1 == column <== 0 <= column < DefaultColumnCount
    ensures !(0 <= row < DefaultColumnCount) ==> r.0 == anchor.0
    ensures !(0 <= column < DefaultColumnCount) ==> r.1 == anchor.1
  {
    var newRow := if 0 <= row < DefaultColumnCount then row else anchor.0;
    var newColumn := if 0 <= column < DefaultColumnCount then column else anchor.1;
    (newRow, newColumn)
  }

  /** The key listener's first test: the key name begins with the five letters "Arrow". */
  predicate StartsWithArrow(key: string)
    ensures StartsWithArrow(key) <==> |key| >= 5 && key == "Arrow" + key[5..]
  {
    |key| >= 5 && key[..5] == "Arrow"
  }

  /** The step each of the four arrow keys asks for; other keys ask for none. */
  function ArrowDelta(key: string): (r: Option<Pos>)
    ensures r.Some? ==> StartsWithArrow(key)
    ensures r.Some? ==> -1 <= r.value.0 <= 1 && -1 <= r.value.1 <= 1 && (r.value.0 == 0 <==> r.value.1 != 0)
  {
    if key == "ArrowUp" then Some((-1, 0))
    else if key == "ArrowDown" then Some((1, 0))
    else if key == "ArrowLeft" then Some((0, -1))
    else if key == "ArrowRight" then Some((0, 1))
    else None
  }

  /**
   * An arrow key moves the anchor one cell in its direction, or leaves it
   * where it is when that cell is outside the sheet.
   */
  lemma ArrowStep(anchor: Pos, key: string)
    requires InSheet(anchor) && ArrowDelta(key).Some?
    ensures var d := ArrowDelta(key).value;
      var moved := (anchor.0 + d.0, anchor.1 + d.1);
      Retarget(anchor, moved.0, moved.1) == if InSheet(moved) then moved else anchor
  {
  }

  /** `render`'s "selected" test: inside the inclusive rectangle from the anchor to the other corner. */
  predicate IsSelected(down: Pos, up: Pos, x: int, y: int)
    ensures IsSelected(down, up, x, y) <==> InRect(x, y, down, up)
  {
    x >= down.0 && x <= up.0 && y >= down.1 && y <= up.1
  }

  /** `render`'s "editing" test: the anchor cell. */
  predicate IsEditing(down: Pos, x: int, y: int)
    ensures IsEditing(down, x, y) <==> IsSelected(down, down, x, y)
  {
    x == down.0 && y == down.1
  }

  /**
   * After `selectCell` both corners coincide, so the one selected cell is
   * the one being edited; while the rectangle is not inverted the edited
   * cell is always selected.
   */
  lemma SelectionAndEditing(down: Pos, up: Pos, x: int, y: int)
    ensures IsSelected(down, down, x, y) <==> IsEditing(down, x, y)
    ensures down.0 <= up.0 && down.1 <= up.1 && IsEditing(down, x, y) ==> IsSelected(down, up, x, y)
  {
  }

  /** Backspace clears exactly the cells `render` shows as selected. */
  lemma ClearRectIsSelection(t: Table, down: Pos, up: Pos)
    requires Shaped(t)
    ensures forall x, y :: 0 <= x < |t| && 0 <= y < |t[x]| ==>
      ClearRect(t, down, up)[x][y] == if IsSelected(down, up, x, y) then None else t[x][y]
  {
  }
}
