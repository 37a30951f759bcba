# Chess rules engine and spreadsheet selection model

This project models the two state cores of a small browser demo in Dafny and proves properties of them.

- **Chess (`src/chess/app.js`).** The `Game` class holds an 8×8 grid of optional pieces indexed `pieces[file][rank]`, the active colour, a status string and a list of listeners.
  - `possibleMoves` builds a fixed offset table per piece type. It negates every offset when white is active, drops destinations that fall off the board, and ignores every other piece on the board.
  - `move` is a guarded in-place transaction on the grid. It returns the moved piece, or `null` with nothing changed.
  - `Piece.possibleMoves` is the same query without the polarity step.
  - The click handler of `Board` is a two-state selection rule.
- **Spreadsheet (`src/excel/app.js`).** `Sheet` owns an 8×8 table of nullable cells. It has a bounds-checked `setCell` and a `clear` that either rebuilds the table or nulls an inclusive rectangle in nested loops. `Controller` keeps the two selection corners `downSelected` and `upSelected` and a `dragging` flag, and updates them from mouse and key events. Its `render` decides which cells are "selected" and which is "editing".

Layout:

- `wrappers.dfy`: module `Wrappers`, the `Option` type standing for `null`.
- `chess_rules.dfy`: module `ChessRules`. This is the value level: pieces, offset tables, destination queries, the grid as a value, the move transaction as a function `Step` from one game state to the next, and the starting position.
- `chess_game.dfy`: module `ChessGame`. It holds the `Game` class over an `array2` and the `Board` selection handler. Their methods are proved against `Step` and `StartGrid`.
- `sheet_rules.dfy`: module `SheetRules`. This is the value level of the spreadsheet: the table, rectangle clearing, `selectCell` clamping, arrow keys, and the render predicate.
- `sheet.dfy`: module `Spreadsheet`. It holds the `Sheet` class over an `array2` and the `Controller` selection state and handlers.

Modelling decisions:

- Empty squares are `None`. The source uses `0` for squares never written and `null` for squares emptied by a move. Both are falsy and are treated alike by `move`.
- A `Piece` carries an `id` that stands for the identity of the object the source allocates. Ids follow allocation order in `#seed`. This lets the model say that a captured piece is on no square afterwards.
- `getPiece([x, y])` throws when `x` is outside 0..7, so `x` in range is a precondition. A rank outside 0..7 reads `undefined`, which the model treats as empty. So `move` from such a square returns `None`.
- `move` returns `null` for each of its three failures (no piece, wrong colour, destination not offered). The model returns `None` for all three and does not tell them apart.
- The listeners are modelled as ids. A call is recorded as a `Notification` of the id and a value snapshot `{status, grid, active}`, appended to `notified` in registration order.
- `Game.status` is `"ready"` and never changes.

## Model

| member | source | states |
|---|---|---|
| ChessRules.Offsets | src/chess/app.js:161-194 | every offset of every piece's table is nonzero; the table sizes are 4 (pawn), 8 (knight, king), 28 (rook, bishop), 56 (queen) |
| ChessRules.Sweep | src/chess/app.js:168-189 | the offsets the sliding pieces' loops push for steps 1 to 7 number one ring per step and are never (0, 0) |
| ChessRules.Mirror | src/chess/app.js:196-198 | the polarity step: the offset multiplied on both axes by 1 with black active and by -1 with white active |
| ChessRules.Ring | src/chess/app.js:170-188 | one loop iteration of a sliding piece pushes 4 (rook, bishop) or 8 (queen) offsets, none of them (0, 0) for a nonzero step |
| ChessRules.ScaleAppend | src/chess/app.js:196-198 | the polarity step distributes over concatenation, so each loop iteration's offsets are scaled on their own |
| ChessRules.ScaleBlack | src/chess/app.js:196-198 | with black active (polarity 1) the polarity step leaves the table unchanged |
| ChessRules.ScaleTwice | src/chess/app.js:196-198 | applying the polarity step twice restores the table, for either colour |
| ChessRules.GameMoves | src/chess/app.js:158-210 | `Game.possibleMoves` gives at most as many squares as the piece's table has, all on the board; its membership is characterised by GameMovesShape |
| ChessRules.PieceMoves | src/chess/app.js:39-83 | `Piece.possibleMoves` gives at most as many squares as the piece's table has, all on the board |
| ChessRules.Targets | src/chess/app.js:200-209 | the off-board filter followed by the translation by `from` yields only squares on the board, never more than the table has |
| ChessRules.TargetsMember | src/chess/app.js:200-209 | a square is in the filtered, translated list exactly when it is on the board and is `from` plus some offset of the list |
| ChessRules.GameMovesShape | src/chess/app.js:158-210 | a square is a destination of `Game.possibleMoves` exactly when it lies in [0,7]×[0,7] and equals `from + polarity·o` for an offset `o` of the piece's table; the query reads only `from`, the type and the active colour |
| ChessRules.NeverStays | src/chess/app.js:163-206 | no destination ever equals the origin, for any piece type and either active colour |
| ChessRules.PieceMovesAreBlackMoves | src/chess/app.js:39-83 | `Piece.possibleMoves(from)` equals `Game.possibleMoves(from)` whenever black is active |
| ChessRules.PawnDirection | src/chess/app.js:164-167 | every pawn destination increases the rank with black active and decreases it with white active; the one- and two-step forward squares are offered whenever they are on the board |
| ChessRules.RookCornerCount | src/chess/app.js:168-173 | a rook at (0,0) has exactly 14 destinations with either colour active, whatever else is on the board |
| ChessRules.KnightCentreCount | src/chess/app.js:174-177 | a knight at least two squares from every edge, (3,3) among them, has exactly 8 destinations |
| ChessRules.KnightCornerCount | src/chess/app.js:174-177 | a knight at (0,0) has exactly 2 destinations with either colour active |
| ChessRules.KingInteriorCount | src/chess/app.js:190-193 | a king off every edge has exactly 8 destinations |
| ChessRules.At | src/chess/app.js:117-119 | `getPiece` finds a piece only on a square of the board; ranks outside 0..7 read as empty |
| ChessRules.Put | src/chess/app.js:142-143 | one in-place cell write sets that square and leaves every other square as it was |
| ChessRules.PutCount | src/chess/app.js:142-143 | one cell write changes the number of pieces by what arrives minus what it overwrites |
| ChessRules.NotifyAppend | src/chess/app.js:146-150 | notifying two groups of listeners in turn equals notifying them together, in registration order; this is the step the notification loop relies on |
| ChessRules.Legal | src/chess/app.js:122-137 | the three guards of `move` pass only for a piece on the board, moving to a square on the board other than its own |
| ChessRules.Selectable | src/chess/app.js:292-295 | the first-click test holds only on the board, and holds at the origin of every legal move |
| ChessRules.Step | src/chess/app.js:121-156 | a move never changes the status or the listeners; the turn passes exactly when the three guards pass, and then each listener receives one notification |
| ChessRules.StepRejected | src/chess/app.js:125-155 | an empty origin, a piece not of the active colour, or a destination not offered leaves grid, active colour, listeners and notifications untouched |
| ChessRules.StepApplies | src/chess/app.js:138-151 | after a legal move the destination holds the moved piece, the origin is empty, every other square is unchanged, the active colour is flipped, and each listener is notified once in order with `{status, pieces, active}` |
| ChessRules.StepCount | src/chess/app.js:142-143 | capture by overwrite: the number of pieces drops by one exactly when the destination was occupied and is unchanged otherwise |
| ChessRules.StepUnique | src/chess/app.js:142-143 | a move never puts one piece object on two squares |
| ChessRules.StepCapturedGone | src/chess/app.js:142-143 | the piece that stood on the destination, of either colour, is on no square after the move |
| ChessRules.StartLayout | src/chess/app.js:106-111 | starting position: black back rank in `initPieces` order on rank 0, black pawns on rank 1, white pawns on rank 6, white back rank reversed on rank 7 (white king on file 3, queen on file 4), ranks 2–5 empty, every piece object on one square |
| ChessRules.StartAt | src/chess/app.js:106-111 | `#seed` fills exactly ranks 0, 1, 6 and 7; black on ranks 0 and 1, white on 6 and 7; pawns exactly on ranks 1 and 6; the piece objects are numbered 0..31 in allocation order, so an id taken modulo 8 gives its file |
| ChessRules.StartGrid | src/chess/app.js:106-111 | the 8×8 grid holding the StartAt occupant on every square; its layout is the StartLayout lemma |
| ChessGame.Game.constructor | src/chess/app.js:92-111 | a new game holds the starting position, black is active, the status is "ready", and there are no listeners |
| ChessGame.Game.Seed | src/chess/app.js:106-111 | the four seeding passes over an empty grid produce exactly the starting position |
| ChessGame.Game.AddListener | src/chess/app.js:113-115 | the listener is appended after those already registered |
| ChessGame.Game.GetPiece | src/chess/app.js:117-119 | reads the grid cell in place, empty for a rank outside the board |
| ChessGame.Game.PossibleMoves | src/chess/app.js:158-210 | the destinations depend only on the origin, the piece's type and the active colour; all lie on the board and differ from the origin |
| ChessGame.Game.Relocate | src/chess/app.js:142-143 | after the two writes the destination holds the piece, the origin is empty, and every other square is unchanged |
| ChessGame.Game.NotifyListeners | src/chess/app.js:146-150 | the `forEach` over the listeners appends one notification per listener, in registration order |
| ChessGame.Game.Move | src/chess/app.js:121-156 | returns the piece exactly when the three guards pass, and then applies `Step` in place; otherwise it returns `None` and grid, active colour and notifications are unchanged; no piece object is ever on two squares |
| ChessGame.Board.constructor | src/chess/app.js:273-280 | a new board has nothing selected and registers its render callback as the game's next listener |
| ChessGame.Board.HandleSquareSelect | src/chess/app.js:282-299 | with a square selected, a click clears the selection and attempts `move(selected, clicked)`; with none, a click selects the square exactly when it holds a piece of the active colour and leaves the game unchanged |
| Spreadsheet.Sheet.constructor | src/excel/app.js:13-21 | a new sheet has 8 columns and 8 rows and every cell `null` |
| Spreadsheet.Sheet.SetCell | src/excel/app.js:23-29 | in range it writes exactly `data[row][column] = value` and no other cell; with `row` or `column` out of range no cell changes |
| Spreadsheet.Sheet.Clear | src/excel/app.js:31-42 | with no bounds the table becomes a fresh all-`null` table from any state; with two bounds exactly the cells of the inclusive rectangle become `null` and all others keep their values |
| SheetRules.Blank | src/excel/app.js:32-33 | the table `clear()` builds is 8×8 with every cell `null` |
| SheetRules.ClearRect | src/excel/app.js:34-39 | the rectangle form of `clear` keeps the 8×8 shape and never writes a value: every cell ends `null` or as it was; ClearRectIsSelection says which |
| SheetRules.ClearRectIdempotent | src/excel/app.js:35-39 | clearing the same rectangle twice equals clearing it once |
| SheetRules.ClearRectEmpty | src/excel/app.js:35-39 | a rectangle with `from[0] > to[0]` or `from[1] > to[1]` clears nothing |
| SheetRules.ClearRectWhole | src/excel/app.js:31-40 | clearing the rectangle (0,0)..(7,7) gives the same table as `clear()` |
| SheetRules.Retarget | src/excel/app.js:143-152 | each coordinate comes from the argument exactly when it is in range and from the old anchor otherwise, so an anchor on the sheet stays on the sheet |
| Spreadsheet.Controller.constructor | src/excel/app.js:128-141 | a new controller is not dragging and has neither corner set |
| Spreadsheet.Controller.SelectCell | src/excel/app.js:143-152 | both corners become the clamped anchor (`downSelected == upSelected`) and stay on the sheet |
| SheetRules.StartsWithArrow | src/excel/app.js:213 | the key name is "Arrow" followed by the rest of the name |
| SheetRules.ArrowDelta | src/excel/app.js:214-229 | only keys whose name begins with "Arrow" ask for a step, and every step moves by exactly one row or one column |
| SheetRules.ArrowStep | src/excel/app.js:213-226 | ArrowUp, ArrowDown, ArrowLeft and ArrowRight move the anchor by one row or column, and keep it where it is at an edge |
| Spreadsheet.Controller.MouseDown | src/excel/app.js:174-180 | mousedown on (x,y) sets both corners to (x,y) and starts dragging |
| Spreadsheet.Controller.MouseUp | src/excel/app.js:181-186 | mouseup on (x,y) moves only the far corner to (x,y) and stops dragging |
| Spreadsheet.Controller.KeyUp | src/excel/app.js:212-235 | an arrow key collapses the selection onto the moved anchor; any other key starting with "Arrow" changes nothing; Backspace clears exactly the rectangle `downSelected..upSelected`, or the whole sheet when no corner is set; any other key changes nothing |
| SheetRules.IsSelected | src/excel/app.js:255-257 | a cell is shown selected exactly when it lies in the inclusive rectangle that `clear(downSelected, upSelected)` would empty |
| SheetRules.IsEditing | src/excel/app.js:259-261 | a cell is shown editing exactly when it is the one selected cell of the rectangle collapsed onto the anchor |
| SheetRules.SelectionAndEditing | src/excel/app.js:255-261 | when both corners coincide the single selected cell is the editing cell; in a non-inverted rectangle the editing cell is always selected |
| SheetRules.ClearRectIsSelection | src/excel/app.js:231-233 | Backspace nulls exactly the cells that `render` shows as selected and keeps every other cell |

## Left out

- Rendering and DOM: `Piece.mount`/`render`, `Square`, the chess `Controller`, `Board.mount`/`render` and its highlighting, the top-level `render`, the `window` globals; in the spreadsheet `Cell`, `Form`, the element creation in `Controller.mount` and `Controller.render`'s DOM updates. This is browser I/O. Only the selected/editing test of `render` is modelled.
- `console.log` / `console.error` output. It is logging only.
- What listeners do with the snapshot. The source hands them the live `pieces` array; the model records a value copy, so aliasing through the snapshot is not captured.
- Save/load in `Form`. It only logs or calls `clear()`, and there is no persistence to model.
- `initPieces.reverse()` reverses the module-level list in place, so a second `Game` would seed a reversed black back rank. The model seeds one game from the list as written and gives no multi-game guarantee.
- The `Piece` constructor's check for an invalid colour or type. The model's colour and type are enumerations, so no invalid piece can be built.
- The rules promised in the header comments (friendly-fire blocking, a random first player, winning by king capture). The code does not implement them, and `status` stays `"ready"`.
- `possibleMoves` on an empty square is a precondition. The source returns `[]` on a never-written square (`0.type` is `undefined`) and throws on an emptied one (`null.type`).
- `setCell` with a negative row and any column below `columnCount`, negative columns included, throws in the source, because the row is `undefined`. So it is a precondition. With a row in 0..7 and a negative column, the source writes a non-index property of the row array; the model keeps the cells unchanged.
- `clear(from, to)` with a non-empty rectangle that reaches off the sheet is a precondition. Off-sheet rows throw in the source; off-sheet columns grow a row array or add properties to it. `clear` with only one bound throws and is a precondition too.
- Spreadsheet.Controller.constructor: models only the field setup of the source. In the source the constructor never returns normally. It calls `mount`, which ends with `render`. `Cell` never stores a `value`, so the skip test in `render` never fires, and the selected test then reads `downSelected[0]` while `downSelected` is still `null`, which throws. The key listener and the cell handlers are attached before that point, so the selection state and its handlers stay reachable, as modelled.
- The spreadsheet `Controller`'s default argument `sheet = new Sheet()` and its "no root node" error. The model takes the sheet as a parameter and has no root node.
- `selectCell` and the arrow keys before `downSelected` is set throw, so they are preconditions. So is Backspace with only one corner set.
- The `onfocus` option that `Controller.mount` passes to `Cell`. `Cell` reads `onFocus` and attaches no focus handler, so it never runs.
- `render`'s `cellCmp.value` skip check. It compares a property of the DOM component, which `Cell` never sets.
- Coordinates are unbounded integers. JavaScript numbers are doubles, but every coordinate here is small.
- ChessRules.GameMovesShape: states which squares are destinations, not that they come in the order of the offset table. The order is fixed by the definition of `Targets`, which keeps the table order.
