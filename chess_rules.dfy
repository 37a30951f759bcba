/**
 * The value-level rules of the chess demo: pieces, the per-type offset
 * tables, the destination query shared by `Game.possibleMoves` and
 * `Piece.possibleMoves`, the board as a value, and the move transaction
 * as a function from one game state to the next.
 */
module ChessRules {
  import opened Wrappers
  import opened Grids

  datatype Color = Black | White
  datatype Kind = Pawn | Rook | Knight | Bishop | Queen | King

  /** A piece; `id` stands for the identity of the object the source allocates. */
  datatype Piece = Piece(color: Color, kind: Kind, id: nat)

  /** A (file, rank) pair; coordinates are unbounded so that off-board squares can be named. */
  datatype Square = Square(x: int, y: int)

  type Offset = (int, int)

  predicate OnBoard(s: Square) {
    0 <= s.x < 8 && 0 <= s.y < 8
  }

  function Shift(from: Square, o: Offset): Square {
    Square(from.x + o.0, from.y + o.1)
  }

  function Flip(c: Color): Color {
    if c == White then Black else White
  }

  // ---------------------------------------------------------------------
  // Offset tables

  /** The offsets one iteration `i` of a sliding piece's `for` loop pushes. */
  function Ring(k: Kind, i: int): (r: seq<Offset>)
    ensures |r| == match k
      case Rook => 4
      case Bishop => 4
      case Queen => 8
      case _ => 0
    ensures i != 0 ==> forall o :: o in r ==> o != (0, 0)
  {
    match k
    case Rook => [(i, 0), (-i, 0), (0, i), (0, -i)]
    case Bishop => [(i, i), (-i, -i), (i, -i), (-i, i)]
    case Queen => [(i, 0), (-i, 0), (0, i), (0, -i), (i, i), (-i, -i), (i, -i), (-i, i)]
    case _ => []
  }

  /** The offsets pushed by the loop iterations `i`, `i + 1`, ..., 7, in push order. */
  function Sweep(k: Kind, i: nat): (r: seq<Offset>)
    requires 1 <= i
    ensures |r| == if i < 8 then |Ring(k, 1)| * (8 - i) else 0
    ensures forall o :: o in r ==> o != (0, 0)
    decreases 8 - i
  {
    if i >= 8 then [] else Ring(k, i) + Sweep(k, i + 1)
  }

  /** The offset table the source builds for a piece type, before polarity. */
  function Offsets(k: Kind): (r: seq<Offset>)
    ensures forall o :: o in r ==> o != (0, 0)
    ensures |r| == match k
      case Pawn => 4
      case Knight => 8
      case King => 8
      case Rook => 28
      case Bishop => 28
      case Queen => 56
  {
    match k
    case Pawn => [(0, 1), (0, 2), (1, 1), (-1, 1)]
    case Knight => [(1, 2), (1, -2), (-1, 2), (-1, -2), (2, 1), (2, -1), (-2, 1), (-2, -1)]
    case King => [(1, 0), (-1, 0), (0, 1), (0, -1), (1, 1), (-1, -1), (1, -1), (-1, 1)]
    case _ => Sweep(k, 1)
  }

  function Polarity(active: Color): int {
    if active == Black then 1 else -1
  }

  /**
   * One offset multiplied by the polarity on both axes. Since the polarity
   * is 1 or -1, this is the offset itself or its negation.
   */
  function Mirror(o: Offset, active: Color): (r: Offset)
    ensures r == (o.0 * Polarity(active), o.1 * Polarity(active))
  {
    if active == Black then o else (-o.0, -o.1)
  }

  /** The polarity step: every offset of the table multiplied by the active colour's polarity, in table order. */
  function Scale(offs: seq<Offset>, active: Color): (r: seq<Offset>)
    ensures |r| == |offs|
    ensures forall j :: 0 <= j < |offs| ==> r[j] == Mirror(offs[j], active)
  {
    seq(|offs|, j requires 0 <= j < |offs| => Mirror(offs[j], active))
  }

  /** Polarity distributes over concatenation, so each loop iteration's offsets are scaled on their own. */
  lemma ScaleAppend(a: seq<Offset>, b: seq<Offset>, active: Color)
    ensures Scale(a + b, active) == Scale(a, active) + Scale(b, active)
  {
    assert forall j :: 0 <= j < |a + b| ==> (a + b)[j] == if j < |a| then a[j] else b[j - |a|];
  }

  /** With black active the polarity step is the identity. */
  lemma ScaleBlack(offs: seq<Offset>)
    ensures Scale(offs, Black) == offs
  {
  }

  /** Negating twice restores the table, whichever colour is active. */
  lemma ScaleTwice(offs: seq<Offset>, active: Color)
    ensures Scale(Scale(offs, active), active) == offs
  {
  }

  // ---------------------------------------------------------------------
  // Destinations

  /**
   * The off-board filter followed by the translation by `from`: the
   * in-board squares `from + o`, in the order of `offs`.
   */
  function Targets(from: Square, offs: seq<Offset>): (r: seq<Square>)
    ensures |r| <= |offs|
    ensures forall t :: t in r ==> OnBoard(t)
  {
    if offs == [] then []
    else
      var t := Shift(from, offs[0]);
      (if OnBoard(t) then [t] else []) + Targets(from, offs[1..])
  }

  /** Membership in `Targets`: on the board and reached by some offset of the table. */
  lemma {:induction false} TargetsMember(from: Square, offs: seq<Offset>, t: Square)
    ensures t in Targets(from, offs) <==>
      OnBoard(t) && exists j :: 0 <= j < |offs| && t == Shift(from, offs[j])
  {
    if offs != [] {
      TargetsMember(from, offs[1..], t);
      if exists j :: 0 <= j < |offs| && t == Shift(from, offs[j]) {
        var j :| 0 <= j < |offs| && t == Shift(from, offs[j]);
        if j > 0 {
          assert t == Shift(from, offs[1..][j - 1]);
        }
      }
      if exists j :: 0 <= j < |offs[1..]| && t == Shift(from, offs[1..][j]) {
        var j :| 0 <= j < |offs[1..]| && t == Shift(from, offs[1..][j]);
        assert t == Shift(from, offs[j + 1]);
      }
    }
  }

  /** `Game.possibleMoves`: the table of the piece's type, scaled by the active colour's polarity. */
  function GameMoves(from: Square, k: Kind, active: Color): (r: seq<Square>)
    ensures |r| <= |Offsets(k)|
    ensures forall t :: t in r ==> OnBoard(t)
  {
    Targets(from, Scale(Offsets(k), active))
  }

  /** `Piece.possibleMoves`: the same table without the polarity step. */
  function PieceMoves(from: Square, k: Kind): (r: seq<Square>)
    ensures |r| <= |Offsets(k)|
    ensures forall t :: t in r ==> OnBoard(t)
  {
    Targets(from, Offsets(k))
  }

  lemma {:induction false} TargetsAppend(from: Square, a: seq<Offset>, b: seq<Offset>)
    ensures Targets(from, a + b) == Targets(from, a) + Targets(from, b)
  {
    if a == [] {
      assert a + b == b;
    } else {
      assert (a + b)[1..] == a[1..] + b;
      TargetsAppend(from, a[1..], b);
    }
  }

  /** The length of `Targets` grows by one exactly when the first offset stays on the board. */
  lemma TargetsCons(from: Square, o: Offset, rest: seq<Offset>)
    ensures |Targets(from, [o] + rest)| == (if OnBoard(Shift(from, o)) then 1 else 0) + |Targets(from, rest)|
  {
    assert ([o] + rest)[1..] == rest;
  }

  lemma {:induction false} TargetsAllOnBoard(from: Square, offs: seq<Offset>)
    requires forall j :: 0 <= j < |offs| ==> OnBoard(Shift(from, offs[j]))
    ensures |Targets(from, offs)| == |offs|
  {
    if offs != [] {
      assert forall j :: 0 <= j < |offs[1..]| ==> offs[1..][j] == offs[j + 1];
      TargetsAllOnBoard(from, offs[1..]);
    }
  }

  /**
   * Shape of the result: a square is a destination exactly when it is on
   * the board and equals `from + polarity * o` for an offset `o` of the
   * piece's table.
   */
  lemma GameMovesShape(from: Square, k: Kind, active: Color, t: Square)
    ensures t in GameMoves(from, k, active) <==>
      OnBoard(t) && exists o :: o in Offsets(k) && t == Shift(from, Mirror(o, active))
  {
    var offs := Offsets(k);
    var sc := Scale(offs, active);
    TargetsMember(from, sc, t);
    if t in Targets(from, sc) {
      var j :| 0 <= j < |sc| && t == Shift(from, sc[j]);
      assert offs[j] in offs;
    }
    if OnBoard(t) && exists o :: o in offs && t == Shift(from, Mirror(o, active)) {
      var o :| o in offs && t == Shift(from, Mirror(o, active));
      var j :| 0 <= j < |offs| && offs[j] == o;
      assert Shift(from, sc[j]) == t;
    }
  }

  /** No destination is the origin: every offset is nonzero, before and after polarity. */
  lemma NeverStays(from: Square, k: Kind, active: Color)
    ensures from !in GameMoves(from, k, active)
  {
    var offs := Offsets(k);
    var sc := Scale(offs, active);
    forall j | 0 <= j < |sc| ensures sc[j] != (0, 0) {
      assert offs[j] in offs;
    }
    TargetsMissOrigin(from, sc);
  }

  lemma TargetsMissOrigin(from: Square, offs: seq<Offset>)
    requires forall j :: 0 <= j < |offs| ==> offs[j] != (0, 0)
    ensures from !in Targets(from, offs)
  {
    forall j | 0 <= j < |offs| ensures Shift(from, offs[j]) != from {
    }
    TargetsMember(from, offs, from);
  }

  /** With black active the polarity is 1, so the two queries agree. */
  lemma PieceMovesAreBlackMoves(from: Square, k: Kind)
    ensures PieceMoves(from, k) == GameMoves(from, k, Black)
  {
    ScaleBlack(Offsets(k));
  }

  /**
   * Pawn direction: every pawn destination is on a higher rank when black
   * is active and on a lower rank when white is active; the two forward
   * offsets reach one and two ranks ahead whenever those squares are on
   * the board.
   */
  lemma PawnDirection(from: Square, active: Color)
    ensures forall t :: t in GameMoves(from, Pawn, active) ==>
      if active == Black then t.y > from.y else t.y < from.y
    ensures forall n :: 1 <= n <= 2 && OnBoard(Shift(from, Mirror((0, n), active))) ==>
      Shift(from, Mirror((0, n), active)) in GameMoves(from, Pawn, active)
  {
    var sc := Scale(Offsets(Pawn), active);
    forall t | t in GameMoves(from, Pawn, active)
      ensures if active == Black then t.y > from.y else t.y < from.y
    {
      TargetsMember(from, sc, t);
      var j :| 0 <= j < |sc| && t == Shift(from, sc[j]);
    }
    forall n | 1 <= n <= 2 && OnBoard(Shift(from, Mirror((0, n), active)))
      ensures Shift(from, Mirror((0, n), active)) in GameMoves(from, Pawn, active)
    {
      TargetsMember(from, sc, Shift(from, Mirror((0, n), active)));
      assert sc[n - 1] == Mirror((0, n), active);
    }
  }

  /** One iteration of the rook loop contributes two corner destinations, whichever colour is active. */
  lemma RookRingFromCorner(n: int, active: Color)
    requires 1 <= n <= 7
    ensures |Targets(Square(0, 0), Scale(Ring(Rook, n), active))| == 2
  {
    var o := Square(0, 0);
    var sr := Scale(Ring(Rook, n), active);
    var m := if active == Black then n else -n;
    assert sr == [(m, 0), (-m, 0), (0, m), (0, -m)];
    assert sr[1..] == [(-m, 0), (0, m), (0, -m)];
    assert sr[1..][1..] == [(0, m), (0, -m)];
    assert sr[1..][1..][1..] == [(0, -m)];
    if active == Black {
      assert Targets(o, sr[1..][1..]) == [Square(0, n)];
      assert Targets(o, sr) == [Square(n, 0), Square(0, n)];
    } else {
      assert Targets(o, sr[1..][1..]) == [Square(0, n)];
      assert Targets(o, sr[1..]) == [Square(n, 0), Square(0, n)];
    }
  }

  lemma {:induction false} RookSweepFromCorner(active: Color, i: nat)
    requires 1 <= i <= 8
    ensures |Targets(Square(0, 0), Scale(Sweep(Rook, i), active))| == 2 * (8 - i)
    decreases 8 - i
  {
    if i < 8 {
      var ring := Ring(Rook, i);
      var rest := Sweep(Rook, i + 1);
      ScaleAppend(ring, rest, active);
      TargetsAppend(Square(0, 0), Scale(ring, active), Scale(rest, active));
      RookSweepFromCorner(active, i + 1);
      RookRingFromCorner(i, active);
    } else {
      assert Sweep(Rook, i) == [];
    }
  }

  /** A rook in the corner has the 14 squares of its file and rank, whatever else is on the board. */
  lemma RookCornerCount(active: Color)
    ensures |GameMoves(Square(0, 0), Rook, active)| == 14
  {
    RookSweepFromCorner(active, 1);
  }

  /** A knight two or more squares from every edge reaches all 8 squares of its table. */
  lemma KnightCentreCount(from: Square, active: Color)
    requires 2 <= from.x <= 5 && 2 <= from.y <= 5
    ensures |GameMoves(from, Knight, active)| == 8
  {
    var sc := Scale(Offsets(Knight), active);
    forall j | 0 <= j < |sc| ensures OnBoard(Shift(from, sc[j])) {
      assert Offsets(Knight)[j] in Offsets(Knight);
    }
    TargetsAllOnBoard(from, sc);
  }

  /** A knight in the corner has exactly two destinations with either colour active. */
  lemma KnightCornerCount(active: Color)
    ensures |GameMoves(Square(0, 0), Knight, active)| == 2
  {
    var o := Square(0, 0);
    if active == Black {
      ScaleBlack(Offsets(Knight));
      KnightCornerBlack();
    } else {
      var sc := Scale(Offsets(Knight), active);
      assert sc == [(-1, -2), (-1, 2), (1, -2), (1, 2), (-2, -1), (-2, 1), (2, -1), (2, 1)];
      KnightCornerWhite();
    }
  }

  /** The black knight table from (0,0): only (1,2) and (2,1) stay on the board. */
  lemma KnightCornerBlack()
    ensures |Targets(Square(0, 0), [(1, 2), (1, -2), (-1, 2), (-1, -2), (2, 1), (2, -1), (-2, 1), (-2, -1)])| == 2
  {
    var o := Square(0, 0);
    var rest: seq<Offset> := [];
    TargetsCons(o, (-2, -1), rest);
    rest := [(-2, -1)] + rest;
    TargetsCons(o, (-2, 1), rest);
    rest := [(-2, 1)] + rest;
    TargetsCons(o, (2, -1), rest);
    rest := [(2, -1)] + rest;
    TargetsCons(o, (2, 1), rest);
    rest := [(2, 1)] + rest;
    TargetsCons(o, (-1, -2), rest);
    rest := [(-1, -2)] + rest;
    TargetsCons(o, (-1, 2), rest);
    rest := [(-1, 2)] + rest;
    TargetsCons(o, (1, -2), rest);
    rest := [(1, -2)] + rest;
    TargetsCons(o, (1, 2), rest);
    rest := [(1, 2)] + rest;
  }

  /** The white knight table from (0,0): only (1,2) and (2,1) stay on the board. */
  lemma KnightCornerWhite()
    ensures |Targets(Square(0, 0), [(-1, -2), (-1, 2), (1, -2), (1, 2), (-2, -1), (-2, 1), (2, -1), (2, 1)])| == 2
  {
    var o := Square(0, 0);
    var rest: seq<Offset> := [];
    TargetsCons(o, (2, 1), rest);
    rest := [(2, 1)] + rest;
    TargetsCons(o, (2, -1), rest);
    rest := [(2, -1)] + rest;
    TargetsCons(o, (-2, 1), rest);
    rest := [(-2, 1)] + rest;
    TargetsCons(o, (-2, -1), rest);
    rest := [(-2, -1)] + rest;
    TargetsCons(o, (1, 2), rest);
    rest := [(1, 2)] + rest;
    TargetsCons(o, (1, -2), rest);
    rest := [(1, -2)] + rest;
    TargetsCons(o, (-1, 2), rest);
    rest := [(-1, 2)] + rest;
    TargetsCons(o, (-1, -2), rest);
    rest := [(-1, -2)] + rest;
  }

  /** A king off every edge reaches all 8 neighbouring squares. */
  lemma KingInteriorCount(from: Square, active: Color)
    requires 1 <= from.x <= 6 && 1 <= from.y <= 6
    ensures |GameMoves(from, King, active)| == 8
  {
    var sc := Scale(Offsets(King), active);
    forall j | 0 <= j < |sc| ensures OnBoard(Shift(from, sc[j])) {
      assert Offsets(King)[j] in Offsets(King);
    }
    TargetsAllOnBoard(from, sc);
  }

  // ---------------------------------------------------------------------
  // The board as a value

  /** `pieces[x][y]`: file-major, 8 by 8. */
  type Grid = seq<seq<Option<Piece>>>

  predicate Shaped(g: Grid) {
    IsSquare(g, 8)
  }

  /** `getPiece([x, y])`: a rank outside the row reads as empty (`undefined`). */
  function At(g: Grid, s: Square): (r: Option<Piece>)
    requires Shaped(g) && 0 <= s.x < 8
    ensures r.Some? ==> OnBoard(s)
  {
    if 0 <= s.y < 8 then g[s.x][s.y] else None
  }

  /** One in-place write of a grid cell, as a value. */
  function Put(g: Grid, s: Square, v: Option<Piece>): (r: Grid)
    requires Shaped(g) && OnBoard(s)
    ensures Shaped(r)
    ensures At(r, s) == v
    ensures forall q: Square :: 0 <= q.x < 8 && q != s ==> At(r, q) == At(g, q)
  {
    g[s.x := g[s.x][s.y := v]]
  }

  /** No two squares hold the same piece object. */
  ghost predicate Unique(g: Grid)
    requires Shaped(g)
  {
    forall a, b :: OnBoard(a) && OnBoard(b) && a != b && At(g, a).Some? && At(g, b).Some? ==>
      At(g, a).value.id != At(g, b).value.id
  }

  function Occupied(v: Option<Piece>): nat {
    if v.Some? then 1 else 0
  }

  function RowCount(row: seq<Option<Piece>>): nat {
    if row == [] then 0 else Occupied(row[0]) + RowCount(row[1..])
  }

  function GridCount(g: seq<seq<Option<Piece>>>): nat {
    if g == [] then 0 else RowCount(g[0]) + GridCount(g[1..])
  }

  lemma {:induction false} RowCountUpdate(row: seq<Option<Piece>>, y: nat, v: Option<Piece>)
    requires y < |row|
    ensures RowCount(row[y := v]) == RowCount(row) - Occupied(row[y]) + Occupied(v)
  {
    if y > 0 {
      assert row[y := v][1..] == row[1..][y - 1 := v];
      RowCountUpdate(row[1..], y - 1, v);
    } else {
      assert row[y := v][1..] == row[1..];
    }
  }

  lemma {:induction false} GridCountUpdate(g: seq<seq<Option<Piece>>>, x: nat, row: seq<Option<Piece>>)
    requires x < |g|
    ensures GridCount(g[x := row]) == GridCount(g) - RowCount(g[x]) + RowCount(row)
  {
    if x > 0 {
      assert g[x := row][1..] == g[1..][x - 1 := row];
      GridCountUpdate(g[1..], x - 1, row);
    } else {
      assert g[x := row][1..] == g[1..];
    }
  }

  /** Writing one cell changes the number of pieces by what leaves and what arrives. */
  lemma PutCount(g: Grid, s: Square, v: Option<Piece>)
    requires Shaped(g) && OnBoard(s)
    ensures GridCount(Put(g, s, v)) == GridCount(g) - Occupied(At(g, s)) + Occupied(v)
  {
    RowCountUpdate(g[s.x], s.y, v);
    GridCountUpdate(g, s.x, g[s.x][s.y := v]);
  }

  // ---------------------------------------------------------------------
  // Game state and the move transaction

  /** What each listener receives: `{status, pieces, active}`. */
  datatype Snapshot = Snapshot(status: string, grid: Grid, active: Color)

  /** One listener call, by listener id. */
  datatype Notification = Notification(listener: nat, snapshot: Snapshot)

  datatype GameState = GameState(
    grid: Grid,
    active: Color,
    status: string,
    listeners: seq<nat>,
    notified: seq<Notification>)

  /** One call per registered listener, in registration order. */
  function Notify(ls: seq<nat>, snap: Snapshot): (r: seq<Notification>)
    ensures |r| == |ls|
    ensures forall i :: 0 <= i < |ls| ==> r[i] == Notification(ls[i], snap)
  {
    seq(|ls|, i requires 0 <= i < |ls| => Notification(ls[i], snap))
  }

  /** Notifying two groups of listeners in turn is notifying them together, in the same order. */
  lemma NotifyAppend(a: seq<nat>, b: seq<nat>, snap: Snapshot)
    ensures Notify(a + b, snap) == Notify(a, snap) + Notify(b, snap)
  {
    assert forall i :: 0 <= i < |a + b| ==> (a + b)[i] == if i < |a| then a[i] else b[i - |a|];
  }

  /** The three guards of `move`: a piece at the origin, of the active colour, with `to` among its moves. */
  predicate Legal(s: GameState, from: Square, to: Square)
    requires Shaped(s.grid) && 0 <= from.x < 8
    ensures Legal(s, from, to) ==> OnBoard(from) && OnBoard(to) && from != to
  {
    var p := At(s.grid, from);
    if p.None? then false
    else
      NeverStays(from, p.value.kind, s.active);
      p.value.color == s.active && to in GameMoves(from, p.value.kind, s.active)
  }

  /** The board's selection rule: a first click selects only a piece of the active colour. */
  predicate Selectable(s: GameState, sq: Square)
    requires Shaped(s.grid) && 0 <= sq.x < 8
    ensures Selectable(s, sq) ==> OnBoard(sq)
    ensures forall to :: Legal(s, sq, to) ==> Selectable(s, sq)
  {
    At(s.grid, sq).Some? && At(s.grid, sq).value.color == s.active
  }

  /** The state after `move(from, to)`: unchanged when a guard fails. */
  function Step(s: GameState, from: Square, to: Square): (r: GameState)
    requires Shaped(s.grid) && 0 <= from.x < 8
    ensures Shaped(r.grid)
    ensures r.status == s.status && r.listeners == s.listeners
    ensures Legal(s, from, to) <==> r.active != s.active
    ensures |r.notified| == |s.notified| + if Legal(s, from, to) then |s.listeners| else 0
  {
    if !Legal(s, from, to) then s
    else
      var p := At(s.grid, from);
      var g := Put(Put(s.grid, to, p), from, None);
      var a := Flip(s.active);
      s.(grid := g, active := a, notified := s.notified + Notify(s.listeners, Snapshot(s.status, g, a)))
  }

  /** A failed move changes nothing: grid, active colour, listeners and notifications. */
  lemma StepRejected(s: GameState, from: Square, to: Square)
    requires Shaped(s.grid) && 0 <= from.x < 8
    requires At(s.grid, from).None? || At(s.grid, from).value.color != s.active ||
             to !in GameMoves(from, At(s.grid, from).value.kind, s.active)
    ensures Step(s, from, to) == s
  {
  }

  /**
   * A successful move: the piece is at `to`, `from` is empty, every other
   * square is unchanged, the active colour is flipped, and each listener is
   * notified once, in registration order, with the new snapshot.
   */
  lemma StepApplies(s: GameState, from: Square, to: Square)
    requires Shaped(s.grid) && 0 <= from.x < 8 && Legal(s, from, to)
    ensures var r := Step(s, from, to);
      && At(r.grid, to) == At(s.grid, from)
      && At(r.grid, from) == None
      && (forall q: Square :: 0 <= q.x < 8 && q != from && q != to ==> At(r.grid, q) == At(s.grid, q))
      && r.active == Flip(s.active) && r.active != s.active
      && r.status == s.status && r.listeners == s.listeners
      && |r.notified| == |s.notified| + |s.listeners|
      && r.notified[..|s.notified|] == s.notified
      && (forall i :: 0 <= i < |s.listeners| ==>
            r.notified[|s.notified| + i] == Notification(s.listeners[i], Snapshot(r.status, r.grid, r.active)))
  {
    NeverStays(from, At(s.grid, from).value.kind, s.active);
  }

  /** Capture by overwrite: the count drops by one exactly when `to` was occupied. */
  lemma StepCount(s: GameState, from: Square, to: Square)
    requires Shaped(s.grid) && 0 <= from.x < 8 && Legal(s, from, to)
    ensures GridCount(Step(s, from, to).grid) == GridCount(s.grid) - Occupied(At(s.grid, to))
  {
    var p := At(s.grid, from);
    NeverStays(from, p.value.kind, s.active);
    var g1 := Put(s.grid, to, p);
    PutCount(s.grid, to, p);
    PutCount(g1, from, None);
  }

  /** Moving keeps every piece object on at most one square. */
  lemma StepUnique(s: GameState, from: Square, to: Square)
    requires Shaped(s.grid) && 0 <= from.x < 8 && Unique(s.grid)
    ensures Unique(Step(s, from, to).grid)
  {
    if Legal(s, from, to) {
      StepApplies(s, from, to);
    }
  }

  /** The captured piece, of either colour, is on no square afterwards. */
  lemma StepCapturedGone(s: GameState, from: Square, to: Square)
    requires Shaped(s.grid) && 0 <= from.x < 8 && Unique(s.grid) && Legal(s, from, to)
    requires At(s.grid, to).Some?
    ensures forall q :: OnBoard(q) && At(Step(s, from, to).grid, q).Some? ==>
      At(Step(s, from, to).grid, q).value.id != At(s.grid, to).value.id
  {
    StepApplies(s, from, to);
  }

  // ---------------------------------------------------------------------
  // Starting position

  /** The module-level `initPieces` list. */
  const BackRank: seq<Kind> := [Rook, Knight, Bishop, Queen, King, Bishop, Knight, Rook]

  function Reversed<T>(s: seq<T>): (r: seq<T>)
    ensures |r| == |s|
    ensures forall i :: 0 <= i < |s| ==> r[i] == s[|s| - 1 - i]
  {
    seq(|s|, i requires 0 <= i < |s| => s[|s| - 1 - i])
  }

  /**
   * The occupant `#seed` gives each square. Ids follow allocation order:
   * black back rank, black pawns, white pawns, white back rank.
   */
  function StartAt(x: int, y: int): (r: Option<Piece>)
    requires 0 <= x < 8 && 0 <= y < 8
    ensures r.Some? <==> y <= 1 || 6 <= y
    ensures r.Some? ==> (r.value.color == Black <==> y <= 1)
    ensures r.Some? ==> (r.value.kind == Pawn <==> y == 1 || y == 6)
    ensures r.Some? ==> r.value.id < 32 && r.value.id % 8 == x
  {
    if y == 0 then Some(Piece(Black, BackRank[x], x))
    else if y == 1 then Some(Piece(Black, Pawn, 8 + x))
    else if y == 6 then Some(Piece(White, Pawn, 16 + x))
    else if y == 7 then Some(Piece(White, Reversed(BackRank)[x], 24 + x))
    else None
  }

  function StartGrid(): (g: Grid)
    ensures Shaped(g)
  {
    seq(8, x requires 0 <= x < 8 => seq(8, y requires 0 <= y < 8 => StartAt(x, y)))
  }

  /**
   * The starting position: black's back rank in `initPieces` order on rank 0,
   * pawns on ranks 1 and 6, white's back rank reversed on rank 7 (white king
   * on file 3, queen on file 4), ranks 2 to 5 empty, no piece object twice.
   */
  lemma StartLayout()
    ensures forall x :: 0 <= x < 8 ==>
      && At(StartGrid(), Square(x, 0)) == Some(Piece(Black, BackRank[x], x))
      && At(StartGrid(), Square(x, 1)) == Some(Piece(Black, Pawn, 8 + x))
      && At(StartGrid(), Square(x, 6)) == Some(Piece(White, Pawn, 16 + x))
      && At(StartGrid(), Square(x, 7)) == Some(Piece(White, BackRank[7 - x], 24 + x))
    ensures forall x, y :: 0 <= x < 8 && 2 <= y <= 5 ==> At(StartGrid(), Square(x, y)) == None
    ensures At(StartGrid(), Square(3, 7)) == Some(Piece(White, King, 27))
    ensures At(StartGrid(), Square(4, 7)) == Some(Piece(White, Queen, 28))
    ensures At(StartGrid(), Square(4, 0)) == Some(Piece(Black, King, 4))
    ensures Unique(StartGrid())
  {
    var g := StartGrid();
    forall a, b | OnBoard(a) && OnBoard(b) && a != b && At(g, a).Some? && At(g, b).Some?
      ensures At(g, a).value.id != At(g, b).value.id
    {
      assert At(g, a).value.id == 8 * (if a.y <= 1 then a.y else a.y - 4) + a.x;
      assert At(g, b).value.id == 8 * (if b.y <= 1 then b.y else b.y - 4) + b.x;
    }
  }
}
