/**
 * The stateful part of the chess demo: `Game`, which owns the 8 by 8 grid
 * and updates it in place, and the click handler of `Board`, which keeps
 * the selected square.
 */
module ChessGame {
  import opened Wrappers
  import opened ChessRules
  import opened Grids

  class Game {
    var status: string
    var pieces: array2<Option<Piece>>
    var active: Color
    var listeners: seq<nat>
    var notified: seq<Notification>

    ghost predicate Valid()
      reads this, pieces
    {
      pieces.Length0 == 8 && pieces.Length1 == 8 && Unique(Grid())
    }

    /** The grid as a value, `pieces[x][y]` for file `x` and rank `y`. */
    function Grid(): (g: ChessRules.Grid)
      reads this`pieces, pieces
      requires pieces.Length0 == 8 && pieces.Length1 == 8
      ensures Shaped(g)
      ensures forall x, y :: 0 <= x < 8 && 0 <= y < 8 ==> g[x][y] == pieces[x, y]
    {
      var a := pieces;
      seq(8, x requires 0 <= x < 8 reads a =>
        seq(8, y requires 0 <= y < 8 reads a => a[x, y]))
    }

    ghost function State(): GameState
      reads this, pieces
      requires pieces.Length0 == 8 && pieces.Length1 == 8
    {
      GameState(Grid(), active, status, listeners, notified)
    }

    /** A new game: the starting position, black to move, status "ready", no listeners. */
    constructor ()
      ensures Valid() && fresh(pieces)
      ensures Grid() == StartGrid()
      ensures active == Black && status == "ready"
      ensures listeners == [] && notified == []
    {
      status := "ready";
      pieces := new Option<Piece>[8, 8]((x, y) => None);
      active := Black;
      listeners := [];
      notified := [];
      new;
      Seed();
      StartLayout();
    }

    /** `#seed`: the four `forEach` passes that write ranks 0, 1, 6 and 7. */
    method Seed()
      requires pieces.Length0 == 8 && pieces.Length1 == 8
      requires forall x, y :: 0 <= x < 8 && 0 <= y < 8 ==> pieces[x, y] == None
      modifies pieces
      ensures Grid() == StartGrid()
    {
      var i := 0;
      while i < 8
        invariant 0 <= i <= 8
        invariant forall x, y :: 0 <= x < 8 && 0 <= y < 8 ==>
          pieces[x, y] == if y == 0 && x < i then StartAt(x, y) else None
      {
        pieces[i, 0] := Some(Piece(Black, BackRank[i], i));
        i := i + 1;
      }
      i := 0;
      while i < 8
        invariant 0 <= i <= 8
        invariant forall x, y :: 0 <= x < 8 && 0 <= y < 8 ==>
          pieces[x, y] == if y == 0 || (y == 1 && x < i) then StartAt(x, y) else None
      {
        pieces[i, 1] := Some(Piece(Black, Pawn, 8 + i));
        i := i + 1;
      }
      i := 0;
      while i < 8
        invariant 0 <= i <= 8
        invariant forall x, y :: 0 <= x < 8 && 0 <= y < 8 ==>
          pieces[x, y] == if y <= 1 || (y == 6 && x < i) then StartAt(x, y) else None
      {
        pieces[i, 6] := Some(Piece(White, Pawn, 16 + i));
        i := i + 1;
      }
      var whiteRank := Reversed(BackRank);
      i := 0;
      while i < 8
        invariant 0 <= i <= 8
        invariant forall x, y :: 0 <= x < 8 && 0 <= y < 8 ==>
          pieces[x, y] == if y <= 1 || y == 6 || (y == 7 && x < i) then StartAt(x, y) else None
      {
        pieces[i, 7] := Some(Piece(White, whiteRank[i], 24 + i));
        i := i + 1;
      }
      SquareEquality(Grid(), StartGrid(), 8);
    }

    method AddListener(listener: nat)
      modifies this`listeners
      ensures listeners == old(listeners) + [listener]
    {
      listeners := listeners + [listener];
    }

    /** `getPiece([x, y])`; a rank outside 0..7 reads as empty. */
    function GetPiece(s: Square): (r: Option<Piece>)
      reads this, pieces
      requires pieces.Length0 == 8 && pieces.Length1 == 8 && 0 <= s.x < 8
      ensures r == At(Grid(), s)
    {
      if 0 <= s.y < 8 then pieces[s.x, s.y] else None
    }

    /** `possibleMoves(from)`: on the board, never the origin, and blind to every other square. */
    function PossibleMoves(from: Square): (r: seq<Square>)
      reads this, pieces
      requires pieces.Length0 == 8 && pieces.Length1 == 8 && 0 <= from.x < 8
      requires GetPiece(from).Some?
      ensures r == GameMoves(from, GetPiece(from).value.kind, active)
      ensures forall t :: t in r ==> OnBoard(t) && t != from
    {
      NeverStays(from, GetPiece(from).value.kind, active);
      GameMoves(from, pieces[from.x, from.y].value.kind, active)
    }

    /**
     * `move(from, to)`: returns the moved piece and applies `Step`, or
     * returns `None` and changes nothing when a guard fails.
     */
    method Move(from: Square, to: Square) returns (r: Option<Piece>)
      requires Valid() && 0 <= from.x < 8
      modifies pieces, this`active, this`notified
      ensures Valid()
      ensures State() == Step(old(State()), from, to)
      ensures r.Some? <==> Legal(old(State()), from, to)
      ensures r.Some? ==> r == old(GetPiece(from))
      ensures r.None? ==> Grid() == old(Grid()) && active == old(active) && notified == old(notified)
    {
      ghost var s0 := State();
      var piece := GetPiece(from);
      if piece.None? {
        return None;
      }
      if piece.value.color != active {
        return None;
      }
      var validMoves := PossibleMoves(from);
      if to !in validMoves {
        return None;
      }
      assert Legal(s0, from, to);
      Relocate(from, to, piece);
      active := if active == White then Black else White;
      NotifyListeners(Snapshot(status, Grid(), active));
      assert State() == Step(s0, from, to);
      StepUnique(s0, from, to);
      r := piece;
    }

    /** The two writes of a legal move: the piece lands on `to`, then `from` is emptied. */
    method Relocate(from: Square, to: Square, piece: Option<Piece>)
      requires pieces.Length0 == 8 && pieces.Length1 == 8 && OnBoard(from) && OnBoard(to)
      modifies pieces
      ensures Grid() == Put(Put(old(Grid()), to, piece), from, None)
    {
      ghost var g := Put(Put(Grid(), to, piece), from, None);
      pieces[to.x, to.y] := piece;
      pieces[from.x, from.y] := None;
      forall x, y | 0 <= x < 8 && 0 <= y < 8 ensures Grid()[x][y] == g[x][y] {
        assert At(g, Square(x, y)) == g[x][y];
      }
      SquareEquality(Grid(), g, 8);
    }

    /** The notification pass of `move`: one call per registered listener, in registration order. */
    method NotifyListeners(snap: Snapshot)
      modifies this`notified
      ensures notified == old(notified) + Notify(listeners, snap)
    {
      var i := 0;
      while i < |listeners|
        invariant 0 <= i <= |listeners|
        invariant notified == old(notified) + Notify(listeners[..i], snap)
      {
        notified := notified + [Notification(listeners[i], snap)];
        i := i + 1;
        assert listeners[..i] == listeners[..i - 1] + [listeners[i - 1]];
        NotifyAppend(listeners[..i - 1], [listeners[i - 1]], snap);
      }
      assert listeners[..i] == listeners;
    }
  }

  /** The selection state of the board view; rendering is not modelled. */
  class Board {
    const game: Game
    var selected: Option<Square>

    ghost predicate Valid()
      reads this, game, game.pieces
    {
      game.Valid() && (selected.Some? ==> OnBoard(selected.value))
    }

    /** The constructor registers the board's render callback, here the id `listener`. */
    constructor (game: Game, listener: nat)
      requires game.Valid()
      modifies game`listeners
      ensures Valid() && this.game == game && selected == None
      ensures game.listeners == old(game.listeners) + [listener]
    {
      this.game := game;
      selected := None;
      new;
      game.AddListener(listener);
    }

    /**
     * `#handleSquareSelect`: with a square selected, a click clears the
     * selection and attempts the move; otherwise it selects the clicked
     * square exactly when it holds a piece of the active colour.
     */
    method HandleSquareSelect(s: Square)
      requires Valid() && OnBoard(s)
      modifies this`selected, game.pieces, game`active, game`notified
      ensures Valid()
      ensures old(selected).Some? ==>
        selected == None && game.State() == Step(old(game.State()), old(selected).value, s)
      ensures old(selected).None? ==>
        game.State() == old(game.State()) &&
        (selected == Some(s) <==> Selectable(old(game.State()), s)) &&
        (selected != Some(s) ==> selected == None)
    {
      if selected.Some? {
        var from := selected.value;
        selected := None;
        var _ := game.Move(from, s);
      } else {
        var piece := game.GetPiece(s);
        if piece.Some? && piece.value.color == game.active {
          selected := Some(s);
        }
      }
    }
  }
}
