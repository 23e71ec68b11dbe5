/** The chess pieces: each kind decides, from its own (row, column), whether
    a square is a valid move on an otherwise empty board. In this program the
    piece called "rook" moves along diagonals and the one called "castle"
    along rows and columns. */
module ChessPiece {
  import opened Wrappers
  import opened Integers

  datatype Kind = Knight | King | Queen | Rook | Castle

  /** A piece of some kind standing on (row, column). */
  datatype Piece = Piece(kind: Kind, row: int, column: int)

  predicate IsPiecePosition(p: Piece, row: int, column: int)
  {
    p.row == row && p.column == column
  }

  lemma IsPiecePositionExamples()
    ensures !IsPiecePosition(Piece(Knight, 4, 3), 3, 4)
    ensures !IsPiecePosition(Piece(Knight, 4, 3), 2, 5)
    ensures IsPiecePosition(Piece(Knight, 4, 3), 4, 3)
    ensures !IsPiecePosition(Piece(Knight, 4, 3), 5, 3)
  {
  }

  /** The letter a piece of each kind shows on the board. */
  function BoardCharacter(k: Kind): char
  {
    match k
    case Knight => 'k'
    case King => 'K'
    case Queen => 'Q'
    case Rook => 'R'
    case Castle => 'C'
  }

  /** Each kind shows a letter of its own. */
  lemma BoardCharactersDistinct(a: Kind, b: Kind)
    ensures BoardCharacter(a) == BoardCharacter(b) ==> a == b
  {
  }

  /** The knight's offset table: adding an entry to the target square must
      give the knight's own square. */
  const KnightOffsets: seq<(int, int)> :=
    [(-2, -1), (2, -1), (2, 1), (-2, 1), (-1, -2), (1, -2), (1, 2), (-1, 2)]

  /** Entry j of the table carries (row, column) onto the piece's square. */
  predicate Offsets(table: seq<(int, int)>, j: int, p: Piece, row: int, column: int)
  {
    0 <= j < |table| && row + table[j].0 == p.row && column + table[j].1 == p.column
  }

  predicate KnightReaches(p: Piece, row: int, column: int)
  {
    exists j :: 0 <= j < |KnightOffsets| && Offsets(KnightOffsets, j, p, row, column)
  }

  /** isValidMove of every kind: never the piece's own square. */
  predicate IsValidMove(p: Piece, row: int, column: int)
  {
    if IsPiecePosition(p, row, column) then false
    else
      match p.kind
      case Knight => KnightReaches(p, row, column)
      case King => Abs(row - p.row) <= 1 && Abs(column - p.column) <= 1
      case Queen =>
        row == p.row || column == p.column || Abs(row - p.row) == Abs(column - p.column)
      case Rook => Abs(row - p.row) == Abs(column - p.column)
      case Castle => row == p.row || column == p.column
  }

  lemma OwnSquareNeverValid(p: Piece)
    ensures !IsValidMove(p, p.row, p.column)
  {
  }

  /** Knight.isValidMove: the flag loop over the offset table. */
  method KnightIsValidMove(p: Piece, row: int, column: int) returns (isValid: bool)
    requires p.kind == Knight
    ensures isValid == IsValidMove(p, row, column)
  {
    if IsPiecePosition(p, row, column) {
      return false;
    }
    isValid := false;
    for i := 0 to |KnightOffsets|
      invariant isValid <==> exists j :: 0 <= j < i && Offsets(KnightOffsets, j, p, row, column)
    {
      var (rowMove, colMove) := KnightOffsets[i];
      assert Offsets(KnightOffsets, i, p, row, column) <==>
        row + rowMove == p.row && column + colMove == p.column;
      if row + rowMove == p.row && column + colMove == p.column {
        isValid := true;
      }
    }
  }

  /** The offset table describes exactly the L-shaped jumps: one step on one
      axis and two on the other. */
  lemma KnightMoveIsLShape(p: Piece, row: int, column: int)
    requires p.kind == Knight
    ensures IsValidMove(p, row, column) <==>
      (Abs(row - p.row) == 1 && Abs(column - p.column) == 2) ||
      (Abs(row - p.row) == 2 && Abs(column - p.column) == 1)
  {
    var dr, dc := p.row - row, p.column - column;
    var j :=
      if dr == -2 && dc == -1 then 0 else if dr == 2 && dc == -1 then 1
      else if dr == 2 && dc == 1 then 2 else if dr == -2 && dc == 1 then 3
      else if dr == -1 && dc == -2 then 4 else if dr == 1 && dc == -2 then 5
      else if dr == 1 && dc == 2 then 6 else 7;
    if (Abs(dr) == 1 && Abs(dc) == 2) || (Abs(dr) == 2 && Abs(dc) == 1) {
      assert Offsets(KnightOffsets, j, p, row, column);
    }
  }

  /** The queen moves wherever the castle or the (diagonal) rook would move
      from the same square. */
  lemma QueenIsCastleOrRook(row0: int, column0: int, row: int, column: int)
    ensures IsValidMove(Piece(Queen, row0, column0), row, column) <==>
      IsValidMove(Piece(Castle, row0, column0), row, column) ||
      IsValidMove(Piece(Rook, row0, column0), row, column)
  {
  }

  /** Every king move is a queen move from the same square, and no knight
      move is. */
  lemma KingAndKnightAgainstQueen(row0: int, column0: int, row: int, column: int)
    ensures IsValidMove(Piece(King, row0, column0), row, column) ==>
      IsValidMove(Piece(Queen, row0, column0), row, column)
    ensures IsValidMove(Piece(Knight, row0, column0), row, column) ==>
      !IsValidMove(Piece(Queen, row0, column0), row, column)
  {
    KnightMoveIsLShape(Piece(Knight, row0, column0), row, column);
  }

  /** Moves are symmetric: a piece on A may move to B exactly when the same
      kind of piece on B may move to A. */
  lemma MoveSymmetric(k: Kind, row0: int, column0: int, row: int, column: int)
    ensures IsValidMove(Piece(k, row0, column0), row, column) <==>
      IsValidMove(Piece(k, row, column), row0, column0)
  {
    if k == Knight {
      KnightMoveIsLShape(Piece(Knight, row0, column0), row, column);
      KnightMoveIsLShape(Piece(Knight, row, column), row0, column0);
    }
  }

  /** The squares the unit tests enumerate for a knight on (4, 4) and a king
      on (3, 3). */
  lemma BoardExamples(row: int, column: int)
    requires 1 <= row <= 8 && 1 <= column <= 8
    ensures IsValidMove(Piece(Knight, 4, 4), row, column) <==>
      (row, column) in {(6, 3), (6, 5), (5, 2), (5, 6), (3, 2), (3, 6), (2, 3), (2, 5)}
    ensures IsValidMove(Piece(King, 3, 3), row, column) <==>
      (row, column) in {(2, 4), (3, 4), (4, 4), (2, 3), (4, 3), (2, 2), (3, 2), (4, 2)}
  {
    KnightMoveIsLShape(Piece(Knight, 4, 4), row, column);
  }

  /** The names the module registers when it is loaded. */
  const BuiltinClasses: map<string, Kind> :=
    map["knight" := Knight, "king" := King, "queen" := Queen, "rook" := Rook, "castle" := Castle]

  /** The registry of piece classes by name (a module-level dict in the
      source). */
  class Registry {
    var classes: map<string, Kind>

    /** Loading the module registers the five built-in kinds. */
    constructor()
      ensures classes == BuiltinClasses
    {
      classes := map[];
      new;
      RegisterClass("knight", Knight);
      RegisterClass("king", King);
      RegisterClass("queen", Queen);
      RegisterClass("rook", Rook);
      RegisterClass("castle", Castle);
    }

    method RegisterClass(name: string, kind: Kind)
      modifies this
      ensures classes == old(classes)[name := kind]
      ensures GetClass(name) == Some(kind)
      ensures forall other :: other != name ==> GetClass(other) == old(GetClass(other))
    {
      classes := classes[name := kind];
    }

    /** getClass: the kind registered under the name, or None. */
    function GetClass(name: string): (r: Option<Kind>)
      reads this
      ensures r.Some? <==> name in classes
      ensures r.Some? ==> classes[name] == r.value
    {
      if name in classes then Some(classes[name]) else None
    }
  }

  /** The built-in names, each with its kind and board letter. */
  lemma BuiltinRegistry()
    ensures BuiltinClasses.Keys == {"knight", "king", "queen", "rook", "castle"}
    ensures BoardCharacter(BuiltinClasses["knight"]) == 'k'
    ensures BoardCharacter(BuiltinClasses["king"]) == 'K'
    ensures BoardCharacter(BuiltinClasses["queen"]) == 'Q'
    ensures BoardCharacter(BuiltinClasses["rook"]) == 'R'
    ensures BoardCharacter(BuiltinClasses["castle"]) == 'C'
    ensures "bishop" !in BuiltinClasses
  {
  }
}
