/** The chess move calculator: it parses a position such as "d3" and a
    piece name, and lists, in sorted order, every square of the 8x8 board
    that the piece could move to on an otherwise empty board. */
module Chess {
  import opened Wrappers
  import opened ChessPiece
  import Ordering

  /** The column letters, left to right. */
  const Columns: string := "abcdefgh"

  /** str.find for one character: the first position that holds c, or -1. */
  function Find(s: string, c: char): (i: int)
    ensures -1 <= i < |s|
    ensures i == -1 <==> c !in s
    ensures i >= 0 ==> s[i] == c && c !in s[..i]
  {
    if s == [] then -1
    else if s[0] == c then 0
    else
      var k := Find(s[1..], c);
      if k == -1 then -1
      else
        assert s[..k + 1] == [s[0]] + s[1..][..k];
        k + 1
  }

  /** Column i (counting from 1) holds the i-th letter of the alphabet, so
      the letters are distinct and ascend with the index. */
  lemma ColumnsAscend(i: int)
    requires 1 <= i <= 8
    ensures Columns[i - 1] as int == 'a' as int + i - 1
  {
  }

  /** Exactly the letters a to h are column letters. */
  lemma ColumnLetters(c: char)
    ensures c in Columns <==> 'a' <= c <= 'h'
  {
    if c in Columns {
      var k :| 0 <= k < |Columns| && Columns[k] == c;
      ColumnsAscend(k + 1);
    }
    if 'a' <= c <= 'h' {
      ColumnsAscend(c as int - 'a' as int + 1);
    }
  }

  /** getColumnIndex: the column number (1 to 8) of a letter a to h. Empty
      input and anything else give None. */
  function ColumnIndex(letter: string): (r: Option<int>)
    requires |letter| <= 1
    ensures r.Some? <==> letter != [] && letter[0] in Columns
    ensures r.Some? ==> 1 <= r.value <= 8 && Columns[r.value - 1] == letter[0]
  {
    if letter == [] then None
    else if letter[0] !in Columns then None
    else Some(Find(Columns, letter[0]) + 1)
  }

  /** getColumnLetter: the letter of column 1 to 8; None (and 0, which Python
      treats as false) and every other number give None. The letter it gives
      converts back to the same index. */
  function ColumnLetter(index: Option<int>): (r: Option<char>)
    ensures r.Some? <==> index.Some? && 1 <= index.value <= 8
    ensures r.Some? ==> r.value in Columns && ColumnIndex([r.value]) == index
  {
    if index == None || index == Some(0) then None
    else if index.value > 8 || index.value < 1 then None
    else
      var c := Columns[index.value - 1];
      var k := Find(Columns, c);
      ColumnsAscend(index.value);
      ColumnsAscend(k + 1);
      Some(c)
  }

  /** A column letter converts to its index and back. */
  lemma IndexLetterRoundTrip(c: char)
    requires c in Columns
    ensures ColumnIndex([c]).Some? && ColumnLetter(ColumnIndex([c])) == Some(c)
  {
  }

  /** Letter c converts to its place in the alphabet. */
  lemma ColumnIndexOfLetter(c: char)
    requires 'a' <= c <= 'h'
    ensures ColumnIndex([c]) == Some(c as int - 'a' as int + 1)
  {
    ColumnLetters(c);
    ColumnsAscend(ColumnIndex([c]).value);
  }

  lemma ColumnExamples()
    ensures ColumnIndex("a") == Some(1) && ColumnIndex("d") == Some(4)
    ensures ColumnIndex("h") == Some(8)
    ensures ColumnIndex("i") == None && ColumnIndex("z") == None
    ensures ColumnIndex("5") == None && ColumnIndex("") == None
    ensures ColumnLetter(Some(1)) == Some('a') && ColumnLetter(Some(8)) == Some('h')
    ensures ColumnLetter(Some(0)) == None && ColumnLetter(Some(9)) == None
    ensures ColumnLetter(Some(-1)) == None && ColumnLetter(None) == None
  {
    ColumnIndexOfLetter('a');
    ColumnIndexOfLetter('d');
    ColumnIndexOfLetter('h');
    ColumnLetters('i');
    ColumnLetters('z');
    ColumnLetters('5');
    ColumnsAscend(1);
    ColumnsAscend(8);
  }

  /** getBoardRows: 8 down to 1, the order a board is drawn in. */
  function BoardRows(): (rows: seq<int>)
    ensures |rows| == 8 && forall i :: 0 <= i < 8 ==> rows[i] == 8 - i
    ensures forall x :: x in rows <==> 1 <= x <= 8
  {
    [8, 7, 6, 5, 4, 3, 2, 1]
  }

  /** getBoardColumns: 1 up to 8. */
  function BoardColumns(): (columns: seq<int>)
    ensures |columns| == 8 && forall i :: 0 <= i < 8 ==> columns[i] == i + 1
    ensures forall x :: x in columns <==> 1 <= x <= 8
  {
    [1, 2, 3, 4, 5, 6, 7, 8]
  }

  predicate IsDigit(c: char)
  {
    '0' <= c <= '9'
  }

  /** int() of a one-character string that is a digit. */
  function DigitValue(c: char): int
    requires IsDigit(c)
  {
    c as int - '0' as int
  }

  /** str() of a number 0 to 9. */
  function DigitChar(d: int): char
    requires 0 <= d <= 9
  {
    ('0' as int + d) as char
  }

  /** The name of a square, column letter then row digit ("d3"); it parses
      back to the same column and row. */
  function SquareName(column: int, row: int): (s: string)
    requires 1 <= column <= 8 && 1 <= row <= 8
    ensures |s| == 2 && ColumnIndex(s[..1]) == Some(column)
    ensures IsDigit(s[1]) && DigitValue(s[1]) == row
  {
    assert [ColumnLetter(Some(column)).value, DigitChar(row)][..1] == [ColumnLetter(Some(column)).value];
    [ColumnLetter(Some(column)).value, DigitChar(row)]
  }

  /** A letter a to h followed by a digit 1 to 8. */
  predicate IsSquareName(s: string)
  {
    |s| == 2 && s[0] in Columns && '1' <= s[1] <= '8'
  }

  /** Every square name is the name of the square it parses to. */
  lemma SquareNameParses(s: string)
    requires IsSquareName(s)
    ensures ColumnIndex(s[..1]).Some?
    ensures s == SquareName(ColumnIndex(s[..1]).value, DigitValue(s[1]))
  {
    var column := ColumnIndex(s[..1]).value;
    IndexLetterRoundTrip(s[0]);
    assert s == [s[0], s[1]];
  }

  /** Sorting the names as strings orders the squares by column, then by
      row. */
  lemma SquareNameOrder(c1: int, r1: int, c2: int, r2: int)
    requires 1 <= c1 <= 8 && 1 <= r1 <= 8 && 1 <= c2 <= 8 && 1 <= r2 <= 8
    ensures Ordering.Less(SquareName(c1, r1), SquareName(c2, r2)) <==>
      c1 < c2 || (c1 == c2 && r1 < r2)
  {
    var a, b := SquareName(c1, r1), SquareName(c2, r2);
    ColumnsAscend(c1);
    ColumnsAscend(c2);
    assert a[0] == Columns[c1 - 1] && b[0] == Columns[c2 - 1];
    assert a[1] == DigitChar(r1) && b[1] == DigitChar(r2);
    assert !Ordering.Less(a[1..][1..], b[1..][1..]);
    assert Ordering.Less(a[1..], b[1..]) <==> a[1] < b[1];
  }

  /** What run prints for a piece: the names of exactly the on-board squares
      the piece can move to, strictly increasing (so each appears once). */
  ghost predicate IsMoveList(p: Piece, moves: seq<string>)
  {
    && (forall s :: s in moves ==> IsSquareName(s))
    && (forall row, column :: 1 <= row <= 8 && 1 <= column <= 8 ==>
          (SquareName(column, row) in moves <==> IsValidMove(p, row, column)))
    && Ordering.StrictlySorted(moves)
  }

  /** The move-collecting part of run: visit the board row by row from 8
      down to 1 and column by column from 1 to 8, name every valid target,
      then sort the names. */
  method Run(p: Piece) returns (moves: seq<string>)
    ensures IsMoveList(p, moves)
    ensures 1 <= p.row <= 8 && 1 <= p.column <= 8 ==> SquareName(p.column, p.row) !in moves
  {
    var collected: seq<string> := [];
    var rows := BoardRows();
    var columns := BoardColumns();
    for i := 0 to |rows|
      invariant forall s :: s in collected ==> IsSquareName(s)
      invariant Ordering.Distinct(collected)
      invariant forall r, c :: 1 <= r <= 8 && 1 <= c <= 8 ==>
        (SquareName(c, r) in collected <==> r > 8 - i && IsValidMove(p, r, c))
    {
      var row := rows[i];
      for j := 0 to |columns|
        invariant forall s :: s in collected ==> IsSquareName(s)
        invariant Ordering.Distinct(collected)
        invariant forall r, c :: 1 <= r <= 8 && 1 <= c <= 8 ==>
          (SquareName(c, r) in collected <==>
            (r > row || (r == row && c <= j)) && IsValidMove(p, r, c))
      {
        var column := columns[j];
        if IsPiecePosition(p, row, column) {
        } else if IsValidMove(p, row, column) {
          var name := SquareName(column, row);
          assert IsSquareName(name) by {
            ColumnsAscend(column);
          }
          collected := collected + [name];
        }
      }
    }
    moves := Ordering.SortStrings(collected);
    Ordering.SortStringsSorted(collected);
    assert forall s :: s in moves <==> s in collected by {
      forall s ensures s in moves <==> s in collected {
        assert s in moves <==> s in multiset(moves);
        assert s in collected <==> s in multiset(collected);
      }
    }
    OwnSquareNeverValid(p);
  }

  /** A list without repeats holds each of its elements once. */
  lemma {:induction false} DistinctMultiset(s: seq<string>, x: string)
    requires Ordering.Distinct(s)
    ensures multiset(s)[x] == if x in s then 1 else 0
  {
    if s != [] {
      assert s == [s[0]] + s[1..];
      DistinctMultiset(s[1..], x);
    }
  }

  /** The move list of a piece is determined: two lists that both meet
      IsMoveList are equal. */
  lemma MoveListUnique(p: Piece, a: seq<string>, b: seq<string>)
    requires IsMoveList(p, a) && IsMoveList(p, b)
    ensures a == b
  {
    forall s | s in a ensures s in b {
      SquareNameParses(s);
    }
    forall s | s in b ensures s in a {
      SquareNameParses(s);
    }
    Ordering.StrictlySortedDistinct(a);
    Ordering.StrictlySortedDistinct(b);
    forall x ensures multiset(a)[x] == multiset(b)[x] {
      DistinctMultiset(a, x);
      DistinctMultiset(b, x);
    }
    assert multiset(a) == multiset(b);
    Ordering.SortedUnique(a, b);
  }

  /** Why ChessCalculator's constructor stops without building a piece. */
  datatype SetupError = InvalidColumn | InvalidRow | UnknownPiece(name: string)

  /** str.lower on one character: only A to Z change. */
  function LowerChar(c: char): char
  {
    if 'A' <= c <= 'Z' then (c as int + 32) as char else c
  }

  /** str.lower: upper-case ASCII letters become lower case, every other
      character stays as it is. */
  function Lower(s: string): (r: string)
    ensures |r| == |s|
    ensures forall i :: 0 <= i < |r| ==> !('A' <= r[i] <= 'Z')
    ensures forall i :: 0 <= i < |s| && !('A' <= s[i] <= 'Z') ==> r[i] == s[i]
    ensures forall i :: 0 <= i < |s| && 'A' <= s[i] <= 'Z' ==> r[i] as int == s[i] as int + 32
  {
    seq(|s|, i requires 0 <= i < |s| => LowerChar(s[i]))
  }

  /** Lower-casing twice changes nothing more. */
  lemma LowerIdempotent(s: string)
    ensures Lower(Lower(s)) == Lower(s)
  {
  }

  /** The checks of ChessCalculator's constructor, in its order: the first
      character must be a column letter, the second a digit (the row is not
      range-checked), and the lower-cased name must be registered. The second
      character is read only once the column is accepted. */
  function Setup(registry: Registry, pieceName: string, position: string): (r: Result<Piece, SetupError>)
    reads registry
    requires |position| >= 1 && (|position| >= 2 || position[0] !in Columns)
    ensures r == Err(InvalidColumn) <==> position[0] !in Columns
    ensures r == Err(InvalidRow) <==> position[0] in Columns && !IsDigit(position[1])
    ensures r.Ok? <==>
      position[0] in Columns && IsDigit(position[1]) && Lower(pieceName) in registry.classes
    ensures r.Err? && r.error.UnknownPiece? ==>
      position[0] in Columns && IsDigit(position[1]) &&
      Lower(pieceName) !in registry.classes && r.error.name == Lower(pieceName)
    ensures r.Ok? ==>
      && r.value.kind == registry.classes[Lower(pieceName)]
      && 0 <= r.value.row <= 9 && DigitChar(r.value.row) == position[1]
      && ColumnLetter(Some(r.value.column)) == Some(position[0])
  {
    var column := ColumnIndex(position[..1]);
    if column.None? then Err(InvalidColumn)
    else if !IsDigit(position[1]) then Err(InvalidRow)
    else
      var kind := registry.GetClass(Lower(pieceName));
      if kind.None? then Err(UnknownPiece(Lower(pieceName)))
      else Ok(Piece(kind.value, DigitValue(position[1]), column.value))
  }

  /** Only the first two characters of the position are read. */
  lemma SetupReadsTwoCharacters(registry: Registry, pieceName: string, position: string)
    requires |position| >= 2
    ensures Setup(registry, pieceName, position) == Setup(registry, pieceName, position[..2])
  {
  }

  /** The piece the unit tests build, and a row the constructor lets
      through unchecked. */
  lemma SetupBuildsPiece(registry: Registry)
    requires registry.classes == BuiltinClasses
    ensures Setup(registry, "knight", "b3") == Ok(Piece(Knight, 3, 2))
    ensures Setup(registry, "Castle", "a9") == Ok(Piece(Castle, 9, 1))
  {
    assert Lower("knight") == "knight";
    assert Lower("Castle") == "castle";
    ColumnIndexOfLetter('b');
    ColumnIndexOfLetter('a');
  }

  lemma SetupRejects(registry: Registry)
    requires registry.classes == BuiltinClasses
    ensures Setup(registry, "king", "i3") == Err(InvalidColumn)
    ensures Setup(registry, "king", "bx") == Err(InvalidRow)
    ensures Setup(registry, "Bishop", "b3") == Err(UnknownPiece("bishop"))
    ensures Setup(registry, "king", "z") == Err(InvalidColumn)
  {
    ColumnLetters('i');
    ColumnLetters('z');
    ColumnLetters('b');
    assert Lower("Bishop") == "bishop";
  }

  /** ChessCalculator(pieceName, position): validate the input, then list
      the moves of the piece it names. */
  method Calculate(registry: Registry, pieceName: string, position: string)
    returns (r: Result<seq<string>, SetupError>)
    requires |position| >= 1 && (|position| >= 2 || position[0] !in Columns)
    ensures Setup(registry, pieceName, position).Err? ==>
      r == Err(Setup(registry, pieceName, position).error)
    ensures Setup(registry, pieceName, position).Ok? ==>
      r.Ok? && IsMoveList(Setup(registry, pieceName, position).value, r.value)
  {
    var piece := Setup(registry, pieceName, position);
    if piece.Err? {
      return Err(piece.error);
    }
    var moves := Run(piece.value);
    return Ok(moves);
  }
}
