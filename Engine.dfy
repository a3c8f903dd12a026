/** The game-state engine: a board held in a two-dimensional array that moves write in
    place, the player to move, and the end-of-game check. Each operation is proved against
    the value model in module Rules. */
module Engine {
  import opened Rules
  import Play

  /** A fresh board whose cells two nested loops set to Empty, as construction and reset do. */
  method NewEmptyBoard() returns (a: array2<int>)
    ensures fresh(a)
    ensures a.Length0 == BoardSize && a.Length1 == BoardSize
    ensures forall i, j | 0 <= i < BoardSize && 0 <= j < BoardSize :: a[i, j] == Empty
  {
    a := new int[BoardSize, BoardSize];
    for row := 0 to BoardSize
      invariant forall i, j | 0 <= i < row && 0 <= j < BoardSize :: a[i, j] == Empty
    {
      for column := 0 to BoardSize
        invariant forall i, j | 0 <= i < row && 0 <= j < BoardSize :: a[i, j] == Empty
        invariant forall j | 0 <= j < column :: a[row, j] == Empty
      {
        a[row, column] := Empty;
      }
    }
  }

  class TicTacToeGame {
    var board: array2<int>
    var currentPlayer: int

    /** The board is BoardSize x BoardSize, every cell is empty or a player's mark, and the
        player to move is 1 or 2. */
    ghost predicate Valid()
      reads this, board
    {
      board.Length0 == BoardSize && board.Length1 == BoardSize &&
      IsPlayer(currentPlayer) &&
      forall i, j | 0 <= i < BoardSize && 0 <= j < BoardSize :: IsMark(board[i, j])
    }

    /** The board as a value. */
    ghost function Grid(): (g: Board)
      reads this, board
      requires board.Length0 == BoardSize && board.Length1 == BoardSize
      ensures WellFormed(g)
      ensures forall i, j | InRange(i, j) :: g[i][j] == board[i, j]
    {
      var a := board;
      seq(BoardSize, i requires 0 <= i < BoardSize reads a =>
        seq(BoardSize, j requires 0 <= j < BoardSize reads a => a[i, j]))
    }

    /** A new game: an empty board, and `coin + 1` to move, where `coin` stands for the
        random draw `nextInt(2)` from {0, 1}. */
    constructor (coin: int)
      requires 0 <= coin < 2
      ensures Valid() && fresh(board)
      ensures Grid() == EmptyBoard()
      ensures currentPlayer == coin + 1
      ensures Play.State(Grid(), currentPlayer) == Play.Start(coin)
    {
      var a := NewEmptyBoard();
      board := a;
      currentPlayer := coin + 1;
      new;
      SameCells(Grid(), EmptyBoard());
    }

    function GetBoardSize(): (n: int)
      reads this, board
      requires Valid()
      ensures n == board.Length0 && n == board.Length1
    {
      BoardSize
    }

    function GetCurrentPlayer(): (p: int)
      reads this, board
      requires Valid()
      ensures p == currentPlayer && IsPlayer(p)
    {
      currentPlayer
    }

    /** A move is valid exactly when its cell is empty. */
    function ValidMove(row: int, column: int): (r: bool)
      reads this, board
      requires Valid() && InRange(row, column)
      ensures r <==> Grid()[row][column] == Empty
    {
      board[row, column] == 0
    }

    /** Writes the mark of the player to move into the cell, whether or not the cell was
        empty, hands the turn over, and returns the mover. */
    method MakeMove(row: int, column: int) returns (mover: int)
      requires Valid() && InRange(row, column)
      modifies board, this`currentPlayer
      ensures Valid() && board == old(board)
      ensures mover == old(currentPlayer)
      ensures Grid() == Place(old(Grid()), row, column, mover)
      ensures currentPlayer == NextPlayer(mover) && currentPlayer != mover
      ensures Play.State(Grid(), currentPlayer) ==
              Play.Step(Play.State(old(Grid()), old(currentPlayer)), Play.Move(row, column))
      ensures !ValidMove(row, column)
      ensures forall i, j | InRange(i, j) && (i != row || j != column) ::
                ValidMove(i, j) == old(ValidMove(i, j))
    {
      ghost var before := Grid();
      var recordMove := currentPlayer;
      board[row, column] := recordMove;
      UpdatePlayer();
      mover := recordMove;
      SameCells(Grid(), Place(before, row, column, mover));
    }

    /** Hands the turn to the other player. Internal to MakeMove: updatePlayer is private
        in the engine and no client calls it directly. */
    method UpdatePlayer()
      modifies this`currentPlayer
      ensures currentPlayer == NextPlayer(old(currentPlayer))
    {
      if currentPlayer == 1 {
        currentPlayer := 2;
      } else if currentPlayer == 2 {
        currentPlayer := 1;
      }
    }

    /** The lines of the board as the end-of-game check reads them from the array. */
    lemma LineCells(i: int)
      requires Valid() && 0 <= i < BoardSize
      ensures Row(Grid(), i) == [board[i, 0], board[i, 1], board[i, 2], board[i, 3]]
      ensures Column(Grid(), i) == [board[0, i], board[1, i], board[2, i], board[3, i]]
      ensures MainDiagonal(Grid()) == [board[0, 0], board[1, 1], board[2, 2], board[3, 3]]
      ensures AntiDiagonal(Grid()) == [board[0, 3], board[1, 2], board[2, 1], board[3, 0]]
    {
    }

    /** One round of the row-and-column loop: row i, then column i, is tested against the
        array cells; a complete one ends the scan with its mark, otherwise the scan goes on. */
    lemma RowColumnRound(i: int)
      requires Valid() && 0 <= i < BoardSize && NoneCompleteBefore(Grid(), i)
      ensures CheckRowCol(board[i, 0], board[i, 1], board[i, 2], board[i, 3]) ==>
                Evaluate(Grid()) == Win(board[i, 0])
      ensures !CheckRowCol(board[i, 0], board[i, 1], board[i, 2], board[i, 3]) &&
              CheckRowCol(board[0, i], board[1, i], board[2, i], board[3, i]) ==>
                Evaluate(Grid()) == Win(board[0, i])
      ensures !CheckRowCol(board[i, 0], board[i, 1], board[i, 2], board[i, 3]) &&
              !CheckRowCol(board[0, i], board[1, i], board[2, i], board[3, i]) ==>
                NoneCompleteBefore(Grid(), i + 1)
    {
      LineCells(i);
      if CheckRowCol(board[i, 0], board[i, 1], board[i, 2], board[i, 3]) {
        RowWins(Grid(), i);
      } else if CheckRowCol(board[0, i], board[1, i], board[2, i], board[3, i]) {
        ColumnWins(Grid(), i);
      }
    }

    /** The diagonal tests and the fullness test that follow the loop. */
    lemma DiagonalRound()
      requires Valid() && NoneCompleteBefore(Grid(), BoardSize)
      ensures CheckRowCol(board[0, 0], board[1, 1], board[2, 2], board[3, 3]) ==>
                Evaluate(Grid()) == Win(board[0, 0])
      ensures !CheckRowCol(board[0, 0], board[1, 1], board[2, 2], board[3, 3]) &&
              CheckRowCol(board[0, 3], board[1, 2], board[2, 1], board[3, 0]) ==>
                Evaluate(Grid()) == Win(board[0, 3])
      ensures !CheckRowCol(board[0, 0], board[1, 1], board[2, 2], board[3, 3]) &&
              !CheckRowCol(board[0, 3], board[1, 2], board[2, 1], board[3, 0]) ==>
                Evaluate(Grid()) == if Full(Grid()) then Draw else Ongoing
    {
      LineCells(0);
      if CheckRowCol(board[0, 0], board[1, 1], board[2, 2], board[3, 3]) {
        MainDiagonalWins(Grid());
      } else if CheckRowCol(board[0, 3], board[1, 2], board[2, 1], board[3, 0]) {
        AntiDiagonalWins(Grid());
      } else {
        NoLineWins(Grid());
      }
    }

    /** Scans row i then column i for i = 0..3, then the two diagonals, stopping at the
        first complete line, and finally tests whether the board is full. */
    method CheckGameEnd() returns (o: Outcome)
      requires Valid()
      ensures o == Evaluate(Grid())
    {
      for i := 0 to 4
        invariant NoneCompleteBefore(Grid(), i)
      {
        RowColumnRound(i);
        if CheckRowCol(board[i, 0], board[i, 1], board[i, 2], board[i, 3]) {
          return Win(board[i, 0]);
        }
        if CheckRowCol(board[0, i], board[1, i], board[2, i], board[3, i]) {
          return Win(board[0, i]);
        }
      }

      DiagonalRound();
      if CheckRowCol(board[0, 0], board[1, 1], board[2, 2], board[3, 3]) {
        return Win(board[0, 0]);
      }
      if CheckRowCol(board[0, 3], board[1, 2], board[2, 1], board[3, 0]) {
        return Win(board[0, 3]);
      }

      var boardFull := BoardFull();
      o := if boardFull then Draw else Ongoing;
    }

    /** The fullness test at the end of the scan: true exactly when no cell is empty. */
    method BoardFull() returns (boardFull: bool)
      requires Valid()
      ensures boardFull <==> Full(Grid())
    {
      boardFull := true;
      for i := 0 to BoardSize
        invariant boardFull <==>
          forall a, c | 0 <= a < i && 0 <= c < BoardSize :: board[a, c] != Empty
      {
        for j := 0 to BoardSize
          invariant boardFull <==>
            (forall a, c | 0 <= a < i && 0 <= c < BoardSize :: board[a, c] != Empty) &&
            (forall c | 0 <= c < j :: board[i, c] != Empty)
        {
          if board[i, j] == 0 {
            boardFull := false;
          }
        }
      }
    }

    /** Starts over: an empty board, and `coin + 1` to move. */
    method ResetGame(coin: int)
      requires 0 <= coin < 2
      modifies this
      ensures Valid() && fresh(board)
      ensures Grid() == EmptyBoard()
      ensures currentPlayer == coin + 1
      ensures Play.State(Grid(), currentPlayer) == Play.Start(coin)
    {
      board := NewEmptyBoard();
      currentPlayer := coin + 1;
      SameCells(Grid(), EmptyBoard());
    }
  }
}
