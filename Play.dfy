/** Games as sequences of moves, the way the board display drives the engine: every move
    is checked with validMove before makeMove applies it. The end-of-game check the display
    runs after each move, and the reset that follows a win, are not part of a sequence, so
    a sequence may go on past a complete line; the games the program plays are among them. */
module Play {
  import opened Rules

  datatype Move = Move(row: int, column: int)

  /** The engine's state as a value: the board and the player to move. */
  datatype State = State(board: Board, current: int)

  predicate ValidState(s: State) {
    ValidBoard(s.board) && IsPlayer(s.current)
  }

  /** The state a game starts in after the random draw `coin`. */
  function Start(coin: int): (s: State)
    requires 0 <= coin < 2
    ensures ValidState(s)
  {
    State(EmptyBoard(), coin + 1)
  }

  /** makeMove on values: the mover's mark is written and the turn passes. */
  function Step(s: State, m: Move): (t: State)
    requires WellFormed(s.board) && InRange(m.row, m.column)
    ensures WellFormed(t.board)
  {
    State(Place(s.board, m.row, m.column, s.current), NextPlayer(s.current))
  }

  /** Every move of the sequence is on the board and on a cell that is empty when it is made. */
  predicate Legal(s: State, moves: seq<Move>)
    requires WellFormed(s.board)
    decreases |moves|
  {
    moves == [] ||
    (InRange(moves[0].row, moves[0].column) &&
     s.board[moves[0].row][moves[0].column] == Empty &&
     Legal(Step(s, moves[0]), moves[1..]))
  }

  function Run(s: State, moves: seq<Move>): (t: State)
    requires WellFormed(s.board) && Legal(s, moves)
    ensures WellFormed(t.board)
    decreases |moves|
  {
    if moves == [] then s else Run(Step(s, moves[0]), moves[1..])
  }

  /** A move keeps the board's cells within {0, 1, 2} and the player to move within {1, 2},
      and the player to move changes. */
  lemma StepKeepsValid(s: State, m: Move)
    requires ValidState(s) && InRange(m.row, m.column)
    ensures ValidState(Step(s, m))
    ensures Step(s, m).current != s.current
  {
    PlaceKeepsValid(s.board, m.row, m.column, s.current);
  }

  /** Each legal move takes one free cell, so a game of n legal moves leaves n fewer. */
  lemma {:induction false} RunCountsDown(s: State, moves: seq<Move>)
    requires ValidState(s) && Legal(s, moves)
    ensures ValidState(Run(s, moves))
    ensures CountEmpty(Run(s, moves).board) + |moves| == CountEmpty(s.board)
    decreases |moves|
  {
    if moves != [] {
      var m := moves[0];
      PlaceCountsDown(s.board, m.row, m.column, s.current);
      StepKeepsValid(s, m);
      RunCountsDown(Step(s, m), moves[1..]);
    }
  }

  /** The turn alternates strictly: after an even number of moves the starting player is to
      move again, after an odd number the other one. */
  lemma {:induction false} RunAlternates(s: State, moves: seq<Move>)
    requires ValidState(s) && Legal(s, moves)
    ensures Run(s, moves).current == if |moves| % 2 == 0 then s.current else NextPlayer(s.current)
    decreases |moves|
  {
    if moves != [] {
      StepKeepsValid(s, moves[0]);
      RunAlternates(Step(s, moves[0]), moves[1..]);
    }
  }

  /** No game from a fresh start has more than sixteen legal moves. */
  lemma GameLength(coin: int, moves: seq<Move>)
    requires 0 <= coin < 2 && Legal(Start(coin), moves)
    ensures |moves| <= BoardSize * BoardSize
  {
    EmptyBoardCount();
    RunCountsDown(Start(coin), moves);
  }

  /** After sixteen legal moves from a fresh start the board is full, so the check reports a
      win or, when no line is complete, a draw. */
  lemma SixteenMovesEnd(coin: int, moves: seq<Move>)
    requires 0 <= coin < 2 && Legal(Start(coin), moves)
    requires |moves| == BoardSize * BoardSize
    ensures Full(Run(Start(coin), moves).board)
    ensures Evaluate(Run(Start(coin), moves).board) != Ongoing
    ensures (forall k | 0 <= k < LineCount :: !Complete(Line(Run(Start(coin), moves).board, k))) ==>
            Evaluate(Run(Start(coin), moves).board) == Draw
  {
    EmptyBoardCount();
    RunCountsDown(Start(coin), moves);
    FullIffNoneEmpty(Run(Start(coin), moves).board);
    EvaluateSpec(Run(Start(coin), moves).board);
  }

  /** Playing two sequences one after the other is playing their concatenation. */
  lemma {:induction false} RunAppend(s: State, a: seq<Move>, b: seq<Move>)
    requires WellFormed(s.board) && Legal(s, a)
    ensures Legal(s, a + b) <==> Legal(Run(s, a), b)
    ensures Legal(s, a + b) ==> Run(s, a + b) == Run(Run(s, a), b)
    decreases |a|
  {
    if a == [] {
      assert a + b == b;
    } else {
      assert (a + b)[0] == a[0] && (a + b)[1..] == a[1..] + b;
      RunAppend(Step(s, a[0]), a[1..], b);
    }
  }

  /** One legal move more. */
  lemma Extend(s: State, moves: seq<Move>, m: Move)
    requires WellFormed(s.board) && Legal(s, moves)
    requires InRange(m.row, m.column) && Run(s, moves).board[m.row][m.column] == Empty
    ensures Legal(s, moves + [m])
    ensures Run(s, moves + [m]) == Step(Run(s, moves), m)
  {
    var t := Run(s, moves);
    assert [m][1..] == [];
    assert Legal(Step(t, m), [m][1..]);
    assert Legal(t, [m]);
    assert Run(t, [m]) == Run(Step(t, m), []) == Step(t, m);
    RunAppend(s, moves, [m]);
  }

  /** Player 1 takes (0, 0), (0, 1), (0, 2) while player 2 takes (1, 0), (1, 1), (1, 2). */
  const RowZeroOpening: seq<Move> :=
    [Move(0, 0), Move(1, 0), Move(0, 1), Move(1, 1), Move(0, 2), Move(1, 2)]

  /** After that opening the game goes on; player 1 then fills (0, 3) and wins at that move. */
  lemma RowZeroScenario()
    ensures Legal(Start(0), RowZeroOpening + [Move(0, 3)])
    ensures Evaluate(Run(Start(0), RowZeroOpening).board) == Ongoing
    ensures Evaluate(Run(Start(0), RowZeroOpening + [Move(0, 3)]).board) == Win(1)
  {
    var s := Start(0);
    var ms0: seq<Move> := [];
    Extend(s, ms0, Move(0, 0));
    var ms1 := ms0 + [Move(0, 0)];
    Extend(s, ms1, Move(1, 0));
    var ms2 := ms1 + [Move(1, 0)];
    Extend(s, ms2, Move(0, 1));
    var ms3 := ms2 + [Move(0, 1)];
    Extend(s, ms3, Move(1, 1));
    var ms4 := ms3 + [Move(1, 1)];
    Extend(s, ms4, Move(0, 2));
    var ms5 := ms4 + [Move(0, 2)];
    Extend(s, ms5, Move(1, 2));
    var ms6 := ms5 + [Move(1, 2)];
    assert ms6 == RowZeroOpening;
    Extend(s, ms6, Move(0, 3));
    var b6 := Run(s, ms6).board;
    var b7 := Run(s, ms6 + [Move(0, 3)]).board;
    assert Line(b7, 0) == [1, 1, 1, 1];
    FirstCompleteLineWins(b7, 0);
    forall k | 0 <= k < LineCount ensures !Complete(Line(b6, k)) {
      assert Line(b6, k)[3] == Empty;
    }
    assert b6[3][3] == Empty;
    EvaluateSpec(b6);
  }

  /** Sixteen alternating moves, player 1 first, four per row; they fill the board as
      1 1 2 2 / 2 2 1 1 / 1 1 2 2 / 2 2 1 1. */
  const DrawRow0: seq<Move> := [Move(0, 0), Move(0, 2), Move(0, 1), Move(0, 3)]
  const DrawRow1: seq<Move> := [Move(1, 2), Move(1, 0), Move(1, 3), Move(1, 1)]
  const DrawRow2: seq<Move> := [Move(2, 0), Move(2, 2), Move(2, 1), Move(2, 3)]
  const DrawRow3: seq<Move> := [Move(3, 2), Move(3, 0), Move(3, 3), Move(3, 1)]
  const DrawMoves: seq<Move> := DrawRow0 + DrawRow1 + DrawRow2 + DrawRow3

  /** The boards after each row of moves. */
  const AfterRow0: Board := [[1, 1, 2, 2], [0, 0, 0, 0], [0, 0, 0, 0], [0, 0, 0, 0]]
  const AfterRow1: Board := [[1, 1, 2, 2], [2, 2, 1, 1], [0, 0, 0, 0], [0, 0, 0, 0]]
  const AfterRow2: Board := [[1, 1, 2, 2], [2, 2, 1, 1], [1, 1, 2, 2], [0, 0, 0, 0]]
  const DrawBoard: Board := [[1, 1, 2, 2], [2, 2, 1, 1], [1, 1, 2, 2], [2, 2, 1, 1]]

  /** The moves of DrawRow0 are legal in turn and fill row 0. */
  lemma DrawRow0Played()
    ensures Legal(Start(0), DrawRow0)
    ensures Run(Start(0), DrawRow0) == State(AfterRow0, 1)
  {
    var s := Start(0);
    var ms0: seq<Move> := [];
    Extend(s, ms0, Move(0, 0));
    var ms1 := ms0 + [Move(0, 0)];
    Extend(s, ms1, Move(0, 2));
    var ms2 := ms1 + [Move(0, 2)];
    Extend(s, ms2, Move(0, 1));
    var ms3 := ms2 + [Move(0, 1)];
    Extend(s, ms3, Move(0, 3));
    var ms4 := ms3 + [Move(0, 3)];
    assert ms4 == DrawRow0;
    SameCells(Run(s, ms4).board, AfterRow0);
  }

  /** The moves of DrawRow1 are legal in turn and fill row 1. */
  lemma DrawRow1Played()
    ensures Legal(State(AfterRow0, 1), DrawRow1)
    ensures Run(State(AfterRow0, 1), DrawRow1) == State(AfterRow1, 1)
  {
    var s := State(AfterRow0, 1);
    var ms0: seq<Move> := [];
    Extend(s, ms0, Move(1, 2));
    var ms1 := ms0 + [Move(1, 2)];
    Extend(s, ms1, Move(1, 0));
    var ms2 := ms1 + [Move(1, 0)];
    Extend(s, ms2, Move(1, 3));
    var ms3 := ms2 + [Move(1, 3)];
    Extend(s, ms3, Move(1, 1));
    var ms4 := ms3 + [Move(1, 1)];
    assert ms4 == DrawRow1;
    SameCells(Run(s, ms4).board, AfterRow1);
  }

  /** The moves of DrawRow2 are legal in turn and fill row 2. */
  lemma DrawRow2Played()
    ensures Legal(State(AfterRow1, 1), DrawRow2)
    ensures Run(State(AfterRow1, 1), DrawRow2) == State(AfterRow2, 1)
  {
    var s := State(AfterRow1, 1);
    var ms0: seq<Move> := [];
    Extend(s, ms0, Move(2, 0));
    var ms1 := ms0 + [Move(2, 0)];
    Extend(s, ms1, Move(2, 2));
    var ms2 := ms1 + [Move(2, 2)];
    Extend(s, ms2, Move(2, 1));
    var ms3 := ms2 + [Move(2, 1)];
    Extend(s, ms3, Move(2, 3));
    var ms4 := ms3 + [Move(2, 3)];
    assert ms4 == DrawRow2;
    SameCells(Run(s, ms4).board, AfterRow2);
  }

  /** The moves of DrawRow3 are legal in turn and fill row 3. */
  lemma DrawRow3Played()
    ensures Legal(State(AfterRow2, 1), DrawRow3)
    ensures Run(State(AfterRow2, 1), DrawRow3) == State(DrawBoard, 1)
  {
    var s := State(AfterRow2, 1);
    var ms0: seq<Move> := [];
    Extend(s, ms0, Move(3, 2));
    var ms1 := ms0 + [Move(3, 2)];
    Extend(s, ms1, Move(3, 0));
    var ms2 := ms1 + [Move(3, 0)];
    Extend(s, ms2, Move(3, 3));
    var ms3 := ms2 + [Move(3, 3)];
    Extend(s, ms3, Move(3, 1));
    var ms4 := ms3 + [Move(3, 1)];
    assert ms4 == DrawRow3;
    SameCells(Run(s, ms4).board, DrawBoard);
  }

  /** The final board is full and has no line of four identical marks. */
  lemma DrawBoardIsDraw()
    ensures Evaluate(DrawBoard) == Draw
  {
    var d := DrawBoard;
    forall k | 0 <= k < LineCount ensures !Complete(Line(d, k)) {
      assert Line(d, k)[0] != Line(d, k)[1] || Line(d, k)[1] != Line(d, k)[2];
    }
    EvaluateSpec(d);
  }

  /** Sixteen legal alternating moves that complete no line end in a draw. */
  lemma DrawScenario()
    ensures Legal(Start(0), DrawMoves)
    ensures |DrawMoves| == BoardSize * BoardSize
    ensures Evaluate(Run(Start(0), DrawMoves).board) == Draw
  {
    DrawRow0Played();
    DrawRow1Played();
    DrawRow2Played();
    DrawRow3Played();
    RunAppend(Start(0), DrawRow0, DrawRow1);
    RunAppend(Start(0), DrawRow0 + DrawRow1, DrawRow2);
    RunAppend(Start(0), DrawRow0 + DrawRow1 + DrawRow2, DrawRow3);
    DrawBoardIsDraw();
  }
}
