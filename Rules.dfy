/** The rules of the 4x4 game as values: the board, the lines the end-of-game check
    examines and the order it examines them in, the outcome of a position, one move,
    and the turn order. The class in module Engine is proved against these. */
module Rules {

  /** Side length of the square board. */
  const BoardSize: int := 4

  /** Lines the end-of-game check examines: every row, every column, both diagonals. */
  const LineCount: int := 2 * BoardSize + 2

  /** The value of an empty cell; the players' marks are 1 and 2. */
  const Empty: int := 0

  predicate IsPlayer(p: int) {
    p == 1 || p == 2
  }

  predicate IsMark(c: int) {
    c == Empty || IsPlayer(c)
  }

  datatype Option<T> = None | Some(value: T)

  /** What the end-of-game check finds: a winner, a full board without a winner, or neither. */
  datatype Outcome = Win(player: int) | Draw | Ongoing

  /** A board as rows of cells, `b[row][column]`. */
  type Board = seq<seq<int>>

  predicate InRange(row: int, column: int) {
    0 <= row < BoardSize && 0 <= column < BoardSize
  }

  predicate WellFormed(b: Board) {
    |b| == BoardSize && forall i | 0 <= i < BoardSize :: |b[i]| == BoardSize
  }

  predicate ValidBoard(b: Board) {
    WellFormed(b) &&
    forall i, j | 0 <= i < BoardSize && 0 <= j < BoardSize :: IsMark(b[i][j])
  }

  function EmptyBoard(): (b: Board)
    ensures ValidBoard(b)
    ensures forall i, j | InRange(i, j) :: b[i][j] == Empty
  {
    seq(BoardSize, _ => seq(BoardSize, _ => Empty))
  }

  predicate Full(b: Board)
    requires WellFormed(b)
  {
    forall i, j | 0 <= i < BoardSize && 0 <= j < BoardSize :: b[i][j] != Empty
  }

  // ---------------------------------------------------------------- turns

  /** The player who moves after `p`; a value that is no player is left as it is. */
  function NextPlayer(p: int): (q: int)
    ensures IsPlayer(p) ==> IsPlayer(q) && q != p && q == 3 - p
    ensures !IsPlayer(p) ==> q == p
  {
    if p == 1 then 2 else if p == 2 then 1 else p
  }

  // ---------------------------------------------------------------- lines

  /** A line is complete when its cells all hold the same mark and that mark is a player's. */
  predicate Complete(line: seq<int>) {
    |line| > 0 && line[0] != Empty && forall k | 0 <= k < |line| :: line[k] == line[0]
  }

  /** The four-cell line test: true exactly when the four cells form a complete line. */
  function CheckRowCol(c1: int, c2: int, c3: int, c4: int): (r: bool)
    ensures r <==> Complete([c1, c2, c3, c4])
  {
    var line := [c1, c2, c3, c4];
    assert line[0] == c1 && line[1] == c2 && line[2] == c3 && line[3] == c4;
    assert c1 == c2 == c3 == c4 ==> forall k | 0 <= k < |line| :: line[k] == c1 by {
      forall k | 0 <= k < |line| && c1 == c2 == c3 == c4 ensures line[k] == c1 {
        if k == 0 {} else if k == 1 {} else if k == 2 {} else {}
      }
    }
    c1 != 0 && c1 == c2 && c2 == c3 && c3 == c4
  }

  function Row(b: Board, i: int): seq<int>
    requires WellFormed(b) && 0 <= i < BoardSize
  {
    [b[i][0], b[i][1], b[i][2], b[i][3]]
  }

  function Column(b: Board, i: int): seq<int>
    requires WellFormed(b) && 0 <= i < BoardSize
  {
    [b[0][i], b[1][i], b[2][i], b[3][i]]
  }

  function MainDiagonal(b: Board): seq<int>
    requires WellFormed(b)
  {
    [b[0][0], b[1][1], b[2][2], b[3][3]]
  }

  function AntiDiagonal(b: Board): seq<int>
    requires WellFormed(b)
  {
    [b[0][3], b[1][2], b[2][1], b[3][0]]
  }

  /** The k-th line in scan order: row i is line 2i and column i is line 2i+1 (i = 0..3),
      then the main diagonal (8) and the anti-diagonal (9). */
  function Line(b: Board, k: int): (line: seq<int>)
    requires WellFormed(b) && 0 <= k < LineCount
    ensures |line| == BoardSize
  {
    if k < 2 * BoardSize then
      if k % 2 == 0 then Row(b, k / 2) else Column(b, k / 2)
    else if k == 2 * BoardSize then MainDiagonal(b)
    else AntiDiagonal(b)
  }

  /** On a board of marks, every line starts with a mark. */
  lemma LineMarks(b: Board, k: int)
    requires ValidBoard(b) && 0 <= k < LineCount
    ensures IsMark(Line(b, k)[0])
  {
    if k < 2 * BoardSize {
      assert IsMark(b[k / 2][0]) && IsMark(b[0][k / 2]);
    } else {
      assert IsMark(b[0][0]) && IsMark(b[0][3]);
    }
  }

  /** The first complete line at index k or later, in scan order. */
  function FirstComplete(b: Board, k: int): (r: Option<int>)
    requires WellFormed(b) && 0 <= k <= LineCount
    ensures r.Some? ==> k <= r.value < LineCount && Complete(Line(b, r.value))
    ensures r.Some? ==> forall m | k <= m < r.value :: !Complete(Line(b, m))
    ensures r.None? <==> forall m | k <= m < LineCount :: !Complete(Line(b, m))
    decreases LineCount - k
  {
    if k == LineCount then None
    else if Complete(Line(b, k)) then Some(k)
    else FirstComplete(b, k + 1)
  }

  // ---------------------------------------------------------------- outcome

  /** The outcome of a position: the mark of the first complete line in scan order wins;
      a full board with no complete line is a draw. */
  function Evaluate(b: Board): Outcome
    requires WellFormed(b)
  {
    match FirstComplete(b, 0)
    case Some(k) => Win(Line(b, k)[0])
    case None => if Full(b) then Draw else Ongoing
  }

  /** What the outcome means: a win exactly when some line is complete, won by the mark of
      the first complete line in scan order and so by a player; a draw exactly when no line
      is complete and the board is full; otherwise the game goes on. */
  lemma EvaluateSpec(b: Board)
    requires WellFormed(b)
    ensures Evaluate(b).Win? <==> exists k | 0 <= k < LineCount :: Complete(Line(b, k))
    ensures Evaluate(b).Win? ==>
              exists k | 0 <= k < LineCount ::
                Complete(Line(b, k)) && Evaluate(b).player == Line(b, k)[0] &&
                forall m | 0 <= m < k :: !Complete(Line(b, m))
    ensures Evaluate(b) == Draw <==>
              (forall k | 0 <= k < LineCount :: !Complete(Line(b, k))) && Full(b)
    ensures Evaluate(b) == Ongoing <==>
              (forall k | 0 <= k < LineCount :: !Complete(Line(b, k))) && !Full(b)
    ensures ValidBoard(b) && Evaluate(b).Win? ==> IsPlayer(Evaluate(b).player)
  {
    var r := FirstComplete(b, 0);
    if r.Some? {
      var k := r.value;
      if ValidBoard(b) {
        LineMarks(b, k);
      }
    }
  }

  /** Row i is examined as line 2i and column i as line 2i + 1, the diagonals last. */
  lemma ScanOrder(b: Board, i: int)
    requires WellFormed(b) && 0 <= i < BoardSize
    ensures Line(b, 2 * i) == Row(b, i) && Line(b, 2 * i + 1) == Column(b, i)
    ensures Line(b, 2 * BoardSize) == MainDiagonal(b)
    ensures Line(b, 2 * BoardSize + 1) == AntiDiagonal(b)
  {
  }

  /** The first complete line in scan order decides the winner, whatever lines follow it. */
  lemma FirstCompleteLineWins(b: Board, k: int)
    requires WellFormed(b) && 0 <= k < LineCount && Complete(Line(b, k))
    requires forall m | 0 <= m < k :: !Complete(Line(b, m))
    ensures Evaluate(b) == Win(Line(b, k)[0])
  {
  }

  /** The scan has found no complete row and no complete column at the indices below i. */
  predicate NoneCompleteBefore(b: Board, i: int)
    requires WellFormed(b) && 0 <= i <= BoardSize
  {
    forall m | 0 <= m < i :: !Complete(Row(b, m)) && !Complete(Column(b, m))
  }

  lemma PrefixClear(b: Board, i: int)
    requires WellFormed(b) && 0 <= i <= BoardSize && NoneCompleteBefore(b, i)
    ensures forall k | 0 <= k < 2 * i :: !Complete(Line(b, k))
  {
    forall k | 0 <= k < 2 * i ensures !Complete(Line(b, k)) {
      assert !Complete(Row(b, k / 2)) && !Complete(Column(b, k / 2));
    }
  }

  /** Row i is the first complete line when no earlier row or column is complete. */
  lemma RowWins(b: Board, i: int)
    requires WellFormed(b) && 0 <= i < BoardSize && NoneCompleteBefore(b, i)
    requires Complete(Row(b, i))
    ensures Evaluate(b) == Win(b[i][0])
  {
    PrefixClear(b, i);
    ScanOrder(b, i);
    FirstCompleteLineWins(b, 2 * i);
  }

  /** Column i is the first complete line when row i and every earlier row and column are not. */
  lemma ColumnWins(b: Board, i: int)
    requires WellFormed(b) && 0 <= i < BoardSize && NoneCompleteBefore(b, i)
    requires !Complete(Row(b, i)) && Complete(Column(b, i))
    ensures Evaluate(b) == Win(b[0][i])
  {
    PrefixClear(b, i);
    ScanOrder(b, i);
    FirstCompleteLineWins(b, 2 * i + 1);
  }

  /** The main diagonal is the first complete line when no row or column is complete. */
  lemma MainDiagonalWins(b: Board)
    requires WellFormed(b) && NoneCompleteBefore(b, BoardSize)
    requires Complete(MainDiagonal(b))
    ensures Evaluate(b) == Win(b[0][0])
  {
    PrefixClear(b, BoardSize);
    ScanOrder(b, 0);
    FirstCompleteLineWins(b, 2 * BoardSize);
  }

  /** The anti-diagonal is the first complete line when no other line is complete. */
  lemma AntiDiagonalWins(b: Board)
    requires WellFormed(b) && NoneCompleteBefore(b, BoardSize)
    requires !Complete(MainDiagonal(b)) && Complete(AntiDiagonal(b))
    ensures Evaluate(b) == Win(b[0][3])
  {
    PrefixClear(b, BoardSize);
    ScanOrder(b, 0);
    FirstCompleteLineWins(b, 2 * BoardSize + 1);
  }

  /** Without a complete line, the fullness test alone decides. */
  lemma NoLineWins(b: Board)
    requires WellFormed(b) && NoneCompleteBefore(b, BoardSize)
    requires !Complete(MainDiagonal(b)) && !Complete(AntiDiagonal(b))
    ensures Evaluate(b) == if Full(b) then Draw else Ongoing
  {
    PrefixClear(b, BoardSize);
    ScanOrder(b, 0);
    assert forall k | 0 <= k < LineCount :: !Complete(Line(b, k));
  }

  /** Two well-formed boards with the same cells are the same board. */
  lemma SameCells(b1: Board, b2: Board)
    requires WellFormed(b1) && WellFormed(b2)
    requires forall i, j | InRange(i, j) :: b1[i][j] == b2[i][j]
    ensures b1 == b2
  {
    forall i | 0 <= i < BoardSize ensures b1[i] == b2[i] {
      assert forall j | 0 <= j < BoardSize :: b1[i][j] == b2[i][j];
    }
  }

  /** A freshly built board has no complete line and free cells, so the check finds nothing. */
  lemma EmptyBoardOngoing()
    ensures Evaluate(EmptyBoard()) == Ongoing
  {
    var b := EmptyBoard();
    forall k | 0 <= k < LineCount ensures !Complete(Line(b, k)) {
      assert Line(b, k)[0] == Empty;
    }
    assert b[0][0] == Empty;
    EvaluateSpec(b);
  }

  // ---------------------------------------------------------------- the callback semantics

  /** The argument the end-of-game dialog receives for an outcome: the winner, 0 for a draw;
      nothing when the game goes on. */
  function Report(o: Outcome): seq<int> {
    match o
    case Win(p) => [p]
    case Draw => [0]
    case Ongoing => []
  }

  /** The arguments the end-of-game dialog receives while the lines from k on are scanned.
      Every call of the dialog resets the game, so the lines after a complete one are tested
      on an empty board; the fullness test at the end calls it with 0. */
  function CallbackReports(b: Board, k: int): seq<int>
    requires WellFormed(b) && 0 <= k <= LineCount
    decreases LineCount - k
  {
    if k == LineCount then (if Full(b) then [0] else [])
    else if Complete(Line(b, k)) then [Line(b, k)[0]] + CallbackReports(EmptyBoard(), k + 1)
    else CallbackReports(b, k + 1)
  }

  lemma {:induction false} EmptyBoardReportsNothing(k: int)
    requires 0 <= k <= LineCount
    ensures CallbackReports(EmptyBoard(), k) == []
    decreases LineCount - k
  {
    var b := EmptyBoard();
    if k == LineCount {
      assert b[0][0] == Empty;
    } else {
      assert Line(b, k)[0] == Empty;
      EmptyBoardReportsNothing(k + 1);
    }
  }

  /** A complete line at k is reported once; the reset that follows silences the rest of the scan. */
  lemma CallbackReportsAtComplete(b: Board, k: int)
    requires WellFormed(b) && 0 <= k < LineCount && Complete(Line(b, k))
    ensures CallbackReports(b, k) == [Line(b, k)[0]]
  {
    EmptyBoardReportsNothing(k + 1);
  }

  /** The reports from line k on: the first complete line's mark, else 0 when the board is full. */
  function ScanReport(b: Board, k: int): seq<int>
    requires WellFormed(b) && 0 <= k <= LineCount
  {
    match FirstComplete(b, k)
    case Some(m) => [Line(b, m)[0]]
    case None => if Full(b) then [0] else []
  }

  lemma {:induction false} CallbackReportsFrom(b: Board, k: int)
    requires WellFormed(b) && 0 <= k <= LineCount
    ensures CallbackReports(b, k) == ScanReport(b, k)
    decreases LineCount - k
  {
    if k < LineCount {
      if Complete(Line(b, k)) {
        CallbackReportsAtComplete(b, k);
      } else {
        CallbackReportsFrom(b, k + 1);
        assert FirstComplete(b, k) == FirstComplete(b, k + 1);
      }
    }
  }

  /** Reporting through a dialog that resets the game yields, during one scan,
      exactly the report of `Evaluate`: one call with the first winner, or one call with 0 on
      a full board without a winner, or no call at all. */
  lemma CallbackReportsMatchOutcome(b: Board)
    requires WellFormed(b)
    ensures CallbackReports(b, 0) == Report(Evaluate(b))
    ensures |CallbackReports(b, 0)| <= 1
  {
    CallbackReportsFrom(b, 0);
  }

  // ---------------------------------------------------------------- moves

  /** The board after mark p is written at (row, column). */
  function Place(b: Board, row: int, column: int, p: int): (b': Board)
    requires WellFormed(b) && InRange(row, column)
    ensures WellFormed(b')
    ensures b'[row][column] == p
    ensures forall i, j | InRange(i, j) && (i != row || j != column) :: b'[i][j] == b[i][j]
  {
    b[row := b[row][column := p]]
  }

  lemma PlaceKeepsValid(b: Board, row: int, column: int, p: int)
    requires ValidBoard(b) && InRange(row, column) && IsPlayer(p)
    ensures ValidBoard(Place(b, row, column, p))
  {
  }

  /** Every cell of a line of the board after a move is the old cell or the mover's mark. */
  lemma {:induction false} PlaceLine(b: Board, row: int, column: int, p: int, k: int)
    requires WellFormed(b) && InRange(row, column) && 0 <= k < LineCount
    ensures forall j | 0 <= j < BoardSize ::
              Line(Place(b, row, column, p), k)[j] == Line(b, k)[j] ||
              Line(Place(b, row, column, p), k)[j] == p
  {
  }

  /** If no line was complete before a move, every line complete after it carries the
      mover's mark, so the check reports the mover as winner. */
  lemma {:induction false} WinnerIsMover(b: Board, row: int, column: int, p: int)
    requires WellFormed(b) && InRange(row, column) && IsPlayer(p)
    requires forall k | 0 <= k < LineCount :: !Complete(Line(b, k))
    requires Evaluate(Place(b, row, column, p)).Win?
    ensures Evaluate(Place(b, row, column, p)) == Win(p)
  {
    var b' := Place(b, row, column, p);
    EvaluateSpec(b');
    var k :| 0 <= k < LineCount && Complete(Line(b', k)) && Evaluate(b').player == Line(b', k)[0];
    PlaceLine(b, row, column, p, k);
    var before, after := Line(b, k), Line(b', k);
    assert !Complete(before);
    assert exists j | 0 <= j < BoardSize :: after[j] != before[j];
    var j :| 0 <= j < BoardSize && after[j] != before[j];
    assert after[j] == p;
  }

  // ---------------------------------------------------------------- counting free cells

  function CountEmptyInRow(row: seq<int>): nat {
    if row == [] then 0
    else (if row[0] == Empty then 1 else 0) + CountEmptyInRow(row[1..])
  }

  function CountEmpty(b: Board): nat {
    if b == [] then 0 else CountEmptyInRow(b[0]) + CountEmpty(b[1..])
  }

  lemma {:induction false} CountEmptyInRowUpdate(row: seq<int>, j: int, p: int)
    requires 0 <= j < |row| && row[j] == Empty && p != Empty
    ensures CountEmptyInRow(row[j := p]) + 1 == CountEmptyInRow(row)
  {
    if j > 0 {
      assert row[j := p][1..] == row[1..][j - 1 := p];
      CountEmptyInRowUpdate(row[1..], j - 1, p);
    }
  }

  lemma {:induction false} CountEmptyUpdate(b: Board, i: int, row: seq<int>)
    requires 0 <= i < |b|
    ensures CountEmpty(b[i := row]) + CountEmptyInRow(b[i]) == CountEmpty(b) + CountEmptyInRow(row)
  {
    if i > 0 {
      assert b[i := row][1..] == b[1..][i - 1 := row];
      CountEmptyUpdate(b[1..], i - 1, row);
    }
  }

  /** A move onto a free cell takes exactly one free cell away. */
  lemma PlaceCountsDown(b: Board, row: int, column: int, p: int)
    requires WellFormed(b) && InRange(row, column) && b[row][column] == Empty && p != Empty
    ensures CountEmpty(Place(b, row, column, p)) + 1 == CountEmpty(b)
  {
    CountEmptyInRowUpdate(b[row], column, p);
    CountEmptyUpdate(b, row, b[row][column := p]);
  }

  lemma {:induction false} CountEmptyInRowZero(row: seq<int>)
    ensures CountEmptyInRow(row) == 0 <==> forall j | 0 <= j < |row| :: row[j] != Empty
  {
    if row != [] {
      CountEmptyInRowZero(row[1..]);
      assert forall j | 1 <= j < |row| :: row[j] == row[1..][j - 1];
    }
  }

  lemma {:induction false} CountEmptyZero(b: Board)
    ensures CountEmpty(b) == 0 <==>
            forall i, j | 0 <= i < |b| && 0 <= j < |b[i]| :: b[i][j] != Empty
  {
    if b != [] {
      CountEmptyInRowZero(b[0]);
      CountEmptyZero(b[1..]);
      assert forall i | 1 <= i < |b| :: b[i] == b[1..][i - 1];
    }
  }

  /** The board is full exactly when it has no free cell left. */
  lemma FullIffNoneEmpty(b: Board)
    requires WellFormed(b)
    ensures Full(b) <==> CountEmpty(b) == 0
  {
    CountEmptyZero(b);
  }

  lemma {:induction false} CountEmptyInRowAllEmpty(row: seq<int>)
    requires forall j | 0 <= j < |row| :: row[j] == Empty
    ensures CountEmptyInRow(row) == |row|
  {
    if row != [] {
      CountEmptyInRowAllEmpty(row[1..]);
    }
  }

  lemma {:induction false} CountEmptyAllEmpty(b: Board)
    requires forall i, j | 0 <= i < |b| && 0 <= j < |b[i]| :: b[i][j] == Empty
    requires forall i | 0 <= i < |b| :: |b[i]| == BoardSize
    ensures CountEmpty(b) == |b| * BoardSize
  {
    if b != [] {
      CountEmptyInRowAllEmpty(b[0]);
      CountEmptyAllEmpty(b[1..]);
    }
  }

  /** The empty board has all sixteen cells free. */
  lemma EmptyBoardCount()
    ensures CountEmpty(EmptyBoard()) == BoardSize * BoardSize
  {
    var b := EmptyBoard();
    CountEmptyAllEmpty(b);
  }
}
