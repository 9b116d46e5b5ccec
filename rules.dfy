/** The rules of tic-tac-toe: cells, boards, the eight winning lines and the
    winner calculation (`calculateWinner` in src/index.js). */
module Rules {

  /** One cell of the board. `Empty` stands for the JavaScript `null` that a fresh
      board is filled with; a cell is "truthy" exactly when it is not `Empty`. */
  datatype Cell = Empty | X | O

  /** A board is always exactly nine cells, indexed row by row. */
  type Board = b: seq<Cell> | |b| == 9
    witness [Empty, Empty, Empty, Empty, Empty, Empty, Empty, Empty, Empty]

  /** A winning line: three cell indices, each inside the board. */
  type Line = l: seq<nat> | |l| == 3 && l[0] < 9 && l[1] < 9 && l[2] < 9
    witness [0, 1, 2]

  const EmptyBoard: Board := [Empty, Empty, Empty, Empty, Empty, Empty, Empty, Empty, Empty]

  /** The eight lines in the order they are tried: rows, then columns, then diagonals. */
  const Lines: seq<Line> := [
    [0, 1, 2], [3, 4, 5], [6, 7, 8],
    [0, 3, 6], [1, 4, 7], [2, 5, 8],
    [0, 4, 8], [2, 4, 6]
  ]

  /** The mark the player to move places. */
  function MarkFor(xIsNext: bool): (c: Cell)
    ensures c != Empty
    ensures (c == X) == xIsNext
  {
    if xIsNext then X else O
  }

  /** What the winner calculation reports: the winning mark (`Empty` for none)
      and the winning line (empty for none). */
  datatype WinnerInfo = WinnerInfo(winner: Cell, lines: seq<nat>)

  const NoWinner := WinnerInfo(Empty, [])

  /** Three equal, non-empty marks along `line`. */
  predicate Wins(squares: Board, line: Line) {
    squares[line[0]] != Empty && squares[line[0]] == squares[line[1]] && squares[line[0]] == squares[line[2]]
  }

  /** Line `k` is the first line, in the order of `Lines`, that is won. */
  ghost predicate IsFirstWin(squares: Board, k: nat) {
    k < |Lines| && Wins(squares, Lines[k]) && forall j :: 0 <= j < k ==> !Wins(squares, Lines[j])
  }

  /** The result of scanning `Lines` from position `k` on. */
  function WinnerFrom(squares: Board, k: nat): WinnerInfo
    requires k <= |Lines|
    decreases |Lines| - k
  {
    if k == |Lines| then NoWinner
    else if Wins(squares, Lines[k]) then WinnerInfo(squares[Lines[k][0]], Lines[k])
    else WinnerFrom(squares, k + 1)
  }

  /** The winner of a board, as a value: the scan from the first line. */
  function WinnerOf(squares: Board): WinnerInfo {
    WinnerFrom(squares, 0)
  }

  predicate HasWinner(squares: Board) {
    WinnerOf(squares).winner != Empty
  }

  /** The loop of `calculateWinner`: try each line in order, return at the first
      line holding three equal marks, and report no winner after the last line. */
  method CalculateWinner(squares: Board) returns (r: WinnerInfo)
    ensures r == WinnerOf(squares)
  {
    for i := 0 to |Lines|
      invariant WinnerFrom(squares, i) == WinnerOf(squares)
    {
      var line := Lines[i];
      var a, b, c := line[0], line[1], line[2];
      if squares[a] != Empty && squares[a] == squares[b] && squares[a] == squares[c] {
        return WinnerInfo(squares[a], line);
      }
    }
    return NoWinner;
  }

  /** Scanning from `k` finds the first won line at or after `k`, or reports none. */
  lemma {:induction false} WinnerFromCorrect(squares: Board, k: nat)
    requires k <= |Lines|
    ensures var r := WinnerFrom(squares, k);
      (r.winner != Empty <==> exists j :: k <= j < |Lines| && Wins(squares, Lines[j])) &&
      (r.winner == Empty ==> r == NoWinner) &&
      (r.winner != Empty ==> exists j :: k <= j < |Lines| && Wins(squares, Lines[j]) &&
                                        r == WinnerInfo(squares[Lines[j][0]], Lines[j]) &&
                                        forall m :: k <= m < j ==> !Wins(squares, Lines[m]))
    decreases |Lines| - k
  {
    if k < |Lines| && !Wins(squares, Lines[k]) {
      WinnerFromCorrect(squares, k + 1);
    }
  }

  /** The winner calculation reports a winner exactly when some line holds three
      equal non-empty marks; it then reports the mark and the FIRST such line in
      the order rows, columns, diagonals; otherwise it reports no winner and no line. */
  lemma CalculateWinnerCorrect(squares: Board)
    ensures HasWinner(squares) <==> exists k :: 0 <= k < |Lines| && Wins(squares, Lines[k])
    ensures forall k: nat :: IsFirstWin(squares, k) ==>
      WinnerOf(squares) == WinnerInfo(squares[Lines[k][0]], Lines[k])
    ensures !HasWinner(squares) ==> WinnerOf(squares) == NoWinner
  {
    WinnerFromCorrect(squares, 0);
    var r := WinnerOf(squares);
    forall k: nat | IsFirstWin(squares, k)
      ensures r == WinnerInfo(squares[Lines[k][0]], Lines[k])
    {
      var j :| 0 <= j < |Lines| && Wins(squares, Lines[j]) &&
               r == WinnerInfo(squares[Lines[j][0]], Lines[j]) &&
               forall m :: 0 <= m < j ==> !Wins(squares, Lines[m]);
      assert j == k;
    }
  }

  /** The reported winner is one of the two marks, and the reported line is one of
      the eight lines and is held entirely by that mark. */
  lemma WinnerHoldsItsLine(squares: Board)
    requires HasWinner(squares)
    ensures exists k :: 0 <= k < |Lines| && WinnerOf(squares).lines == Lines[k]
    ensures var r := WinnerOf(squares);
      |r.lines| == 3 && r.lines[0] < 9 && r.lines[1] < 9 && r.lines[2] < 9 &&
      (r.winner == X || r.winner == O) &&
      squares[r.lines[0]] == r.winner && squares[r.lines[1]] == r.winner && squares[r.lines[2]] == r.winner
  {
    WinnerFromCorrect(squares, 0);
  }

  /** The empty board has no winner and no winning line. */
  lemma EmptyBoardHasNoWinner()
    ensures WinnerOf(EmptyBoard) == NoWinner
  {
    CalculateWinnerCorrect(EmptyBoard);
  }
}
