/** What `Game.render` (src/index.js) derives from the state: the status line,
    the descriptor of each history entry and the order of the move list. */
module GameView {
  import opened Rules
  import opened GameLogic

  /** The status line: "Winner: <mark>", "Draw" or "Next player: <mark>". */
  datatype Status = Winner(mark: Cell) | Draw | NextPlayer(mark: Cell)

  /** The status is chosen in this order: a winner on the current board, then a
      draw when the step has reached 9, then the player to move. */
  function StatusOf(s: GameState): (r: Status)
    requires WellIndexed(s)
    ensures r.Winner? <==> HasWinner(Current(s).squares)
    ensures r.Winner? ==> r.mark == WinnerOf(Current(s).squares).winner && r.mark != Empty
    ensures r == Draw <==> !HasWinner(Current(s).squares) && s.stepNumber == 9
    ensures r.NextPlayer? ==> r.mark == MarkFor(s.xIsNext)
  {
    var info := WinnerOf(Current(s).squares);
    if info.winner != Empty then Winner(info.winner)
    else if s.stepNumber == 9 then Draw
    else NextPlayer(MarkFor(s.xIsNext))
  }

  /** Once the status names a winner, every click is ignored. */
  lemma WonGameIgnoresClicks(s: GameState, i: nat)
    requires WellIndexed(s) && i < 9 && StatusOf(s).Winner?
    ensures Play(s, i) == s
  {
  }

  /** In a reachable state a draw is a full board without a winner, and no click
      changes it. */
  lemma {:induction false} DrawMeansFullBoard(s: GameState)
    requires ValidState(s) && StatusOf(s) == Draw
    ensures forall j :: 0 <= j < 9 ==> Current(s).squares[j] != Empty
    ensures forall i :: 0 <= i < 9 ==> Play(s, i) == s
  {
    SnapshotMarks(s.history, s.stepNumber);
    CountZero(Current(s).squares, Empty);
  }

  /** In a reachable state, while the status names the next player, that player
      has an empty cell to play, and any accepted click puts exactly the named
      mark there. */
  lemma {:induction false} NextPlayerCanMove(s: GameState)
    requires ValidState(s) && StatusOf(s).NextPlayer?
    ensures exists i :: 0 <= i < 9 && Accepts(s, i)
    ensures forall i :: 0 <= i < 9 && Accepts(s, i) ==> Current(Play(s, i)).squares[i] == StatusOf(s).mark
    ensures StatusOf(s).mark == (if s.stepNumber % 2 == 0 then X else O)
  {
    HistoryHoldsAtMostTenBoards(s);
    SnapshotMarks(s.history, s.stepNumber);
    CountZero(Current(s).squares, Empty);
    var i :| 0 <= i < 9 && Current(s).squares[i] == Empty;
    assert Accepts(s, i);
  }

  // ---------------------------------------------------------------------------
  // Move descriptors.

  /** The column and row shown for a history entry; nothing for the start entry. */
  datatype Label = NoLabel | ColRow(col: nat, row: nat)

  /** The text of a move's button: "Go to game start" for entry 0, "Go to move #n"
      otherwise. */
  datatype Description = GoToGameStart | GoToMove(n: nat)

  datatype MoveItem = MoveItem(move: nat, description: Description, place: Label)

  /** Column `square % 3 + 1` and row `floor(square / 3) + 1`; both are in 1..3 and
      together they name the cell back. */
  function LabelOf(e: Entry): (l: Label)
    ensures l == NoLabel <==> e.squareNumber == None
    ensures e.squareNumber.Some? && e.squareNumber.value < 9 ==>
      1 <= l.col <= 3 && 1 <= l.row <= 3 && (l.row - 1) * 3 + (l.col - 1) == e.squareNumber.value
  {
    match e.squareNumber
    case None => NoLabel
    case Some(n) => ColRow(n % 3 + 1, n / 3 + 1)
  }

  function DescriptionOf(move: nat): (d: Description)
    ensures d == GoToGameStart <==> move == 0
    ensures d.GoToMove? ==> d.n == move
  {
    if move != 0 then GoToMove(move) else GoToGameStart
  }

  /** One descriptor per history entry, in history order. */
  function Moves(s: GameState): (ms: seq<MoveItem>)
    ensures |ms| == |s.history|
    ensures forall k :: 0 <= k < |ms| ==>
      ms[k].move == k && ms[k].description == DescriptionOf(k) && ms[k].place == LabelOf(s.history[k])
  {
    seq(|s.history|, k requires 0 <= k < |s.history| => MoveItem(k, DescriptionOf(k), LabelOf(s.history[k])))
  }

  /** In a reachable state only the start entry has no label, and the label of
      every later entry names the one cell in which it differs from the entry
      before it. */
  lemma LabelsOfReachableHistory(s: GameState, k: nat)
    requires ValidState(s) && k < |s.history|
    ensures Moves(s)[k].place == NoLabel <==> k == 0
    ensures k > 0 ==> var l := Moves(s)[k].place;
      var cell := (l.row - 1) * 3 + (l.col - 1);
      0 <= cell < 9 &&
      s.history[k - 1].squares[cell] == Empty && s.history[k].squares[cell] != Empty &&
      forall j :: 0 <= j < 9 && j != cell ==> s.history[k].squares[j] == s.history[k - 1].squares[j]
  {
    if k > 0 {
      assert StepFollows(s.history, k);
    }
  }

  /** The reverse of a sequence, as `Array.prototype.reverse` leaves it. */
  function Reverse<T>(xs: seq<T>): seq<T> {
    if xs == [] then [] else Reverse(xs[1..]) + [xs[0]]
  }

  lemma {:induction false} ReverseAt<T>(xs: seq<T>, k: nat)
    requires k < |xs|
    ensures |Reverse(xs)| == |xs| && Reverse(xs)[k] == xs[|xs| - 1 - k]
  {
    if k < |xs| - 1 {
      ReverseAt(xs[1..], k);
    } else {
      ReverseLength(xs[1..]);
    }
  }

  lemma {:induction false} ReverseLength<T>(xs: seq<T>)
    ensures |Reverse(xs)| == |xs|
  {
    if xs != [] {
      ReverseLength(xs[1..]);
    }
  }

  lemma {:induction false} ReversePermutes<T>(xs: seq<T>)
    ensures multiset(Reverse(xs)) == multiset(xs)
  {
    if xs != [] {
      ReversePermutes(xs[1..]);
      assert xs == [xs[0]] + xs[1..];
    }
  }

  lemma ReverseTwice<T>(xs: seq<T>)
    ensures Reverse(Reverse(xs)) == xs
  {
    ReverseLength(xs);
    ReverseLength(Reverse(xs));
    forall k | 0 <= k < |xs|
      ensures Reverse(Reverse(xs))[k] == xs[k]
    {
      ReverseAt(Reverse(xs), k);
      ReverseAt(xs, |xs| - 1 - k);
    }
  }

  /** The move list as shown: history order when ascending, reversed otherwise.
      What this means position by position is `OrderedMovesCorrect`. */
  function OrderedMoves(s: GameState): (ms: seq<MoveItem>)
    ensures s.historyIsAsc ==> ms == Moves(s)
  {
    if s.historyIsAsc then Moves(s) else Reverse(Moves(s))
  }

  /** Position `k` of the shown list holds history entry `k` when ascending and
      entry `n - 1 - k` otherwise; either way every entry is shown exactly once. */
  lemma OrderedMovesCorrect(s: GameState)
    ensures |OrderedMoves(s)| == |s.history|
    ensures forall k :: 0 <= k < |s.history| ==>
      OrderedMoves(s)[k] == Moves(s)[if s.historyIsAsc then k else |s.history| - 1 - k]
    ensures forall k :: 0 <= k < |s.history| ==>
      OrderedMoves(s)[k].move == if s.historyIsAsc then k else |s.history| - 1 - k
    ensures multiset(OrderedMoves(s)) == multiset(Moves(s))
  {
    ReverseLength(Moves(s));
    ReversePermutes(Moves(s));
    forall k | 0 <= k < |s.history|
      ensures OrderedMoves(s)[k] == Moves(s)[if s.historyIsAsc then k else |s.history| - 1 - k]
    {
      if !s.historyIsAsc {
        ReverseAt(Moves(s), k);
      }
    }
  }

  /** Toggling the order shows the same list reversed. */
  lemma ToggleOrderReversesList(s: GameState)
    ensures OrderedMoves(ToggleOrder(s)) == Reverse(OrderedMoves(s))
  {
    if !s.historyIsAsc {
      ReverseTwice(Moves(s));
    }
  }

  // ---------------------------------------------------------------------------
  // Two complete games.

  /** X plays 0, 1, 2 while O plays 3, 4: after five moves X has won on the top row. */
  lemma XWinsTopRow()
    ensures AllAccepted(Initial(), [0, 3, 1, 4, 2])
    ensures var s := PlaySequence(Initial(), [0, 3, 1, 4, 2]);
      s.stepNumber == 5 &&
      WinnerOf(Current(s).squares) == WinnerInfo(X, [0, 1, 2]) &&
      StatusOf(s) == Winner(X)
  {
  }

  /** A board without a line of three equal marks has no winner. */
  lemma NoLineWon(b: Board)
    requires forall k :: 0 <= k < |Lines| ==> !Wins(b, Lines[k])
    ensures !HasWinner(b)
  {
    CalculateWinnerCorrect(b);
  }

  /** One accepted move at the end of the history, seen from the first move of a
      sequence: the board gains the mover's mark, the step advances, the turn
      passes, and the rest of the sequence continues from there. */
  lemma {:induction false} PlayAtTip(s: GameState, i: nat, rest: seq<nat>, next: Board)
    requires WellIndexed(s) && s.stepNumber == |s.history| - 1 && i < 9
    requires forall j :: 0 <= j < |rest| ==> rest[j] < 9
    requires !HasWinner(Current(s).squares) && Current(s).squares[i] == Empty
    requires next == Current(s).squares[i := MarkFor(s.xIsNext)]
    ensures var t := Play(s, i);
      t.stepNumber == s.stepNumber + 1 && t.stepNumber == |t.history| - 1 &&
      Current(t).squares == next && t.xIsNext == !s.xIsNext &&
      PlaySequence(s, [i] + rest) == PlaySequence(t, rest) &&
      (AllAccepted(s, [i] + rest) <==> AllAccepted(t, rest))
  {
    assert ([i] + rest)[0] == i && ([i] + rest)[1..] == rest;
  }

  /** The boards of the drawn game below, after 0 to 9 moves; none has a winner. */
  const DrawBoards: seq<Board> :=
    [ [Empty, Empty, Empty, Empty, Empty, Empty, Empty, Empty, Empty],
      [X, Empty, Empty, Empty, Empty, Empty, Empty, Empty, Empty],
      [X, O, Empty, Empty, Empty, Empty, Empty, Empty, Empty],
      [X, O, X, Empty, Empty, Empty, Empty, Empty, Empty],
      [X, O, X, O, Empty, Empty, Empty, Empty, Empty],
      [X, O, X, O, Empty, X, Empty, Empty, Empty],
      [X, O, X, O, O, X, Empty, Empty, Empty],
      [X, O, X, O, O, X, X, Empty, Empty],
      [X, O, X, O, O, X, X, Empty, O],
      [X, O, X, O, O, X, X, X, O] ]

  const DrawMoves: seq<nat> := [0, 1, 2, 3, 5, 4, 6, 8, 7]

  lemma DrawBoardsHaveNoWinner(k: nat)
    requires k < 10
    ensures !HasWinner(DrawBoards[k])
  {
    NoLineWon(DrawBoards[k]);
  }

  /** Move `k` of the drawn game puts the mark of its player on an empty cell. */
  lemma DrawBoardStep(k: nat)
    requires k < 9
    ensures DrawMoves[k] < 9 && DrawBoards[k][DrawMoves[k]] == Empty
    ensures DrawBoards[k + 1] == DrawBoards[k][DrawMoves[k] := MarkFor(k % 2 == 0)]
  {
    var bs := DrawBoards;
    if k == 0 { assert bs[1] == bs[0][0 := X]; }
    else if k == 1 { assert bs[2] == bs[1][1 := O]; }
    else if k == 2 { assert bs[3] == bs[2][2 := X]; }
    else if k == 3 { assert bs[4] == bs[3][3 := O]; }
    else if k == 4 { assert bs[5] == bs[4][5 := X]; }
    else if k == 5 { assert bs[6] == bs[5][4 := O]; }
    else if k == 6 { assert bs[7] == bs[6][6 := X]; }
    else if k == 7 { assert bs[8] == bs[7][8 := O]; }
    else { assert bs[9] == bs[8][7 := X]; }
  }

  /** The drawn game is at move `k`: the state is at the end of its history, shows
      board `k` and has the right player to move. */
  predicate DrawAt(s: GameState, k: nat) {
    k <= 9 && WellIndexed(s) && s.stepNumber == |s.history| - 1 &&
    s.stepNumber == k && Current(s).squares == DrawBoards[k] && s.xIsNext == (k % 2 == 0)
  }

  /** Move `k` of the drawn game is accepted and leads to move `k + 1`. */
  lemma DrawStep(s: GameState, k: nat)
    requires DrawAt(s, k) && k < 9
    ensures DrawAt(Play(s, DrawMoves[k]), k + 1)
    ensures AllAccepted(s, DrawMoves[k..]) <==> AllAccepted(Play(s, DrawMoves[k]), DrawMoves[k + 1..])
    ensures PlaySequence(s, DrawMoves[k..]) == PlaySequence(Play(s, DrawMoves[k]), DrawMoves[k + 1..])
  {
    var i := DrawMoves[k];
    assert DrawMoves[k..] == [i] + DrawMoves[k + 1..];
    DrawBoardsHaveNoWinner(k);
    DrawBoardStep(k);
    PlayAtTip(s, i, DrawMoves[k + 1..], DrawBoards[k + 1]);
    ParityStep(k);
  }

  /** Playing the drawn game from move `k` on accepts every move and ends on the
      full board at step 9. */
  lemma {:induction false} DrawFrom(s: GameState, k: nat)
    requires DrawAt(s, k)
    ensures AllAccepted(s, DrawMoves[k..])
    ensures Current(PlaySequence(s, DrawMoves[k..])).squares == DrawBoards[9]
    ensures PlaySequence(s, DrawMoves[k..]).stepNumber == 9
    decreases 9 - k
  {
    if k < 9 {
      DrawStep(s, k);
      DrawFrom(Play(s, DrawMoves[k]), k + 1);
    } else {
      assert DrawMoves[k..] == [];
    }
  }

  /** Filling the board in the order 0, 1, 2, 3, 5, 4, 6, 8, 7 completes no line:
      the game ends in a draw at step 9. */
  lemma FullBoardDraw()
    ensures AllAccepted(Initial(), [0, 1, 2, 3, 5, 4, 6, 8, 7])
    ensures var s := PlaySequence(Initial(), [0, 1, 2, 3, 5, 4, 6, 8, 7]);
      s.stepNumber == 9 && StatusOf(s) == Draw
  {
    assert DrawMoves[0..] == [0, 1, 2, 3, 5, 4, 6, 8, 7];
    DrawFrom(Initial(), 0);
    DrawBoardsHaveNoWinner(9);
  }
}
