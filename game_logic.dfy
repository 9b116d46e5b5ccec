/** The state of a `Game` (src/index.js): the move history, the current step,
    whose turn it is and the display order of the move list, with the three
    transitions `handleClick`, `jumpTo` and `handleChange`.

    The transitions are given twice: as pure functions on a `GameState` value
    (`Play`, `Jump`, `ToggleOrder`), about which the lemmas below are proved, and
    as the methods of the class `Game`, which update its fields in place and are
    proved to agree with those functions. */
module GameLogic {
  import opened Rules

  datatype Option<T> = None | Some(value: T)

  /** One history entry: a board snapshot and the cell that was just played
      (`None` for the entry of the game start). */
  datatype Entry = Entry(squares: Board, squareNumber: Option<nat>)

  const InitialEntry := Entry(EmptyBoard, None)

  /** The four fields of the component's state. */
  datatype GameState = GameState(history: seq<Entry>, stepNumber: nat, xIsNext: bool, historyIsAsc: bool)

  /** The state the component starts in: one empty board, step 0, X to move,
      moves listed in ascending order. */
  function Initial(): (s: GameState)
    ensures |s.history| == 1 && s.history[0] == InitialEntry && s.history[0].squares == EmptyBoard
    ensures s.stepNumber == 0 && s.xIsNext && s.historyIsAsc
  {
    GameState([InitialEntry], 0, true, true)
  }

  /** The step pointer designates an existing snapshot. */
  predicate WellIndexed(s: GameState) {
    s.stepNumber < |s.history|
  }

  /** The snapshot shown at the current step. */
  function Current(s: GameState): Entry
    requires WellIndexed(s)
  {
    s.history[s.stepNumber]
  }

  /** Snapshot `k` arises from snapshot `k - 1` by one accepted move: the cell it
      records was empty, the previous board had no winner, and only that cell
      changed, to X after an even number of moves and to O after an odd one. */
  ghost predicate StepFollows(h: seq<Entry>, k: nat)
    requires 0 < k < |h|
  {
    var prev, next := h[k - 1], h[k];
    next.squareNumber.Some? && next.squareNumber.value < 9 &&
    !HasWinner(prev.squares) &&
    prev.squares[next.squareNumber.value] == Empty &&
    next.squares == prev.squares[next.squareNumber.value := MarkFor((k - 1) % 2 == 0)]
  }

  /** A history that the game can build: it starts with the empty board and every
      later snapshot follows from the one before it. */
  ghost predicate ValidHistory(h: seq<Entry>) {
    0 < |h| && h[0] == InitialEntry && forall k :: 0 < k < |h| ==> StepFollows(h, k)
  }

  /** The invariant of every reachable state; `xIsNext` is redundant with the parity
      of `stepNumber`. */
  ghost predicate ValidState(s: GameState) {
    ValidHistory(s.history) && s.stepNumber < |s.history| && s.xIsNext == (s.stepNumber % 2 == 0)
  }

  /** `handleClick(i)` accepts the move: the current board has no winner and cell
      `i` is empty. */
  predicate Accepts(s: GameState, i: nat)
    requires WellIndexed(s) && i < 9
  {
    !HasWinner(Current(s).squares) && Current(s).squares[i] == Empty
  }

  /** `handleClick(i)` as a transition: a rejected move leaves the state as it is;
      an accepted one drops the snapshots after the current step and appends the
      current board with the mover's mark in cell `i`. */
  function Play(s: GameState, i: nat): (r: GameState)
    requires WellIndexed(s) && i < 9
    ensures WellIndexed(r)
    ensures !Accepts(s, i) ==> r == s
    ensures Accepts(s, i) ==>
      |r.history| == s.stepNumber + 2 &&
      r.history[..s.stepNumber + 1] == s.history[..s.stepNumber + 1] &&
      r.stepNumber == s.stepNumber + 1 && r.xIsNext == !s.xIsNext && r.historyIsAsc == s.historyIsAsc &&
      Current(r).squareNumber == Some(i) &&
      Current(r).squares[i] == MarkFor(s.xIsNext) &&
      forall j :: 0 <= j < 9 && j != i ==> Current(r).squares[j] == Current(s).squares[j]
  {
    var history := s.history[..s.stepNumber + 1];
    var current := history[|history| - 1];
    if HasWinner(current.squares) || current.squares[i] != Empty then s
    else
      s.(history := history + [Entry(current.squares[i := MarkFor(s.xIsNext)], Some(i))],
         stepNumber := |history|,
         xIsNext := !s.xIsNext)
  }

  /** `jumpTo(step)` as a transition: move the step pointer and recompute whose turn
      it is from the parity of the step; the history is kept. */
  function Jump(s: GameState, step: nat): (r: GameState)
    requires step < |s.history|
    ensures WellIndexed(r)
    ensures r.stepNumber == step && r.xIsNext == (step % 2 == 0)
    ensures r.history == s.history && r.historyIsAsc == s.historyIsAsc
  {
    s.(stepNumber := step, xIsNext := step % 2 == 0)
  }

  /** `handleChange()` as a transition: flip the display order of the move list. */
  function ToggleOrder(s: GameState): (r: GameState)
    ensures r.historyIsAsc != s.historyIsAsc
    ensures r.history == s.history && r.stepNumber == s.stepNumber && r.xIsNext == s.xIsNext
  {
    s.(historyIsAsc := !s.historyIsAsc)
  }

  /** The state after the moves `moves`, played one after the other. */
  function PlaySequence(s: GameState, moves: seq<nat>): (r: GameState)
    requires WellIndexed(s) && forall j :: 0 <= j < |moves| ==> moves[j] < 9
    ensures WellIndexed(r)
    decreases |moves|
  {
    if moves == [] then s else PlaySequence(Play(s, moves[0]), moves[1..])
  }

  /** Every move of `moves` is accepted when it is played. */
  predicate AllAccepted(s: GameState, moves: seq<nat>)
    requires WellIndexed(s) && forall j :: 0 <= j < |moves| ==> moves[j] < 9
    decreases |moves|
  {
    moves == [] || (Accepts(s, moves[0]) && AllAccepted(Play(s, moves[0]), moves[1..]))
  }

  /** Number of cells of `b` that hold `c`. */
  function Count(b: seq<Cell>, c: Cell): nat {
    if b == [] then 0 else (if b[0] == c then 1 else 0) + Count(b[1..], c)
  }

  // ---------------------------------------------------------------------------
  // The invariant is established and kept by every transition.

  lemma InitialIsValid()
    ensures ValidState(Initial())
  {
  }

  /** An accepted or rejected click keeps the invariant. */
  lemma PlayPreservesValid(s: GameState, i: nat)
    requires ValidState(s) && i < 9
    ensures ValidState(Play(s, i))
  {
    if Accepts(s, i) {
      var r := Play(s, i);
      var h, h' := s.history, r.history;
      forall k | 0 < k < |h'|
        ensures StepFollows(h', k)
      {
        if k <= s.stepNumber {
          assert h'[k - 1] == h[k - 1] && h'[k] == h[k];
          assert StepFollows(h, k);
        } else {
          assert h'[k - 1] == h[s.stepNumber];
        }
      }
    }
  }

  lemma JumpPreservesValid(s: GameState, step: nat)
    requires ValidState(s) && step < |s.history|
    ensures ValidState(Jump(s, step))
  {
  }

  lemma ToggleOrderPreservesValid(s: GameState)
    requires ValidState(s)
    ensures ValidState(ToggleOrder(s))
  {
  }

  // ---------------------------------------------------------------------------
  // Properties of the transitions.

  /** Toggling the order twice restores the state. */
  lemma ToggleOrderTwice(s: GameState)
    ensures ToggleOrder(ToggleOrder(s)) == s
  {
  }

  /** In a reachable state, jumping to the current step changes nothing: `xIsNext`
      already matches the parity of the step. */
  lemma JumpToCurrentStepIsNoOp(s: GameState)
    requires ValidState(s)
    ensures Jump(s, s.stepNumber) == s
  {
  }

  /** A move made after jumping back to step `k` discards every snapshot after `k`
      and appends the board of step `k` with the mark of the player whose turn
      step `k` is: X for an even step, O for an odd one. */
  lemma JumpThenPlayPrunes(s: GameState, k: nat, i: nat)
    requires ValidState(s) && k < |s.history| && i < 9
    requires Accepts(Jump(s, k), i)
    ensures Play(Jump(s, k), i) ==
      s.(history := s.history[..k + 1] + [Entry(s.history[k].squares[i := MarkFor(k % 2 == 0)], Some(i))],
         stepNumber := k + 1,
         xIsNext := k % 2 != 0)
  {
  }

  /** From a state at the end of its history, a run of accepted moves advances the
      step by one per move, grows the history by one per move, keeps the earlier
      snapshots and flips the turn once per move. */
  lemma {:induction false} PlaySequenceCounts(s: GameState, moves: seq<nat>)
    requires WellIndexed(s) && s.stepNumber == |s.history| - 1
    requires forall j :: 0 <= j < |moves| ==> moves[j] < 9
    requires AllAccepted(s, moves)
    ensures var r := PlaySequence(s, moves);
      r.stepNumber == s.stepNumber + |moves| &&
      |r.history| == |s.history| + |moves| &&
      r.history[..|s.history|] == s.history &&
      r.xIsNext == (s.xIsNext == (|moves| % 2 == 0)) &&
      r.historyIsAsc == s.historyIsAsc
    decreases |moves|
  {
    if moves != [] {
      var s' := Play(s, moves[0]);
      assert Accepts(s, moves[0]);
      assert s.history[..s.stepNumber + 1] == s.history;
      assert s'.history[..|s.history|] == s.history;
      assert s'.stepNumber == |s'.history| - 1;
      PlaySequenceCounts(s', moves[1..]);
      var r := PlaySequence(s', moves[1..]);
      assert r == PlaySequence(s, moves);
      ParityStep(|moves| - 1);
      assert r.history[..|s.history|] == r.history[..|s'.history|][..|s.history|];
    }
  }

  /** After `N` accepted moves from the start, the step is `N` and the history holds
      `N + 1` snapshots, the first of them the empty board. */
  lemma PlaysFromStart(moves: seq<nat>)
    requires forall j :: 0 <= j < |moves| ==> moves[j] < 9
    requires AllAccepted(Initial(), moves)
    ensures var r := PlaySequence(Initial(), moves);
      r.stepNumber == |moves| && |r.history| == |moves| + 1 && r.history[0] == InitialEntry
  {
    PlaySequenceCounts(Initial(), moves);
    var r := PlaySequence(Initial(), moves);
    assert r.history[0] == r.history[..1][0];
  }

  lemma ParityStep(n: nat)
    ensures ((n + 1) % 2 == 0) == (n % 2 != 0)
  {
  }

  // ---------------------------------------------------------------------------
  // Counting marks.

  lemma {:induction false} CountUpdate(b: seq<Cell>, i: nat, c: Cell, d: Cell)
    requires i < |b|
    ensures Count(b[i := c], d) == Count(b, d) - (if b[i] == d then 1 else 0) + (if c == d then 1 else 0)
  {
    if i == 0 {
      assert b[i := c][1..] == b[1..];
    } else {
      CountUpdate(b[1..], i - 1, c, d);
      assert b[i := c][1..] == b[1..][i - 1 := c];
    }
  }

  lemma {:induction false} CountTotal(b: seq<Cell>)
    ensures Count(b, X) + Count(b, O) + Count(b, Empty) == |b|
  {
    if b != [] {
      CountTotal(b[1..]);
    }
  }

  lemma {:induction false} CountZero(b: seq<Cell>, c: Cell)
    ensures Count(b, c) == 0 <==> forall j :: 0 <= j < |b| ==> b[j] != c
  {
    if b != [] {
      CountZero(b[1..], c);
      assert forall j :: 0 < j < |b| ==> b[j] == b[1..][j - 1];
    }
  }

  /** Snapshot `k` of a reachable history holds `(k + 1) / 2` X marks, `k / 2` O marks
      and `9 - k` empty cells. */
  lemma {:induction false} SnapshotMarks(h: seq<Entry>, k: nat)
    requires ValidHistory(h) && k < |h|
    ensures Count(h[k].squares, X) == (k + 1) / 2
    ensures Count(h[k].squares, O) == k / 2
    ensures Count(h[k].squares, Empty) == 9 - k
  {
    if k == 0 {
      CountZero(EmptyBoard, X);
      CountZero(EmptyBoard, O);
      CountTotal(EmptyBoard);
    } else {
      SnapshotMarks(h, k - 1);
      assert StepFollows(h, k);
      var prev := h[k - 1].squares;
      var i := h[k].squareNumber.value;
      var m := MarkFor((k - 1) % 2 == 0);
      CountUpdate(prev, i, m, X);
      CountUpdate(prev, i, m, O);
      CountUpdate(prev, i, m, Empty);
    }
  }

  /** A reachable history never holds more than ten snapshots, so the step never
      exceeds 9. */
  lemma HistoryHoldsAtMostTenBoards(s: GameState)
    requires ValidState(s)
    ensures |s.history| <= 10 && s.stepNumber <= 9
  {
    SnapshotMarks(s.history, |s.history| - 1);
  }

  /** No move is ever recorded after a won board: every snapshot before the last
      one has no winner. */
  lemma NoMoveAfterWin(s: GameState, k: nat)
    requires ValidState(s) && k + 1 < |s.history|
    ensures !HasWinner(s.history[k].squares)
  {
    assert StepFollows(s.history, k + 1);
  }

  // ---------------------------------------------------------------------------
  // The component itself.

  /** The stateful `Game` component; each field is one field of its React state,
      and each method replaces the fields its `setState` call lists. */
  class Game {
    var history: seq<Entry>
    var stepNumber: nat
    var xIsNext: bool
    var historyIsAsc: bool

    /** The fields as one value. */
    ghost function State(): GameState
      reads this
    {
      GameState(history, stepNumber, xIsNext, historyIsAsc)
    }

    ghost predicate Valid()
      reads this
    {
      ValidState(State())
    }

    constructor ()
      ensures Valid() && State() == Initial()
    {
      history := [InitialEntry];
      stepNumber := 0;
      xIsNext := true;
      historyIsAsc := true;
    }

    /** Play cell `i`: copy the current board, give up if it has a winner or the
        cell is taken, otherwise mark the cell on the copy and append it. */
    method HandleClick(i: nat)
      requires Valid() && i < 9
      modifies this
      ensures Valid()
      ensures State() == Play(old(State()), i)
      ensures !Accepts(old(State()), i) ==> unchanged(this)
      ensures Accepts(old(State()), i) ==>
        history == old(history)[..old(stepNumber) + 1] +
                   [Entry(old(history)[old(stepNumber)].squares[i := MarkFor(old(xIsNext))], Some(i))] &&
        stepNumber == old(stepNumber) + 1 &&
        xIsNext == !old(xIsNext) &&
        historyIsAsc == old(historyIsAsc)
    {
      var h := history[..stepNumber + 1];
      var current := h[|h| - 1];
      var squares := new Cell[9](j requires 0 <= j < 9 => current.squares[j]);
      assert squares[..] == current.squares;
      var info := CalculateWinner(squares[..]);
      if info.winner != Empty || squares[i] != Empty {
        return;
      }
      squares[i] := MarkFor(xIsNext);
      assert squares[..] == current.squares[i := MarkFor(xIsNext)];
      PlayPreservesValid(State(), i);
      history, stepNumber, xIsNext := h + [Entry(squares[..], Some(i))], |h|, !xIsNext;
    }

    /** Go to snapshot `step` of the history. */
    method JumpTo(step: nat)
      requires Valid() && step < |history|
      modifies this
      ensures Valid()
      ensures State() == Jump(old(State()), step)
      ensures stepNumber == step && xIsNext == (step % 2 == 0)
      ensures history == old(history) && historyIsAsc == old(historyIsAsc)
    {
      stepNumber, xIsNext := step, step % 2 == 0;
    }

    /** Flip the order in which the move list is shown. */
    method HandleChange()
      requires Valid()
      modifies this
      ensures Valid()
      ensures State() == ToggleOrder(old(State()))
      ensures historyIsAsc == !old(historyIsAsc)
      ensures history == old(history) && stepNumber == old(stepNumber) && xIsNext == old(xIsNext)
    {
      historyIsAsc := !historyIsAsc;
    }
  }
}
