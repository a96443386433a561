/**
 * The game-state logic of the Tic-Tac-Toe panel, on values.
 *
 * A board is a row-major sequence of nine integer tiles: 0 for an empty
 * tile, 10 for X and 100 for O. The result code of a board is 0 while the
 * game is in progress, 1 for a draw, 10 when X has won and 100 when O has
 * won. `Outcome` mirrors the sum-based scan of the source; `Judge` is an
 * independent reference that compares marks for equality, and the two are
 * proved to agree on every board whose tiles are marks.
 */
module Board {

  datatype Option<T> = None | Some(value: T)

  // Tile values and result codes, as the source encodes them.
  const Empty := 0
  const XValue := 10
  const OValue := 100
  const InProgress := 0
  const Draw := 1

  // Side length of the grid and number of tiles.
  const Size := 3
  const Cells := 9

  /** The three tile indices of a winning line. */
  datatype Line = Line(a: nat, b: nat, c: nat)

  /** The 8 lines in the order the source scans them: rows, columns, diagonals. */
  function LineOf(k: nat): (l: Line)
    requires k < 8
    ensures l.a < Cells && l.b < Cells && l.c < Cells
    ensures l.a != l.b && l.b != l.c && l.a != l.c
  {
    match k
    case 0 => Line(0, 1, 2)
    case 1 => Line(3, 4, 5)
    case 2 => Line(6, 7, 8)
    case 3 => Line(0, 3, 6)
    case 4 => Line(1, 4, 7)
    case 5 => Line(2, 5, 8)
    case 6 => Line(0, 4, 8)
    case _ => Line(2, 4, 6)
  }

  predicate IsMark(v: int) {
    v == Empty || v == XValue || v == OValue
  }

  /** A board of nine tiles, each empty, X or O. */
  predicate WellFormed(s: seq<int>) {
    |s| == Cells && forall i :: 0 <= i < |s| ==> IsMark(s[i])
  }

  predicate Full(s: seq<int>) {
    forall i :: 0 <= i < |s| ==> s[i] != Empty
  }

  function EmptyBoard(): seq<int> {
    seq(Cells, _ => Empty)
  }

  // ---------------------------------------------------------------------
  // The source's evaluation: line sums compared with 3*XValue and 3*OValue.

  function LineSum(s: seq<int>, k: nat): int
    requires |s| == Cells && k < 8
  {
    var l := LineOf(k);
    s[l.a] + s[l.b] + s[l.c]
  }

  /**
   * The first loop of the evaluation, from line k on; once every line has
   * been scanned, the second loop's full-board test.
   */
  function ScanFrom(s: seq<int>, k: nat): (r: int)
    requires |s| == Cells && k <= 8
    ensures r == InProgress || r == Draw || r == XValue || r == OValue
    decreases 8 - k
  {
    if k == 8 then (if Full(s) then Draw else InProgress)
    else if LineSum(s, k) == XValue * 3 then XValue
    else if LineSum(s, k) == OValue * 3 then OValue
    else ScanFrom(s, k + 1)
  }

  /** The result code of a board, for any nine integers in its tiles. */
  function Outcome(s: seq<int>): (r: int)
    requires |s| == Cells
    ensures r == InProgress || r == Draw || r == XValue || r == OValue
  {
    ScanFrom(s, 0)
  }

  /**
   * The sum test cannot misfire: when every tile is 0, 10 or 100, a line
   * sums to 30 exactly when all three are X, and to 300 exactly when all
   * three are O.
   */
  lemma SumTrick(a: int, b: int, c: int)
    requires IsMark(a) && IsMark(b) && IsMark(c)
    ensures a + b + c == XValue * 3 <==> a == XValue && b == XValue && c == XValue
    ensures a + b + c == OValue * 3 <==> a == OValue && b == OValue && c == OValue
  {
  }

  /** Without the mark invariant the sum test does misfire: 0 + 10 + 20 is 30. */
  lemma SumTrickNeedsMarks()
    ensures var s := [0, 10, 20, 0, 0, 0, 0, 0, 0];
      Outcome(s) == XValue && s[0] != XValue
  {
  }

  // ---------------------------------------------------------------------
  // Reference: lines compared mark by mark, without arithmetic.

  predicate Uniform(s: seq<int>, k: nat, m: int)
    requires |s| == Cells && k < 8
  {
    var l := LineOf(k);
    s[l.a] == m && s[l.b] == m && s[l.c] == m
  }

  /** Line k is three in a row for one of the players. */
  predicate Won(s: seq<int>, k: nat)
    requires |s| == Cells && k < 8
  {
    Uniform(s, k, XValue) || Uniform(s, k, OValue)
  }

  /** Some line is three in a row of mark m. */
  predicate HasLine(s: seq<int>, m: int)
    requires |s| == Cells
  {
    exists k :: 0 <= k < 8 && Uniform(s, k, m)
  }

  /** Not both players have three in a row. */
  predicate SingleWinner(s: seq<int>)
    requires |s| == Cells
  {
    !(HasLine(s, XValue) && HasLine(s, OValue))
  }

  /** The first winning line at index k or later, if any. */
  function FirstWin(s: seq<int>, k: nat): (r: Option<nat>)
    requires |s| == Cells && k <= 8
    ensures r.Some? ==> k <= r.value < 8 && Won(s, r.value)
    ensures r.Some? ==> forall j :: k <= j < r.value ==> !Won(s, j)
    ensures r.None? ==> forall j :: k <= j < 8 ==> !Won(s, j)
    decreases 8 - k
  {
    if k == 8 then None
    else if Won(s, k) then Some(k)
    else FirstWin(s, k + 1)
  }

  function JudgeFrom(s: seq<int>, k: nat): int
    requires |s| == Cells && k <= 8
  {
    match FirstWin(s, k)
    case Some(j) => s[LineOf(j).a]
    case None => if Full(s) then Draw else InProgress
  }

  /** The mark of the first line that is three in a row; else draw or in progress. */
  function Judge(s: seq<int>): int
    requires |s| == Cells
  {
    JudgeFrom(s, 0)
  }

  lemma {:induction false} ScanFromMatchesJudge(s: seq<int>, k: nat)
    requires WellFormed(s) && k <= 8
    ensures ScanFrom(s, k) == JudgeFrom(s, k)
    decreases 8 - k
  {
    if k < 8 {
      var l := LineOf(k);
      SumTrick(s[l.a], s[l.b], s[l.c]);
      if !Won(s, k) {
        ScanFromMatchesJudge(s, k + 1);
      }
    }
  }

  /** On a board of marks, the sum-based scan agrees with the reference. */
  lemma OutcomeMatchesJudge(s: seq<int>)
    requires WellFormed(s)
    ensures Outcome(s) == Judge(s)
  {
    ScanFromMatchesJudge(s, 0);
  }

  /**
   * What each result code means: a player wins exactly when the first
   * line (in scan order) that is three in a row is theirs; a draw exactly
   * when no line is won and no tile is empty; otherwise the game goes on.
   */
  lemma OutcomeCases(s: seq<int>)
    requires WellFormed(s)
    ensures Outcome(s) == XValue <==>
      exists k :: 0 <= k < 8 && Uniform(s, k, XValue) && forall j :: 0 <= j < k ==> !Won(s, j)
    ensures Outcome(s) == OValue <==>
      exists k :: 0 <= k < 8 && Uniform(s, k, OValue) && forall j :: 0 <= j < k ==> !Won(s, j)
    ensures Outcome(s) == Draw <==> (forall k :: 0 <= k < 8 ==> !Won(s, k)) && Full(s)
    ensures Outcome(s) == InProgress <==> (forall k :: 0 <= k < 8 ==> !Won(s, k)) && !Full(s)
  {
    OutcomeMatchesJudge(s);
    match FirstWin(s, 0)
    case Some(w) =>
      assert Won(s, w);
      forall k | 0 <= k < 8 && Won(s, k) && (forall j :: 0 <= j < k ==> !Won(s, j))
        ensures k == w
      {
      }
    case None =>
  }

  /**
   * When at most one player has three in a row, the scan order does not
   * matter: X wins exactly when X has a line, O exactly when O has one.
   */
  lemma OutcomeWithSingleWinner(s: seq<int>)
    requires WellFormed(s) && SingleWinner(s)
    ensures Outcome(s) == XValue <==> HasLine(s, XValue)
    ensures Outcome(s) == OValue <==> HasLine(s, OValue)
  {
    OutcomeMatchesJudge(s);
    match FirstWin(s, 0)
    case Some(w) =>
    case None =>
  }

  // ---------------------------------------------------------------------
  // Turns and marks.

  /** Number of tiles holding m. */
  function Count(s: seq<int>, m: int): nat
  {
    if s == [] then 0 else (if s[0] == m then 1 else 0) + Count(s[1..], m)
  }

  lemma {:induction false} CountUpdate(s: seq<int>, i: nat, v: int, m: int)
    requires i < |s|
    ensures Count(s[i := v], m) ==
      Count(s, m) - (if s[i] == m then 1 else 0) + (if v == m then 1 else 0)
  {
    if i > 0 {
      assert s[i := v][1..] == s[1..][i - 1 := v];
      CountUpdate(s[1..], i - 1, v, m);
    } else {
      assert s[i := v][1..] == s[1..];
    }
  }

  lemma {:induction false} CountAbsent(s: seq<int>, m: int)
    requires forall i :: 0 <= i < |s| ==> s[i] != m
    ensures Count(s, m) == 0
  {
    if s != [] {
      CountAbsent(s[1..], m);
    }
  }

  /**
   * X moves first and the players alternate: X has as many tiles as O or
   * one more, and it is X's turn exactly when the counts are equal.
   */
  predicate Balanced(s: seq<int>, xTurn: bool) {
    Count(s, OValue) <= Count(s, XValue) <= Count(s, OValue) + 1 &&
    (xTurn <==> Count(s, XValue) == Count(s, OValue))
  }

  function MarkFor(xTurn: bool): int {
    if xTurn then XValue else OValue
  }

  /**
   * A move on tile pos: an empty tile receives the mark of the player to
   * move and the turn passes; an occupied tile leaves board and turn alone.
   */
  function Move(s: seq<int>, xTurn: bool, pos: nat): (r: (seq<int>, bool))
    requires |s| == Cells && pos < Cells
    ensures |r.0| == Cells
    ensures forall i :: 0 <= i < Cells && i != pos ==> r.0[i] == s[i]
    ensures s[pos] != Empty ==> r == (s, xTurn)
    ensures s[pos] == Empty ==> r.0[pos] == MarkFor(xTurn) && r.1 == !xTurn
  {
    if s[pos] == Empty then (s[pos := MarkFor(xTurn)], !xTurn) else (s, xTurn)
  }

  /** A move keeps every tile a mark and keeps the turn counts balanced. */
  lemma MovePreservesBalance(s: seq<int>, xTurn: bool, pos: nat)
    requires WellFormed(s) && Balanced(s, xTurn) && pos < Cells
    ensures WellFormed(Move(s, xTurn, pos).0)
    ensures Balanced(Move(s, xTurn, pos).0, Move(s, xTurn, pos).1)
  {
    if s[pos] == Empty {
      CountUpdate(s, pos, MarkFor(xTurn), XValue);
      CountUpdate(s, pos, MarkFor(xTurn), OValue);
    }
  }

  /**
   * A move made while the game is in progress cannot give the other
   * player a line, so afterwards at most one player has three in a row.
   */
  lemma MoveKeepsSingleWinner(s: seq<int>, xTurn: bool, pos: nat)
    requires WellFormed(s) && Outcome(s) == InProgress && pos < Cells
    ensures !HasLine(Move(s, xTurn, pos).0, MarkFor(!xTurn))
    ensures SingleWinner(Move(s, xTurn, pos).0)
  {
    OutcomeCases(s);
    var t := Move(s, xTurn, pos).0;
    var other := MarkFor(!xTurn);
    forall k | 0 <= k < 8
      ensures !Uniform(t, k, other)
    {
      assert !Won(s, k);
    }
  }

  /** The board a new game starts from: nothing won, X to move. */
  lemma EmptyBoardStart()
    ensures WellFormed(EmptyBoard())
    ensures Outcome(EmptyBoard()) == InProgress
    ensures Balanced(EmptyBoard(), true)
    ensures SingleWinner(EmptyBoard())
  {
    var s := EmptyBoard();
    OutcomeCases(s);
    assert !Full(s) by { assert s[0] == Empty; }
    CountAbsent(s, XValue);
    CountAbsent(s, OValue);
  }

  /** Three example boards: a row of X, a full board with no line, and the 0-4-8 diagonal of X. */
  lemma ExampleOutcomes()
    ensures Outcome([10, 10, 10, 0, 100, 100, 0, 0, 0]) == XValue
    ensures Outcome([10, 100, 10, 10, 100, 100, 100, 10, 10]) == Draw
    ensures Outcome([10, 100, 0, 100, 10, 0, 0, 0, 10]) == XValue
  {
  }
}
