/** The rules of the Knucklebones board as functions on its flattened state.

    A board holds two grids (board 0 for the protagonist, board 1 for the
    antagonist) of three columns of three cells. The 18 cells are kept in one
    sequence, cell `r` of column `c` of board `b` at `b * 9 + c * 3 + r`, the
    order in which a board is loaded from a flat state. A cell holds 0 when
    empty and a die face otherwise. */
module Rules {
  import opened Scoring

  const Protagonist: bool := true
  const Antagonist: bool := false

  /** The 18 cells of both grids. */
  type Cells = s: seq<int> | |s| == 18 witness seq(18, _ => 0)

  /** Both grids empty. */
  const EmptyCells: Cells := seq(18, _ => 0)

  /** One record of the move stack: the 1-based column, the die placed and the
      positions (0-based rows) cancelled in the opposing column. */
  datatype Move = Move(column: int, roll: int, cancelled: seq<nat>)

  /** The grid the player to move places on: one of the two boards, board 0
      exactly for the protagonist. */
  function BoardOf(turn: bool): (b: nat)
    ensures b < 2 && (b == 0 <==> turn == Protagonist)
  {
    if turn == Protagonist then 0 else 1
  }

  /** The other grid: a board, never `b` itself. */
  function Opponent(b: nat): (o: nat)
    ensures o < 2 && o != b
  {
    if b == 0 then 1 else 0
  }

  /** On the two grids, the other one is `(b + 1) % 2`, as the push and the
      undo compute it. */
  lemma OpponentIsNext(b: nat)
    requires b < 2
    ensures Opponent(b) == (b + 1) % 2 && Opponent(b) != b && Opponent(Opponent(b)) == b
  {
  }

  /** Where cell `r` of column `c` of board `b` sits in the flattened state. */
  function CellIndex(b: int, c: int, r: int): int
  {
    b * 9 + c * 3 + r
  }

  /** The flat positions of the cells of the first `n` boards, visiting
      boards, then columns, then cells in order. */
  function Positions(n: nat): seq<int>
  {
    if n == 0 then [] else Positions(n - 1) + BoardPositions(n - 1)
  }

  function BoardPositions(b: int): seq<int>
  {
    ColumnPositions(b, 0) + ColumnPositions(b, 1) + ColumnPositions(b, 2)
  }

  function ColumnPositions(b: int, c: int): seq<int>
  {
    [CellIndex(b, c, 0), CellIndex(b, c, 1), CellIndex(b, c, 2)]
  }

  lemma BoardPositionsCount(b: int)
    ensures |BoardPositions(b)| == 9 && forall k :: 0 <= k < 9 ==> BoardPositions(b)[k] == b * 9 + k
  {
    var p := BoardPositions(b);
    forall k | 0 <= k < 9 ensures p[k] == b * 9 + k {
      var c := if k < 3 then 0 else if k < 6 then 1 else 2;
      assert p[k] == ColumnPositions(b, c)[k - c * 3];
    }
  }

  /** Enumerating boards, then columns, then cells visits the flat positions
      in order, each once: for the two boards, exactly 0..17. */
  lemma {:induction false} CellIndexEnumerates(n: nat)
    ensures |Positions(n)| == 9 * n && forall k :: 0 <= k < 9 * n ==> Positions(n)[k] == k
  {
    if n > 0 {
      CellIndexEnumerates(n - 1);
      BoardPositionsCount(n - 1);
    }
  }

  function Column(cells: Cells, b: int, c: int): (col: seq<int>)
    requires 0 <= b < 2 && 0 <= c < 3
    ensures |col| == 3
    ensures forall r :: 0 <= r < 3 ==> col[r] == cells[b * 9 + c * 3 + r]
  {
    cells[b * 9 + c * 3..b * 9 + c * 3 + 3]
  }

  /** `cells` with column `c` of board `b` replaced by `col`. */
  function WithColumn(cells: Cells, b: int, c: int, col: seq<int>): Cells
    requires 0 <= b < 2 && 0 <= c < 3 && |col| == 3
  {
    cells[..b * 9 + c * 3] + col + cells[b * 9 + c * 3 + 3..]
  }

  lemma ColumnOfWithColumn(cells: Cells, b: int, c: int, col: seq<int>, b': int, c': int)
    requires 0 <= b < 2 && 0 <= c < 3 && |col| == 3
    requires 0 <= b' < 2 && 0 <= c' < 3
    ensures Column(WithColumn(cells, b, c, col), b', c') == if b == b' && c == c' then col else Column(cells, b', c')
  {
    var w := WithColumn(cells, b, c, col);
    var lhs, rhs := Column(w, b', c'), if b == b' && c == c' then col else Column(cells, b', c');
    forall r | 0 <= r < 3 ensures lhs[r] == rhs[r] {
      var j := b' * 9 + c' * 3 + r;
      assert lhs[r] == w[j];
      if b == b' && c == c' {
        assert w[j] == col[r];
      } else {
        assert !(b * 9 + c * 3 <= j < b * 9 + c * 3 + 3);
        assert w[j] == cells[j];
      }
    }
  }

  /** Writing one cell is writing its column with that cell changed. */
  lemma SetCell(cells: Cells, b: int, c: int, r: int, v: int)
    requires 0 <= b < 2 && 0 <= c < 3 && 0 <= r < 3
    ensures cells[b * 9 + c * 3 + r := v] == WithColumn(cells, b, c, Column(cells, b, c)[r := v])
  {
    var lhs, rhs := cells[b * 9 + c * 3 + r := v], WithColumn(cells, b, c, Column(cells, b, c)[r := v]);
    forall j | 0 <= j < 18 ensures lhs[j] == rhs[j] {
      if b * 9 + c * 3 <= j < b * 9 + c * 3 + 3 {
        assert rhs[j] == Column(cells, b, c)[r := v][j - (b * 9 + c * 3)];
      }
    }
  }

  /** A column written twice holds the second write. */
  lemma WithColumnTwice(cells: Cells, b: int, c: int, col: seq<int>, col': seq<int>)
    requires 0 <= b < 2 && 0 <= c < 3 && |col| == 3 && |col'| == 3
    ensures WithColumn(WithColumn(cells, b, c, col), b, c, col') == WithColumn(cells, b, c, col')
  {
  }

  /** Writing a column of cells in 0..6 into a state in range keeps it in range. */
  lemma WithColumnInRange(cells: Cells, b: int, c: int, col: seq<int>)
    requires 0 <= b < 2 && 0 <= c < 3 && |col| == 3
    requires InRange(cells) && forall r :: 0 <= r < 3 ==> 0 <= col[r] <= 6
    ensures InRange(WithColumn(cells, b, c, col))
  {
  }

  /** Two states that agree outside column (b, c) differ by that column only. */
  lemma AgreeOutsideColumn(x: Cells, y: Cells, b: int, c: int)
    requires 0 <= b < 2 && 0 <= c < 3
    requires forall j :: 0 <= j < 18 && !(b * 9 + c * 3 <= j < b * 9 + c * 3 + 3) ==> x[j] == y[j]
    ensures x == WithColumn(y, b, c, Column(x, b, c))
  {
  }

  /** `list.index`: the lowest position holding `v`. */
  function FirstIndex(col: seq<int>, v: int): (i: nat)
    requires v in col
    ensures i < |col| && col[i] == v
    ensures forall j :: 0 <= j < i ==> col[j] != v
  {
    if col[0] == v then 0 else 1 + FirstIndex(col[1..], v)
  }

  /** The positions of `col` holding `v`, ascending: the cancelled positions. */
  function Matches(col: seq<int>, v: int): (ps: seq<nat>)
    ensures forall k :: 0 <= k < |ps| ==> ps[k] < |col| && col[ps[k]] == v
    ensures forall p :: 0 <= p < |col| && col[p] == v ==> p in ps
    ensures forall k, l :: 0 <= k < l < |ps| ==> ps[k] < ps[l]
  {
    if |col| == 0 then []
    else
      var init := col[..|col| - 1];
      assert col == init + [col[|col| - 1]];
      var ps := Matches(init, v);
      if col[|col| - 1] == v then ps + [|col| - 1] else ps
  }

  /** One position per copy of `v`. */
  lemma {:induction false} MatchesCount(col: seq<int>, v: int)
    ensures |Matches(col, v)| == multiset(col)[v]
  {
    if |col| > 0 {
      var init := col[..|col| - 1];
      assert col == init + [col[|col| - 1]];
      MatchesCount(init, v);
    }
  }

  /** The opposing column once every cell equal to `v` is reset to 0. */
  function Cancel(col: seq<int>, v: int): (r: seq<int>)
    ensures |r| == |col|
    ensures forall p :: 0 <= p < |col| ==> r[p] == if col[p] == v then 0 else col[p]
  {
    if |col| == 0 then []
    else Cancel(col[..|col| - 1], v) + [if col[|col| - 1] == v then 0 else col[|col| - 1]]
  }

  lemma CancelLast(col: seq<int>, v: int)
    requires |col| > 0
    ensures var x := col[|col| - 1];
      multiset(Cancel(col, v)) == multiset(Cancel(col[..|col| - 1], v)) + multiset{if x == v then 0 else x}
  {
  }

  lemma {:induction false} CancelCount(col: seq<int>, v: int, u: int)
    ensures multiset(Cancel(col, v))[u] ==
      (if u == v then 0 else multiset(col)[u]) + (if u == 0 then multiset(col)[v] else 0)
  {
    if |col| > 0 {
      var p, x := col[..|col| - 1], col[|col| - 1];
      assert multiset(col) == multiset(p) + multiset{x} by {
        assert col == p + [x];
      }
      CancelLast(col, v);
      CancelCount(p, v, u);
    }
  }

  lemma CancelMultisetAt(col: seq<int>, v: int, u: int)
    ensures multiset(Cancel(col, v))[u] == (multiset(col)[v := 0] + multiset{}[0 := multiset(col)[v]])[u]
  {
    CancelCount(col, v, u);
    var mc := multiset(col);
    var a, b := mc[v := 0], multiset{}[0 := mc[v]];
    assert a[u] == if u == v then 0 else mc[u];
    assert b[u] == if u == 0 then mc[v] else 0;
    assert (a + b)[u] == a[u] + b[u];
  }

  /** Cancellation takes every `v` out of the column and puts as many zeros in. */
  lemma CancelMultiset(col: seq<int>, v: int)
    ensures multiset(Cancel(col, v)) == multiset(col)[v := 0] + multiset{}[0 := multiset(col)[v]]
  {
    var lhs, rhs := multiset(Cancel(col, v)), multiset(col)[v := 0] + multiset{}[0 := multiset(col)[v]];
    forall u ensures lhs[u] == rhs[u] {
      CancelMultisetAt(col, v, u);
    }
    assert lhs == rhs;
  }

  lemma UpdateMultiset(col: seq<int>, i: int, v: int)
    requires 0 <= i < |col|
    ensures multiset(col[i := v]) == multiset(col) - multiset{col[i]} + multiset{v}
  {
    var u := col[i := v];
    assert col == col[..i] + [col[i]] + col[i + 1..];
    assert u == col[..i] + [v] + col[i + 1..];
  }

  /** The refill loop of the undo: `k` times, the lowest 0 becomes `v`. */
  function FillZeros(col: seq<int>, v: int, k: nat): (r: seq<int>)
    requires multiset(col)[0] >= k
    ensures |r| == |col|
    decreases k
  {
    if k == 0 then col
    else
      var i := FirstIndex(col, 0);
      UpdateMultiset(col, i, v);
      FillZeros(col[i := v], v, k - 1)
  }

  /** The refill one round at a time: after `k` rounds a 0 is left when the
      column had more than `k`, and round `k + 1` writes `v` over the lowest one. */
  lemma {:induction false} FillZerosSnoc(col: seq<int>, v: int, k: nat)
    requires multiset(col)[0] > k
    ensures 0 in FillZeros(col, v, k)
    ensures FillZeros(col, v, k + 1) == FillZeros(col, v, k)[FirstIndex(FillZeros(col, v, k), 0) := v]
    decreases k
  {
    assert 0 in multiset(col);
    var i := FirstIndex(col, 0);
    UpdateMultiset(col, i, v);
    var next := col[i := v];
    assert FillZeros(col, v, k + 1) == FillZeros(next, v, k);
    if k == 0 {
      assert FillZeros(col, v, 0) == col;
    } else {
      assert FillZeros(col, v, k) == FillZeros(next, v, k - 1);
      FillZerosSnoc(next, v, k - 1);
    }
  }

  /** The refill takes `k` zeros out of the column and puts `k` copies of `v` in. */
  lemma {:induction false} FillZerosMultiset(col: seq<int>, v: int, k: nat)
    requires multiset(col)[0] >= k
    ensures multiset(FillZeros(col, v, k)) + multiset{}[0 := k] == multiset(col) + multiset{}[v := k]
    decreases k
  {
    if k > 0 {
      var i := FirstIndex(col, 0);
      UpdateMultiset(col, i, v);
      var next := col[i := v];
      FillZerosMultiset(next, v, k - 1);
      var out := multiset(FillZeros(col, v, k));
      assert out == multiset(FillZeros(next, v, k - 1));
      var lhs := out + multiset{}[0 := k];
      var rhs := multiset(col) + multiset{}[v := k];
      forall u ensures lhs[u] == rhs[u] {
        assert multiset(next)[u] == multiset(col)[u] - (if u == 0 then 1 else 0) + (if u == v then 1 else 0);
        var z, w := multiset{}[0 := k - 1], multiset{}[v := k - 1];
        assert z[u] == if u == 0 then k - 1 else 0;
        assert w[u] == if u == v then k - 1 else 0;
        assert (out + z)[u] == (multiset(next) + w)[u];
        assert lhs[u] == out[u] + (if u == 0 then k else 0);
        assert rhs[u] == multiset(col)[u] + (if u == v then k else 0);
      }
      assert lhs == rhs;
    }
  }

  // ---------------------------------------------------------------------
  // Legal moves, scores, end of game

  /** The 1-based columns of the mover's grid that still hold a 0, ascending. */
  function LegalMoves(cells: Cells, turn: bool): (moves: seq<int>)
    ensures forall i, j :: 0 <= i < j < |moves| ==> moves[i] < moves[j]
    ensures forall x :: x in moves <==> 1 <= x <= 3 && 0 in Column(cells, BoardOf(turn), x - 1)
  {
    var b := BoardOf(turn);
    OpenColumns(0 in Column(cells, b, 0), 0 in Column(cells, b, 1), 0 in Column(cells, b, 2))
  }

  /** Columns 1, 2 and 3, each kept when its flag is set, ascending. */
  function OpenColumns(open1: bool, open2: bool, open3: bool): (moves: seq<int>)
    ensures forall i, j :: 0 <= i < j < |moves| ==> moves[i] < moves[j]
    ensures forall x :: x in moves <==> (x == 1 && open1) || (x == 2 && open2) || (x == 3 && open3)
  {
    (if open1 then [1] else []) + (if open2 then [2] else []) + (if open3 then [3] else [])
  }

  /** A grid's score: the sum of its three columns' scores. */
  function GridScore(cells: Cells, b: int): int
    requires 0 <= b < 2
  {
    DieScore(Column(cells, b, 0)) + DieScore(Column(cells, b, 1)) + DieScore(Column(cells, b, 2))
  }

  /** Every cell holds 0 or a die face. */
  predicate InRange(cells: Cells)
  {
    forall j :: 0 <= j < 18 ==> 0 <= cells[j] <= 6
  }

  /** With cells in 0..6, each grid scores between 0 and 162. */
  lemma GridScoreBounds(cells: Cells, b: int)
    requires 0 <= b < 2 && InRange(cells)
    ensures 0 <= GridScore(cells, b) <= 162
  {
    var c0, c1, c2 := Column(cells, b, 0), Column(cells, b, 1), Column(cells, b, 2);
    assert forall i :: 0 <= i < 3 ==> 0 <= c0[i] <= 6 && 0 <= c1[i] <= 6 && 0 <= c2[i] <= 6;
    ColumnScoreBounds(c0);
    ColumnScoreBounds(c1);
    ColumnScoreBounds(c2);
  }

  /** A grid is full when none of its columns holds a 0. */
  predicate GridFull(cells: Cells, b: int)
    requires 0 <= b < 2
  {
    0 !in Column(cells, b, 0) && 0 !in Column(cells, b, 1) && 0 !in Column(cells, b, 2)
  }

  /** The documented end of game: either grid is full, that is, all nine cells
      of board 0 or all nine cells of board 1 hold a die. */
  predicate IsGameOver(cells: Cells): (over: bool)
    ensures over <==> (forall j :: 0 <= j < 9 ==> cells[j] != 0) || (forall j :: 9 <= j < 18 ==> cells[j] != 0)
  {
    GridFullCells(cells, 0);
    GridFullCells(cells, 1);
    GridFull(cells, 0) || GridFull(cells, 1)
  }

  /** A grid has no 0 in any column exactly when none of its nine cells is 0. */
  lemma GridFullCells(cells: Cells, b: int)
    requires 0 <= b < 2
    ensures GridFull(cells, b) <==> forall j :: b * 9 <= j < b * 9 + 9 ==> cells[j] != 0
  {
    if !GridFull(cells, b) {
      var c :| 0 <= c < 3 && 0 in Column(cells, b, c);
      var r := FirstIndex(Column(cells, b, c), 0);
      assert cells[b * 9 + c * 3 + r] == 0;
    } else {
      forall j | b * 9 <= j < b * 9 + 9 ensures cells[j] != 0 {
        var k := j - b * 9;
        assert Column(cells, b, k / 3)[k % 3] == cells[j];
      }
    }
  }

  /** The end-of-game test as the code writes it, reading each grid as a list of
      three column lists: a grid passes when every column list is non-empty. */
  predicate IsGameOverAsWritten(cells: Cells)
  {
    ColumnsNonEmpty(cells, 0) || ColumnsNonEmpty(cells, 1)
  }

  /** `all(board)`: every column list of grid `b` is non-empty. */
  predicate ColumnsNonEmpty(cells: Cells, b: int)
    requires 0 <= b < 2
  {
    forall c :: 0 <= c < 3 ==> |Column(cells, b, c)| > 0
  }

  /** A player has no legal move exactly when that player's grid is full. */
  lemma NoLegalMovesIffFull(cells: Cells, turn: bool)
    ensures LegalMoves(cells, turn) == [] <==> GridFull(cells, BoardOf(turn))
  {
  }

  /** The game is over exactly when one of the players has no legal move. */
  lemma GameOverIffNoLegalMoves(cells: Cells)
    ensures IsGameOver(cells) <==> LegalMoves(cells, Protagonist) == [] || LegalMoves(cells, Antagonist) == []
  {
    NoLegalMovesIffFull(cells, Protagonist);
    NoLegalMovesIffFull(cells, Antagonist);
  }

  /** The code's test holds of every state, the empty board included, where the
      documented test does not hold. */
  lemma IsGameOverAsWrittenAlwaysTrue(cells: Cells)
    ensures IsGameOverAsWritten(cells)
    ensures !IsGameOver(EmptyCells)
  {
    assert ColumnsNonEmpty(cells, 0);
    assert EmptyCells[0] == 0 && EmptyCells[9] == 0;
  }

  // ---------------------------------------------------------------------
  // Push and pop

  /** The mover's column accepts a die. */
  predicate CanPush(cells: Cells, turn: bool, column: int)
  {
    1 <= column <= 3 && 0 in Column(cells, BoardOf(turn), column - 1)
  }

  /** The state after the player to move places `roll` in `column`: the lowest 0
      of the mover's column becomes `roll`, and every cell of the opposing
      column with the same index that holds `roll` becomes 0. */
  function PushCells(cells: Cells, turn: bool, column: int, roll: int): Cells
    requires CanPush(cells, turn, column)
  {
    var b, c := BoardOf(turn), column - 1;
    var mine := Column(cells, b, c);
    WithColumn(
      WithColumn(cells, b, c, mine[FirstIndex(mine, 0) := roll]),
      Opponent(b), c, Cancel(Column(cells, Opponent(b), c), roll))
  }

  /** The positions that placing `roll` in `column` cancels. */
  function CancelledBy(cells: Cells, turn: bool, column: int, roll: int): seq<nat>
    requires 1 <= column <= 3
  {
    Matches(Column(cells, Opponent(BoardOf(turn)), column - 1), roll)
  }

  /** The undo of `mv` finds what it looks for: the die in the mover's column and
      enough zeros in the opposing column. `turn` is the player to move before the
      undo; the mover of `mv` is the other one. */
  predicate CanPop(cells: Cells, turn: bool, mv: Move)
  {
    1 <= mv.column <= 3 &&
    mv.roll in Column(cells, BoardOf(!turn), mv.column - 1) &&
    multiset(Column(cells, Opponent(BoardOf(!turn)), mv.column - 1))[0] >= |mv.cancelled|
  }

  /** The state after undoing `mv`: the lowest cell of the mover's column holding
      the die becomes 0, and the lowest zeros of the opposing column are refilled
      with the die, once per cancelled position. */
  function PopCells(cells: Cells, turn: bool, mv: Move): Cells
    requires CanPop(cells, turn, mv)
  {
    var b, c := BoardOf(!turn), mv.column - 1;
    var mine := Column(cells, b, c);
    WithColumn(
      WithColumn(cells, b, c, mine[FirstIndex(mine, mv.roll) := 0]),
      Opponent(b), c, FillZeros(Column(cells, Opponent(b), c), mv.roll, |mv.cancelled|))
  }

  /** Writing the mover's column leaves the opposing column of the same index alone. */
  lemma OtherColumnUntouched(cells: Cells, b: int, c: int, col: seq<int>)
    requires 0 <= b < 2 && 0 <= c < 3 && |col| == 3
    ensures Column(WithColumn(cells, b, c, col), Opponent(b), c) == Column(cells, Opponent(b), c)
  {
    ColumnOfWithColumn(cells, b, c, col, Opponent(b), c);
  }

  /** A push as two column writes, the second on the state the first leaves. */
  lemma PushCellsInTwo(cells: Cells, turn: bool, column: int, roll: int, i: nat)
    requires CanPush(cells, turn, column)
    requires i == FirstIndex(Column(cells, BoardOf(turn), column - 1), 0)
    ensures var b, c := BoardOf(turn), column - 1;
      Column(WithColumn(cells, b, c, Column(cells, b, c)[i := roll]), Opponent(b), c) == Column(cells, Opponent(b), c)
    ensures var b, c := BoardOf(turn), column - 1;
      PushCells(cells, turn, column, roll) ==
        WithColumn(WithColumn(cells, b, c, Column(cells, b, c)[i := roll]), Opponent(b), c, Cancel(Column(cells, Opponent(b), c), roll))
  {
    var b, c := BoardOf(turn), column - 1;
    OtherColumnUntouched(cells, b, c, Column(cells, b, c)[i := roll]);
  }

  /** An undo as two column writes, the second on the state the first leaves. */
  lemma PopCellsInTwo(cells: Cells, turn: bool, mv: Move, i: nat)
    requires CanPop(cells, turn, mv)
    requires i == FirstIndex(Column(cells, BoardOf(!turn), mv.column - 1), mv.roll)
    ensures var b, c := BoardOf(!turn), mv.column - 1;
      PopCells(cells, turn, mv) ==
        WithColumn(WithColumn(cells, b, c, Column(cells, b, c)[i := 0]), Opponent(b), c,
                   FillZeros(Column(cells, Opponent(b), c), mv.roll, |mv.cancelled|))
  {
  }

  /** Push places the die in the lowest empty cell of the mover's column and
      leaves every other column of the mover's grid alone. */
  lemma PushPlacesLowest(cells: Cells, turn: bool, column: int, roll: int)
    requires CanPush(cells, turn, column)
    ensures var b, c := BoardOf(turn), column - 1;
      var before, after := Column(cells, b, c), Column(PushCells(cells, turn, column, roll), b, c);
      forall r :: 0 <= r < 3 ==>
        after[r] == if before[r] == 0 && 0 !in before[..r] then roll else before[r]
    ensures forall c :: 0 <= c < 3 && c != column - 1 ==>
      Column(PushCells(cells, turn, column, roll), BoardOf(turn), c) == Column(cells, BoardOf(turn), c)
  {
    var b, c := BoardOf(turn), column - 1;
    var mine := Column(cells, b, c);
    var i := FirstIndex(mine, 0);
    var mid := WithColumn(cells, b, c, mine[i := roll]);
    ColumnOfWithColumn(cells, b, c, mine[i := roll], b, c);
    ColumnOfWithColumn(mid, Opponent(b), c, Cancel(Column(cells, Opponent(b), c), roll), b, c);
    forall r | 0 <= r < 3 ensures (mine[r] == 0 && 0 !in mine[..r]) <==> r == i {
      if r > i { assert mine[..r][i] == 0; }
    }
    forall c' | 0 <= c' < 3 && c' != c
      ensures Column(PushCells(cells, turn, column, roll), b, c') == Column(cells, b, c')
    {
      ColumnOfWithColumn(cells, b, c, mine[i := roll], b, c');
      ColumnOfWithColumn(mid, Opponent(b), c, Cancel(Column(cells, Opponent(b), c), roll), b, c');
    }
  }

  /** Push zeroes every matching cell of the opposing column at once, records
      exactly those positions, and leaves the opposing grid's other columns alone. */
  lemma PushCancelsAllMatches(cells: Cells, turn: bool, column: int, roll: int)
    requires CanPush(cells, turn, column)
    ensures var o, c := Opponent(BoardOf(turn)), column - 1;
      var before, after := Column(cells, o, c), Column(PushCells(cells, turn, column, roll), o, c);
      (forall r :: 0 <= r < 3 ==> after[r] == if before[r] == roll then 0 else before[r]) &&
      (forall r :: r in CancelledBy(cells, turn, column, roll) <==> 0 <= r < 3 && before[r] == roll)
    ensures forall c :: 0 <= c < 3 && c != column - 1 ==>
      Column(PushCells(cells, turn, column, roll), Opponent(BoardOf(turn)), c) == Column(cells, Opponent(BoardOf(turn)), c)
  {
    var b, c := BoardOf(turn), column - 1;
    var o := Opponent(b);
    var mine := Column(cells, b, c);
    var i := FirstIndex(mine, 0);
    var mid := WithColumn(cells, b, c, mine[i := roll]);
    var theirs := Column(cells, o, c);
    ColumnOfWithColumn(cells, b, c, mine[i := roll], o, c);
    ColumnOfWithColumn(mid, o, c, Cancel(theirs, roll), o, c);
    forall c' | 0 <= c' < 3 && c' != c
      ensures Column(PushCells(cells, turn, column, roll), o, c') == Column(cells, o, c')
    {
      ColumnOfWithColumn(cells, b, c, mine[i := roll], o, c');
      ColumnOfWithColumn(mid, o, c, Cancel(theirs, roll), o, c');
    }
  }

  /** A push keeps every cell in 0..6 when the die is a face. */
  lemma PushKeepsRange(cells: Cells, turn: bool, column: int, roll: int)
    requires CanPush(cells, turn, column) && InRange(cells) && 1 <= roll <= 6
    ensures InRange(PushCells(cells, turn, column, roll))
  {
    var b, c := BoardOf(turn), column - 1;
    var mine := Column(cells, b, c);
    var placed := mine[FirstIndex(mine, 0) := roll];
    WithColumnInRange(cells, b, c, placed);
    WithColumnInRange(WithColumn(cells, b, c, placed), Opponent(b), c, Cancel(Column(cells, Opponent(b), c), roll));
  }

  lemma {:induction false} FillZerosKeepsRange(col: seq<int>, v: int, k: nat)
    requires multiset(col)[0] >= k && 0 <= v <= 6
    requires forall r :: 0 <= r < |col| ==> 0 <= col[r] <= 6
    ensures forall r :: 0 <= r < |col| ==> 0 <= FillZeros(col, v, k)[r] <= 6
    decreases k
  {
    if k > 0 {
      var i := FirstIndex(col, 0);
      UpdateMultiset(col, i, v);
      FillZerosKeepsRange(col[i := v], v, k - 1);
    }
  }

  /** Writing two columns of cells in 0..6 keeps a state in range. */
  lemma TwoColumnsInRange(cells: Cells, b: int, c: int, col: seq<int>, b': int, c': int, col': seq<int>)
    requires 0 <= b < 2 && 0 <= c < 3 && |col| == 3 && 0 <= b' < 2 && 0 <= c' < 3 && |col'| == 3
    requires InRange(cells)
    requires forall r :: 0 <= r < 3 ==> 0 <= col[r] <= 6 && 0 <= col'[r] <= 6
    ensures InRange(WithColumn(WithColumn(cells, b, c, col), b', c', col'))
  {
    WithColumnInRange(cells, b, c, col);
    WithColumnInRange(WithColumn(cells, b, c, col), b', c', col');
  }

  /** Every cell of a column of an in-range state is a die face or empty. */
  lemma ColumnInRange(cells: Cells, b: int, c: int)
    requires 0 <= b < 2 && 0 <= c < 3 && InRange(cells)
    ensures forall r :: 0 <= r < 3 ==> 0 <= Column(cells, b, c)[r] <= 6
  {
  }

  /** An undo keeps every cell in 0..6 when the die is in 0..6. */
  lemma PopKeepsRange(cells: Cells, turn: bool, mv: Move)
    requires CanPop(cells, turn, mv) && InRange(cells) && 0 <= mv.roll <= 6
    ensures InRange(PopCells(cells, turn, mv))
  {
    var b, c := BoardOf(!turn), mv.column - 1;
    var o := Opponent(b);
    var mine, theirs := Column(cells, b, c), Column(cells, o, c);
    var i := FirstIndex(mine, mv.roll);
    PopCellsInTwo(cells, turn, mv, i);
    ColumnInRange(cells, b, c);
    ColumnInRange(cells, o, c);
    FillZerosKeepsRange(theirs, mv.roll, |mv.cancelled|);
    TwoColumnsInRange(cells, b, c, mine[i := 0], o, c, FillZeros(theirs, mv.roll, |mv.cancelled|));
  }
}
