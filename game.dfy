/** The Knucklebones board as an object: two grids of cells updated in place,
    the player to move and the stack of moves made.

    The cells live in one array of 18 in the flattened layout of `Rules`
    (cell `r` of column `c` of board `b` at `b * 9 + c * 3 + r`). Each method is
    proved against the functions of `Rules`; the ghost `history` holds, for
    every move on the stack, the contents of the board before it, which is
    what makes every undo of a stacked move find the die and the zeros it
    looks for. */
module Game {
  import opened Scoring
  import opened Rules
  import opened History

  /** Sum of the scores of the first `n` columns of board `b`. */
  ghost function ColumnsScore(cells: Cells, b: int, n: nat): int
    requires 0 <= b < 2 && n <= 3
  {
    if n == 0 then 0 else ColumnsScore(cells, b, n - 1) + DieScore(Column(cells, b, n - 1))
  }

  lemma ColumnsScoreIsGridScore(cells: Cells, b: int)
    requires 0 <= b < 2
    ensures ColumnsScore(cells, b, 3) == GridScore(cells, b)
  {
    assert ColumnsScore(cells, b, 1) == DieScore(Column(cells, b, 0));
    assert ColumnsScore(cells, b, 2) == DieScore(Column(cells, b, 0)) + DieScore(Column(cells, b, 1));
  }

  class Board {
    const boards: array<int>
    var turn: bool
    var moves: seq<Move>
    ghost var history: seq<Contents>

    /** The cells have the board's shape and the move stack is explained by
        the history, ending in the board's present contents. */
    ghost predicate Valid()
      reads this, boards
    {
      boards.Length == 18 && Chain(history, moves, Abs(boards[..], turn))
    }

    /** An empty board, the protagonist to move, no moves made. */
    constructor ()
      ensures Valid() && fresh(boards)
      ensures boards[..] == EmptyCells && turn == Protagonist && moves == []
    {
      boards := new int[18](_ => 0);
      turn := Protagonist;
      moves := [];
      history := [];
    }

    /** A board read from a flat state: cell `(b, c, r)` from entry
        `b * 9 + c * 3 + r`, the turn from the last entry, no moves made. */
    constructor Load(state: seq<int>)
      requires |state| >= 18
      ensures Valid() && fresh(boards)
      ensures boards[..] == state[..18]
      ensures turn == (state[|state| - 1] != 0) && moves == []
    {
      var a := new int[18](_ => 0);
      var b := 0;
      while b < 2
        invariant 0 <= b <= 2
        invariant forall j :: 0 <= j < b * 9 ==> a[j] == state[j]
      {
        var c := 0;
        while c < 3
          invariant 0 <= c <= 3
          invariant forall j :: 0 <= j < b * 9 + c * 3 ==> a[j] == state[j]
        {
          var r := 0;
          while r < 3
            invariant 0 <= r <= 3
            invariant forall j :: 0 <= j < b * 9 + c * 3 + r ==> a[j] == state[j]
          {
            a[CellIndex(b, c, r)] := state[CellIndex(b, c, r)];
            r := r + 1;
          }
          c := c + 1;
        }
        b := b + 1;
      }
      assert a[..] == state[..18];
      boards := a;
      turn := state[|state| - 1] != 0;
      moves := [];
      history := [];
    }

    /** The 1-based columns of the mover's grid that still hold a 0, ascending. */
    function GenerateLegalMoves(): (r: seq<int>)
      reads this, boards
      requires boards.Length == 18
      ensures forall i, j :: 0 <= i < j < |r| ==> r[i] < r[j]
      ensures forall x :: x in r <==> 1 <= x <= 3 && 0 in Column(boards[..], BoardOf(turn), x - 1)
    {
      LegalMoves(boards[..], turn)
    }

    /** Either grid is full, which is when one of the players has no legal move. */
    predicate IsGameOver()
      reads this, boards
      requires boards.Length == 18
      ensures IsGameOver() <==> LegalMoves(boards[..], Protagonist) == [] || LegalMoves(boards[..], Antagonist) == []
    {
      GameOverIffNoLegalMoves(boards[..]);
      Rules.IsGameOver(boards[..])
    }

    /** `list.index` and a write: the first cell of column `c` of board `b`
        holding `find` becomes `v`. */
    method SetFirst(b: int, c: int, find: int, v: int) returns (i: nat)
      requires boards.Length == 18 && 0 <= b < 2 && 0 <= c < 3
      requires find in Column(boards[..], b, c)
      modifies boards
      ensures i == FirstIndex(Column(old(boards[..]), b, c), find)
      ensures boards[..] == WithColumn(old(boards[..]), b, c, Column(old(boards[..]), b, c)[i := v])
    {
      var col := boards[b * 9 + c * 3..b * 9 + c * 3 + 3];
      assert col == Column(boards[..], b, c);
      i := FirstIndex(col, find);
      ghost var before := boards[..];
      boards[b * 9 + c * 3 + i] := v;
      SetCell(before, b, c, i, v);
      assert boards[..] == before[b * 9 + c * 3 + i := v];
    }

    /** Zero every cell of column `c` of board `o` holding `roll`, returning the
        positions zeroed. */
    method CancelMatches(o: int, c: int, roll: int) returns (cancelled: seq<nat>)
      requires boards.Length == 18 && 0 <= o < 2 && 0 <= c < 3
      modifies boards
      ensures cancelled == Matches(Column(old(boards[..]), o, c), roll)
      ensures boards[..] == WithColumn(old(boards[..]), o, c, Cancel(Column(old(boards[..]), o, c), roll))
    {
      ghost var before := boards[..];
      var theirs := boards[o * 9 + c * 3..o * 9 + c * 3 + 3];
      assert theirs == Column(before, o, c);
      cancelled := Matches(theirs, roll);
      ghost var cur := theirs;
      AgreeOutsideColumn(before, before, o, c);
      var k := 0;
      while k < |cancelled|
        invariant 0 <= k <= |cancelled| && |cur| == 3
        invariant boards[..] == WithColumn(before, o, c, cur)
        invariant forall r :: 0 <= r < 3 ==> cur[r] == if r in cancelled[..k] then 0 else theirs[r]
      {
        var r := cancelled[k];
        ghost var w := boards[..];
        boards[o * 9 + c * 3 + r] := 0;
        SetCell(w, o, c, r, 0);
        ColumnOfWithColumn(before, o, c, cur, o, c);
        WithColumnTwice(before, o, c, cur, cur[r := 0]);
        cur := cur[r := 0];
        assert cancelled[..k + 1] == cancelled[..k] + [r];
        k := k + 1;
      }
      assert cancelled[..k] == cancelled;
      assert cur == Cancel(theirs, roll);
    }

    /** Once per cancelled position, the lowest 0 of column `c` of board `o`
        becomes `roll`. */
    method Refill(o: int, c: int, roll: int, n: nat)
      requires boards.Length == 18 && 0 <= o < 2 && 0 <= c < 3
      requires multiset(Column(boards[..], o, c))[0] >= n
      modifies boards
      ensures boards[..] == WithColumn(old(boards[..]), o, c, FillZeros(Column(old(boards[..]), o, c), roll, n))
    {
      ghost var before := boards[..];
      ghost var theirs := Column(before, o, c);
      ghost var cur := theirs;
      AgreeOutsideColumn(before, before, o, c);
      var k := 0;
      while k < n
        invariant 0 <= k <= n && |cur| == 3
        invariant cur == FillZeros(theirs, roll, k)
        invariant boards[..] == WithColumn(before, o, c, cur)
      {
        ColumnOfWithColumn(before, o, c, cur, o, c);
        FillZerosSnoc(theirs, roll, k);
        var z := SetFirst(o, c, 0, roll);
        WithColumnTwice(before, o, c, cur, cur[z := roll]);
        cur := cur[z := roll];
        k := k + 1;
      }
    }

    /** The cell updates of a push: the lowest 0 of the mover's column
        becomes `roll`, then every `roll` of the opposing column becomes 0. */
    method Place(t: bool, column: int, roll: int) returns (cancelled: seq<nat>)
      requires boards.Length == 18 && CanPush(boards[..], t, column)
      modifies boards
      ensures boards[..] == PushCells(old(boards[..]), t, column, roll)
      ensures cancelled == CancelledBy(old(boards[..]), t, column, roll)
    {
      ghost var before := boards[..];
      var c := column - 1;
      var b := BoardOf(t);
      var o := Opponent(b);
      var i := SetFirst(b, c, 0, roll);
      PushCellsInTwo(before, t, column, roll, i);
      cancelled := CancelMatches(o, c, roll);
    }

    /** The bookkeeping of a push whose cell updates are done: pass the turn
        and record the move, and the contents it started from. */
    method Record(ghost before: Cells, column: int, roll: int, cancelled: seq<nat>)
      requires boards.Length == 18 && Chain(history, moves, Abs(before, turn)) && CanPush(before, turn, column)
      requires boards[..] == PushCells(before, turn, column, roll)
      requires cancelled == CancelledBy(before, turn, column, roll)
      modifies this
      ensures Valid()
      ensures turn == !old(turn)
      ensures moves == old(moves) + [Move(column, roll, cancelled)]
      ensures history == old(history) + [Abs(before, old(turn))]
    {
      PushExtendsChain(history, moves, before, turn, column, roll, boards[..]);
      history := history + [Abs(before, turn)];
      moves := moves + [Move(column, roll, cancelled)];
      turn := !turn;
    }

    /** Place `roll` in the lowest empty cell of `column` of the mover's grid,
        zero every cell of the opposing column holding `roll`, pass the turn and
        record the move with the cancelled positions. */
    method Push(column: int, roll: int)
      requires Valid() && CanPush(boards[..], turn, column)
      modifies this, boards
      ensures Valid()
      ensures boards[..] == PushCells(old(boards[..]), old(turn), column, roll)
      ensures turn == !old(turn)
      ensures moves == old(moves) + [Move(column, roll, CancelledBy(old(boards[..]), old(turn), column, roll))]
      ensures history == old(history) + [Abs(old(boards[..]), old(turn))]
    {
      ghost var before := boards[..];
      var cancelled := Place(turn, column, roll);
      Record(before, column, roll, cancelled);
    }

    /** The cell updates of undoing `mv` while `t` is to move, so that `mv`
        was made by `!t`: the first `roll` of the mover's column becomes 0,
        then the lowest zeros of the opposing column become `roll`, once per
        cancelled position. */
    method Unplace(t: bool, mv: Move)
      requires boards.Length == 18 && CanPop(boards[..], t, mv)
      modifies boards
      ensures boards[..] == PopCells(old(boards[..]), t, mv)
    {
      ghost var before := boards[..];
      var c := mv.column - 1;
      var b := BoardOf(!t);
      var o := Opponent(b);
      var i := SetFirst(b, c, mv.roll, 0);
      OtherColumnUntouched(before, b, c, Column(before, b, c)[i := 0]);
      PopCellsInTwo(before, t, mv, i);
      Refill(o, c, mv.roll, |mv.cancelled|);
    }

    /** The bookkeeping of an undo whose cell updates are done: drop the last
        move and its contents from the stacks and pass the turn back. */
    method Unrecord(ghost before: Cells, mv: Move)
      requires boards.Length == 18 && Chain(history, moves, Abs(before, turn))
      requires |moves| > 0 && mv == moves[|moves| - 1]
      requires CanPop(before, turn, mv) && boards[..] == PopCells(before, turn, mv)
      modifies this
      ensures Valid()
      ensures turn == !old(turn)
      ensures moves == old(moves[..|moves| - 1])
      ensures history == old(history[..|history| - 1])
      ensures Abs(boards[..], turn) == old(history[|history| - 1])
    {
      PopShortensChain(history, moves, before, turn);
      moves := moves[..|moves| - 1];
      history := history[..|history| - 1];
      turn := !turn;
    }

    /** Undo the last move: pass the turn back, zero the first cell of the
        mover's column holding the die, and refill the lowest zeros of the
        opposing column with the die, once per cancelled position. The board
        gets back the contents it had before that move. */
    method Pop()
      requires Valid() && |moves| > 0
      modifies this, boards
      ensures Valid()
      ensures CanPop(old(boards[..]), old(turn), old(moves[|moves| - 1]))
      ensures boards[..] == PopCells(old(boards[..]), old(turn), old(moves[|moves| - 1]))
      ensures turn == !old(turn)
      ensures moves == old(moves[..|moves| - 1])
      ensures history == old(history[..|history| - 1])
      ensures Abs(boards[..], turn) == old(history[|history| - 1])
    {
      ghost var before := boards[..];
      var mv := moves[|moves| - 1];
      ChainAllowsPop(history, moves, before, turn);
      Unplace(turn, mv);
      Unrecord(before, mv);
    }

    /** The score of column `c` of board `b`, summed over the distinct values
        of the column as the counter gives them. */
    method ColumnScore(b: int, c: int) returns (s: int)
      requires boards.Length == 18 && 0 <= b < 2 && 0 <= c < 3
      ensures s == DieScore(Column(boards[..], b, c))
    {
      var col := boards[b * 9 + c * 3..b * 9 + c * 3 + 3];
      assert col == Column(boards[..], b, c);
      CounterScoreIsDieScore(col);
      s := CounterScore(col);
    }

    /** The score of board `b`: its column scores summed. */
    method BoardScore(b: int) returns (score: int)
      requires boards.Length == 18 && 0 <= b < 2
      ensures score == GridScore(boards[..], b)
    {
      score := 0;
      var c := 0;
      while c < 3
        invariant 0 <= c <= 3
        invariant score == ColumnsScore(boards[..], b, c)
      {
        var s := ColumnScore(b, c);
        score := score + s;
        c := c + 1;
      }
      ColumnsScoreIsGridScore(boards[..], b);
    }

    /** Each grid's score: for every column, `value * count * count` summed over
        the distinct values of the column. */
    method Scores() returns (s: seq<int>)
      requires boards.Length == 18
      ensures s == [GridScore(boards[..], 0), GridScore(boards[..], 1)]
    {
      s := [];
      var b := 0;
      while b < 2
        invariant 0 <= b <= 2 && |s| == b
        invariant forall k :: 0 <= k < b ==> s[k] == GridScore(boards[..], k)
      {
        var score := BoardScore(b);
        s := s + [score];
        b := b + 1;
      }
    }
  }
}
