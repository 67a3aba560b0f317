/** What an undo can rely on.

    Undoing a move lifts the first copy of the die from the mover's column and
    refills the lowest zeros of the opposing column, so it restores what each
    column holds but not always where. `Contents` is exactly that much of a
    board: the turn and the multiset of each of the six columns. A move stack
    is explained by a history of contents, one before each move, in which each
    move leads from its contents to the next ones (`Chain`). */
module History {
  import opened Scoring
  import opened Rules

  /** The player to move and the multiset of cells of column `c` of board `b`
      at `bags[b * 3 + c]`. */
  datatype Contents = Contents(turn: bool, bags: seq<multiset<int>>)

  function Bag(a: Contents, b: int, c: int): multiset<int>
    requires |a.bags| == 6 && 0 <= b < 2 && 0 <= c < 3
  {
    a.bags[b * 3 + c]
  }

  /** The multisets of the first `k` columns of a state, board by board. */
  function Bags(cells: Cells, k: nat): (bags: seq<multiset<int>>)
    requires k <= 6
    ensures |bags| == k
  {
    if k == 0 then [] else Bags(cells, k - 1) + [multiset(Column(cells, (k - 1) / 3, (k - 1) % 3))]
  }

  lemma {:induction false} BagsAt(cells: Cells, k: nat, j: nat)
    requires j < k <= 6
    ensures Bags(cells, k)[j] == multiset(Column(cells, j / 3, j % 3))
  {
    if j < k - 1 {
      BagsAt(cells, k - 1, j);
    }
  }

  /** The contents of a state. */
  function Abs(cells: Cells, turn: bool): (a: Contents)
    ensures |a.bags| == 6 && a.turn == turn
  {
    Contents(turn, Bags(cells, 6))
  }

  /** Each bag of a state's contents is the multiset of the matching column. */
  lemma BagOfAbs(cells: Cells, turn: bool, b: int, c: int)
    requires 0 <= b < 2 && 0 <= c < 3
    ensures Bag(Abs(cells, turn), b, c) == multiset(Column(cells, b, c))
  {
    var j := b * 3 + c;
    assert j / 3 == b && j % 3 == c;
    BagsAt(cells, 6, j);
  }

  /** Contents that agree with a state column by column are its contents. */
  lemma AbsUnique(cells: Cells, turn: bool, a: Contents)
    requires |a.bags| == 6 && a.turn == turn
    requires forall b, c :: 0 <= b < 2 && 0 <= c < 3 ==> Bag(a, b, c) == multiset(Column(cells, b, c))
    ensures Abs(cells, turn) == a
  {
    var x := Abs(cells, turn);
    forall k | 0 <= k < 6 ensures x.bags[k] == a.bags[k] {
      var b, c := k / 3, k % 3;
      assert k == b * 3 + c;
      assert Bag(a, b, c) == multiset(Column(cells, b, c));
      BagOfAbs(cells, turn, b, c);
    }
    assert x.bags == a.bags;
  }

  /** What a push does to the contents: one 0 of the mover's column becomes the
      die, every copy of the die in the opposing column becomes a 0, and the
      turn passes. */
  function APush(a: Contents, column: int, roll: int): (a': Contents)
    requires |a.bags| == 6 && 1 <= column <= 3
    ensures |a'.bags| == 6 && a'.turn == !a.turn
  {
    var b, c := BoardOf(a.turn), column - 1;
    var o := Opponent(b);
    var theirs := Bag(a, o, c);
    Contents(!a.turn, a.bags[b * 3 + c := Bag(a, b, c) - multiset{0} + multiset{roll}]
                            [o * 3 + c := theirs[roll := 0] + multiset{}[0 := theirs[roll]]])
  }

  /** `mv` is a push that was legal on `a` and leads to `a'`. */
  predicate Step(a: Contents, mv: Move, a': Contents)
  {
    |a.bags| == 6 && 1 <= mv.column <= 3 &&
    0 in Bag(a, BoardOf(a.turn), mv.column - 1) &&
    |mv.cancelled| == Bag(a, Opponent(BoardOf(a.turn)), mv.column - 1)[mv.roll] &&
    a' == APush(a, mv.column, mv.roll)
  }

  /** `history[i]` are the contents before `moves[i]`: each move leads to the
      contents before the next one, and the last move leads to `cur`. */
  predicate Chain(history: seq<Contents>, moves: seq<Move>, cur: Contents)
    decreases |history|
  {
    |history| == |moves| &&
    (|history| > 0 ==>
      Step(history[|history| - 1], moves[|moves| - 1], cur) &&
      Chain(history[..|history| - 1], moves[..|moves| - 1], history[|history| - 1]))
  }

  /** The bags `APush` changes: the mover's column and the opposing one. */
  lemma APushBag(a: Contents, column: int, roll: int, b': int, c': int)
    requires |a.bags| == 6 && 1 <= column <= 3 && 0 <= b' < 2 && 0 <= c' < 3
    ensures var b, c := BoardOf(a.turn), column - 1;
      var theirs := Bag(a, Opponent(b), c);
      Bag(APush(a, column, roll), b', c') ==
        if b' == b && c' == c then Bag(a, b, c) - multiset{0} + multiset{roll}
        else if b' == Opponent(b) && c' == c then theirs[roll := 0] + multiset{}[0 := theirs[roll]]
        else Bag(a, b', c')
  {
  }

  /** One column of a push: its multiset is the matching bag of `APush`. */
  lemma PushColumn(cells: Cells, turn: bool, column: int, roll: int, b': int, c': int)
    requires CanPush(cells, turn, column) && 0 <= b' < 2 && 0 <= c' < 3
    ensures Bag(APush(Abs(cells, turn), column, roll), b', c') == multiset(Column(PushCells(cells, turn, column, roll), b', c'))
  {
    var b, c := BoardOf(turn), column - 1;
    var o := Opponent(b);
    var mine, theirs := Column(cells, b, c), Column(cells, o, c);
    var i := FirstIndex(mine, 0);
    var placed := mine[i := roll];
    var mid := WithColumn(cells, b, c, placed);
    APushBag(Abs(cells, turn), column, roll, b', c');
    BagOfAbs(cells, turn, b', c');
    ColumnOfWithColumn(cells, b, c, placed, b', c');
    ColumnOfWithColumn(mid, o, c, Cancel(theirs, roll), b', c');
    if b' == b && c' == c {
      BagOfAbs(cells, turn, b, c);
      UpdateMultiset(mine, i, roll);
    } else if b' == o && c' == c {
      BagOfAbs(cells, turn, o, c);
      CancelMultiset(theirs, roll);
    }
  }

  /** The contents after a push are the pushed contents. */
  lemma AbsOfPush(cells: Cells, turn: bool, column: int, roll: int)
    requires CanPush(cells, turn, column)
    ensures Abs(PushCells(cells, turn, column, roll), !turn) == APush(Abs(cells, turn), column, roll)
  {
    var after := PushCells(cells, turn, column, roll);
    var a' := APush(Abs(cells, turn), column, roll);
    forall b', c' | 0 <= b' < 2 && 0 <= c' < 3
      ensures Bag(a', b', c') == multiset(Column(after, b', c'))
    {
      PushColumn(cells, turn, column, roll, b', c');
    }
    AbsUnique(after, !turn, a');
  }

  /** Pushing on a state changes its contents as `APush` says, with one
      cancelled position per copy of the die in the opposing column. */
  lemma AbsPush(cells: Cells, turn: bool, column: int, roll: int)
    requires CanPush(cells, turn, column)
    ensures Step(Abs(cells, turn), Move(column, roll, CancelledBy(cells, turn, column, roll)),
                 Abs(PushCells(cells, turn, column, roll), !turn))
  {
    var b, c := BoardOf(turn), column - 1;
    AbsOfPush(cells, turn, column, roll);
    BagOfAbs(cells, turn, b, c);
    BagOfAbs(cells, turn, Opponent(b), c);
    MatchesCount(Column(cells, Opponent(b), c), roll);
  }

  /** Lifting the die from a column that gained it over `m` gives back `m`. */
  lemma LiftRestores(mine: seq<int>, m: multiset<int>, roll: int)
    requires 0 in m && multiset(mine) == m - multiset{0} + multiset{roll}
    ensures roll in mine
    ensures multiset(mine[FirstIndex(mine, roll) := 0]) == m
  {
    assert roll in multiset(mine);
    UpdateMultiset(mine, FirstIndex(mine, roll), 0);
  }

  /** Refilling a column whose `roll`s were cancelled, once per cancelled cell, gives back `m`. */
  lemma RefillRestores(theirs: seq<int>, m: multiset<int>, roll: int, k: nat)
    requires k == m[roll] && multiset(theirs) == m[roll := 0] + multiset{}[0 := m[roll]]
    ensures multiset(theirs)[0] >= k
    ensures multiset(FillZeros(theirs, roll, k)) == m
  {
    FillZerosMultiset(theirs, roll, k);
    var out := multiset(FillZeros(theirs, roll, k));
    var lhs, rhs := out + multiset{}[0 := k], multiset(theirs) + multiset{}[roll := k];
    forall u ensures out[u] == m[u] {
      assert lhs[u] == rhs[u];
    }
  }

  /** The two columns a move touched, as they are after it: what the undo works on. */
  lemma MovedColumns(cells: Cells, turn: bool, a: Contents, mv: Move)
    requires Step(a, mv, Abs(cells, turn))
    ensures var b, c := BoardOf(!turn), mv.column - 1;
      var m0 := Bag(a, Opponent(b), c);
      0 in Bag(a, b, c) &&
      multiset(Column(cells, b, c)) == Bag(a, b, c) - multiset{0} + multiset{mv.roll} &&
      |mv.cancelled| == m0[mv.roll] &&
      multiset(Column(cells, Opponent(b), c)) == m0[mv.roll := 0] + multiset{}[0 := m0[mv.roll]]
  {
    var b, c := BoardOf(!turn), mv.column - 1;
    APushBag(a, mv.column, mv.roll, b, c);
    APushBag(a, mv.column, mv.roll, Opponent(b), c);
    BagOfAbs(cells, turn, b, c);
    BagOfAbs(cells, turn, Opponent(b), c);
  }

  /** The undo of the last move of a chain finds what it looks for. */
  lemma StepAllowsPop(cells: Cells, turn: bool, a: Contents, mv: Move)
    requires Step(a, mv, Abs(cells, turn))
    ensures CanPop(cells, turn, mv)
  {
    var b, c := BoardOf(!turn), mv.column - 1;
    MovedColumns(cells, turn, a, mv);
    LiftRestores(Column(cells, b, c), Bag(a, b, c), mv.roll);
    RefillRestores(Column(cells, Opponent(b), c), Bag(a, Opponent(b), c), mv.roll, |mv.cancelled|);
  }

  /** One column of an undo: its multiset is the one the move started from. */
  lemma PopColumn(cells: Cells, turn: bool, a: Contents, mv: Move, b': int, c': int)
    requires Step(a, mv, Abs(cells, turn)) && 0 <= b' < 2 && 0 <= c' < 3
    ensures CanPop(cells, turn, mv)
    ensures Bag(a, b', c') == multiset(Column(PopCells(cells, turn, mv), b', c'))
  {
    StepAllowsPop(cells, turn, a, mv);
    var b, c := BoardOf(!turn), mv.column - 1;
    var o := Opponent(b);
    var mine, theirs := Column(cells, b, c), Column(cells, o, c);
    var lifted := mine[FirstIndex(mine, mv.roll) := 0];
    var refilled := FillZeros(theirs, mv.roll, |mv.cancelled|);
    var mid := WithColumn(cells, b, c, lifted);
    ColumnOfWithColumn(cells, b, c, lifted, b', c');
    ColumnOfWithColumn(mid, o, c, refilled, b', c');
    if b' == b && c' == c {
      MovedColumns(cells, turn, a, mv);
      LiftRestores(mine, Bag(a, b, c), mv.roll);
    } else if b' == o && c' == c {
      MovedColumns(cells, turn, a, mv);
      RefillRestores(theirs, Bag(a, o, c), mv.roll, |mv.cancelled|);
    } else {
      APushBag(a, mv.column, mv.roll, b', c');
      BagOfAbs(cells, turn, b', c');
    }
  }

  /** The last move of a chain can be undone. */
  lemma ChainAllowsPop(history: seq<Contents>, moves: seq<Move>, cells: Cells, turn: bool)
    requires Chain(history, moves, Abs(cells, turn)) && |moves| > 0
    ensures |history| == |moves|
    ensures CanPop(cells, turn, moves[|moves| - 1])
  {
    ChainPop(history, moves, Abs(cells, turn));
    StepAllowsPop(cells, turn, history[|history| - 1], moves[|moves| - 1]);
  }

  /** Undoing the last move of a chain is possible, and gives back the contents
      the move started from. */
  lemma PopUndoesStep(cells: Cells, turn: bool, a: Contents, mv: Move)
    requires Step(a, mv, Abs(cells, turn))
    ensures CanPop(cells, turn, mv)
    ensures Abs(PopCells(cells, turn, mv), !turn) == a
  {
    StepAllowsPop(cells, turn, a, mv);
    var after := PopCells(cells, turn, mv);
    forall b', c' | 0 <= b' < 2 && 0 <= c' < 3
      ensures Bag(a, b', c') == multiset(Column(after, b', c'))
    {
      PopColumn(cells, turn, a, mv, b', c');
    }
    AbsUnique(after, !turn, a);
  }

  /** A push extends a chain by the contents it started from. */
  lemma ChainPush(history: seq<Contents>, moves: seq<Move>, cur: Contents, mv: Move, next: Contents)
    requires Chain(history, moves, cur) && Step(cur, mv, next)
    ensures Chain(history + [cur], moves + [mv], next)
  {
    assert (history + [cur])[..|history|] == history;
    assert (moves + [mv])[..|moves|] == moves;
  }

  /** Dropping the last move of a chain leaves a chain ending in the contents that move started from. */
  lemma ChainPop(history: seq<Contents>, moves: seq<Move>, cur: Contents)
    requires Chain(history, moves, cur) && |moves| > 0
    ensures Step(history[|history| - 1], moves[|moves| - 1], cur)
    ensures Chain(history[..|history| - 1], moves[..|moves| - 1], history[|history| - 1])
  {
  }

  /** A push on a board explained by a chain leaves a board explained by the
      chain extended with the contents it started from and the move made. */
  lemma PushExtendsChain(history: seq<Contents>, moves: seq<Move>, cells: Cells, turn: bool, column: int, roll: int,
                         next: Cells)
    requires Chain(history, moves, Abs(cells, turn)) && CanPush(cells, turn, column)
    requires next == PushCells(cells, turn, column, roll)
    ensures Chain(history + [Abs(cells, turn)],
                  moves + [Move(column, roll, CancelledBy(cells, turn, column, roll))],
                  Abs(next, !turn))
  {
    AbsPush(cells, turn, column, roll);
    ChainPush(history, moves, Abs(cells, turn), Move(column, roll, CancelledBy(cells, turn, column, roll)),
              Abs(next, !turn));
  }

  /** Undoing the last move of a chain is possible, gives back the contents
      that move started from, and leaves a board explained by the shorter chain. */
  lemma PopShortensChain(history: seq<Contents>, moves: seq<Move>, cells: Cells, turn: bool)
    requires Chain(history, moves, Abs(cells, turn)) && |moves| > 0
    ensures |history| == |moves|
    ensures CanPop(cells, turn, moves[|moves| - 1])
    ensures Abs(PopCells(cells, turn, moves[|moves| - 1]), !turn) == history[|history| - 1]
    ensures Chain(history[..|history| - 1], moves[..|moves| - 1],
                  Abs(PopCells(cells, turn, moves[|moves| - 1]), !turn))
  {
    ChainPop(history, moves, Abs(cells, turn));
    PopUndoesStep(cells, turn, history[|history| - 1], moves[|moves| - 1]);
  }

  /** Push then pop gives back the turn and what every column holds. */
  lemma PushThenPopRestoresContents(cells: Cells, turn: bool, column: int, roll: int)
    requires CanPush(cells, turn, column)
    ensures var mv := Move(column, roll, CancelledBy(cells, turn, column, roll));
      var pushed := PushCells(cells, turn, column, roll);
      CanPop(pushed, !turn, mv) &&
      Abs(PopCells(pushed, !turn, mv), turn) == Abs(cells, turn)
  {
    var mv := Move(column, roll, CancelledBy(cells, turn, column, roll));
    var pushed := PushCells(cells, turn, column, roll);
    AbsPush(cells, turn, column, roll);
    PopUndoesStep(pushed, !turn, Abs(cells, turn), mv);
  }

  /** Columns with the same multiset score the same and both or neither hold a 0. */
  lemma SameBagSameColumnOutcome(x: seq<int>, y: seq<int>)
    requires multiset(x) == multiset(y)
    ensures DieScore(x) == DieScore(y)
    ensures 0 in x <==> 0 in y
  {
    ScoreIsOrderFree(x, y);
    assert 0 in x <==> 0 in multiset(x);
    assert 0 in y <==> 0 in multiset(y);
  }

  /** States with the same contents have the same scores and the same legal moves. */
  lemma SameContentsSameOutcome(x: Cells, y: Cells, turn: bool)
    requires Abs(x, turn) == Abs(y, turn)
    ensures GridScore(x, 0) == GridScore(y, 0) && GridScore(x, 1) == GridScore(y, 1)
    ensures LegalMoves(x, turn) == LegalMoves(y, turn)
    ensures IsGameOver(x) <==> IsGameOver(y)
  {
    SameContentsSameColumn(x, y, turn, 0, 0);
    SameContentsSameColumn(x, y, turn, 0, 1);
    SameContentsSameColumn(x, y, turn, 0, 2);
    SameContentsSameColumn(x, y, turn, 1, 0);
    SameContentsSameColumn(x, y, turn, 1, 1);
    SameContentsSameColumn(x, y, turn, 1, 2);
  }

  /** One column of two states with the same contents. */
  lemma SameContentsSameColumn(x: Cells, y: Cells, turn: bool, b: int, c: int)
    requires Abs(x, turn) == Abs(y, turn) && 0 <= b < 2 && 0 <= c < 3
    ensures DieScore(Column(x, b, c)) == DieScore(Column(y, b, c))
    ensures 0 in Column(x, b, c) <==> 0 in Column(y, b, c)
  {
    BagOfAbs(x, turn, b, c);
    BagOfAbs(y, turn, b, c);
    SameBagSameColumnOutcome(Column(x, b, c), Column(y, b, c));
  }

  /** Hence push then pop gives back both scores, the legal moves and the end-of-game verdict. */
  lemma PushThenPopRestoresOutcome(cells: Cells, turn: bool, column: int, roll: int)
    requires CanPush(cells, turn, column)
    ensures var mv := Move(column, roll, CancelledBy(cells, turn, column, roll));
      var pushed := PushCells(cells, turn, column, roll);
      CanPop(pushed, !turn, mv) &&
      var undone := PopCells(pushed, !turn, mv);
      GridScore(undone, 0) == GridScore(cells, 0) && GridScore(undone, 1) == GridScore(cells, 1) &&
      LegalMoves(undone, turn) == LegalMoves(cells, turn) &&
      (IsGameOver(undone) <==> IsGameOver(cells))
  {
    var mv := Move(column, roll, CancelledBy(cells, turn, column, roll));
    var pushed := PushCells(cells, turn, column, roll);
    PushThenPopRestoresContents(cells, turn, column, roll);
    SameContentsSameOutcome(PopCells(pushed, !turn, mv), cells, turn);
  }

  /** The undo does not always restore the cells themselves: when the
      protagonist's first column is `[4, 0, 0]` and the antagonist's first column
      holds no 4, pushing 4 there and popping it leaves `[0, 4, 0]`. */
  lemma PopDoesNotRestoreCells(cells: Cells)
    requires Column(cells, 0, 0) == [4, 0, 0] && 4 !in Column(cells, 1, 0)
    ensures CanPush(cells, Protagonist, 1)
    ensures var mv := Move(1, 4, CancelledBy(cells, Protagonist, 1, 4));
      var pushed := PushCells(cells, Protagonist, 1, 4);
      CanPop(pushed, Antagonist, mv) &&
      Column(PopCells(pushed, Antagonist, mv), 0, 0) == [0, 4, 0] &&
      PopCells(pushed, Antagonist, mv) != cells
  {
    var mv := Move(1, 4, CancelledBy(cells, Protagonist, 1, 4));
    assert mv.cancelled == [] by {
      MatchesCount(Column(cells, 1, 0), 4);
      assert multiset(Column(cells, 1, 0))[4] == 0;
    }
    var pushed := PushCells(cells, Protagonist, 1, 4);
    PushPlacesLowest(cells, Protagonist, 1, 4);
    var before := Column(cells, 0, 0);
    assert before[..1] == [4] && before[..2] == [4, 0];
    var p := Column(pushed, 0, 0);
    assert p == [4, 4, 0];
    assert FirstIndex(p, 4) == 0;
    var theirs := Column(pushed, 1, 0);
    assert p[FirstIndex(p, 4) := 0] == [0, 4, 0];
    var mid := WithColumn(pushed, 0, 0, [0, 4, 0]);
    var undone := WithColumn(mid, 1, 0, FillZeros(theirs, 4, 0));
    assert PopCells(pushed, Antagonist, mv) == undone;
    ColumnOfWithColumn(pushed, 0, 0, [0, 4, 0], 0, 0);
    ColumnOfWithColumn(mid, 1, 0, FillZeros(theirs, 4, 0), 0, 0);
    assert Column(undone, 0, 0) == [0, 4, 0];
    assert undone[0] != cells[0];
  }
}
