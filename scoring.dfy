/** Scoring of one Knucklebones column.

    The board code sums `value * count * count` over the items of a counter
    built from the column; its doc comment reads the same rule die by die
    ("the value of each die multiplied by the number of dice of that value in
    its column"). Both readings are defined here and proved equal, and the
    per-die reading is shown to depend only on the multiset of the column.

    Products of a value and a count are written with `Times`, repeated
    addition, which the verifier unfolds a step at a time; `TimesIsProduct`
    turns it back into `*` where a proof needs it. */
module Scoring {

  /** `a` added `k` times, that is `a * k`. */
  function Times(a: int, k: nat): int
  {
    if k == 0 then 0 else Times(a, k - 1) + a
  }

  lemma {:induction false} TimesIsProduct(a: int, k: nat)
    ensures Times(a, k) == a * k
  {
    if k > 0 {
      TimesIsProduct(a, k - 1);
    }
  }

  /** Per-die sum: each entry `x` of `s` contributes `x * m[x]`. */
  function Weighted(s: seq<int>, m: multiset<int>): int
  {
    if |s| == 0 then 0 else Weighted(s[..|s| - 1], m) + Times(s[|s| - 1], m[s[|s| - 1]])
  }

  /** The doc comment's reading of a column's score. */
  function DieScore(col: seq<int>): int
  {
    Weighted(col, multiset(col))
  }

  /** The distinct values of `s` in order of first appearance: the key order of a
      counter built from `s`. */
  function Distinct(s: seq<int>): (d: seq<int>)
    ensures forall v :: v in d <==> v in s
    ensures forall i, j :: 0 <= i < j < |d| ==> d[i] != d[j]
  {
    if |s| == 0 then []
    else
      var p := Distinct(s[..|s| - 1]);
      assert s == s[..|s| - 1] + [s[|s| - 1]];
      if s[|s| - 1] in s[..|s| - 1] then p else p + [s[|s| - 1]]
  }

  /** Sum over the keys `d` of `v * c[v] * m[v]`. */
  function SumOver(d: seq<int>, c: multiset<int>, m: multiset<int>): int
  {
    if |d| == 0 then 0
    else SumOver(d[..|d| - 1], c, m) + Times(Times(d[|d| - 1], c[d[|d| - 1]]), m[d[|d| - 1]])
  }

  /** The code's reading of a column's score: `value * count * count` summed
      over the (value, count) items of the column's counter. Zeros add 0. */
  function CounterScore(col: seq<int>): int
  {
    SumOver(Distinct(col), multiset(col), multiset(col))
  }

  lemma Distributes(y: int, k: nat, w: nat)
    ensures Times(Times(y, k + 1), w) == Times(Times(y, k), w) + Times(y, w)
  {
    TimesIsProduct(y, k + 1);
    TimesIsProduct(y, k);
    TimesIsProduct(y * (k + 1), w);
    TimesIsProduct(y * k, w);
    TimesIsProduct(y, w);
    assert y * (k + 1) * w == y * k * w + y * w;
  }

  /** Adding one `x` to the counts changes the sum by `x * m[x]` when `x` is a key. */
  lemma {:induction false} SumOverAddOne(d: seq<int>, c: multiset<int>, m: multiset<int>, x: int)
    requires forall i, j :: 0 <= i < j < |d| ==> d[i] != d[j]
    ensures SumOver(d, c + multiset{x}, m) == SumOver(d, c, m) + (if x in d then Times(x, m[x]) else 0)
  {
    if |d| > 0 {
      var p, y := d[..|d| - 1], d[|d| - 1];
      assert d == p + [y];
      SumOverAddOne(p, c, m, x);
      if y == x {
        assert x !in p;
        assert (c + multiset{x})[y] == c[y] + 1;
        Distributes(y, c[y], m[y]);
      } else {
        assert (c + multiset{x})[y] == c[y];
      }
    }
  }

  /** Appending one more die `x` adds `x * m[x]` to the per-key sum. */
  lemma SumOverAppend(p: seq<int>, x: int, m: multiset<int>)
    ensures SumOver(Distinct(p + [x]), multiset(p + [x]), m) == SumOver(Distinct(p), multiset(p), m) + Times(x, m[x])
  {
    var s := p + [x];
    assert s[..|s| - 1] == p;
    var c := multiset(p);
    assert multiset(s) == c + multiset{x};
    SumOverAddOne(Distinct(p), c, m, x);
    if x !in p {
      var d := Distinct(p) + [x];
      assert Distinct(s) == d;
      assert d[..|d| - 1] == Distinct(p);
      assert multiset(s)[x] == 1;
      assert Times(x, 1) == x;
    }
  }

  /** Grouping the per-die terms by value gives the per-key sum. */
  lemma {:induction false} Grouping(s: seq<int>, m: multiset<int>)
    ensures SumOver(Distinct(s), multiset(s), m) == Weighted(s, m)
  {
    if |s| > 0 {
      var p, x := s[..|s| - 1], s[|s| - 1];
      assert s == p + [x];
      Grouping(p, m);
      SumOverAppend(p, x, m);
    }
  }

  /** The code's score and the doc comment's score agree on every column. */
  lemma CounterScoreIsDieScore(col: seq<int>)
    ensures CounterScore(col) == DieScore(col)
  {
    Grouping(col, multiset(col));
  }

  lemma {:induction false} WeightedAppend(a: seq<int>, b: seq<int>, m: multiset<int>)
    ensures Weighted(a + b, m) == Weighted(a, m) + Weighted(b, m)
  {
    if |b| > 0 {
      var p := b[..|b| - 1];
      assert (a + b)[..|a + b| - 1] == a + p;
      WeightedAppend(a, p, m);
    } else {
      assert a + b == a;
    }
  }

  /** The per-die sum depends only on the multiset of its entries. */
  lemma {:induction false} WeightedPermutation(s: seq<int>, t: seq<int>, m: multiset<int>)
    requires multiset(s) == multiset(t)
    ensures Weighted(s, m) == Weighted(t, m)
    decreases |s|
  {
    if |s| > 0 {
      var p, x := s[..|s| - 1], s[|s| - 1];
      assert s == p + [x];
      assert x in multiset(t);
      var j :| 0 <= j < |t| && t[j] == x;
      var t' := t[..j] + t[j + 1..];
      assert t == t[..j] + [x] + t[j + 1..];
      assert multiset(t') == multiset(t) - multiset{x};
      assert multiset(p) == multiset(s) - multiset{x};
      WeightedPermutation(p, t', m);
      WeightedAppend(t[..j] + [x], t[j + 1..], m);
      WeightedAppend(t[..j], [x], m);
      WeightedAppend(t[..j], t[j + 1..], m);
      assert Weighted([x], m) == Times(x, m[x]) by {
        assert [x][..0] == [];
      }
    } else {
      assert |multiset(t)| == 0;
    }
  }

  /** A column's score does not depend on the order of its cells. */
  lemma ScoreIsOrderFree(a: seq<int>, b: seq<int>)
    requires multiset(a) == multiset(b)
    ensures DieScore(a) == DieScore(b)
    ensures CounterScore(a) == CounterScore(b)
  {
    WeightedPermutation(a, b, multiset(a));
    CounterScoreIsDieScore(a);
    CounterScoreIsDieScore(b);
  }

  lemma {:induction false} CountAtMostLength(s: seq<int>, v: int)
    ensures multiset(s)[v] <= |s|
  {
    if |s| > 0 {
      assert s == s[..|s| - 1] + [s[|s| - 1]];
      CountAtMostLength(s[..|s| - 1], v);
    }
  }

  lemma {:induction false} WeightedBounds(s: seq<int>, m: multiset<int>, n: nat)
    requires forall i :: 0 <= i < |s| ==> 0 <= s[i] <= 6 && m[s[i]] <= n
    ensures 0 <= Weighted(s, m) <= Times(6 * n, |s|)
  {
    if |s| > 0 {
      var x := s[|s| - 1];
      var p := s[..|s| - 1];
      WeightedBounds(p, m, n);
      assert Weighted(s, m) == Weighted(p, m) + Times(x, m[x]);
      TimesIsProduct(x, m[x]);
      assert 0 <= x * m[x] <= 6 * n by {
        assert x * m[x] <= 6 * m[x];
      }
    }
  }

  /** With die faces 0..6 in a three-cell column, a column scores 0..54. */
  lemma ColumnScoreBounds(col: seq<int>)
    requires |col| == 3
    requires forall i :: 0 <= i < |col| ==> 0 <= col[i] <= 6
    ensures 0 <= DieScore(col) <= 54
  {
    forall i | 0 <= i < |col| ensures multiset(col)[col[i]] <= 3 {
      CountAtMostLength(col, col[i]);
    }
    WeightedBounds(col, multiset(col), 3);
    assert Times(18, 3) == 54;
  }

  lemma WeightedOfThree(x: int, y: int, z: int, m: multiset<int>)
    ensures Weighted([x, y, z], m) == Times(x, m[x]) + Times(y, m[y]) + Times(z, m[z])
  {
    assert [x, y, z][..2] == [x, y];
    assert [x, y][..1] == [x];
    assert [x][..0] == [];
    assert Weighted([], m) == 0;
    assert Weighted([x], m) == Times(x, m[x]);
    assert Weighted([x, y], m) == Times(x, m[x]) + Times(y, m[y]);
  }

  /** The doc comment's examples: 1-2-3 scores 6 and 4-1-4 scores 17; an empty column scores 0. */
  lemma ScoreExamples()
    ensures CounterScore([1, 2, 3]) == 6
    ensures CounterScore([4, 1, 4]) == 17
    ensures CounterScore([0, 0, 0]) == 0
  {
    CounterScoreIsDieScore([1, 2, 3]);
    CounterScoreIsDieScore([4, 1, 4]);
    CounterScoreIsDieScore([0, 0, 0]);
    WeightedOfThree(1, 2, 3, multiset([1, 2, 3]));
    WeightedOfThree(4, 1, 4, multiset([4, 1, 4]));
    WeightedOfThree(0, 0, 0, multiset([0, 0, 0]));
    assert multiset([4, 1, 4]) == multiset{4, 1, 4};
    assert multiset([1, 2, 3]) == multiset{1, 2, 3};
    assert Times(4, 2) == 8;
    assert Times(0, 3) == 0;
  }
}
