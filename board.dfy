/** The board of one Mines round: a 5x5 grid of cells, each hiding either a
    bomb or a cash value, and the generator that fills it from random draws.

    `Math.random` is not modelled: every draw it would return is a real in
    [0, 1) supplied by the caller, in the order the generator consumes them
    (one payout draw per cell, row by row, then one (row, column) pair of
    draws per placement attempt). */
module Board {

  /** The board is square with this many rows and columns. */
  const Size: nat := 5

  /** One grid position. `value` is drawn for every cell but only paid out
      for cells that are not bombs. */
  datatype Cell = Cell(isBomb: bool, revealed: bool, value: int)

  /** Rows of cells, indexed `g[row][column]`. */
  type Grid = seq<seq<Cell>>

  /** A draw pair for one placement attempt: (row draw, column draw). */
  type Candidate = (real, real)

  /** A (row, column) pair. */
  type Position = (int, int)

  predicate InGrid(i: int) {
    0 <= i < Size
  }

  /** The grid has `Size` rows of `Size` cells each. */
  predicate IsBoard(g: Grid) {
    |g| == Size && forall x :: 0 <= x < Size ==> |g[x]| == Size
  }

  /** A value `Math.random` can return. */
  predicate IsDraw(r: real) {
    0.0 <= r < 1.0
  }

  /** The payout of a cell drawn from `r`: `floor(r * 100) + 10`. */
  function Payout(r: real): (v: int)
    requires IsDraw(r)
    ensures 10 <= v <= 109
  {
    (r * 100.0).Floor + 10
  }

  /** Every payout in [10, 109] is produced by some draw. */
  lemma PayoutCovers(v: int)
    requires 10 <= v <= 109
    ensures IsDraw((v - 10) as real / 100.0)
    ensures Payout((v - 10) as real / 100.0) == v
  {
  }

  /** A row or column index drawn from `r`: `floor(r * 5)`. */
  function Coordinate(r: real): (k: int)
    requires IsDraw(r)
    ensures InGrid(k)
  {
    (r * Size as real).Floor
  }

  predicate IsCandidate(c: Candidate) {
    IsDraw(c.0) && IsDraw(c.1)
  }

  /** The grid position a placement attempt targets. */
  function Target(c: Candidate): (p: Position)
    requires IsCandidate(c)
    ensures InGrid(p.0) && InGrid(p.1)
  {
    (Coordinate(c.0), Coordinate(c.1))
  }

  ghost predicate AllCandidates(cs: seq<Candidate>) {
    forall i :: 0 <= i < |cs| ==> IsCandidate(cs[i])
  }

  /** The positions targeted by the attempts, in order. */
  function Targets(cs: seq<Candidate>): (ts: seq<Position>)
    requires AllCandidates(cs)
    ensures |ts| == |cs| && AllInGrid(ts)
  {
    seq(|cs|, i requires 0 <= i < |cs| => Target(cs[i]))
  }

  ghost predicate AllInGrid(ts: seq<Position>) {
    forall i :: 0 <= i < |ts| ==> InGrid(ts[i].0) && InGrid(ts[i].1)
  }

  /** The distinct positions among `ts`. */
  ghost function Positions(ts: seq<Position>): set<Position> {
    set i | 0 <= i < |ts| :: ts[i]
  }

  /** The positions of the bombs on `g`. */
  ghost function BombSet(g: Grid): set<Position>
    requires IsBoard(g)
  {
    set x, y | 0 <= x < Size && 0 <= y < Size && g[x][y].isBomb :: (x, y)
  }

  /** The bombs of `g` are exactly on the positions `p`. */
  ghost predicate BombsAt(g: Grid, p: set<Position>)
    requires IsBoard(g)
  {
    forall x, y :: InGrid(x) && InGrid(y) ==> (g[x][y].isBomb <==> (x, y) in p)
  }

  /** `n` is the shortest prefix of `ts` holding exactly `k` distinct
      positions: the attempts the placement loop consumes. */
  ghost predicate FirstDistinct(ts: seq<Position>, k: nat, n: nat) {
    n <= |ts| && |Positions(ts[..n])| == k && (n > 0 ==> |Positions(ts[..n - 1])| < k)
  }

  ghost predicate AreDraws(values: seq<real>) {
    forall i :: 0 <= i < |values| ==> IsDraw(values[i])
  }

  /** What the random source must supply for one board with `k` bombs: a
      payout draw per cell, and attempts reaching at least `k` distinct
      positions (so the placement loop ends). */
  ghost predicate DrawsOk(values: seq<real>, cs: seq<Candidate>, k: nat) {
    && |values| == Size * Size
    && AreDraws(values)
    && AllCandidates(cs)
    && k <= Size * Size
    && k <= |Positions(Targets(cs))|
  }

  /** Every cell of `g` is hidden and carries the payout of its own draw. */
  ghost predicate Hidden(g: Grid, values: seq<real>)
    requires |values| == Size * Size && AreDraws(values)
  {
    && IsBoard(g)
    && forall x, y :: InGrid(x) && InGrid(y) ==>
         !g[x][y].revealed && g[x][y].value == Payout(values[Size * x + y])
  }

  /** `g` is the board generated from `values` and `cs` with `k` bombs:
      all cells hidden, each payout taken from its own draw, and the bombs
      exactly on the first `k` distinct positions the attempts target. */
  ghost predicate FreshBoard(g: Grid, values: seq<real>, cs: seq<Candidate>, k: nat)
    requires DrawsOk(values, cs, k)
  {
    && Hidden(g, values)
    && exists n: nat :: FirstDistinct(Targets(cs), k, n) && BombSet(g) == Positions(Targets(cs)[..n])
  }

  /** The invariant every board of a round keeps: 5x5, payouts in range and
      exactly `k` bombs. */
  ghost predicate WellFormedBoard(g: Grid, k: nat) {
    && IsBoard(g)
    && (forall x, y :: InGrid(x) && InGrid(y) ==> 10 <= g[x][y].value <= 109)
    && |BombSet(g)| == k
  }

  /** Builds a board: every cell hidden with a drawn payout, then bombs
      placed on the targets of the attempts. */
  method GenerateGrid(bombCount: nat, values: seq<real>, candidates: seq<Candidate>) returns (g: Grid)
    requires DrawsOk(values, candidates, bombCount)
    ensures FreshBoard(g, values, candidates, bombCount)
  {
    var hidden := HiddenGrid(values);
    var ts := Targets(candidates);
    var n;
    g, n := PlaceBombs(hidden, ts, bombCount);
    WithBombsAt(hidden, Positions(ts[..n]));
  }

  /** The board before placement: every cell hidden, no bombs, and the
      payout of cell (x, y) drawn from the (5x + y)-th value draw. */
  function HiddenGrid(values: seq<real>): (g: Grid)
    requires |values| == Size * Size && AreDraws(values)
    ensures Hidden(g, values) && BombsAt(g, {})
  {
    seq(Size, x requires 0 <= x < Size =>
      seq(Size, y requires 0 <= y < Size => Cell(false, false, Payout(values[Size * x + y]))))
  }

  /** Places `k` bombs by rejection sampling: an attempt counts only when
      its target is not already a bomb. The result is `g0` with bombs on
      exactly the first `k` distinct targets, and `n` is the number of
      attempts consumed. */
  method PlaceBombs(g0: Grid, ts: seq<Position>, k: nat) returns (g: Grid, n: nat)
    requires IsBoard(g0) && BombsAt(g0, {})
    requires AllInGrid(ts) && k <= |Positions(ts)|
    ensures FirstDistinct(ts, k, n) && g == WithBombs(g0, Positions(ts[..n]))
  {
    g := g0;
    WithNoBombs(g0);
    assert ts[..|ts|] == ts;
    assert Positions(ts[..0]) == {};
    var placed := 0;
    var i := 0;
    while placed < k
      invariant 0 <= i <= |ts|
      invariant g == WithBombs(g0, Positions(ts[..i]))
      invariant placed == |Positions(ts[..i])| <= k
      invariant i > 0 ==> |Positions(ts[..i - 1])| < k
      decreases |ts| - i
    {
      var (x, y) := ts[i];
      PositionsSnoc(ts, i);
      AddCard(Positions(ts[..i]), (x, y));
      if !g[x][y].isBomb {
        WithOneMore(g0, Positions(ts[..i]), x, y);
        g := g[x := g[x][y := g[x][y].(isBomb := true)]];
        placed := placed + 1;
      }
      i := i + 1;
    }
    n := i;
  }

  /** `g` with the bomb flags set exactly on the positions `p`. */
  ghost function WithBombs(g: Grid, p: set<Position>): (r: Grid)
    requires IsBoard(g)
    ensures IsBoard(r)
    ensures forall x, y :: InGrid(x) && InGrid(y) ==> r[x][y] == g[x][y].(isBomb := (x, y) in p)
  {
    seq(Size, x requires 0 <= x < Size =>
      seq(Size, y requires 0 <= y < Size => g[x][y].(isBomb := (x, y) in p)))
  }

  /** Setting the bombs of a bomb-free board on no position changes nothing. */
  lemma WithNoBombs(g: Grid)
    requires IsBoard(g) && BombsAt(g, {})
    ensures WithBombs(g, {}) == g
  {
    var r := WithBombs(g, {});
    forall x | 0 <= x < Size
      ensures r[x] == g[x]
    {
      assert forall y :: 0 <= y < Size ==> r[x][y] == g[x][y];
    }
  }

  /** Marking one more cell as a bomb adds its position. */
  lemma WithOneMore(g: Grid, p: set<Position>, x: int, y: int)
    requires IsBoard(g) && InGrid(x) && InGrid(y)
    ensures var w := WithBombs(g, p);
      w[x := w[x][y := w[x][y].(isBomb := true)]] == WithBombs(g, p + {(x, y)})
  {
    var w: Grid := WithBombs(g, p);
    var m: Grid := w[x := w[x][y := w[x][y].(isBomb := true)]];
    var r: Grid := WithBombs(g, p + {(x, y)});
    forall i | 0 <= i < Size
      ensures m[i] == r[i]
    {
      assert forall j :: 0 <= j < Size ==> m[i][j] == r[i][j];
    }
  }

  /** The board `WithBombs(g, p)` has its bombs exactly on `p` and otherwise
      the cells of `g`. */
  lemma WithBombsAt(g: Grid, p: set<Position>)
    requires IsBoard(g)
    requires forall q :: q in p ==> InGrid(q.0) && InGrid(q.1)
    ensures BombSet(WithBombs(g, p)) == p
  {
    BombSetIs(WithBombs(g, p), p);
  }

  /** A set of grid positions holding exactly the bombs is the bomb set. */
  lemma BombSetIs(g: Grid, p: set<Position>)
    requires IsBoard(g) && BombsAt(g, p)
    requires forall q :: q in p ==> InGrid(q.0) && InGrid(q.1)
    ensures BombSet(g) == p
  {
  }

  /** One more attempt adds its target to the targeted positions. */
  lemma PositionsSnoc(ts: seq<Position>, i: nat)
    requires i < |ts|
    ensures Positions(ts[..i + 1]) == Positions(ts[..i]) + {ts[i]}
  {
    assert forall j :: 0 <= j < i ==> ts[..i + 1][j] == ts[..i][j];
  }

  /** Adding an element grows a set by one exactly when it is new. */
  lemma AddCard<T>(a: set<T>, t: T)
    ensures t in a ==> a + {t} == a
    ensures t !in a ==> |a + {t}| == |a| + 1
  {
    if t !in a {
      assert (a + {t}) - {t} == a;
    }
  }

  /** Longer prefixes of the attempts target at least the same positions. */
  lemma PositionsMonotone(ts: seq<Position>, i: nat, j: nat)
    requires i <= j <= |ts|
    ensures Positions(ts[..i]) <= Positions(ts[..j])
  {
    forall p | p in Positions(ts[..i])
      ensures p in Positions(ts[..j])
    {
      var k :| 0 <= k < i && ts[..i][k] == p;
      assert ts[..j][k] == p;
    }
  }

  lemma SubsetCard<T>(a: set<T>, b: set<T>)
    requires a <= b
    ensures |a| <= |b|
  {
    assert b == a + (b - a);
  }

  /** The number of attempts the placement consumes is determined by the
      attempts and the bomb count. */
  lemma FirstDistinctUnique(ts: seq<Position>, k: nat, n1: nat, n2: nat)
    requires FirstDistinct(ts, k, n1) && FirstDistinct(ts, k, n2)
    ensures n1 == n2
  {
    if n1 < n2 {
      PositionsMonotone(ts, n1, n2 - 1);
      SubsetCard(Positions(ts[..n1]), Positions(ts[..n2 - 1]));
    } else if n2 < n1 {
      PositionsMonotone(ts, n2, n1 - 1);
      SubsetCard(Positions(ts[..n2]), Positions(ts[..n1 - 1]));
    }
  }

  /** A generated board holds exactly `k` bombs, every payout lies in
      [10, 109] and no cell is revealed. */
  lemma FreshBoardWellFormed(g: Grid, values: seq<real>, cs: seq<Candidate>, k: nat)
    requires DrawsOk(values, cs, k) && FreshBoard(g, values, cs, k)
    ensures WellFormedBoard(g, k)
    ensures forall x, y :: InGrid(x) && InGrid(y) ==> !g[x][y].revealed
  {
  }

  /** The board is a function of the draws: two boards generated from the
      same draws are equal. */
  lemma FreshBoardUnique(g1: Grid, g2: Grid, values: seq<real>, cs: seq<Candidate>, k: nat)
    requires DrawsOk(values, cs, k)
    requires FreshBoard(g1, values, cs, k) && FreshBoard(g2, values, cs, k)
    ensures g1 == g2
  {
    var ts := Targets(cs);
    var n1: nat :| FirstDistinct(ts, k, n1) && BombSet(g1) == Positions(ts[..n1]);
    var n2: nat :| FirstDistinct(ts, k, n2) && BombSet(g2) == Positions(ts[..n2]);
    FirstDistinctUnique(ts, k, n1, n2);
    SameCells(g1, g2, values);
  }

  /** Two hidden boards with the same draws and bombs agree cell by cell. */
  lemma SameCells(g1: Grid, g2: Grid, values: seq<real>)
    requires |values| == Size * Size && AreDraws(values)
    requires Hidden(g1, values) && Hidden(g2, values) && BombSet(g1) == BombSet(g2)
    ensures g1 == g2
  {
    forall x | 0 <= x < Size
      ensures g1[x] == g2[x]
    {
      forall y | 0 <= y < Size
        ensures g1[x][y] == g2[x][y]
      {
        BombSetMember(g1, x, y);
        BombSetMember(g2, x, y);
        assert InGrid(x) && InGrid(y);
        assert g1[x][y].value == g2[x][y].value && !g1[x][y].revealed && !g2[x][y].revealed;
      }
    }
  }

  /** A position is in the bomb set exactly when its cell is a bomb. */
  lemma BombSetMember(g: Grid, x: int, y: int)
    requires IsBoard(g) && InGrid(x) && InGrid(y)
    ensures (x, y) in BombSet(g) <==> g[x][y].isBomb
  {
  }
}
