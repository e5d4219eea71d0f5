/** The round controller of the Mines component: credits, the current board,
    the game-over flag and the outcome message, and the three handlers that
    change them (cell click, new game, cash out).

    Each handler is a method of the class `Mines` that updates the fields in
    the order the component does; its effect is stated as a transition
    function on a `State` value, and the properties promised by the component
    are lemmas about those functions. */
module Round {
  import opened Board

  /** The credits a session starts with. */
  const InitialCredits: int := 1000

  /** The bet deducted at the start of every new game; nothing changes it. */
  const Bet: int := 50

  /** The number of bombs on every board; nothing changes it. */
  const BombCount: nat := 5

  /** The outcome message, one constructor per text the component shows. */
  datatype Message =
    | Blank
    | Lost
    | Won(amount: int)
    | Insufficient
    | CashedOut

  /** The component state the handlers read and write. */
  datatype State = State(grid: Grid, credits: int, gameOver: bool, message: Message)

  /** The invariant of a session: a 5x5 board with payouts in [10, 109] and
      exactly `BombCount` bombs, and credits that are never negative. */
  ghost predicate Inv(s: State) {
    WellFormedBoard(s.grid, BombCount) && s.credits >= 0
  }

  /** A click on cell (x, y). Ignored when the round is over or the cell is
      already revealed; otherwise the cell is revealed on a copy of the grid,
      a bomb ends the round and a cash cell pays its value. */
  function RevealStep(s: State, x: int, y: int): (r: State)
    requires IsBoard(s.grid) && InGrid(x) && InGrid(y)
    ensures IsBoard(r.grid)
  {
    if s.gameOver || s.grid[x][y].revealed then s
    else
      var cell := s.grid[x][y].(revealed := true);
      var newGrid := s.grid[x := s.grid[x][y := cell]];
      if cell.isBomb then
        s.(grid := newGrid, gameOver := true, message := Lost)
      else
        s.(grid := newGrid, credits := s.credits + cell.value, message := Won(cell.value))
  }

  /** The "new game" button with bet `bet`; `next` is the board the
      generator returns. Refused, with a message, when the bet exceeds the
      credits; otherwise the bet is deducted and a new round starts. Either
      way the credits move by the bet or not at all, and a deduction never
      leaves them negative. */
  function NewGameStep(s: State, bet: int, next: Grid): (r: State)
    ensures r.credits == s.credits || 0 <= r.credits == s.credits - bet
    ensures r.message == Insufficient || (r.message == Blank && !r.gameOver && r.grid == next)
  {
    if bet > s.credits then s.(message := Insufficient)
    else State(next, s.credits - bet, false, Blank)
  }

  /** The "cash out" button: ends the round, whatever its state, and pays
      nothing: the winnings were credited as each cell was revealed. */
  function CashOutStep(s: State): (r: State)
    ensures r.gameOver && r.message == CashedOut
    ensures r.credits == s.credits && r.grid == s.grid
  {
    s.(gameOver := true, message := CashedOut)
  }

  /** A click after the round is over, or on a revealed cell, changes
      nothing. */
  lemma RevealIgnored(s: State, x: int, y: int)
    requires IsBoard(s.grid) && InGrid(x) && InGrid(y)
    requires s.gameOver || s.grid[x][y].revealed
    ensures RevealStep(s, x, y) == s
  {
  }

  /** An accepted click reveals the target cell and changes no other cell,
      and no cell's bomb flag or value. */
  lemma RevealOnlyTarget(s: State, x: int, y: int)
    requires IsBoard(s.grid) && InGrid(x) && InGrid(y)
    requires !s.gameOver && !s.grid[x][y].revealed
    ensures var g := RevealStep(s, x, y).grid;
      && g[x][y] == s.grid[x][y].(revealed := true)
      && (forall i, j :: InGrid(i) && InGrid(j) && (i, j) != (x, y) ==> g[i][j] == s.grid[i][j])
      && (forall i, j :: InGrid(i) && InGrid(j) ==>
            g[i][j].isBomb == s.grid[i][j].isBomb && g[i][j].value == s.grid[i][j].value)
  {
  }

  /** A revealed bomb ends the round and pays nothing; a revealed cash cell
      pays exactly its value and the round goes on. */
  lemma RevealOutcome(s: State, x: int, y: int)
    requires IsBoard(s.grid) && InGrid(x) && InGrid(y)
    requires !s.gameOver && !s.grid[x][y].revealed
    ensures var r := RevealStep(s, x, y);
      if s.grid[x][y].isBomb then
        r.gameOver && r.credits == s.credits && r.message == Lost
      else
        !r.gameOver && r.credits == s.credits + s.grid[x][y].value
        && r.message == Won(s.grid[x][y].value)
  {
  }

  /** Clicking the same cell twice has the effect of clicking it once. */
  lemma RevealIdempotent(s: State, x: int, y: int)
    requires IsBoard(s.grid) && InGrid(x) && InGrid(y)
    ensures RevealStep(RevealStep(s, x, y), x, y) == RevealStep(s, x, y)
  {
  }

  /** Revealing a cell leaves the bomb positions as they were. */
  lemma RevealKeepsBombs(g: Grid, x: int, y: int)
    requires IsBoard(g) && InGrid(x) && InGrid(y)
    ensures IsBoard(g[x := g[x][y := g[x][y].(revealed := true)]])
    ensures BombSet(g[x := g[x][y := g[x][y].(revealed := true)]]) == BombSet(g)
  {
    var h: Grid := g[x := g[x][y := g[x][y].(revealed := true)]];
    forall p | p in BombSet(h)
      ensures p in BombSet(g)
    {
      BombSetMember(h, p.0, p.1);
      BombSetMember(g, p.0, p.1);
    }
    forall p | p in BombSet(g)
      ensures p in BombSet(h)
    {
      BombSetMember(h, p.0, p.1);
      BombSetMember(g, p.0, p.1);
    }
  }

  /** A click keeps the session invariant and never lowers the credits. */
  lemma RevealKeepsInv(s: State, x: int, y: int)
    requires Inv(s) && InGrid(x) && InGrid(y)
    ensures Inv(RevealStep(s, x, y))
    ensures RevealStep(s, x, y).credits >= s.credits
  {
    if !s.gameOver && !s.grid[x][y].revealed {
      RevealKeepsBombs(s.grid, x, y);
    }
  }

  /** A refused new game only sets the message: credits, board and the
      game-over flag stay as they were. */
  lemma NewGameRefused(s: State, bet: int, next: Grid)
    requires bet > s.credits
    ensures var r := NewGameStep(s, bet, next);
      r.grid == s.grid && r.credits == s.credits && r.gameOver == s.gameOver
      && r.message == Insufficient
  {
  }

  /** An accepted new game deducts exactly the bet, leaving credits that are
      not negative, reopens the round, clears the message and installs the
      new board. */
  lemma NewGameAccepted(s: State, bet: int, next: Grid)
    requires bet <= s.credits
    ensures var r := NewGameStep(s, bet, next);
      r.credits == s.credits - bet && r.credits >= 0 && !r.gameOver
      && r.message == Blank && r.grid == next
  {
  }

  /** Cashing out ends the round and keeps credits and board; doing it again
      changes nothing, and after it every click is ignored. */
  lemma CashOutFreezes(s: State, x: int, y: int)
    requires IsBoard(s.grid) && InGrid(x) && InGrid(y)
    ensures var r := CashOutStep(s);
      r.gameOver && r.credits == s.credits && r.grid == s.grid
      && CashOutStep(r) == r && RevealStep(r, x, y) == r
  {
  }

  /** The user actions a session is made of. `NewGame` carries the board the
      generator returns for it. */
  datatype Action =
    | Click(x: int, y: int)
    | NewGame(board: Grid)
    | CashOut

  /** Clicks land on the board, and the generator returns well-formed
      boards. */
  ghost predicate Allowed(a: Action) {
    match a
    case Click(x, y) => InGrid(x) && InGrid(y)
    case NewGame(board) => WellFormedBoard(board, BombCount)
    case CashOut => true
  }

  ghost predicate AllAllowed(acts: seq<Action>) {
    forall i :: 0 <= i < |acts| ==> Allowed(acts[i])
  }

  ghost function Step(s: State, a: Action): (r: State)
    requires IsBoard(s.grid) && Allowed(a)
    ensures IsBoard(r.grid)
  {
    match a
    case Click(x, y) => RevealStep(s, x, y)
    case NewGame(board) => NewGameStep(s, Bet, board)
    case CashOut => CashOutStep(s)
  }

  /** The state after the actions `acts`, in order. */
  ghost function Run(s: State, acts: seq<Action>): State
    requires IsBoard(s.grid) && AllAllowed(acts)
    decreases |acts|
  {
    if acts == [] then s else Run(Step(s, acts[0]), acts[1..])
  }

  /** Every action keeps the session invariant; the credits only go down by
      a new game, and then by exactly the bet. */
  lemma StepKeepsInv(s: State, a: Action)
    requires Inv(s) && Allowed(a)
    ensures Inv(Step(s, a))
    ensures Step(s, a).credits >= s.credits
            || (a.NewGame? && Step(s, a).credits == s.credits - Bet)
  {
    match a
    case Click(x, y) => RevealKeepsInv(s, x, y);
    case NewGame(board) =>
    case CashOut =>
  }

  /** Any sequence of actions keeps the session invariant: in particular the
      credits never go negative. */
  lemma {:induction false} RunKeepsInv(s: State, acts: seq<Action>)
    requires Inv(s) && AllAllowed(acts)
    ensures Inv(Run(s, acts)) && Run(s, acts).credits >= 0
    decreases |acts|
  {
    if acts != [] {
      StepKeepsInv(s, acts[0]);
      assert AllAllowed(acts[1..]) by {
        forall i | 0 <= i < |acts| - 1
          ensures Allowed(acts[1..][i])
        {
          assert acts[1..][i] == acts[i + 1];
        }
      }
      RunKeepsInv(Step(s, acts[0]), acts[1..]);
    }
  }

  /** One round: with 1000 credits a new game leaves 950; revealing a cash
      cell worth 70 gives 1020; revealing a bomb then ends the round with the
      credits still at 1020. */
  lemma RoundScenario(s: State, next: Grid, x1: int, y1: int, x2: int, y2: int)
    requires s.credits == InitialCredits && IsBoard(next)
    requires InGrid(x1) && InGrid(y1) && InGrid(x2) && InGrid(y2) && (x1, y1) != (x2, y2)
    requires !next[x1][y1].revealed && !next[x1][y1].isBomb && next[x1][y1].value == 70
    requires !next[x2][y2].revealed && next[x2][y2].isBomb
    ensures var s1 := NewGameStep(s, Bet, next);
      var s2 := RevealStep(s1, x1, y1);
      var s3 := RevealStep(s2, x2, y2);
      s1.credits == 950 && !s1.gameOver
      && s2.credits == 1020 && !s2.gameOver
      && s3.credits == 1020 && s3.gameOver
  {
  }

  /** The Mines component. */
  class Mines {
    var grid: Grid
    var credits: int
    var message: Message
    var gameOver: bool

    /** The component's state as a value. */
    function Snapshot(): State
      reads this
    {
      State(grid, credits, gameOver, message)
    }

    ghost predicate Valid()
      reads this
    {
      Inv(Snapshot())
    }

    /** The component just after mounting: the first board is generated and
        no bet is deducted. */
    constructor (values: seq<real>, candidates: seq<Candidate>)
      requires DrawsOk(values, candidates, BombCount)
      ensures Valid()
      ensures credits == InitialCredits && !gameOver && message == Blank
      ensures FreshBoard(grid, values, candidates, BombCount)
    {
      var g := GenerateGrid(BombCount, values, candidates);
      FreshBoardWellFormed(g, values, candidates, BombCount);
      grid := g;
      credits := InitialCredits;
      message := Blank;
      gameOver := false;
    }

    /** The click handler of cell (x, y). */
    method HandleCellClick(x: int, y: int)
      requires Valid() && InGrid(x) && InGrid(y)
      modifies this
      ensures Valid()
      ensures Snapshot() == RevealStep(old(Snapshot()), x, y)
    {
      RevealKeepsInv(Snapshot(), x, y);
      if gameOver || grid[x][y].revealed {
        return;
      }
      var newGrid: Grid := grid;
      var cell: Cell := newGrid[x][y].(revealed := true);
      newGrid := newGrid[x := newGrid[x][y := cell]];
      if cell.isBomb {
        message := Lost;
        gameOver := true;
      } else {
        credits := credits + cell.value;
        message := Won(cell.value);
      }
      grid := newGrid;
    }

    /** The "new game" handler; `values` and `candidates` are the draws the
        generator consumes when the game is accepted. */
    method HandleNewGame(values: seq<real>, candidates: seq<Candidate>)
      requires Valid()
      requires Bet <= credits ==> DrawsOk(values, candidates, BombCount)
      modifies this
      ensures Valid()
      ensures Snapshot() == NewGameStep(old(Snapshot()), Bet, grid)
      ensures old(Bet <= credits) ==> FreshBoard(grid, values, candidates, BombCount)
    {
      if Bet > credits {
        message := Insufficient;
        return;
      }
      credits := credits - Bet;
      gameOver := false;
      message := Blank;
      var g := GenerateGrid(BombCount, values, candidates);
      FreshBoardWellFormed(g, values, candidates, BombCount);
      grid := g;
    }

    /** The "cash out" handler. */
    method CashOut()
      requires Valid()
      modifies this
      ensures Valid()
      ensures Snapshot() == CashOutStep(old(Snapshot()))
    {
      message := CashedOut;
      gameOver := true;
    }
  }
}
