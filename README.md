# Mines round logic

This project models the game logic of the `Mines` React component of
thigasbet. The game is a 5x5 grid in which each cell hides either a bomb or
a cash value. The component keeps a credit balance, a fixed bet and a fixed
bomb count. The player reveals cells, starts new games and cashes out. The
model covers three parts:

- **Board generation** (`board.dfy`, module `Board`):
  - `GenerateGrid` builds a grid of hidden cells. Each payout is
    `floor(r * 100) + 10` for its own draw `r`.
  - It then places `bombCount` bombs by rejection sampling. `PlaceBombs`
    is the placement loop; it counts an attempt only when the target cell
    is not already a bomb.
  - `Math.random` is replaced by draws the caller supplies: reals in
    [0, 1). There is one payout draw per cell, in row order. Each placement
    attempt gets one (row, column) draw pair, which becomes a position by
    `floor(r * 5)`.
- **Round control** (`round.dfy`, module `Round`):
  - The class `Mines` has the component's state as fields: `grid`,
    `credits`, `gameOver` and `message`.
  - Its handlers are `HandleCellClick`, `HandleNewGame` and `CashOut`.
    Each one updates the fields in the order the component does.
  - Each handler's effect is stated as a transition function on a `State`
    value: `RevealStep`, `NewGameStep` or `CashOutStep`.
  - The component's promises are lemmas about those functions. For
    example, the lemma `RunKeepsInv` says credits never go negative over
    any sequence of actions.
  - `bet` (50) and `bombCount` (5) are constants `Bet` and `BombCount`,
    because the component never calls their setters.
  - The grid is a `seq<seq<Cell>>` value. This matches the component's
    copy-then-mutate update in `handleCellClick`, which never changes the
    old grid.
  - The constructor is the state just after mounting. The first board is
    generated and no bet is deducted.

Two behaviours of the component are kept as written:

- The code does not guard cash-out: it always sets `gameOver` and the
  message, even when the round is already over.
- The bet is the fixed state value 50. There is no per-call bet argument
  and no way to set the bet.

## Model

| member | source | states |
|---|---|---|
| `Board.Payout` | thigasbet/src/components/Mines.tsx:28 | a cell's payout `floor(r * 100) + 10` lies in [10, 109] for every draw in [0, 1) |
| `Board.PayoutCovers` | thigasbet/src/components/Mines.tsx:28 | every payout in [10, 109] is produced by some draw |
| `Board.Coordinate` | thigasbet/src/components/Mines.tsx:36-37 | a drawn row or column `floor(r * 5)` is a valid index 0..4 |
| `Board.Targets` | thigasbet/src/components/Mines.tsx:36-37 | the attempts' targets are one per draw pair and all lie on the board |
| `Board.HiddenGrid` | thigasbet/src/components/Mines.tsx:24-30 | the initial grid is 5x5 with every cell unrevealed, no bombs, and cell (x, y) carrying the payout of draw 5x + y |
| `Board.PlaceBombs` | thigasbet/src/components/Mines.tsx:33-42 | the loop ends after the shortest prefix of attempts that targets exactly `k` distinct positions, and returns that prefix's length; the result is the input grid with bombs on exactly those positions and every other field unchanged |
| `Board.GenerateGrid` | thigasbet/src/components/Mines.tsx:23-44 | the generated board is 5x5 and fully hidden, each payout comes from its own draw, and the bombs are exactly the first `bombCount` distinct targets |
| `Board.FreshBoardWellFormed` | thigasbet/src/components/Mines.tsx:23-44 | a generated board has exactly `k` distinct bombs, payouts in [10, 109] and no revealed cell |
| `Board.FreshBoardUnique` | thigasbet/src/components/Mines.tsx:23-44 | the board is determined by the draws: two boards generated from the same draws are equal |
| `Board.FirstDistinctUnique` | thigasbet/src/components/Mines.tsx:35-42 | the number of attempts the placement consumes is determined by the attempts and the bomb count |
| `Board.PositionsMonotone` | thigasbet/src/components/Mines.tsx:35-42 | a longer run of attempts targets a superset of the positions, so the placed count never falls |
| `Board.BombSetMember` | thigasbet/src/components/Mines.tsx:38-39 | a position counts as a bomb exactly when its cell's `isBomb` flag is set |
| `Round.RevealStep` | thigasbet/src/components/Mines.tsx:50-66 | a click keeps the grid 5x5 |
| `Round.NewGameStep` | thigasbet/src/components/Mines.tsx:68-77 | a new game is either refused, leaving the credits and setting the insufficient-credits message, or accepted, deducting exactly the bet without going negative, reopening the round, clearing the message and installing the new board |
| `Round.CashOutStep` | thigasbet/src/components/Mines.tsx:168-171 | cash-out, unguarded, sets game over and the cash-out message and pays nothing: credits and board stay |
| `Round.RevealIgnored` | thigasbet/src/components/Mines.tsx:51 | a click after game over, or on a revealed cell, leaves grid, credits, message and game-over flag unchanged |
| `Round.RevealOnlyTarget` | thigasbet/src/components/Mines.tsx:53-65 | an accepted click sets `revealed` on the target cell only; no other cell changes and no bomb flag or value changes |
| `Round.RevealOutcome` | thigasbet/src/components/Mines.tsx:57-63 | revealing a bomb sets game over and keeps the credits; revealing a cash cell adds exactly its value, keeps the round open, and reports that value |
| `Round.RevealIdempotent` | thigasbet/src/components/Mines.tsx:51-55 | clicking the same cell twice has the effect of clicking it once |
| `Round.RevealKeepsBombs` | thigasbet/src/components/Mines.tsx:53-55 | revealing a cell changes no bomb position |
| `Round.RevealKeepsInv` | thigasbet/src/components/Mines.tsx:50-66 | a click keeps exactly `BombCount` bombs, payouts in range and credits non-negative, and never lowers the credits |
| `Round.NewGameRefused` | thigasbet/src/components/Mines.tsx:69-71 | a new game with the bet above the credits only sets the insufficient-credits message |
| `Round.NewGameAccepted` | thigasbet/src/components/Mines.tsx:73-76 | an accepted new game deducts exactly the bet, leaving non-negative credits, clears game over and the message, and installs the new board |
| `Round.CashOutFreezes` | thigasbet/src/components/Mines.tsx:168-171 | cash-out sets game over and keeps credits and grid; repeating it changes nothing, and afterwards every click is ignored |
| `Round.StepKeepsInv` | thigasbet/src/components/Mines.tsx:50-77 | every action keeps the session invariant; credits only go down through an accepted new game, and then by exactly the bet |
| `Round.RunKeepsInv` | thigasbet/src/components/Mines.tsx:14-77 | from any state satisfying the invariant (such as the mounted state with 1000 credits), every sequence of actions keeps the board well formed and the credits non-negative |
| `Round.RoundScenario` | thigasbet/src/components/Mines.tsx:57-76 | from 1000 credits: a new game leaves 950, a cash cell worth 70 gives 1020, and a bomb then ends the round at 1020 |
| `Round.Mines.constructor` | thigasbet/src/components/Mines.tsx:14-48 | after mounting, credits are 1000, the round is open, the message is empty, and the board is freshly generated with no bet deducted |
| `Round.Mines.HandleCellClick` | thigasbet/src/components/Mines.tsx:50-66 | the new state is `RevealStep` of the old one, and the session invariant is kept |
| `Round.Mines.HandleNewGame` | thigasbet/src/components/Mines.tsx:68-77 | the new state is `NewGameStep` of the old one with bet 50; when accepted, the new grid is the board generated from the draws; the invariant is kept |
| `Round.Mines.CashOut` | thigasbet/src/components/Mines.tsx:166-171 | the new state is `CashOutStep` of the old one, and the invariant is kept |

## Left out

- Rendering is not modelled, because it is pure presentation. This covers
  the style objects, the JSX, the hover state and its handlers, and
  `cellStyle` (lines 20 and 79-183).
- The coin and diamond glyphs are not modelled, because they are
  display-only (lines 150-156).
- The message texts are not modelled. `message` is an enum with one case
  per text; `Won` carries the amount.
- `Math.random` is replaced by draws the caller supplies. The model
  cannot state that the draws are uniform.
- React hooks are not modelled: no batching of `useState` updates, no
  stale closures, no re-render timing. The handlers run one at a time and
  assign fields in order. The mount effect (lines 46-48) is the
  constructor.
- The state before mount is not modelled. There, `grid` is `[]` and a
  click would index out of range.
- GenerateGrid: it requires that the supplied attempts reach at least
  `bombCount` distinct positions, and that `bombCount <= 25`. The
  component instead keeps drawing until every bomb is placed, and never
  ends when `bombCount > 25`. The model does not express that
  non-termination.
- PlaceBombs: it has the same requirement on the attempts, for the same
  reason.
- HandleNewGame: it takes the generator's draws even when the game is
  refused. It requires them to be valid only when the game is accepted.
- Payout and Coordinate multiply exactly over reals. The component
  rounds the double product before taking the floor, which can change a
  draw's payout or coordinate by one, but not their ranges.
- Credits are unbounded integers. JavaScript numbers are doubles, but no
  reachable balance comes near the precision limit.
