# Board games, flower cards, a product lookup and a timecard, in Dafny

This project models the rule engines of a collection of small browser and Streamlit
demonstrations. Their user interfaces are not modelled. The models are:

- **Othello, browser version** (`external_files/reversi00.js`), in module `OthelloJs`. A class
  holds the 8x8 board and the colour to move. It covers:
  - `getFlips`: the opponent stones a move would turn over;
  - `anyValid`, `applyMove` and `countScores`;
  - `init`;
  - the turn and pass logic of `onCellClick`;
  - the end-of-game test of `render`.
- **Othello with Streamlit** (`reversi02_streamlit01.py`), in module `ReversiStreamlit`. The
  board holds 1 for black, -1 for white and 0 for empty. It covers:
  - `init_board` and `DIRECTIONS`;
  - `valid_moves`, which walks outward from each empty cell;
  - `place_stone`, which flips in place;
  - `score` and the computer's random reply;
  - the script's move-acceptance branch and its game-over branch.
- **Othello with matplotlib** (`reversi02.py`), in module `ReversiPlot`. The board is indexed
  `[y, x]`. It covers:
  - `inside` and `dirs`;
  - `valid_moves`, scanned in y-then-x order with a `break` after the first qualifying direction;
  - `place_stone`;
  - the greedy `ai_move`, which keeps the first move with the largest gain;
  - the turn toggling of `onclick` and `ai_turn`.
- **Shared board geometry** (modules `Rays` and `Stones`). This holds rays, bracketed runs of
  opponent stones, the cells a move flips, and stone counts. All three engines are proved
  against these definitions.
- **The toy board** (`docs/external_files/reversi00.js`), in module `ToyReversiJs`. It places a
  stone on any empty cell and then changes the turn. It never flips, and the model shows that
  it accepts moves the real rules reject.
- **Tic-tac-toe** (`tic_tac_toe00.py`), in module `TicTacToe`. It covers `WINNING_LINES`, the
  pure `check_winner`, and the session-state updates of `handle_click` and `initialize_game`.
- **Hanafuda**. Module `HanafudaCards` covers `Card` and its id "MM_name", the 48-card
  `ALL_CARDS`, `get_player_card_ids`, the stub `calculate_score` and the deal of
  `initialize_game`. Module `HanafudaTurn` covers the in-place list operations of
  `handle_turn_action` in `hanafuda00.py`: play, capture, draw, capture again, and lay the
  unmatched cards on the field.
- **JAN code search** (`janCord00.py`), in module `JanLookup`. It covers the constant product
  table and `jan_lookup`, which has three mutually exclusive answers.
- **Timecard** (`timecard03.py`, `timecard01.py`, `timecard00.py`):
  - module `WorkTime` holds `calculate_work_hours`, on `strptime`'s reading of "H:M:S";
  - module `Decimal` holds digit strings and the `02d` format;
  - module `TimecardTable` holds the shared table operations: normalising times, clock-in,
    clock-out, clearing today, deleting a date, deleting everything;
  - modules `Timecard03`, `Timecard01` and `Timecard00` hold one class per page, with state
    transitions that follow each page's button handlers;
  - `Timecard03` also recomputes the `hours` column.

Each page's table is a sequence of rows. The date "today" and the clock reading "now" are
parameters.

## Model

| member | source | states |
|---|---|---|
| Rays.CapturedShape | external_files/reversi00.js:31-37 | the cells captured in one direction are the cells 1, 2, ... steps from the target, in that order, all holding the opponent, and the cell right after them holds the mover |
| Rays.CapturedIffBrackets | external_files/reversi00.js:33-37 | a direction captures something iff, by positions, the cells 1..n-1 steps away hold the opponent and the cell n >= 2 steps away holds the mover |
| Rays.CapturedIffClosedRun | external_files/reversi00.js:33-38 | a cell is captured in a direction iff it lies, by positions, in a run of opponent cells from the target that a mover's cell closes |
| Rays.AllCapturedIffClosedRun | external_files/reversi00.js:30-40 | a cell is captured over a list of directions iff it lies in a closed run of one of them |
| Rays.AllCapturedNonEmpty | external_files/reversi00.js:30-40 | the capture list over a list of directions is non-empty iff one of the directions captures |
| Rays.AllCapturedCells | external_files/reversi00.js:30-40 | every captured cell is on the board, holds the opponent and lies on the ray of one of the directions |
| Rays.CapturedNoDup | external_files/reversi00.js:31-36 | one direction captures no cell twice |
| Rays.AllCapturedNoDup | external_files/reversi00.js:30-40 | with distinct directions no cell is captured twice |
| Rays.TargetNotCaptured | external_files/reversi00.js:26-42 | the target of a move is never among its captures |
| Rays.CapturedOffOtherRays | external_files/reversi00.js:30-40 | a cell captured over some directions is not captured by a direction outside them |
| Rays.CapturedFrame | external_files/reversi00.js:31-36 | the captures of one direction depend only on the cells of that ray |
| Rays.CountIsMultiset | reversi02_streamlit01.py:59-62 | counting the cells equal to v one by one gives the multiplicity of v in the board |
| Rays.FlipAt | external_files/reversi00.js:57 | after setting the listed cells to v, a listed cell holds v and every other cell is unchanged |
| Rays.FlipAppend | external_files/reversi00.js:57 | setting the cells of a and then those of b is setting the cells of a + b |
| Rays.FlipCount | external_files/reversi00.js:57 | setting distinct opponent cells to v adds exactly their number to the cells holding v and removes it from the opponent's |
| Rays.FlipMonotone | reversi02.py:45-46 | setting cells to v never lowers the number of cells holding v |
| Rays.CountPair | external_files/reversi00.js:61-70 | the counts of two different values together are at most the number of cells |
| Rays.PlaceAllEffect | external_files/reversi00.js:53-58 | a move on an empty target sets the target and exactly the captured cells to the mover; no other cell changes; no cell is flipped twice; the mover gains captures + 1 stones and the opponent loses the captures |
| Rays.PlaceAllCounts | external_files/reversi00.js:53-58 | the counting half of the previous row |
| Rays.PlaceSeqIsPlaceAll | reversi02_streamlit01.py:36-50 | setting the stone, then flipping each direction on the board the earlier directions left, is the same as flipping all captures of the original board at once |
| Rays.PlaceAtIsPlaceAll | reversi02.py:35-46 | the same for a board whose target is set before the direction loop |
| Stones.Opponent | external_files/reversi00.js:28 | the opponent of a colour is the other colour |
| Stones.InitialCells | external_files/reversi00.js:14-18 | the opening position cell by cell: white on (3,3) and (4,4), black on (3,4) and (4,3), every other cell empty |
| Stones.InitialCounts | external_files/reversi00.js:14-18 | the opening position holds two discs of each colour and 60 empty cells, so the score starts 2:2 |
| OthelloJs.DirsValid | external_files/reversi00.js:4 | the eight directions are exactly the non-zero unit offsets, each once |
| OthelloJs.FlipsExactly | external_files/reversi00.js:26-42 | a cell is among the flips of (r, c) iff (r, c) is an empty board cell and the cell lies, in one of the eight directions, on a run of opponent discs that a disc of the mover closes; in particular off the board or on an occupied cell the flips are empty |
| OthelloJs.LegalIffBrackets | external_files/reversi00.js:26-42 | a move flips something iff the target is an empty board cell and some direction has at least one opponent disc followed by a disc of the mover |
| OthelloJs.PlayedEffect | external_files/reversi00.js:53-58 | a legal move sets the target and exactly the flipped cells (none twice) to the mover and nothing else; the mover's count rises by the flips + 1 and the opponent's falls by the flips |
| OthelloJs.OpeningExamples | external_files/reversi00.js:26-42 | on the opening position black at (2,3) flips exactly (3,3), and black at the corner (0,0) is illegal |
| OthelloJs.Othello.constructor | external_files/reversi00.js:13-21 | the page after loading: the opening position, black to move |
| OthelloJs.Othello.Init | external_files/reversi00.js:13-21 | `init`: a fresh opening position with black to move |
| OthelloJs.Othello.GetFlips | external_files/reversi00.js:26-42 | the flips are the specification `Flips`: none off the board or on an occupied cell, otherwise the closed opponent runs of the eight directions, in the engine's direction order |
| OthelloJs.Othello.ScanLine | external_files/reversi00.js:31-39 | one direction: the opponent run kept only if it is non-empty and a disc of the mover closes it, i.e. the captures of that direction |
| OthelloJs.Othello.WalkRun | external_files/reversi00.js:31-36 | the while loop: it collects the whole opponent run and stops on the first cell that is off the board or not an opponent disc |
| OthelloJs.Othello.AnyValid | external_files/reversi00.js:44-51 | true iff some board cell is a legal move for the colour |
| OthelloJs.Othello.ApplyMove | external_files/reversi00.js:53-59 | returns whether the move is legal; a legal move leaves the board as `Played` (see PlayedEffect), an illegal one leaves it unchanged |
| OthelloJs.Othello.CountScores | external_files/reversi00.js:61-70 | the numbers of black and of white discs, which together are at most 64 |
| OthelloJs.Othello.EndgameResult | external_files/reversi00.js:97-101 | a verdict iff neither colour has a legal move; then a draw iff the counts are equal, otherwise the colour with more discs wins |
| OthelloJs.Othello.OnCellClick | external_files/reversi00.js:104-127 | an illegal click changes neither board nor turn; a legal one plays the move, and the turn passes to the opponent iff the opponent then has a legal move, otherwise the mover keeps it |
| ToyReversiJs.InitialBalanced | docs/external_files/reversi00.js:3-14 | the opening position with black to move: equal disc counts |
| ToyReversiJs.DropKeepsBalance | docs/external_files/reversi00.js:52-57 | a disc dropped on an empty cell adds exactly one disc of the current colour, removes one empty cell and keeps the counts in step with the turn once it passes |
| ToyReversiJs.AcceptsIllegalMove | docs/external_files/reversi00.js:47-58 | the corner (0,0) of the opening position is empty, so this board accepts it, although the capture rule makes it illegal |
| ToyReversiJs.ToyBoard.constructor | docs/external_files/reversi00.js:3-14 | loading the script: the opening position, black to move |
| ToyReversiJs.ToyBoard.InitBoard | docs/external_files/reversi00.js:9-17 | `initBoard`: the opening position; the turn is not touched |
| ToyReversiJs.ToyBoard.OnCellClick | docs/external_files/reversi00.js:47-59 | an occupied cell changes neither board nor turn; an empty one gets the current colour, nothing else changes, and the turn passes to the other colour |
| ReversiStreamlit.DirectionsValid | reversi02_streamlit01.py:12 | `DIRECTIONS` holds exactly the eight non-zero unit offsets, each once |
| ReversiStreamlit.Score | reversi02_streamlit01.py:59-62 | the numbers of 1 and of -1 cells, which together are at most 64 |
| ReversiStreamlit.InitialPosition | reversi02_streamlit01.py:6-10 | the board of `init_board` holds only 0, 1 and -1 and scores 2:2 |
| ReversiStreamlit.InitialCounts | reversi02_streamlit01.py:6-10 | the starting board has exactly two stones of each player |
| ReversiStreamlit.IsMoveIffBrackets | reversi02_streamlit01.py:18-32 | a cell is a move iff it is empty and some direction holds one or more opponent stones followed by one of the player's stones before the edge |
| ReversiStreamlit.PlaceEffect | reversi02_streamlit01.py:35-51 | placing on an empty cell sets it and exactly the bracketed opponent stones to the player and changes no other cell; the player's count rises by the flips + 1 and the opponent's falls by the flips |
| ReversiStreamlit.PlaceKeepsStones | reversi02_streamlit01.py:35-51 | placing keeps a board of 0, 1 and -1 such a board |
| ReversiStreamlit.Closes | reversi02_streamlit01.py:21-32 | one direction of `valid_moves` appends the cell iff that direction captures something |
| ReversiStreamlit.AppendsCell | reversi02_streamlit01.py:20-32 | the direction loop appends an empty cell at least once iff it is a move |
| ReversiStreamlit.ValidMoves | reversi02_streamlit01.py:14-33 | the returned set holds exactly the moves of the player, which are all empty cells |
| ReversiStreamlit.WalkLine | reversi02_streamlit01.py:40-50 | the walk collects the whole run of opponent stones, stops on the first cell that is off the board or not an opponent stone, and reports whether that cell holds the player's stone |
| ReversiStreamlit.FlipLine | reversi02_streamlit01.py:38-50 | one direction of `place_stone` flips exactly that direction's captures, computed on the board as it is at that moment |
| ReversiStreamlit.SetAll | reversi02_streamlit01.py:44-45 | each listed cell is set to the player, one after the other |
| ReversiStreamlit.PlaceStone | reversi02_streamlit01.py:35-51 | the same array is returned, holding the move with all its captures (see PlaceEffect) |
| ReversiStreamlit.AiMove | reversi02_streamlit01.py:53-57 | None iff the AI has no move; otherwise one of its moves |
| ReversiStreamlit.GameOver | reversi02_streamlit01.py:127-133 | a result iff neither side has a move; then the player wins iff their count is larger, the AI iff its count is larger, a draw iff they are equal |
| ReversiStreamlit.Session.constructor | reversi02_streamlit01.py:93-94 | the first run stores the board of `init_board` |
| ReversiStreamlit.Session.PressPlace | reversi02_streamlit01.py:111-120 | cell number n is read as (n div 8, n mod 8); if that is a move of the player it is placed, then one AI move is placed if the AI has any; otherwise the board is unchanged |
| ReversiStreamlit.Session.Reset | reversi02_streamlit01.py:136-137 | a fresh board of `init_board` |
| ReversiPlot.DirsExactly | reversi02.py:12 | `dirs` holds exactly the eight non-zero unit offsets, once each, and the row/column form lists the same offsets in the same order |
| ReversiPlot.MovesBeforeExactly | reversi02.py:19-32 | the moves the scan lists for the first n cells are exactly the moves among those cells, in strictly increasing scan order (y outer, x inner) |
| ReversiPlot.MovesBeforeNext | reversi02.py:19-32 | the scan reaching cell n = 8y + x appends (x, y) iff it is a move, and nothing else |
| ReversiPlot.MovesExactly | reversi02.py:17-33 | `valid_moves` lists exactly the moves, each once, in scan order |
| ReversiPlot.IsMoveIffBrackets | reversi02.py:21-32 | a cell is a move iff it is empty and some direction of `dirs` holds one or more opponent stones followed by a stone of the mover |
| ReversiPlot.OccupiedNoMove | reversi02.py:21-22 | an occupied cell is never a move, so the `continue` skips no move |
| ReversiPlot.PlacedIsPlaceAll | reversi02.py:35-46 | `place_stone`, walking each direction on the board the earlier directions left, sets the target and exactly the captures of the original board |
| ReversiPlot.GainNonNegative | reversi02.py:55-57 | the stone-count increase measured on the copy is never negative |
| ReversiPlot.GainOfMove | reversi02.py:55-57 | on an empty cell the increase is the number of flipped stones plus one |
| ReversiPlot.FirstMaxIsFirst | reversi02.py:53-60 | replacing the best only on a strictly larger value keeps the first index of a largest value |
| ReversiPlot.AiChoiceIsMove | reversi02.py:48-51 | `ai_move` returns None iff there is no move; otherwise its pick is a move |
| ReversiPlot.AiChoiceIsFirstBest | reversi02.py:52-61 | the pick has the largest increase of all moves, and any other move with that increase comes later in `valid_moves` order |
| ReversiPlot.AiChoiceBeats | reversi02.py:52-61 | when there are moves the computer picks one, and it beats every other move by a larger gain or by the same gain earlier in the scan |
| ReversiPlot.Qualifies | reversi02.py:24-31 | one direction of `valid_moves` qualifies iff that direction captures something |
| ReversiPlot.CellQualifies | reversi02.py:23-32 | the direction loop, stopped by `break` at the first qualifying direction, qualifies an empty cell iff it is a move |
| ReversiPlot.ScanRow | reversi02.py:20-32 | one row of the scan appends exactly that row's moves, left to right |
| ReversiPlot.ValidMoves | reversi02.py:17-33 | the returned list is the specification list `Moves` (see MovesExactly) |
| ReversiPlot.Walk | reversi02.py:38-44 | the walk of one direction collects the opponent stones it passes; when the mover's stone stops it they are that direction's captures, otherwise the direction captures nothing |
| ReversiPlot.SetStones | reversi02.py:45-46 | each listed stone is set to the colour, one after the other |
| ReversiPlot.FlipDirection | reversi02.py:38-46 | one direction of `place_stone` flips exactly that direction's captures on the current board |
| ReversiPlot.PlaceStone | reversi02.py:35-46 | the board is left as `Placed` (see PlacedIsPlaceAll) |
| ReversiPlot.GainOf | reversi02.py:55-57 | the increase is measured on a fresh copy, so the board is not modified, and it is never negative |
| ReversiPlot.PickBest | reversi02.py:52-61 | the loop returns the first move with the largest measured increase |
| ReversiPlot.AiMove | reversi02.py:48-61 | the result is the specification choice `AiChoice` (see AiChoiceIsMove and AiChoiceIsFirstBest), and the board is not modified |
| ReversiPlot.PlotGame.constructor | reversi02.py:7-11 | the starting board, BLACK to move |
| ReversiPlot.PlotGame.AiTurn | reversi02.py:117-124 | the computer's pick, if any, is placed, and the turn is negated whether or not it moved |
| ReversiPlot.PlotGame.OnClick | reversi02.py:103-115 | a click is played only on BLACK's turn and only on a move of BLACK, at (x, 8 - y - 1); then the computer answers and the turn is BLACK's again; any other click changes nothing |
| TicTacToe.LinesValid | tic_tac_toe00.py:5-9 | the eight winning lines each name three distinct cells of the nine |
| TicTacToe.FirstOwnerSpec | tic_tac_toe00.py:23-25 | the scan from line k finds the first owned line at or after k and returns the mark of its first cell, and nothing iff no line from k on is owned |
| TicTacToe.FirstOwnedUnique | tic_tac_toe00.py:23-25 | at most one line is the first owned line |
| TicTacToe.CheckWinnerCases | tic_tac_toe00.py:21-31 | `check_winner` gives the mark of the first owned line (never ''); 'Draw' iff no line is owned and no cell is ''; None iff no line is owned and some cell is '' |
| TicTacToe.Other | tic_tac_toe00.py:51 | the next player is the other of X and O |
| TicTacToe.ConsistentBalanced | tic_tac_toe00.py:15-51 | in every reachable session X has as many marks as O or one more |
| TicTacToe.FreshConsistent | tic_tac_toe00.py:15-18 | a fresh game (nine blanks, X to move, running, no winner) is a consistent session |
| TicTacToe.ClickConsistent | tic_tac_toe00.py:42-51 | a click on a blank cell of a running consistent game leads to a consistent session |
| TicTacToe.Session.constructor | tic_tac_toe00.py:14-18 | the first run: nine blanks, X to move, not over, no winner |
| TicTacToe.Session.InitializeGame | tic_tac_toe00.py:12-18 | a finished game is reset to nine blanks, X to move, no winner; a running game is left as it is |
| TicTacToe.Session.HandleClick | tic_tac_toe00.py:35-51 | ignored when the game is over or the cell is marked; otherwise only that cell gets the current mark, the verdict is recorded, the game is over iff there is one, and the player switches only when there is none |
| HanafudaCards.IdDeterminesCard | hanafuda_logic00.py:19-27 | two cards have the same id "MM_name" iff they agree on month and name, so `__eq__` compares month and name |
| HanafudaCards.DeckShape | hanafuda_logic00.py:33-70 | `ALL_CARDS` has 48 cards, four per month in month order 1..12, each priced by its type (光 20, タネ 10, タン 5, カス 1), with distinct names within a month |
| HanafudaCards.DeckIdsDistinct | hanafuda_logic00.py:33-70 | no two cards of the deck have the same id, so no two are equal |
| HanafudaCards.MonthCounts | hanafuda_logic00.py:33-70 | each month 1..12 has exactly four cards and no other month has any |
| HanafudaCards.DeckNoDup | hanafuda_logic00.py:33-70 | the deck holds no card twice |
| HanafudaCards.CardIds | hanafuda_logic00.py:77-78 | the ids of the cards, one per card, in the same order |
| HanafudaCards.CalculateScoreIsStub | hanafuda_logic00.py:81-83 | every collection scores (0, ["未実装"]) |
| HanafudaCards.InitializeGame | hanafuda_logic00.py:88-107 | for any order of the deck: 8 cards to each player, 8 to the field and 24 to the draw pile, which together are that order and so the whole deck; empty collections, player 1 to move, not over |
| HanafudaTurn.DropIdSpec | hanafuda00.py:15-17 | a card survives the hand filter iff it was in the hand and its id differs from the selected card's |
| HanafudaTurn.DropAt | hanafuda00.py:15-17 | when no other position of the hand shares the card's id, the filter takes out exactly that position and keeps the order of the rest |
| HanafudaTurn.DropOne | hanafuda00.py:15-17 | in a hand of distinct ids that holds the card, the filter takes out exactly one copy of it and nothing else |
| HanafudaTurn.DropNone | hanafuda00.py:15-17 | filtering out an id no card has changes nothing |
| HanafudaTurn.SameMonthHead | hanafuda00.py:25-30 | the first match is the first field card of the played card's month |
| HanafudaTurn.SameMonthEmpty | hanafuda00.py:25-28 | with no field card of the month there is no match |
| HanafudaTurn.RemoveFirst | hanafuda00.py:33 | `list.remove` takes out one card and adds none |
| HanafudaTurn.RemoveAt | hanafuda00.py:33 | removing a card that no earlier card equals by id takes out exactly its position |
| HanafudaTurn.CaptureMatched | hanafuda00.py:25-41 | with a field card of its month the card captures the first one: the field loses exactly that position, the card and its match are appended to the collected cards in that order, and nothing is left over |
| HanafudaTurn.CaptureUnmatched | hanafuda00.py:42-44 | with no field card of its month, field and collected cards are unchanged and the card is left over |
| HanafudaTurn.CaptureConserves | hanafuda00.py:25-44 | a capture attempt only moves cards: field, collected and leftover together hold the cards before plus the card |
| HanafudaTurn.CaptureGrowth | hanafuda00.py:35-37 | a capture appends two cards to the collected ones and a miss none; the earlier collected cards stay in place |
| HanafudaTurn.TurnHand | hanafuda00.py:15-17 | after the turn the hand holds exactly the cards of other ids |
| HanafudaTurn.TurnFirstMatch | hanafuda00.py:28-41 | a played card with a match puts itself and the first field card of its month right after the earlier collected cards; with an empty draw pile the field loses exactly that card |
| HanafudaTurn.DrawnNeverPairsPlayed | hanafuda00.py:54-81 | the drawn card is matched against the field before the unmatched played card is laid down, so it never pairs with the card just played |
| HanafudaTurn.TurnUnmatched | hanafuda00.py:42-88 | with no match for either card, the played and then the drawn card are appended to the field, the draw pile loses its head and nothing is collected |
| HanafudaTurn.TurnGrowth | hanafuda00.py:28-73 | the collected cards grow by 0, 2 or 4 and keep their earlier cards in place |
| HanafudaTurn.TurnConserves | hanafuda00.py:12-88 | with a non-empty draw pile, or when the played card captures, hand, field, draw pile and collected cards hold the same multiset of cards after the turn |
| HanafudaTurn.TurnConservesDraw | hanafuda00.py:46-88 | with a non-empty draw pile the turn only moves cards |
| HanafudaTurn.TurnConservesCapture | hanafuda00.py:12-48 | with an empty draw pile and a capture the turn only moves cards |
| HanafudaTurn.TurnLosesPlayed | hanafuda00.py:42-48 | with an empty draw pile and no match, the played card leaves the hand and field, draw pile and collected cards are unchanged: the card drops out of the game |
| HanafudaTurn.TurnNoGain | hanafuda00.py:12-88 | a turn never adds a card to the game |
| HanafudaTurn.SubDeckDistinct | hanafuda00.py:15-17 | cards taken without repetition from a deck of distinct ids have distinct ids |
| HanafudaTurn.TableTurn | hanafuda00.py:12-88 | a turn keeps the whole table, both players' piles included, a set of cards of the deck with none held twice |
| HanafudaTurn.DealtInitially | hanafuda_logic00.py:88-107 | a freshly dealt game holds each card of the deck exactly once |
| HanafudaTurn.Table.constructor | hanafuda_logic00.py:88-107 | the session starts from `initialize_game` on the shuffled deck with no card selected |
| HanafudaTurn.Table.HandleTurnAction | hanafuda00.py:1-92 | no selected card: nothing changes; otherwise player 1's piles become those of the turn with that card, the selection is cleared, it is player 2's turn, the other fields are unchanged, and the table stays a set of deck cards |
| HanafudaTurn.PlayerOneTurn | hanafuda00.py:12-88 | the sequence of list operations of the turn yields the piles of the reference turn `PlayTurn` (whose properties are the Turn lemmas) |
| HanafudaTurn.CaptureStep | hanafuda00.py:24-44 | the capture block yields the piles of the reference capture `CaptureWith` (see CaptureMatched and CaptureUnmatched) |
| JanLookup.Lookup | janCord00.py:34-46 | exactly one of record and message is present, and a record only for a code of the table, namely its record |
| JanLookup.LookupCases | janCord00.py:38-46 | the three answers, each exactly when its condition holds: the format message iff the input is not 13 digits, the record iff it is a 13-digit code of the table, the not-found message iff it is a 13-digit code not in the table |
| JanLookup.MessagesDiffer | janCord00.py:40-46 | the format message never equals a not-found message |
| JanLookup.NotFoundQuotesCode | janCord00.py:46 | the not-found message quotes the code right after its fixed prefix |
| JanLookup.NotFoundInjective | janCord00.py:46 | different codes give different not-found messages |
| JanLookup.EveryRecordReachable | janCord00.py:5-31 | every key of `JAN_DATABASE` is a 13-digit code, so looking it up returns its record |
| WorkTime.FirstColon | timecard03.py:18-19 | the position found is a colon with no colon before it |
| WorkTime.Fields | timecard03.py:18-19 | splitting at the colons gives at least one piece |
| WorkTime.ParseTime | timecard03.py:18-19 | a reading that `strptime` with "%H:%M:%S" accepts is a time of day, less than 86400 seconds after midnight |
| WorkTime.DurationSpec | timecard03.py:21-29 | the duration is the one amount of time in [0, 86400) that leads from the start to the end on a 24-hour clock, and 0 for equal readings |
| WorkTime.FormatSpec | timecard03.py:32-36 | a duration of less than a day is written as two digits of whole hours (at most 23), a colon and two digits of whole minutes (at most 59) |
| WorkTime.FormatRoundTrip | timecard03.py:32-36 | reading the "HH:MM" text back gives the whole hours and the remaining whole minutes of the duration |
| WorkTime.WorkHoursBlank | timecard03.py:14-19 | an empty reading, or one `strptime` rejects (the `ValueError` branch), gives "" |
| WorkTime.WorkHoursSpec | timecard03.py:12-36 | two readings that parse give the "HH:MM" text of the duration in [0, 86400) from the first to the second, which reads back; equal readings give "00:00" |
| WorkTime.WorkHoursShape | timecard03.py:12-38 | the result is always "" or two digits, a colon and two digits |
| WorkTime.FieldsThree | timecard03.py:18-19 | three colon-free pieces joined by colons split back into those pieces |
| WorkTime.ParseThree | timecard03.py:18-19 | a reading of three colon-free pieces parses iff each is one or two digits and they form hour <= 23, minute <= 59, second <= 59, to h*3600 + m*60 + s |
| WorkTime.ClockReadingParses | timecard03.py:71-74 | what `strftime("%H:%M:%S")` writes for a time of day parses back to that time's seconds since midnight |
| Decimal.DigitChar | hanafuda_logic00.py:19 | the character written for a digit is a digit character of that value |
| Decimal.Digits | hanafuda_logic00.py:19 | the decimal form of a number is a non-empty digit string, one digit below 10 and two below 100 |
| Decimal.DigitsValue | timecard03.py:36 | reading back the decimal form of a number gives the number |
| Decimal.Pad2Value | hanafuda_logic00.py:19 | `f"{n:02d}"` of 0..99 is exactly two digits reading back as n, a non-negative number reads back as itself, a negative one is written with a leading minus, and no form contains "_" |
| Decimal.Pad2Injective | hanafuda_logic00.py:19 | different numbers have different two-place forms |
| Decimal.DigitsInjective | timecard03.py:36 | different numbers have different decimal forms |
| TimecardTable.Without | timecard01.py:80 | the date filter never adds rows |
| TimecardTable.FirstOn | timecard01.py:70 | `today_row.iloc[0]` is the first row of the date: dated so, and no earlier row is |
| TimecardTable.WithoutSpec | timecard01.py:80 | the filter keeps exactly the rows whose date differs from the selected one, each as many times as before, and no row of that date survives |
| TimecardTable.WithoutAppend | timecard01.py:80 | the filter works row by row, so it distributes over concatenation |
| TimecardTable.WithoutAbsent | timecard01.py:80 | filtering out a date no row has changes nothing |
| TimecardTable.WithoutMembers | timecard01.py:80 | a row survives the filter iff it was there and its date differs from the selected one |
| TimecardTable.WithoutOnePerDate | timecard01.py:80 | a table with at most one row per date keeps that property under the filter |
| TimecardTable.SetEndSpec | timecard01.py:72 | `df.loc[df["date"] == today, "end"] = now` changes only the ends, and exactly those of today's rows, to now |
| TimecardTable.SetEndOnePerDate | timecard01.py:72 | setting ends keeps one row per date |
| TimecardTable.Normalise | timecard01.py:28 | the normalised cell is always a string that is "" or matches the time pattern |
| TimecardTable.NormaliseSpec | timecard01.py:25-28 | a cell is left unchanged iff it is already "" or of the pattern; normalising twice is normalising once; `fillna("")` before it changes nothing |
| TimecardTable.NormaliseTimes | timecard01.py:26-28 | normalising both time columns keeps the number of rows |
| TimecardTable.NormaliseTimesSpec | timecard01.py:25-28 | after normalisation every time is "" or of the pattern, dates and extra columns are untouched, a second pass changes nothing, and a normalised table is left as it is |
| TimecardTable.FillColumns | timecard01.py:21-23 | filling in a missing column keeps the number of rows |
| TimecardTable.FillColumnsSpec | timecard01.py:21-23 | a missing column reads "" on every row and a present one keeps its cells; with all three present nothing changes |
| TimecardTable.DeleteDateSpec | timecard01.py:86-92 | deleting a date removes exactly its rows and keeps every other row with its multiplicity; the placeholder option, and a missing date, delete nothing |
| TimecardTable.WithoutEvery | timecard01.py:80 | a property of every row survives the date filter |
| TimecardTable.DeleteAll | timecard01.py:96 | `df[0:0]` is the empty table |
| TimecardTable.ClockInSpec | timecard01.py:54-60 | clocking in appends the row (today, now, "") exactly when today has no row; afterwards it has one, one row per date is kept, and a second clock-in changes nothing |
| TimecardTable.ClearUndoesClockIn | timecard01.py:54-82 | clearing today right after the day's first clock-in gives back the table from before |
| TimecardTable.ClockOutSpec | timecard01.py:65-76 | clocking out changes nothing without a row of today or when its first row's end is set; otherwise it sets exactly the ends of today's rows to now; one row per date is kept, and a second clock-out changes nothing |
| TimecardTable.FirstOnSame | timecard01.py:70 | two tables with the same dates have the first row of a date at the same place |
| TimecardTable.DayShift | timecard01.py:54-76 | from a table without today, clocking in at t1 and out at t2 adds the single row (today, t1, t2) |
| TimecardTable.UnsetAgrees | timecard00.py:46 | on a normalised table, "end is blank" and timecard00.py's test "end is "", None or NaN" pick the same clock-outs |
| TimecardTable.ClockKeepsNormalised | timecard01.py:54-76 | clocking in or out at a clock reading keeps a normalised table normalised |
| TimecardTable.WithoutKeepsNormalised | timecard01.py:78-92 | the date filter keeps a normalised table normalised |
| Timecard03.Recompute | timecard03.py:64-67 | recomputing the hours keeps every row's date, start and end and sets its hours to the work time of its start and end |
| Timecard03.RecomputeSpec | timecard03.py:64-67 | recomputing makes a normalised table consistent (hours always the work time of the normalised times), and a second recomputation changes nothing |
| Timecard03.RecomputeConsistent | timecard03.py:64-67 | a consistent table is left as it is |
| Timecard03.LoadSpec | timecard03.py:48-67 | the loaded table is consistent and has one row per CSV row, with the file's date (or "" if the column is missing), the normalised times and the computed hours |
| Timecard03.LoadConsistent | timecard03.py:48-67 | a consistent table loads back from a file with all three columns unchanged |
| Timecard03.SaveSpec | timecard03.py:177-191 | the saved table is consistent whatever the editor left in it, it loads back unchanged, and saving it again changes nothing |
| Timecard03.ClockInHoursSpec | timecard03.py:97-113 | on a consistent table, clocking in is the shared clock-in (the new row's hours are "") and keeps the table consistent |
| Timecard03.ClockOutHoursSpec | timecard03.py:116-143 | on a consistent table, clocking out sets the ends as the shared clock-out does, gives each of today's rows the hours from its start to now, and keeps the table consistent |
| Timecard03.ClockOutHoursTwice | timecard03.py:116-143 | a second clock-out with the same reading changes nothing |
| Timecard03.DayShiftHours | timecard03.py:97-143 | from a consistent table without today, clocking in at t1 and out at t2 adds the single row (today, t1, t2) with the hours from t1 to t2 |
| Timecard03.PatternParses | timecard03.py:18-19 | a normalised time parses exactly when its hour is at most 23 and its minute and second at most 59, to that time of day; one admitted only through a final line break never parses, so its hours are "" |
| Timecard03.WithoutConsistent | timecard03.py:145-160 | the date filter keeps a consistent table consistent |
| Timecard03.Sheet.constructor | timecard03.py:48-67 | the table is the loaded CSV and is consistent |
| Timecard03.Sheet.ClockIn | timecard03.py:97-113 | the table becomes the page's clock-in, which is the shared clock-in, and stays consistent |
| Timecard03.Sheet.ClockOut | timecard03.py:116-143 | the table becomes the page's clock-out and stays consistent |
| Timecard03.Sheet.ClearToday | timecard03.py:146-150 | today's rows are removed and the table stays consistent |
| Timecard03.Sheet.DeleteSelected | timecard03.py:156-160 | the selected date's rows are removed unless the placeholder is chosen, and the table stays consistent |
| Timecard03.Sheet.DeleteAll | timecard03.py:163-166 | the table becomes empty |
| Timecard01.Load | timecard01.py:14-28 | the loaded table's times are all "" or of the pattern |
| Timecard01.LoadSaved | timecard01.py:108-114 | the table the save button writes loads back as itself |
| Timecard01.Sheet.constructor | timecard01.py:14-28 | the table is the loaded CSV, with normalised times |
| Timecard01.Sheet.ClockIn | timecard01.py:54-62 | the table becomes the shared clock-in and stays normalised |
| Timecard01.Sheet.ClockOut | timecard01.py:65-76 | the table becomes the shared clock-out with `end_value == ""` as the unset test, and stays normalised |
| Timecard01.Sheet.ClearToday | timecard01.py:79-82 | today's rows are removed and the table stays normalised |
| Timecard01.Sheet.DeleteSelected | timecard01.py:86-92 | the selected date's rows are removed unless the placeholder is chosen, and the table stays normalised |
| Timecard01.Sheet.DeleteAll | timecard01.py:95-98 | the table becomes empty |
| Timecard00.Sheet.constructor | timecard00.py:16-22 | the CSV rows as read, with "" ends when the end column is missing |
| Timecard00.Sheet.ClockIn | timecard00.py:26-35 | the table becomes the shared clock-in |
| Timecard00.Sheet.ClockOut | timecard00.py:39-51 | the table becomes the shared clock-out with "", None or NaN as the unset end |
| Timecard00.Sheet.ClearToday | timecard00.py:55-58 | today's rows are removed |

## Left out

- Rendering and user interface are not modelled:
  - HTML and matplotlib drawing, `st.*` widgets and DOM event wiring;
  - CSS, `setTimeout` and `alert`;
  - `display_card_text`.
  The browser and the pages are the only callers. A click is an operation of the model.
- Mouse coordinates: the float click position of `reversi02.py` is not modelled.
  `ReversiPlot.PlotGame.OnClick` takes the cell as truncated integers, or None for a click
  outside the axes.
- CSV persistence is not modelled: `read_csv`, `to_csv`, `os.path.exists` and `dropna`. A
  page starts from the rows read and saves by handing over its rows. Other details:
  - an empty CSV field, which pandas reads as NaN, is a distinct `Unset` value where the page
    tells NaN from "";
  - columns other than date, start, end and hours are not carried.
- Clock and time zone (`datetime.now`, JST) are parameters. The clock reading is required to
  be what `strftime("%H:%M:%S")` writes (`Clock8`). `WorkTime.ClockReadingParses` shows that
  every such reading parses.
- Randomness is not modelled as such:
  - `random.shuffle` of the deal is an input order of the deck;
  - `random.choice` of the Streamlit computer player is an arbitrary choice from its moves.
- `list(set(moves))` of the Streamlit `valid_moves` is a set. The order Python gives it is not
  modelled, and nothing depends on it.
- The numpy 8x8 boards are flat 64-cell arrays indexed `8 * row + column`.
- `st.data_editor`: the user's edits are arbitrary rows. Saving models only the normalisation
  and, on `timecard03.py`, the recomputation of hours.
- Digits: `str.isdigit` and the regular-expression class `\d` also accept non-ASCII decimal
  digits. The model accepts only '0' to '9'.
- Hanafuda scoring (役) is not modelled. `calculate_score` is a stub, and the model states only
  that it is one.
- `Card.__hash__` is not modelled; only the equality it agrees with is. Equality compares month
  and name, which `HanafudaCards.IdDeterminesCard` proves equivalent to comparing ids.
- `timecard00.py` assumes that its CSV has date and start columns. The model does not cover a
  file without them, on which the page fails.
- The following loops are restructured, with the same outcome:
  - the `found_opponent` flag of the Streamlit `valid_moves` is the non-emptiness of the walked
    run, computed by the same walk `place_stone` uses (`ReversiStreamlit.WalkLine`);
  - loops written as `if`/`elif`/`else` inside `while True` test for the opponent's colour in
    the loop guard;
  - the Streamlit `place_stone` and `ReversiPlot.FlipDirection` collect the run first and set
    its cells after the loop;
  - `reversi02.py`'s `valid_moves` reuses `place_stone`'s walk, and its `found` flag is the
    non-emptiness of the walk.
- Files with no rule engine are not modelled. These are `exchange00.py` (network rates,
  floats, sleep), `rulet00.py` (image rotation), `degitalReceipt01.py` to
  `degitalReceipt04.py` (display toggles), `hanafuda.py` (interface only) and
  `timetable00.py` (input grid).
