# Mini arcade: score ledger and three games, in Dafny

This project models the core of the mini arcade console program (`MiniArcadeGame.cpp`):

- **the score ledger** (`ScoreManager`): three per-game tables of player records, upserted by
  name and kept ranked by score, then wins (`score_ledger.dfy`, module `ScoreLedger`);
- **tic-tac-toe** (`TicTacToe`): the board rules, the minimax search that writes into and
  restores the shared nine-cell board, the easy and hard computer, the turn loop and its
  scoring (`tictactoe.dfy`, module `TicTacToeGame`);
- **number guessing** (`NumberGuessing`): the difficulty presets, the secret draw, the
  attempt loop and its scoring (`number_guessing.dfy`, module `NumberGuessingGame`);
- **rock-paper-scissors** (`RockPaperScissors`): the winner rule, the choice names, the win
  targets, the round loop over tallies kept in the object, and its scoring
  (`rock_paper_scissors.dfy`, module `RockPaperScissorsGame`).

Objects whose fields the program updates are classes: `ScoreManager` holds its three tables as
`seq` fields, `TicTacToe` keeps its board as an `array<char>` that `Minimax` and `BestMove`
write into and restore, and `NumberGuessing` and `RockPaperScissors` keep their fields. The
methods are proved against pure specification functions: `SaveScore` against `Save`, `Minimax`
against `MinimaxValue`, `ReadMove` against `HumanMove`, `GetComputerMove` against `ComputerMove`
(`EmptySpots` on easy, `FirstBestMove` on hard), the tic-tac-toe turn loop and `Play` against
`TttTurns` and `TttGame`, `GuessLoop` against `GuessGame`, `RoundLoop` against `RunMatch`, and the
scoring methods against `TttAwards`, `NgAward` and `RpsAward`. The lemmas state what those
functions promise.

Keyboard input is a sequence of values. The games' menu re-prompt loops are preconditions:
every value given is one the prompt accepts. The tic-tac-toe move prompt is modelled as a loop,
because whether a move is accepted depends on the board. Each `rand()` value is a parameter.
When input runs out before a game ends (or, in tic-tac-toe, the random values for the computer's
moves), the game ends `Unfinished` and records nothing.

Behaviours of the code that the model keeps as written:

- `saveScore` adds one to `wins` for a player who already has a record, whatever its `wins`
  argument says (line 66). A loss therefore counts as a win from the second recorded game on
  (`ScoreLedger.Accumulated`, `ScoreLedger.RepeatedSaveAccumulates`).
- Number guessing saves under `"NumberGuessing"`. The table router only knows
  `"NumberGuess"`, so those records go into the rock-paper-scissors table and the
  number-guessing table stays empty (`ScoreLedger.NumberGuessingSavesToRpsTable`).
- A tic-tac-toe win by the computer is recorded under the name `"Computer"` with 100 times the
  difficulty points and a win (line 432).
- The number-guessing multiplier is the difficulty index 1 to 4. The menu advertises 5x for
  Expert (line 476), but the code multiplies by 4 (line 570).
- The rock-paper-scissors tallies are fields initialised once, when the object is created, and
  never reset (lines 598-599). A second match starts from the previous match's final tallies.
  When a carried tally already reaches the new target, the match plays no round and is scored
  again (`RockPaperScissorsGame.ReplayWithoutReset`); otherwise play resumes from the carried
  tallies (`RockPaperScissorsGame.ReplayResumesFromCarriedTallies`).
- The draw branch of rock-paper-scissors scoring cannot be reached after a finished match
  (`RockPaperScissorsGame.NoTieAtEndOfMatch`); it is kept in `RecordMatch`.

## Model

| member | source | states |
|---|---|---|
| ScoreLedger.CompScoresIsStrictOrder | MiniArcadeGame.cpp:21-30 | compScores is exactly the strict part of the lexicographic order on (score, wins): irreflexive, asymmetric, transitive, and two records are incomparable iff score and wins are equal |
| ScoreLedger.Insert | MiniArcadeGame.cpp:48-51 | inserting a record into a ranked table gives a ranked table with the same records plus that one |
| ScoreLedger.SortByRank | MiniArcadeGame.cpp:48-51 | sortScores: the result is a permutation of the input, of the same length, and no record ranks strictly before an earlier one |
| ScoreLedger.PermutationKeepsNames | MiniArcadeGame.cpp:48-51 | re-ranking a table keeps its set of player names and keeps names unique |
| ScoreLedger.FindName | MiniArcadeGame.cpp:58-71 | the search loop finds the first record with the player's name, and finds none iff the name is absent |
| ScoreLedger.UpsertedChangesOneRecord | MiniArcadeGame.cpp:56-76 | an existing player's record is the only one changed (score added, one more game, one more win); a new player gets one appended record (score, 1 game, wins); names stay unique and the name set gains the player |
| ScoreLedger.UpsertedRecords | MiniArcadeGame.cpp:60-76 | in a table with unique names, the upsert replaces exactly the player's record by its accumulated version, or adds the new record, as multisets |
| ScoreLedger.TableFor | MiniArcadeGame.cpp:39-46 | "TicTacToe" routes to the tic-tac-toe table and only it does; "NumberGuess" routes to the number-guessing table and only it does; every other name goes to the rock-paper-scissors table |
| ScoreLedger.NumberGuessingSavesToRpsTable | MiniArcadeGame.cpp:39-46 | the name "NumberGuessing" is routed to the rock-paper-scissors table, as "RockPaperScissors" is |
| ScoreLedger.SaveSpec | MiniArcadeGame.cpp:54-79 | one save changes only the routed table, which ends ranked, with unique names, one record longer or the same length, holding the old records with the player's record replaced by its accumulated version or added |
| ScoreLedger.SaveKeepsWellFormed | MiniArcadeGame.cpp:54-79 | saving keeps every table ranked with unique names |
| ScoreLedger.RepeatedSaveAccumulates | MiniArcadeGame.cpp:60-68 | saving Alice with 100 points and a win, then 50 points and no win, leaves one record: 150 points, 2 games, 2 wins |
| ScoreLedger.ScoreManager.constructor | MiniArcadeGame.cpp:35-37 | the ledger starts with three empty tables |
| ScoreLedger.ScoreManager.ScoreVector | MiniArcadeGame.cpp:39-46 | getScoreVector returns the table the name is routed to |
| ScoreLedger.ScoreManager.SaveScore | MiniArcadeGame.cpp:54-79 | saveScore upserts into the routed table and re-ranks it, leaving the ledger equal to Save of the old ledger and still ranked with unique names |
| ScoreLedger.ScoreManager.ResetAllScores | MiniArcadeGame.cpp:117-121 | all three tables are empty afterwards |
| TicTacToeGame.EmptyBefore | MiniArcadeGame.cpp:256-261 | the list of empty cells holds exactly the empty cells, each once, in increasing order |
| TicTacToeGame.FullIffNoEmptySpot | MiniArcadeGame.cpp:199-207 | the board is full iff no cell is listed as empty |
| TicTacToeGame.PlaceDecreasesEmptyCount | MiniArcadeGame.cpp:376-377 | marking an empty cell leaves exactly one empty cell fewer |
| TicTacToeGame.PlaceKeepsOtherLines | MiniArcadeGame.cpp:376-391 | marking a cell with one mark never gives the other mark a line, so only the mover can win on a move |
| TicTacToeGame.BestFromIsExtremum | MiniArcadeGame.cpp:219-249 | the search loop's running best ends at the maximum (or minimum) of its start value and of the values of the empty cells scanned, and equals one of them |
| TicTacToeGame.MinimaxIsOptimal | MiniArcadeGame.cpp:209-250 | at a non-terminal position the value is the largest child value for the maximiser and the smallest for the minimiser, and some empty cell attains it |
| TicTacToeGame.MinimaxInRange | MiniArcadeGame.cpp:209-217 | with depth plus empty cells at most 9, every minimax value lies in [-10, 10], so the -1000/1000 sentinels never survive |
| TicTacToeGame.RootScoreInRange | MiniArcadeGame.cpp:270-283 | the score of each candidate computer move lies in [-10, 10] |
| TicTacToeGame.HumanMove | MiniArcadeGame.cpp:359-367 | the move read is the first entry from the reading position on that names an empty cell, every entry before it being rejected; there is none iff no remaining entry names an empty cell |
| TicTacToeGame.BestMoveFromIsFirstBest | MiniArcadeGame.cpp:265-285 | from any point of the hard computer's scan where the kept cell is the first best of the cells seen, the scan ends on an empty cell that scores at least as well as every empty cell and strictly better than every earlier one |
| TicTacToeGame.FirstBestMoveIsUnique | MiniArcadeGame.cpp:265-285 | the scan from cell 0 with score -1000 ends on the first best move, and that is the only cell that is one |
| TicTacToeGame.ComputerMove | MiniArcadeGame.cpp:252-286 | on a board that is not full, the computer's move (the rolled entry of the empty-cell list on easy, the first best move on hard) is an empty cell |
| TicTacToeGame.AfterMoveCases | MiniArcadeGame.cpp:376-392 | after a move the mover's line ends the game won by the mover; otherwise a full board ends it drawn; otherwise the board is still in play and the other player moves next |
| TicTacToeGame.TttGameStart | MiniArcadeGame.cpp:292-346 | the empty board has no line and nine empty cells, and a game is the turn sequence from it with player 0 to move |
| TicTacToeGame.TttTurnsOutcome | MiniArcadeGame.cpp:346-393 | from a board in play, every game ends with the winner holding a line and the loser none, or a full board with no line, or unfinished on a board still in play; no turn overwrites a marked cell |
| TicTacToeGame.AfterMoveOutcome | MiniArcadeGame.cpp:376-393 | after an acceptable move, the game ends settled in the same sense and no marked cell is overwritten |
| TicTacToeGame.FinalMoveSettled | MiniArcadeGame.cpp:376-388 | a move that completes the mover's line wins with the other mark lineless; one that fills the board without a line is a draw; either ends on the board with that move made |
| TicTacToeGame.TttScoringPolicy | MiniArcadeGame.cpp:403-437 | a draw gives 25 points to player 1 and, between humans, to player 2; a win gives 100 times the difficulty and a win to the winner, the computer included; only a human loser gets 10 points |
| TicTacToeGame.TicTacToe.constructor | MiniArcadeGame.cpp:133-137 | the game owns a fresh nine-cell board |
| TicTacToeGame.TicTacToe.InitialBoard | MiniArcadeGame.cpp:139-143 | every cell is empty afterwards |
| TicTacToeGame.TicTacToe.CheckWin | MiniArcadeGame.cpp:174-197 | the result is true iff the mark holds one of the three rows, three columns or two diagonals |
| TicTacToeGame.TicTacToe.IsBoardFull | MiniArcadeGame.cpp:199-207 | the result is true iff no cell is empty |
| TicTacToeGame.TicTacToe.Minimax | MiniArcadeGame.cpp:209-250 | the search leaves the board as it found it and returns the minimax value of that board |
| TicTacToeGame.TicTacToe.GetComputerMove | MiniArcadeGame.cpp:252-286 | the move is ComputerMove of the board, an empty cell: on easy the empty-cell list at index roll modulo its length; on hard the first cell of highest search score; the board is unchanged |
| TicTacToeGame.TicTacToe.RandomMove | MiniArcadeGame.cpp:254-263 | the easy computer picks the empty-cell list entry at index roll modulo the number of empty cells |
| TicTacToeGame.TicTacToe.BestMove | MiniArcadeGame.cpp:265-285 | the hard computer's move is FirstBestMove: empty, scoring at least as well as every empty cell and strictly better than every earlier one; the board is restored |
| TicTacToeGame.TicTacToe.ReadMove | MiniArcadeGame.cpp:359-367 | the accepted move and the reading position after it are those of HumanMove: the first typed entry that names an empty cell, every entry skipped before it rejected; if none is accepted the input is used up |
| TicTacToeGame.TicTacToe.PlaceMark | MiniArcadeGame.cpp:376-380 | the mover's mark fills the chosen cell and nothing else; one empty cell fewer; the other mark gains no line; the result tells whether the mover now has a line |
| TicTacToeGame.TicTacToe.Start | MiniArcadeGame.cpp:303-340 | the mode, the names ("Computer" for player 2 against the computer) and the difficulty (1 between humans) are set from the menu choices |
| TicTacToeGame.TicTacToe.ClearBoard | MiniArcadeGame.cpp:292 | the board is emptied, so it is in play with nine empty cells, and the game from it is TttGame |
| TicTacToeGame.TicTacToe.ChooseMove | MiniArcadeGame.cpp:358-374 | the move chosen (read for a human, drawn for the computer) is acceptable and is the move TttTurns plays next; there is none exactly when the input or the rolls run out; the board is unchanged |
| TicTacToeGame.TicTacToe.Turn | MiniArcadeGame.cpp:358-392 | one turn fills one empty cell and either ends the game as TttTurns does (a win for the mover or a draw) or leaves a board in play with the other player to move as TttTurns continues; with no move left the board is unchanged and the game unfinished |
| TicTacToeGame.TicTacToe.TurnLoop | MiniArcadeGame.cpp:341-393 | the loop's result and final board are TttTurns from the starting board with player 0 first, and moves counts the filled cells |
| TicTacToeGame.TicTacToe.Play | MiniArcadeGame.cpp:289-442 | the result and the final board are TttGame of the choices and the input: a win goes to the mover who completes a line, the loser having none; a draw is a full board with no line; the game is unfinished, still in play, when input or rolls run out; moves equals the filled cells; the ledger gets exactly the game's awards, and nothing for an unfinished game |
| TicTacToeGame.TicTacToe.RecordResult | MiniArcadeGame.cpp:403-438 | the end-of-game saves leave the ledger equal to the awards of TttAwards saved in order |
| NumberGuessingGame.PresetFor | MiniArcadeGame.cpp:485-503 | every difficulty from 1 to 4 has a range of at least 1 to 50 and at least 5 attempts |
| NumberGuessingGame.HarderPresetsWiden | MiniArcadeGame.cpp:485-503 | a harder difficulty has a strictly wider range, and no more attempts except at Expert |
| NumberGuessingGame.DrawSecret | MiniArcadeGame.cpp:454-457 | the secret lies between 1 and the range bound |
| NumberGuessingGame.EverySecretIsDrawable | MiniArcadeGame.cpp:454-457 | every number of the range is drawn by some random value |
| NumberGuessingGame.GuessFromSpec | MiniArcadeGame.cpp:514-549 | from any attempt on, the loop finds the secret iff a later guess within the limit equals it, at the first such guess, and is lost iff the limit is reached with no equal guess |
| NumberGuessingGame.GuessGameSpec | MiniArcadeGame.cpp:510-549 | a game is won at attempt n iff guess n is the secret, n is within the limit and no earlier guess was; it is lost iff the first maxAttempts guesses all miss |
| NumberGuessingGame.NgScoringPolicy | MiniArcadeGame.cpp:566-587 | a find scores at least 100 times the difficulty and strictly more the fewer attempts it took, with a win; a lost game scores 0 with no win |
| NumberGuessingGame.SixthGuessExample | MiniArcadeGame.cpp:510-571 | on easy with secret 27, the guesses 50, 25, 37, 31, 28, 27 find it at attempt 6, for 180 points |
| NumberGuessingGame.NumberGuessing.GenerateNumber | MiniArcadeGame.cpp:454-457 | the secret is the roll modulo the range plus one, so it lies between 1 and the range bound |
| NumberGuessingGame.NumberGuessing.GuessLoop | MiniArcadeGame.cpp:510-549 | the attempt loop's outcome is GuessGame of the secret, the attempt limit and the guesses |
| NumberGuessingGame.NumberGuessing.RecordGame | MiniArcadeGame.cpp:566-587 | a finished game is saved once under "NumberGuessing" with the award NgAward |
| NumberGuessingGame.NumberGuessing.Play | MiniArcadeGame.cpp:460-591 | the fields take the chosen preset and the drawn secret; the outcome is GuessGame; a finished game adds its award to the ledger, an unfinished one changes nothing |
| RockPaperScissorsGame.DetermineWinner | MiniArcadeGame.cpp:608-621 | the result is 0 iff the choices are equal; for distinct choices it is 1 iff the computer's choice is the one the player's beats in the rock-scissors-paper cycle, else -1 |
| RockPaperScissorsGame.DetermineWinnerAntisymmetric | MiniArcadeGame.cpp:608-621 | swapping the choices negates the result |
| RockPaperScissorsGame.EachChoiceBeatsOneLosesToOne | MiniArcadeGame.cpp:608-621 | each choice beats exactly the one before it in the cycle and loses exactly to the one after it |
| RockPaperScissorsGame.ChoiceToString | MiniArcadeGame.cpp:623-636 | the name is non-empty iff the choice is 1, 2 or 3 |
| RockPaperScissorsGame.ChoiceToStringInjective | MiniArcadeGame.cpp:623-636 | different choices have different names |
| RockPaperScissorsGame.WinTarget | MiniArcadeGame.cpp:676-689 | every target lies between 3 and 10 |
| RockPaperScissorsGame.LongerMatchesNeedMoreWins | MiniArcadeGame.cpp:676-689 | a longer match option needs strictly more round wins |
| RockPaperScissorsGame.ComputerChoice | MiniArcadeGame.cpp:715 | the computer's choice lies between 1 and 3 |
| RockPaperScissorsGame.MatchStopsAtTarget | MiniArcadeGame.cpp:691-741 | from tallies below the target, a match that ends has one tally exactly at the target and the other below it; tallies only grow, by at most one per round; a match that does not end used every round |
| RockPaperScissorsGame.LaterRoundsIgnored | MiniArcadeGame.cpp:691-741 | rounds after the deciding one are never read: any longer prefix of the rounds gives the same match |
| RockPaperScissorsGame.NoTieAtEndOfMatch | MiniArcadeGame.cpp:691-774 | from tallies that are not tied above zero, a finished match never ends tied, so the draw scoring branch is not taken |
| RockPaperScissorsGame.ReplayWithoutReset | MiniArcadeGame.cpp:597-599 | when a carried tally already reaches the new target, the next match plays no round and keeps the tallies |
| RockPaperScissorsGame.ReplayResumesFromCarriedTallies | MiniArcadeGame.cpp:597-599 | tallies carried below the new target are not reset: a 3-1 tally in a match to 5 becomes 4-1 after one won round |
| RockPaperScissorsGame.RpsScoringPolicy | MiniArcadeGame.cpp:752-774 | in a finished first match, the award is a win iff the player reached the target, worth 20 times the target (at least 60); a loss is worth 0 |
| RockPaperScissorsGame.RockPaperScissors.constructor | MiniArcadeGame.cpp:597-599 | both tallies start at 0 |
| RockPaperScissorsGame.RockPaperScissors.RoundLoop | MiniArcadeGame.cpp:691-741 | the tallies end as RunMatch from the old tallies, and the loop ends normally iff a tally reached the target |
| RockPaperScissorsGame.RockPaperScissors.RecordMatch | MiniArcadeGame.cpp:752-774 | the final tallies are saved once under "RockPaperScissors" with the award RpsAward |
| RockPaperScissorsGame.RockPaperScissors.Play | MiniArcadeGame.cpp:652-779 | the tallies carry on from the previous match and end as RunMatch; a finished match adds its award to the ledger and keeps the tallies untied above zero; an unfinished one records nothing |

## Left out

- Console output and screen handling are not modelled: `system("cls")`, `Sleep`, the banners,
  `displayBoard`, `displayScores`, `showAllHighScores`, `getWinDescription`, the number-guessing
  hints and guess history.
- `main` and its menu loop are not modelled. Each game's `play` is modelled with the shared
  `ScoreManager` passed in.
- `srand(time(0))` and the state of `rand()` are not modelled. Each value `rand()` returns is a
  parameter (`roll`, `rolls`, `Round.roll`).
- Keyboard reads that fail (non-numeric input) are not modelled. An input sequence that runs out
  ends the game `Unfinished`.
- The menu re-prompt loops (mode, difficulty, target, guess range, round choice) are
  preconditions saying every value given is accepted.
- Integer overflow is not modelled: all numbers are unbounded. The scores in reach are far below
  32 bits.
- ScoreLedger.SortByRank: ties (equal score and wins) come out in one fixed order. `std::sort`
  leaves that order unspecified, so `Save` and `SaveScore` fix one of the orders the program may
  produce.
- TicTacToeGame.TicTacToe.CheckWin: the column loop of the program runs its index to 8 and reads
  past the nine cells, which is undefined behaviour. Only the three real columns are checked.
- TicTacToeGame.TicTacToe.GetComputerMove: requires difficulty 1 or 2. For any other value the
  program falls off the end of a function returning `int`, which is undefined behaviour; `play`
  only calls it when the difficulty was read as 1 or 2.
- The claim that the hard computer never loses is not proved. `MinimaxIsOptimal` proves what the
  search computes, not the outcome of optimal play.
