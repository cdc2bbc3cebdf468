/**
 * Tic-tac-toe: the board rules, the minimax evaluation the computer uses,
 * and the game class whose search places and restores marks on one shared board.
 * Player 1 plays 'X', player 2 (or the computer) plays 'O', an empty cell is ' '.
 */
module TicTacToeGame {
  import opened ScoreLedger

  /** Nine cells, row by row. */
  type Board = b: seq<char> | |b| == 9 witness seq(9, _ => ' ')

  /** The board every game starts from. */
  function EmptyBoard(): Board
  {
    seq(9, _ => ' ')
  }

  predicate Three(b: Board, m: char, i: nat, j: nat, k: nat)
    requires i < 9 && j < 9 && k < 9
  {
    b[i] == m && b[j] == m && b[k] == m
  }

  predicate Row(b: Board, m: char, r: nat)
    requires r < 3
  {
    Three(b, m, 3 * r, 3 * r + 1, 3 * r + 2)
  }

  predicate Column(b: Board, m: char, c: nat)
    requires c < 3
  {
    Three(b, m, c, c + 3, c + 6)
  }

  /** `m` holds one of the eight lines: three rows, three columns, two diagonals. */
  predicate HasLine(b: Board, m: char)
  {
    || (exists r :: 0 <= r < 3 && Row(b, m, r))
    || (exists c :: 0 <= c < 3 && Column(b, m, c))
    || Three(b, m, 0, 4, 8)
    || Three(b, m, 2, 4, 6)
  }

  /** No cell is empty. */
  predicate Full(b: Board)
  {
    forall i :: 0 <= i < 9 ==> b[i] != ' '
  }

  /** The indices below `n` of the empty cells, in increasing order. */
  function EmptyBefore(b: Board, n: nat): (r: seq<int>)
    requires n <= 9
    ensures forall p :: 0 <= p < |r| ==> 0 <= r[p] < n && b[r[p]] == ' '
    ensures forall p, q :: 0 <= p < q < |r| ==> r[p] < r[q]
    ensures forall x :: 0 <= x < n && b[x] == ' ' ==> x in r
    ensures |r| <= n
    ensures (forall x :: 0 <= x < n ==> b[x] == ' ') ==> |r| == n
  {
    if n == 0 then []
    else EmptyBefore(b, n - 1) + (if b[n - 1] == ' ' then [n - 1] else [])
  }

  lemma EmptyBeforeStep(b: Board, n: nat)
    requires n < 9
    ensures EmptyBefore(b, n + 1) == EmptyBefore(b, n) + (if b[n] == ' ' then [n] else [])
  {
  }

  /** The empty cells, as the easy computer lists them. */
  function EmptySpots(b: Board): seq<int>
  {
    EmptyBefore(b, 9)
  }

  function EmptyCount(b: Board): nat
  {
    |EmptySpots(b)|
  }

  /** The board is full exactly when no cell is listed as empty. */
  lemma FullIffNoEmptySpot(b: Board)
    ensures Full(b) <==> EmptyCount(b) == 0
    ensures !Full(b) ==> exists i :: 0 <= i < 9 && b[i] == ' '
  {
    if !Full(b) {
      var i :| 0 <= i < 9 && b[i] == ' ';
      assert i in EmptySpots(b);
    }
    if EmptyCount(b) > 0 {
      assert b[EmptySpots(b)[0]] == ' ';
    }
  }

  /** Marking an empty cell removes exactly one empty cell. */
  lemma {:induction false} PlaceRemovesOneEmpty(b: Board, i: nat, m: char, n: nat)
    requires i < 9 && b[i] == ' ' && m != ' ' && n <= 9
    ensures |EmptyBefore(b[i := m], n)| == |EmptyBefore(b, n)| - (if i < n then 1 else 0)
  {
    if n > 0 {
      PlaceRemovesOneEmpty(b, i, m, n - 1);
    }
  }

  lemma PlaceDecreasesEmptyCount(b: Board, i: nat, m: char)
    requires i < 9 && b[i] == ' ' && m != ' '
    ensures EmptyCount(b[i := m]) == EmptyCount(b) - 1
  {
    PlaceRemovesOneEmpty(b, i, m, 9);
  }

  /** The mark the side to move places during the search: the computer maximises with 'O'. */
  function SearchMark(isMaximizing: bool): char
  {
    if isMaximizing then 'O' else 'X'
  }

  function Max(a: int, b: int): int { if a >= b then a else b }
  function Min(a: int, b: int): int { if a <= b then a else b }

  /**
   * The minimax value of `b` with `depth` plies played since the search root:
   * a win for 'O' is worth 10 - depth, a win for 'X' depth - 10, a full board 0;
   * otherwise the best value over the empty cells for the side to move.
   */
  function MinimaxValue(b: Board, isMaximizing: bool, depth: nat): int
    decreases EmptyCount(b), 1, 0
  {
    if HasLine(b, 'O') then 10 - depth
    else if HasLine(b, 'X') then depth - 10
    else if Full(b) then 0
    else BestFrom(b, isMaximizing, depth, 0, if isMaximizing then -1000 else 1000)
  }

  /** The search loop over cells i..8, with `best` the running maximum (or minimum). */
  function BestFrom(b: Board, isMaximizing: bool, depth: nat, i: nat, best: int): int
    requires i <= 9
    decreases EmptyCount(b), 0, 9 - i
  {
    if i == 9 then best
    else if b[i] == ' ' then
      PlaceDecreasesEmptyCount(b, i, SearchMark(isMaximizing));
      var score := MinimaxValue(b[i := SearchMark(isMaximizing)], !isMaximizing, depth + 1);
      BestFrom(b, isMaximizing, depth, i + 1, if isMaximizing then Max(best, score) else Min(best, score))
    else BestFrom(b, isMaximizing, depth, i + 1, best)
  }

  /** The value of a move of the computer's into cell i, as the root of the search scores it. */
  function ChildValue(b: Board, isMaximizing: bool, depth: nat, i: nat): int
    requires i < 9
  {
    MinimaxValue(b[i := SearchMark(isMaximizing)], !isMaximizing, depth + 1)
  }

  /** The running best over cells i..8 is the best of `best` and of every empty cell there. */
  lemma {:induction false} BestFromIsExtremum(b: Board, isMaximizing: bool, depth: nat, i: nat, best: int)
    requires i <= 9
    ensures var r := BestFrom(b, isMaximizing, depth, i, best);
      && (isMaximizing ==> r >= best)
      && (!isMaximizing ==> r <= best)
      && (forall j :: i <= j < 9 && b[j] == ' ' ==>
            if isMaximizing then ChildValue(b, isMaximizing, depth, j) <= r
            else r <= ChildValue(b, isMaximizing, depth, j))
      && (r == best || exists j :: i <= j < 9 && b[j] == ' ' && r == ChildValue(b, isMaximizing, depth, j))
    decreases 9 - i
  {
    if i < 9 {
      if b[i] == ' ' {
        var score := ChildValue(b, isMaximizing, depth, i);
        BestFromIsExtremum(b, isMaximizing, depth, i + 1, if isMaximizing then Max(best, score) else Min(best, score));
      } else {
        BestFromIsExtremum(b, isMaximizing, depth, i + 1, best);
      }
    }
  }

  /**
   * At a position that is not terminal, the maximiser's value is the largest value over
   * its moves into empty cells and the minimiser's the smallest.
   */
  lemma MinimaxIsOptimal(b: Board, isMaximizing: bool, depth: nat)
    requires depth + EmptyCount(b) <= 9
    requires !HasLine(b, 'O') && !HasLine(b, 'X') && !Full(b)
    ensures forall j :: 0 <= j < 9 && b[j] == ' ' ==>
      if isMaximizing then ChildValue(b, isMaximizing, depth, j) <= MinimaxValue(b, isMaximizing, depth)
      else MinimaxValue(b, isMaximizing, depth) <= ChildValue(b, isMaximizing, depth, j)
    ensures exists j :: 0 <= j < 9 && b[j] == ' ' && MinimaxValue(b, isMaximizing, depth) == ChildValue(b, isMaximizing, depth, j)
  {
    var init := if isMaximizing then -1000 else 1000;
    var r := BestFrom(b, isMaximizing, depth, 0, init);
    assert MinimaxValue(b, isMaximizing, depth) == r;
    BestFromIsExtremum(b, isMaximizing, depth, 0, init);
    // some empty cell has a value in [-10, 10], so the running best moved off its start value
    var j := EmptyChildInRange(b, isMaximizing, depth);
    assert r != init;
  }

  lemma EmptyChildInRange(b: Board, isMaximizing: bool, depth: nat) returns (j: nat)
    requires depth + EmptyCount(b) <= 9
    requires !Full(b)
    ensures j < 9 && b[j] == ' '
    ensures -10 <= ChildValue(b, isMaximizing, depth, j) <= 10
  {
    FullIffNoEmptySpot(b);
    j :| 0 <= j < 9 && b[j] == ' ';
    PlaceDecreasesEmptyCount(b, j, SearchMark(isMaximizing));
    MinimaxInRange(b[j := SearchMark(isMaximizing)], !isMaximizing, depth + 1);
  }

  /**
   * With depth plies played and as many cells still empty, depth + empty <= 9,
   * every value lies in [-10, 10].
   */
  lemma {:induction false} MinimaxInRange(b: Board, isMaximizing: bool, depth: nat)
    requires depth + EmptyCount(b) <= 9
    ensures -10 <= MinimaxValue(b, isMaximizing, depth) <= 10
    decreases EmptyCount(b), 1, 0
  {
    if !HasLine(b, 'O') && !HasLine(b, 'X') && !Full(b) {
      FullIffNoEmptySpot(b);
      BestFromInRange(b, isMaximizing, depth, 0, if isMaximizing then -1000 else 1000);
    }
  }

  lemma {:induction false} BestFromInRange(b: Board, isMaximizing: bool, depth: nat, i: nat, best: int)
    requires i <= 9
    requires depth + EmptyCount(b) <= 9
    requires -10 <= best <= 10
          || (best == (if isMaximizing then -1000 else 1000) && exists j :: i <= j < 9 && b[j] == ' ')
    ensures -10 <= BestFrom(b, isMaximizing, depth, i, best) <= 10
    decreases EmptyCount(b), 0, 9 - i
  {
    if i < 9 {
      if b[i] == ' ' {
        var m := SearchMark(isMaximizing);
        PlaceDecreasesEmptyCount(b, i, m);
        MinimaxInRange(b[i := m], !isMaximizing, depth + 1);
        var score := MinimaxValue(b[i := m], !isMaximizing, depth + 1);
        BestFromInRange(b, isMaximizing, depth, i + 1, if isMaximizing then Max(best, score) else Min(best, score));
      } else {
        BestFromInRange(b, isMaximizing, depth, i + 1, best);
      }
    }
  }

  /** The score the hard computer gives to a move into cell i: minimax(false, 0) after placing 'O'. */
  function RootScore(b: Board, i: nat): int
    requires i < 9
  {
    MinimaxValue(b[i := 'O'], false, 0)
  }

  lemma RootScoreInRange(b: Board, i: nat)
    requires i < 9 && b[i] == ' '
    ensures -10 <= RootScore(b, i) <= 10
  {
    PlaceDecreasesEmptyCount(b, i, 'O');
    MinimaxInRange(b[i := 'O'], false, 0);
  }

  /** Cell `move` is empty, scores at least as well as every empty cell, and strictly better than every earlier one. */
  ghost predicate IsFirstBestMove(b: Board, move: int)
  {
    && 0 <= move < 9 && b[move] == ' '
    && (forall j :: 0 <= j < 9 && b[j] == ' ' ==> RootScore(b, j) <= RootScore(b, move))
    && (forall j :: 0 <= j < move && b[j] == ' ' ==> RootScore(b, j) < RootScore(b, move))
  }

  /** No line for either mark and an empty cell left: the turn loop goes on. */
  predicate InPlay(b: Board)
  {
    !HasLine(b, 'X') && !HasLine(b, 'O') && !Full(b)
  }

  /** A move typed as 1..9 that names an empty cell. */
  predicate Acceptable(b: Board, move: int)
  {
    1 <= move <= 9 && b[move - 1] == ' '
  }

  /** The mark of player 0 (first mover) and player 1. */
  function Mark(player: int): char
  {
    if player == 0 then 'X' else 'O'
  }

  /** Marking an empty cell with one mark cannot give the other mark a line. */
  lemma PlaceKeepsOtherLines(b: Board, i: nat, m: char, other: char)
    requires i < 9 && b[i] == ' ' && other != m && other != ' '
    ensures HasLine(b[i := m], other) ==> HasLine(b, other)
  {
    var b' := b[i := m];
    if HasLine(b', other) {
      if exists r :: 0 <= r < 3 && Row(b', other, r) {
        var r :| 0 <= r < 3 && Row(b', other, r);
        assert Row(b, other, r);
      } else if exists c :: 0 <= c < 3 && Column(b', other, c) {
        var c :| 0 <= c < 3 && Column(b', other, c);
        assert Column(b, other, c);
      }
    }
  }

  /** How a game ends: a player's line, a full board, or input that runs out first. */
  datatype TttResult = Won(player: int) | Draw | Unfinished

  /** A human turn: the first entry from `next` on that names an empty cell, and the input position after it. */
  function HumanMove(b: Board, input: seq<int>, next: nat): (r: Option<(int, nat)>)
    requires next <= |input|
    ensures r.Some? ==> next < r.value.1 <= |input| && r.value.0 == input[r.value.1 - 1]
                        && Acceptable(b, r.value.0)
                        && forall k :: next <= k < r.value.1 - 1 ==> !Acceptable(b, input[k])
    ensures r.None? <==> forall k :: next <= k < |input| ==> !Acceptable(b, input[k])
    decreases |input| - next
  {
    if next == |input| then None
    else if Acceptable(b, input[next]) then Some((input[next], next + 1))
    else HumanMove(b, input, next + 1)
  }

  /** The hard computer's scan from cell i on: a cell replaces the kept one only on a strictly higher score. */
  function BestMoveFrom(b: Board, i: nat, bestScore: int, bestMove: int): int
    requires i <= 9
    decreases 9 - i
  {
    if i == 9 then bestMove
    else if b[i] == ' ' && RootScore(b, i) > bestScore then BestMoveFrom(b, i + 1, RootScore(b, i), i)
    else BestMoveFrom(b, i + 1, bestScore, bestMove)
  }

  /** The hard computer's move: the scan from cell 0 with score -1000 and no cell kept. */
  function FirstBestMove(b: Board): int
  {
    BestMoveFrom(b, 0, -1000, -1)
  }

  /** At the end of the scan the kept cell is the first best move. */
  lemma ScanEndIsFirstBest(b: Board, bestScore: int, bestMove: int)
    requires !Full(b)
    requires bestMove == -1 ==> bestScore == -1000 && forall j :: 0 <= j < 9 ==> b[j] != ' '
    requires bestMove != -1 ==> 0 <= bestMove < 9 && b[bestMove] == ' ' && bestScore == RootScore(b, bestMove)
    requires forall j :: 0 <= j < 9 && b[j] == ' ' ==> RootScore(b, j) <= bestScore
    requires forall j :: 0 <= j < bestMove && b[j] == ' ' ==> RootScore(b, j) < bestScore
    ensures IsFirstBestMove(b, bestMove)
  {
  }

  /** A taken cell leaves what the scan kept as it was. */
  lemma ScanSkipsTaken(b: Board, i: nat, bestScore: int, bestMove: int)
    requires i < 9 && b[i] != ' '
    requires bestMove == -1 ==> bestScore == -1000 && forall j :: 0 <= j < i ==> b[j] != ' '
    requires bestMove != -1 ==> 0 <= bestMove < i && b[bestMove] == ' ' && bestScore == RootScore(b, bestMove)
    requires forall j :: 0 <= j < i && b[j] == ' ' ==> RootScore(b, j) <= bestScore
    ensures bestMove == -1 ==> forall j :: 0 <= j < i + 1 ==> b[j] != ' '
    ensures bestMove != -1 ==> bestMove < i + 1
    ensures forall j :: 0 <= j < i + 1 && b[j] == ' ' ==> RootScore(b, j) <= bestScore
  {
  }

  /** An empty cell scoring strictly higher than the kept one becomes the first best of the cells seen. */
  lemma ScanTakesBetter(b: Board, i: nat, bestScore: int, bestMove: int, score: int)
    requires i < 9 && b[i] == ' ' && score == RootScore(b, i) && score > bestScore
    requires forall j :: 0 <= j < i && b[j] == ' ' ==> RootScore(b, j) <= bestScore
    ensures forall j :: 0 <= j < i + 1 && b[j] == ' ' ==> RootScore(b, j) <= score
    ensures forall j :: 0 <= j < i && b[j] == ' ' ==> RootScore(b, j) < score
  {
  }

  /** An empty cell scoring no higher than the kept one leaves the kept cell the first best of the cells seen. */
  lemma ScanKeepsBest(b: Board, i: nat, bestScore: int, bestMove: int, score: int)
    requires i < 9 && b[i] == ' ' && score == RootScore(b, i) && -10 <= score <= bestScore
    requires bestMove == -1 ==> bestScore == -1000
    requires bestMove != -1 ==> 0 <= bestMove < i && b[bestMove] == ' ' && bestScore == RootScore(b, bestMove)
    requires forall j :: 0 <= j < i && b[j] == ' ' ==> RootScore(b, j) <= bestScore
    ensures 0 <= bestMove < i + 1 && b[bestMove] == ' ' && bestScore == RootScore(b, bestMove)
    ensures forall j :: 0 <= j < i + 1 && b[j] == ' ' ==> RootScore(b, j) <= bestScore
  {
  }

  /** Wherever the scan stands, provided what it kept so far is the first best of the cells seen, it ends on the first best move. */
  lemma {:induction false} BestMoveFromIsFirstBest(b: Board, i: nat, bestScore: int, bestMove: int)
    requires i <= 9 && !Full(b)
    requires bestMove == -1 ==> bestScore == -1000 && forall j :: 0 <= j < i ==> b[j] != ' '
    requires bestMove != -1 ==> 0 <= bestMove < i && b[bestMove] == ' ' && bestScore == RootScore(b, bestMove)
    requires forall j :: 0 <= j < i && b[j] == ' ' ==> RootScore(b, j) <= bestScore
    requires forall j :: 0 <= j < bestMove && b[j] == ' ' ==> RootScore(b, j) < bestScore
    ensures IsFirstBestMove(b, BestMoveFrom(b, i, bestScore, bestMove))
    decreases 9 - i
  {
    if i == 9 {
      ScanEndIsFirstBest(b, bestScore, bestMove);
      return;
    }
    if b[i] != ' ' {
      assert BestMoveFrom(b, i, bestScore, bestMove) == BestMoveFrom(b, i + 1, bestScore, bestMove);
      ScanSkipsTaken(b, i, bestScore, bestMove);
      BestMoveFromIsFirstBest(b, i + 1, bestScore, bestMove);
      return;
    }
    var score := RootScore(b, i);
    RootScoreInRange(b, i);
    if score > bestScore {
      assert BestMoveFrom(b, i, bestScore, bestMove) == BestMoveFrom(b, i + 1, score, i);
      ScanTakesBetter(b, i, bestScore, bestMove, score);
      BestMoveFromIsFirstBest(b, i + 1, score, i);
    } else {
      assert BestMoveFrom(b, i, bestScore, bestMove) == BestMoveFrom(b, i + 1, bestScore, bestMove);
      ScanKeepsBest(b, i, bestScore, bestMove, score);
      BestMoveFromIsFirstBest(b, i + 1, bestScore, bestMove);
    }
  }

  /** The first best move is the only cell that is one. */
  lemma FirstBestMoveIsUnique(b: Board, move: int)
    requires !Full(b)
    ensures IsFirstBestMove(b, FirstBestMove(b))
    ensures IsFirstBestMove(b, move) ==> move == FirstBestMove(b)
  {
    BestMoveFromIsFirstBest(b, 0, -1000, -1);
  }

  /** The computer's move (a cell index 0..8): easy, the roll picks among the empty cells; hard, the first best move. */
  function ComputerMove(b: Board, difficulty: int, roll: nat): (move: int)
    requires !Full(b) && (difficulty == 1 || difficulty == 2)
    ensures 0 <= move < 9 && b[move] == ' '
  {
    FullIffNoEmptySpot(b);
    BestMoveFromIsFirstBest(b, 0, -1000, -1);
    if difficulty == 1 then EmptySpots(b)[roll % EmptyCount(b)] else FirstBestMove(b)
  }

  /** A game as it ends: its result and the final board. */
  datatype TttRun = TttRun(result: TttResult, board: Board)

  /**
   * The turn loop from board b with `player` to move: a human move is read from `input` at
   * `next`, the computer's k-th move is drawn with `rolls[k]`; input or rolls running out
   * leave the game unfinished.
   */
  function TttTurns(b: Board, player: int, vsComputer: bool, difficulty: int,
                    input: seq<int>, next: nat, rolls: seq<nat>, k: nat): TttRun
    requires InPlay(b) && (player == 0 || player == 1) && next <= |input|
    requires vsComputer ==> difficulty == 1 || difficulty == 2
    decreases EmptyCount(b), 1
  {
    if player == 0 || !vsComputer then
      var read := HumanMove(b, input, next);
      if read.None? then TttRun(Unfinished, b)
      else TttAfterMove(b, read.value.0, player, vsComputer, difficulty, input, read.value.1, rolls, k)
    else if k < |rolls| then
      TttAfterMove(b, ComputerMove(b, difficulty, rolls[k]) + 1, player, vsComputer, difficulty, input, next, rolls, k + 1)
    else
      TttRun(Unfinished, b)
  }

  /** A turn after its move is chosen: the mark goes in, then a line wins, a full board draws, else the other player moves. */
  function TttAfterMove(b: Board, move: int, player: int, vsComputer: bool, difficulty: int,
                        input: seq<int>, next: nat, rolls: seq<nat>, k: nat): TttRun
    requires InPlay(b) && Acceptable(b, move) && (player == 0 || player == 1) && next <= |input|
    requires vsComputer ==> difficulty == 1 || difficulty == 2
    decreases EmptyCount(b), 0
  {
    var b' := b[move - 1 := Mark(player)];
    if HasLine(b', Mark(player)) then TttRun(Won(player), b')
    else if Full(b') then TttRun(Draw, b')
    else
      PlaceDecreasesEmptyCount(b, move - 1, Mark(player));
      PlaceKeepsOtherLines(b, move - 1, Mark(player), Mark(1 - player));
      TttTurns(b', 1 - player, vsComputer, difficulty, input, next, rolls, k)
  }

  /** The three ways a turn ends once its mark is placed. */
  lemma AfterMoveCases(b: Board, move: int, player: int, vsComputer: bool, difficulty: int,
                       input: seq<int>, next: nat, rolls: seq<nat>, k: nat)
    requires InPlay(b) && Acceptable(b, move) && (player == 0 || player == 1) && next <= |input|
    requires vsComputer ==> difficulty == 1 || difficulty == 2
    ensures var b' := b[move - 1 := Mark(player)];
      && (HasLine(b', Mark(player)) ==>
            TttAfterMove(b, move, player, vsComputer, difficulty, input, next, rolls, k) == TttRun(Won(player), b'))
      && (!HasLine(b', Mark(player)) && Full(b') ==>
            TttAfterMove(b, move, player, vsComputer, difficulty, input, next, rolls, k) == TttRun(Draw, b'))
      && (!HasLine(b', Mark(player)) && !Full(b') ==>
            && InPlay(b')
            && TttAfterMove(b, move, player, vsComputer, difficulty, input, next, rolls, k)
               == TttTurns(b', 1 - player, vsComputer, difficulty, input, next, rolls, k))
  {
    var b' := b[move - 1 := Mark(player)];
    PlaceKeepsOtherLines(b, move - 1, Mark(player), Mark(1 - player));
    assert !HasLine(b, Mark(1 - player));
  }

  lemma EmptyBoardInPlay()
    ensures InPlay(EmptyBoard()) && EmptyCount(EmptyBoard()) == 9
  {
    var b := EmptyBoard();
    assert forall i :: 0 <= i < 9 ==> b[i] == ' ';
    assert !Full(b) by { assert b[0] == ' '; }
    assert !HasLine(b, 'X') && !HasLine(b, 'O');
  }

  /** A whole game: player 0 ('X') moves first on the empty board. */
  function TttGame(vsComputer: bool, difficulty: int, input: seq<int>, rolls: seq<nat>): TttRun
    requires vsComputer ==> difficulty == 1 || difficulty == 2
  {
    EmptyBoardInPlay();
    TttTurns(EmptyBoard(), 0, vsComputer, difficulty, input, 0, rolls, 0)
  }

  /** A game is the turn sequence from the empty board, player 0 to move. */
  lemma TttGameStart(b: Board, vsComputer: bool, difficulty: int, input: seq<int>, rolls: seq<nat>)
    requires b == EmptyBoard()
    requires vsComputer ==> difficulty == 1 || difficulty == 2
    ensures InPlay(b) && EmptyCount(b) == 9
    ensures TttGame(vsComputer, difficulty, input, rolls) == TttTurns(b, 0, vsComputer, difficulty, input, 0, rolls, 0)
  {
    EmptyBoardInPlay();
  }

  /**
   * How a game can end: the winner has a line and the loser none; a draw leaves a full
   * board without lines; an unfinished game is still in play.
   */
  predicate Settled(r: TttRun)
  {
    match r.result
    case Won(p) => (p == 0 || p == 1) && HasLine(r.board, Mark(p)) && !HasLine(r.board, Mark(1 - p))
    case Draw => Full(r.board) && !HasLine(r.board, 'X') && !HasLine(r.board, 'O')
    case Unfinished => InPlay(r.board)
  }

  /** Every game ends settled, and no turn overwrites a marked cell. */
  lemma {:induction false} TttTurnsOutcome(b: Board, player: int, vsComputer: bool, difficulty: int,
                                           input: seq<int>, next: nat, rolls: seq<nat>, k: nat)
    requires InPlay(b) && (player == 0 || player == 1) && next <= |input|
    requires vsComputer ==> difficulty == 1 || difficulty == 2
    ensures Settled(TttTurns(b, player, vsComputer, difficulty, input, next, rolls, k))
    ensures forall i :: 0 <= i < 9 && b[i] != ' ' ==>
              TttTurns(b, player, vsComputer, difficulty, input, next, rolls, k).board[i] == b[i]
    decreases EmptyCount(b), 1
  {
    var r := TttTurns(b, player, vsComputer, difficulty, input, next, rolls, k);
    if player == 0 || !vsComputer {
      var read := HumanMove(b, input, next);
      if read.None? {
        assert r == TttRun(Unfinished, b);
      } else {
        assert r == TttAfterMove(b, read.value.0, player, vsComputer, difficulty, input, read.value.1, rolls, k);
        AfterMoveOutcome(b, read.value.0, player, vsComputer, difficulty, input, read.value.1, rolls, k);
      }
    } else if k < |rolls| {
      var move := ComputerMove(b, difficulty, rolls[k]) + 1;
      assert r == TttAfterMove(b, move, player, vsComputer, difficulty, input, next, rolls, k + 1);
      AfterMoveOutcome(b, move, player, vsComputer, difficulty, input, next, rolls, k + 1);
    } else {
      assert r == TttRun(Unfinished, b);
    }
  }

  /** After an acceptable move the game ends settled, and no marked cell is overwritten. */
  lemma {:induction false} AfterMoveOutcome(b: Board, move: int, player: int, vsComputer: bool, difficulty: int,
                                            input: seq<int>, next: nat, rolls: seq<nat>, k: nat)
    requires InPlay(b) && Acceptable(b, move) && (player == 0 || player == 1) && next <= |input|
    requires vsComputer ==> difficulty == 1 || difficulty == 2
    ensures Settled(TttAfterMove(b, move, player, vsComputer, difficulty, input, next, rolls, k))
    ensures forall i :: 0 <= i < 9 && b[i] != ' ' ==>
              TttAfterMove(b, move, player, vsComputer, difficulty, input, next, rolls, k).board[i] == b[i]
    decreases EmptyCount(b), 0
  {
    var b' := b[move - 1 := Mark(player)];
    if HasLine(b', Mark(player)) || Full(b') {
      FinalMoveSettled(b, move, player, vsComputer, difficulty, input, next, rolls, k);
    } else {
      AfterMoveCases(b, move, player, vsComputer, difficulty, input, next, rolls, k);
      assert forall i :: 0 <= i < 9 && b[i] != ' ' ==> b'[i] == b[i];
      PlaceDecreasesEmptyCount(b, move - 1, Mark(player));
      TttTurnsOutcome(b', 1 - player, vsComputer, difficulty, input, next, rolls, k);
    }
  }

  /** A move that completes a line or fills the board ends the game settled on the new board. */
  lemma FinalMoveSettled(b: Board, move: int, player: int, vsComputer: bool, difficulty: int,
                         input: seq<int>, next: nat, rolls: seq<nat>, k: nat)
    requires InPlay(b) && Acceptable(b, move) && (player == 0 || player == 1) && next <= |input|
    requires vsComputer ==> difficulty == 1 || difficulty == 2
    requires HasLine(b[move - 1 := Mark(player)], Mark(player)) || Full(b[move - 1 := Mark(player)])
    ensures var r := TttAfterMove(b, move, player, vsComputer, difficulty, input, next, rolls, k);
      && Settled(r)
      && r.board == b[move - 1 := Mark(player)]
  {
    var r := TttAfterMove(b, move, player, vsComputer, difficulty, input, next, rolls, k);
    var b' := b[move - 1 := Mark(player)];
    AfterMoveCases(b, move, player, vsComputer, difficulty, input, next, rolls, k);
    PlaceKeepsOtherLines(b, move - 1, Mark(player), Mark(1 - player));
    if HasLine(b', Mark(player)) {
      assert r == TttRun(Won(player), b');
    } else {
      assert r == TttRun(Draw, b');
    }
  }

  /**
   * The scores recorded at the end of a game. `winner` is 0 or 1 for a win and 2 for a draw.
   */
  function TttAwards(vsComputer: bool, difficulty: int, player1: string, player2: string, winner: int): seq<Award>
  {
    if winner == 2 then
      [Award("TicTacToe", player1, 25, 0)] + (if !vsComputer then [Award("TicTacToe", player2, 25, 0)] else [])
    else
      var winnerName := if winner == 0 then player1 else player2;
      var loserName := if winner == 0 then player2 else player1;
      [Award("TicTacToe", winnerName, 100 * difficulty, 1)]
        + (if !vsComputer then [Award("TicTacToe", loserName, 10, 0)] else [])
  }

  /**
   * The scoring policy: a draw gives 25 to player 1 (and to player 2 between humans);
   * a win gives 100 times the difficulty, to the computer too; only a human loser gets 10.
   */
  lemma TttScoringPolicy(vsComputer: bool, difficulty: int, player1: string, player2: string, winner: int)
    requires winner == 0 || winner == 1 || winner == 2
    requires difficulty == 1 || difficulty == 2
    ensures var a := TttAwards(vsComputer, difficulty, player1, player2, winner);
      && |a| == (if vsComputer then 1 else 2)
      && (forall k :: 0 <= k < |a| ==> a[k].game == "TicTacToe" && a[k].score >= 0)
      && (winner == 2 ==> a[0] == Award("TicTacToe", player1, 25, 0))
      && (winner == 2 && !vsComputer ==> a[1] == Award("TicTacToe", player2, 25, 0))
      && (winner != 2 ==> a[0].wins == 1 && a[0].score == 100 * difficulty
                          && a[0].player == (if winner == 0 then player1 else player2))
      && (vsComputer && winner == 1 && player2 == "Computer" ==> a == [Award("TicTacToe", "Computer", 100 * difficulty, 1)])
      && (winner != 2 && !vsComputer ==> a[1] == Award("TicTacToe", if winner == 0 then player2 else player1, 10, 0))
  {
  }

  /**
   * One game of tic-tac-toe. The board is a fixed buffer of nine cells that the search
   * writes into and restores.
   */
  class TicTacToe {
    const board: array<char>
    var player1Name: string
    var player2Name: string
    var vsComputer: bool
    var difficulty: int

    ghost predicate Valid()
    {
      board.Length == 9
    }

    constructor ()
      ensures Valid() && fresh(board)
    {
      board := new char[9](_ => ' ');
      player1Name, player2Name := "", "";
      vsComputer := false;
      difficulty := 1;
    }

    method InitialBoard()
      requires Valid()
      modifies board
      ensures board[..] == EmptyBoard()
    {
      for i := 0 to 9
        invariant forall k :: 0 <= k < i ==> board[k] == ' '
      {
        board[i] := ' ';
      }
    }

    /**
     * The three rows, the three columns and the two diagonals. The program's column loop
     * runs its index to 8 and so also reads past the last cell; only the three real
     * columns are checked here.
     */
    method CheckWin(mark: char) returns (won: bool)
      requires Valid()
      ensures won <==> HasLine(board[..], mark)
    {
      // Rows
      var i := 0;
      while i < 9
        invariant 0 <= i <= 9 && i % 3 == 0
        invariant forall r :: 0 <= r < i / 3 ==> !Row(board[..], mark, r)
      {
        if board[i] == mark && board[i + 1] == mark && board[i + 2] == mark {
          assert Row(board[..], mark, i / 3);
          return true;
        }
        i := i + 3;
      }
      // Columns
      i := 0;
      while i < 3
        invariant 0 <= i <= 3
        invariant forall c :: 0 <= c < i ==> !Column(board[..], mark, c)
      {
        if board[i] == mark && board[i + 3] == mark && board[i + 6] == mark {
          assert Column(board[..], mark, i);
          return true;
        }
        i := i + 1;
      }
      // Diagonals
      if board[0] == mark && board[4] == mark && board[8] == mark {
        return true;
      }
      if board[2] == mark && board[4] == mark && board[6] == mark {
        return true;
      }
      return false;
    }

    method IsBoardFull() returns (full: bool)
      requires Valid()
      ensures full <==> Full(board[..])
    {
      for i := 0 to 9
        invariant forall k :: 0 <= k < i ==> board[k] != ' '
      {
        if board[i] == ' ' {
          return false;
        }
      }
      return true;
    }

    /**
     * Exhaustive search on the shared board: every move is placed, searched and taken back,
     * so the board is left as it was found.
     */
    method Minimax(isMaximizing: bool, depth: nat) returns (score: int)
      requires Valid()
      modifies board
      ensures board[..] == old(board[..])
      ensures score == MinimaxValue(old(board[..]), isMaximizing, depth)
      decreases EmptyCount(board[..])
    {
      var oWins := CheckWin('O');
      if oWins {
        return 10 - depth;
      }
      var xWins := CheckWin('X');
      if xWins {
        return depth - 10;
      }
      var full := IsBoardFull();
      if full {
        return 0;
      }
      ghost var b: Board := board[..];
      if isMaximizing {
        var bestScore := -1000;
        for i := 0 to 9
          invariant board[..] == b
          invariant BestFrom(b, true, depth, i, bestScore) == MinimaxValue(b, true, depth)
        {
          if board[i] == ' ' {
            board[i] := 'O';
            PlaceDecreasesEmptyCount(b, i, 'O');
            var s := Minimax(false, depth + 1);
            board[i] := ' ';
            assert board[..] == b;
            bestScore := Max(bestScore, s);
          }
        }
        return bestScore;
      } else {
        var bestScore := 1000;
        for i := 0 to 9
          invariant board[..] == b
          invariant BestFrom(b, false, depth, i, bestScore) == MinimaxValue(b, false, depth)
        {
          if board[i] == ' ' {
            board[i] := 'X';
            PlaceDecreasesEmptyCount(b, i, 'X');
            var s := Minimax(true, depth + 1);
            board[i] := ' ';
            assert board[..] == b;
            bestScore := Min(bestScore, s);
          }
        }
        return bestScore;
      }
    }

    /**
     * The computer's move (a cell index 0..8). Easy: the roll picks one of the empty cells.
     * Hard: the first empty cell whose search score is strictly the best.
     */
    method GetComputerMove(roll: nat) returns (move: int)
      requires Valid()
      requires difficulty == 1 || difficulty == 2
      requires !Full(board[..])
      modifies board
      ensures board[..] == old(board[..])
      ensures 0 <= move < 9 && board[move] == ' '
      ensures difficulty == 1 ==> move == EmptySpots(board[..])[roll % EmptyCount(board[..])]
      ensures difficulty == 2 ==> IsFirstBestMove(board[..], move)
      ensures move == ComputerMove(board[..], difficulty, roll)
    {
      if difficulty == 1 {
        move := RandomMove(roll);
        return;
      }
      move := BestMove();
    }

    /** The easy policy: list the empty cells and let the roll pick one of them. */
    method RandomMove(roll: nat) returns (move: int)
      requires Valid()
      requires !Full(board[..])
      ensures 0 <= move < 9 && board[move] == ' '
      ensures move == EmptySpots(board[..])[roll % EmptyCount(board[..])]
    {
      ghost var b: Board := board[..];
      FullIffNoEmptySpot(b);
      var emptySpots: seq<int> := [];
      for i := 0 to 9
        invariant emptySpots == EmptyBefore(b, i)
      {
        EmptyBeforeStep(b, i);
        if board[i] == ' ' {
          emptySpots := emptySpots + [i];
        }
      }
      assert emptySpots == EmptySpots(b);
      return emptySpots[roll % |emptySpots|];
    }

    /** The hard policy: score every empty cell by the search; keep the first strictly best. */
    method BestMove() returns (move: int)
      requires Valid()
      requires !Full(board[..])
      modifies board
      ensures board[..] == old(board[..])
      ensures move == FirstBestMove(board[..])
      ensures IsFirstBestMove(board[..], move)
    {
      ghost var b: Board := board[..];
      var bestScore := -1000;
      var bestMove := -1;
      for i := 0 to 9
        invariant board[..] == b
        invariant BestMoveFrom(b, i, bestScore, bestMove) == FirstBestMove(b)
      {
        if board[i] == ' ' {
          board[i] := 'O';
          var score := Minimax(false, 0);
          board[i] := ' ';
          assert board[..] == b;
          if score > bestScore {
            bestScore := score;
            bestMove := i;
          }
        }
      }
      FirstBestMoveIsUnique(b, bestMove);
      return bestMove;
    }

    /**
     * One game: setup, the turn loop, then the scores. `mode` and `level` are the menu
     * choices (already accepted by their re-prompt loops); `input` is what the human
     * players type, an out-of-range or occupied move being asked for again; `rolls[k]`
     * is the random value behind the computer's k-th move.
     */
    method Play(scoreManager: ScoreManager, mode: int, level: int, name1: string, name2: string,
                input: seq<int>, rolls: seq<nat>)
      returns (result: TttResult, moves: int)
      requires Valid() && scoreManager.Valid()
      requires mode == 1 || mode == 2
      requires mode == 2 ==> level == 1 || level == 2
      modifies this, board, scoreManager
      ensures Valid() && scoreManager.Valid()
      ensures vsComputer == (mode == 2)
      ensures player1Name == name1 && player2Name == (if mode == 2 then "Computer" else name2)
      ensures difficulty == (if mode == 2 then level else 1)
      ensures TttRun(result, board[..]) == TttGame(vsComputer, difficulty, input, rolls)
      ensures moves == 9 - EmptyCount(board[..])
      ensures result.Won? ==> (result.player == 0 || result.player == 1) && HasLine(board[..], Mark(result.player))
      ensures result.Won? ==> !HasLine(board[..], Mark(1 - result.player))
      ensures result.Draw? ==> Full(board[..]) && !HasLine(board[..], 'X') && !HasLine(board[..], 'O')
      ensures result.Unfinished? ==> InPlay(board[..])
      ensures scoreManager.Snapshot() ==
        match result
        case Unfinished => old(scoreManager.Snapshot())
        case Draw => SaveAll(old(scoreManager.Snapshot()), TttAwards(vsComputer, difficulty, player1Name, player2Name, 2))
        case Won(p) => SaveAll(old(scoreManager.Snapshot()), TttAwards(vsComputer, difficulty, player1Name, player2Name, p))
    {
      Start(mode, level, name1, name2);
      ClearBoard(input, rolls);
      ghost var start: Board := board[..];
      result, moves := TurnLoop(input, rolls);
      TttTurnsOutcome(start, 0, vsComputer, difficulty, input, 0, rolls, 0);
      if !result.Unfinished? {
        var r := RecordResult(scoreManager, if result.Won? then result.player else 2);
      }
    }

    /** The setup of a game: the mode, the names and the difficulty. */
    method Start(mode: int, level: int, name1: string, name2: string)
      requires mode == 1 || mode == 2
      requires mode == 2 ==> level == 1 || level == 2
      modifies this
      ensures vsComputer == (mode == 2)
      ensures player1Name == name1 && player2Name == (if mode == 2 then "Computer" else name2)
      ensures difficulty == (if mode == 2 then level else 1)
    {
      vsComputer := mode == 2;
      if vsComputer {
        player1Name := name1;
        player2Name := "Computer";
        difficulty := level;
      } else {
        player1Name := name1;
        player2Name := name2;
        difficulty := 1;
      }
    }

    /** initialBoard, seen as the start of a game: the empty board, player 0 to move. */
    method ClearBoard(input: seq<int>, rolls: seq<nat>)
      requires Valid()
      requires vsComputer ==> difficulty == 1 || difficulty == 2
      modifies board
      ensures InPlay(board[..]) && EmptyCount(board[..]) == 9
      ensures TttGame(vsComputer, difficulty, input, rolls) == TttTurns(board[..], 0, vsComputer, difficulty, input, 0, rolls, 0)
    {
      InitialBoard();
      TttGameStart(board[..], vsComputer, difficulty, input, rolls);
    }

    /**
     * The turn loop from the empty board, player 0 first: a human move is read from `input`,
     * the computer's moves are drawn with `rolls`; each move is followed by the win and the
     * full-board checks. Input or rolls running out leave the game unfinished.
     */
    method TurnLoop(input: seq<int>, rolls: seq<nat>) returns (result: TttResult, moves: int)
      requires Valid() && InPlay(board[..]) && EmptyCount(board[..]) == 9
      requires vsComputer ==> difficulty == 1 || difficulty == 2
      modifies board
      ensures TttRun(result, board[..]) == TttTurns(old(board[..]), 0, vsComputer, difficulty, input, 0, rolls, 0)
      ensures moves == 9 - EmptyCount(board[..])
    {
      var currentPlayer := 0;
      var gameOver := false;
      moves := 0;
      var winner := -1;
      var next: nat := 0;
      var computerMoves: nat := 0;
      ghost var game := TttTurns(board[..], 0, vsComputer, difficulty, input, 0, rolls, 0);

      while !gameOver
        invariant next <= |input| && computerMoves <= |rolls|
        invariant moves == 9 - EmptyCount(board[..])
        invariant currentPlayer == 0 || currentPlayer == 1
        invariant !gameOver ==> InPlay(board[..])
        invariant !gameOver ==> TttTurns(board[..], currentPlayer, vsComputer, difficulty, input, next, rolls, computerMoves) == game
        invariant gameOver ==> (winner == 0 || winner == 1 || winner == 2)
        invariant gameOver ==> game == TttRun(if winner == 2 then Draw else Won(winner), board[..])
        decreases EmptyCount(board[..])
      {
        ghost var b: Board := board[..];
        ghost var player, next0, k0 := currentPlayer, next, computerMoves;
        assert TttTurns(b, player, vsComputer, difficulty, input, next0, rolls, k0) == game;
        var ok, over, w;
        ok, over, w, next, computerMoves := Turn(currentPlayer, input, next, rolls, computerMoves);
        assert ok && !over ==> TttTurns(b, player, vsComputer, difficulty, input, next0, rolls, k0)
                               == TttTurns(board[..], 1 - player, vsComputer, difficulty, input, next, rolls, computerMoves);
        if !ok {
          return Unfinished, moves;
        }
        moves := moves + 1;
        if over {
          gameOver := true;
          winner := w;
        } else {
          currentPlayer := 1 - currentPlayer;
        }
      }
      result := if winner == 2 then Draw else Won(winner);
    }

    /**
     * One pass of the turn loop: the move is chosen and placed, then a line ends the game
     * with the mover as winner, a full board ends it drawn (winner 2), or play goes on.
     * `ok` is false when the move could not be chosen.
     */
    method Turn(player: int, input: seq<int>, next: nat, rolls: seq<nat>, k: nat)
      returns (ok: bool, over: bool, winner: int, next': nat, k': nat)
      requires Valid() && InPlay(board[..]) && (player == 0 || player == 1)
      requires next <= |input| && k <= |rolls|
      requires vsComputer ==> difficulty == 1 || difficulty == 2
      modifies board
      ensures next' <= |input| && k' <= |rolls|
      ensures !ok ==> board[..] == old(board[..])
                      && TttTurns(old(board[..]), player, vsComputer, difficulty, input, next, rolls, k) == TttRun(Unfinished, board[..])
      ensures ok ==> EmptyCount(board[..]) == EmptyCount(old(board[..])) - 1
      ensures ok && over ==> (winner == 0 || winner == 1 || winner == 2)
                             && TttTurns(old(board[..]), player, vsComputer, difficulty, input, next, rolls, k)
                                == TttRun(if winner == 2 then Draw else Won(winner), board[..])
      ensures ok && !over ==> InPlay(board[..])
                              && TttTurns(old(board[..]), player, vsComputer, difficulty, input, next, rolls, k)
                                 == TttTurns(board[..], 1 - player, vsComputer, difficulty, input, next', rolls, k')
    {
      var move;
      ok, move, next', k' := ChooseMove(player, input, next, rolls, k);
      if !ok {
        return ok, false, 0, next', k';
      }
      ghost var b: Board := board[..];
      ghost var b': Board := b[move - 1 := Mark(player)];
      AfterMoveCases(b, move, player, vsComputer, difficulty, input, next', rolls, k');

      var won := PlaceMark(move, player);
      assert board[..] == b';
      if won {
        over, winner := true, player;
      } else {
        var full := IsBoardFull();
        over, winner := full, 2;
      }
    }

    /**
     * The move of the side to play, as a cell 1..9: read for a human, computed for the computer
     * from the next roll. `ok` is false when the input or the rolls run out first.
     */
    method ChooseMove(player: int, input: seq<int>, next: nat, rolls: seq<nat>, k: nat)
      returns (ok: bool, move: int, next': nat, k': nat)
      requires Valid() && InPlay(board[..]) && (player == 0 || player == 1)
      requires next <= |input| && k <= |rolls|
      requires vsComputer ==> difficulty == 1 || difficulty == 2
      modifies board
      ensures board[..] == old(board[..])
      ensures next' <= |input| && k' <= |rolls|
      ensures !ok ==> TttTurns(board[..], player, vsComputer, difficulty, input, next, rolls, k) == TttRun(Unfinished, board[..])
      ensures ok ==> Acceptable(board[..], move)
      ensures ok ==> TttTurns(board[..], player, vsComputer, difficulty, input, next, rolls, k)
                     == TttAfterMove(board[..], move, player, vsComputer, difficulty, input, next', rolls, k')
    {
      ghost var b: Board := board[..];
      if player == 0 || !vsComputer {
        ok, move, next' := ReadMove(input, next);
        k' := k;
        assert ok ==> TttTurns(b, player, vsComputer, difficulty, input, next, rolls, k)
                      == TttAfterMove(b, move, player, vsComputer, difficulty, input, next', rolls, k');
      } else if k == |rolls| {
        return false, 0, next, k;
      } else {
        FullIffNoEmptySpot(b);
        var m := GetComputerMove(rolls[k]);
        assert TttTurns(b, player, vsComputer, difficulty, input, next, rolls, k)
               == TttAfterMove(b, m + 1, player, vsComputer, difficulty, input, next, rolls, k + 1);
        return true, m + 1, next, k + 1;
      }
    }

    /** A turn's move: the mover's mark goes into the chosen cell, then checkWin looks for the mover's line. */
    method PlaceMark(move: int, player: int) returns (won: bool)
      requires Valid() && Acceptable(board[..], move) && (player == 0 || player == 1)
      modifies board
      ensures board[..] == old(board[..])[move - 1 := Mark(player)]
      ensures EmptyCount(board[..]) == EmptyCount(old(board[..])) - 1
      ensures HasLine(board[..], Mark(1 - player)) ==> HasLine(old(board[..]), Mark(1 - player))
      ensures won <==> HasLine(board[..], Mark(player))
    {
      ghost var b: Board := board[..];
      board[move - 1] := Mark(player);
      assert board[..] == b[move - 1 := Mark(player)];
      PlaceDecreasesEmptyCount(b, move - 1, Mark(player));
      PlaceKeepsOtherLines(b, move - 1, Mark(player), Mark(1 - player));
      won := CheckWin(board[move - 1]);
    }

    /**
     * A human turn: entries are read from `input` at `next` on until one names an empty cell,
     * which is the move; `ok` is false when the input runs out first. `rest` is where reading stopped.
     */
    method ReadMove(input: seq<int>, next: nat) returns (ok: bool, move: int, rest: nat)
      requires Valid() && next <= |input|
      ensures next <= rest <= |input|
      ensures ok ==> next < rest && move == input[rest - 1] && Acceptable(board[..], move)
      ensures ok ==> forall k :: next <= k < rest - 1 ==> !Acceptable(board[..], input[k])
      ensures !ok ==> rest == |input| && forall k :: next <= k < rest ==> !Acceptable(board[..], input[k])
      ensures ok == HumanMove(board[..], input, next).Some?
      ensures ok ==> HumanMove(board[..], input, next) == Some((move, rest))
    {
      if next == |input| {
        return false, 0, next;
      }
      move := input[next];
      rest := next + 1;
      while move < 1 || move > 9 || board[move - 1] != ' '
        invariant next < rest <= |input| && move == input[rest - 1]
        invariant forall k :: next <= k < rest - 1 ==> !Acceptable(board[..], input[k])
        invariant HumanMove(board[..], input, next) == HumanMove(board[..], input, rest - 1)
        decreases |input| - rest
      {
        if rest == |input| {
          return false, 0, rest;
        }
        move := input[rest];
        rest := rest + 1;
      }
      ok := true;
    }

    /** The end of play: the scores of a draw (winner 2) or of a win by player 0 or 1. */
    method RecordResult(scoreManager: ScoreManager, winner: int) returns (result: TttResult)
      requires scoreManager.Valid()
      requires winner == 0 || winner == 1 || winner == 2
      modifies scoreManager
      ensures scoreManager.Valid()
      ensures result == if winner == 2 then Draw else Won(winner)
      ensures scoreManager.Snapshot() ==
        SaveAll(old(scoreManager.Snapshot()), TttAwards(vsComputer, difficulty, player1Name, player2Name, winner))
    {
      var drawScore := 25;
      var winScore := 100;
      ghost var before := scoreManager.Snapshot();
      ghost var awards := TttAwards(vsComputer, difficulty, player1Name, player2Name, winner);
      if winner == 2 {
        ghost var a := Award("TicTacToe", player1Name, drawScore, 0);
        ghost var a' := Award("TicTacToe", player2Name, drawScore, 0);
        assert awards == if vsComputer then [a] else [a, a'];
        scoreManager.SaveScore("TicTacToe", player1Name, drawScore, 0);
        if !vsComputer {
          scoreManager.SaveScore("TicTacToe", player2Name, drawScore, 0);
        }
        result := Draw;
      } else {
        var winnerName := if winner == 0 then player1Name else player2Name;
        var loserName := if winner == 0 then player2Name else player1Name;
        var totalScore := winScore * difficulty;
        ghost var a := Award("TicTacToe", winnerName, totalScore, 1);
        ghost var a' := Award("TicTacToe", loserName, 10, 0);
        assert awards == if vsComputer then [a] else [a, a'];
        scoreManager.SaveScore("TicTacToe", winnerName, totalScore, 1);
        if !vsComputer {
          scoreManager.SaveScore("TicTacToe", loserName, 10, 0);
        }
        result := Won(winner);
      }
      assert scoreManager.Snapshot() == SaveAll(before, awards) by {
        if |awards| == 1 {
          SaveAllOne(before, awards[0]);
        } else {
          assert awards == [awards[0], awards[1]];
          SaveAllTwo(before, awards[0], awards[1]);
        }
      }
    }
  }
}
