/**
 * The score ledger of the arcade: three per-game tables of player records,
 * each kept ranked by score (descending) and then wins (descending).
 */
module ScoreLedger {

  datatype Option<T> = None | Some(value: T)

  /** One player's aggregate record in one game's table. */
  datatype PlayerScore = PlayerScore(name: string, score: int, gamesPlayed: int, wins: int)

  /** The ranking comparator: `a` ranks strictly before `b`. */
  predicate CompScores(a: PlayerScore, b: PlayerScore)
  {
    if a.score > b.score then true
    else if a.score < b.score then false
    else a.wins > b.wins
  }

  /** Lexicographic "at least as good" on (score, wins): the reference order. */
  predicate RanksAtLeast(a: PlayerScore, b: PlayerScore)
  {
    a.score > b.score || (a.score == b.score && a.wins >= b.wins)
  }

  /** The comparator is the strict part of the lexicographic order on (score, wins). */
  lemma CompScoresIsStrictOrder(a: PlayerScore, b: PlayerScore, c: PlayerScore)
    ensures CompScores(a, b) <==> !RanksAtLeast(b, a)
    ensures !CompScores(a, a)
    ensures CompScores(a, b) ==> !CompScores(b, a)
    ensures CompScores(a, b) && CompScores(b, c) ==> CompScores(a, c)
    ensures !CompScores(a, b) && !CompScores(b, a) <==> a.score == b.score && a.wins == b.wins
  {
  }

  /** No record is ranked strictly before an earlier one. */
  ghost predicate Sorted(s: seq<PlayerScore>)
  {
    forall i, j :: 0 <= i < j < |s| ==> !CompScores(s[j], s[i])
  }

  ghost predicate UniqueNames(s: seq<PlayerScore>)
  {
    forall i, j :: 0 <= i < j < |s| ==> s[i].name != s[j].name
  }

  ghost function Names(s: seq<PlayerScore>): set<string>
  {
    set i | 0 <= i < |s| :: s[i].name
  }

  lemma UniqueNamesCons(x: PlayerScore, s: seq<PlayerScore>)
    ensures UniqueNames([x] + s) <==> x.name !in Names(s) && UniqueNames(s)
  {
    var t := [x] + s;
    if x.name !in Names(s) && UniqueNames(s) {
      forall i, j | 0 <= i < j < |t| ensures t[i].name != t[j].name {
        if i == 0 {
          assert t[j].name == s[j - 1].name;
          assert s[j - 1].name in Names(s);
        } else {
          assert t[i] == s[i - 1] && t[j] == s[j - 1];
        }
      }
    }
    if UniqueNames(t) {
      forall i, j | 0 <= i < j < |s| ensures s[i].name != s[j].name {
        assert t[i + 1] == s[i] && t[j + 1] == s[j];
      }
      forall k | 0 <= k < |s| ensures s[k].name != x.name {
        assert t[0] == x && t[k + 1] == s[k];
        assert t[0].name != t[k + 1].name;
      }
    }
  }

  lemma NamesCons(x: PlayerScore, s: seq<PlayerScore>)
    ensures Names([x] + s) == {x.name} + Names(s)
  {
    var t := [x] + s;
    forall n | n in Names(t) ensures n in {x.name} + Names(s) {
      var i :| 0 <= i < |t| && t[i].name == n;
      if i > 0 { assert t[i] == s[i - 1]; assert s[i - 1].name in Names(s); }
    }
    forall n | n in Names(s) ensures n in Names(t) {
      var i :| 0 <= i < |s| && s[i].name == n;
      assert t[i + 1] == s[i];
      assert t[i + 1].name in Names(t);
    }
    assert t[0].name in Names(t);
  }

  /**
   * Inserts `x` in front of the first record it is not ranked below.
   */
  function Insert(x: PlayerScore, s: seq<PlayerScore>): (r: seq<PlayerScore>)
    ensures |r| == |s| + 1
    ensures multiset(r) == multiset(s) + multiset{x}
    ensures Sorted(s) ==> Sorted(r)
  {
    if s == [] || !CompScores(s[0], x) then
      InsertFrontSorted(x, s);
      [x] + s
    else
      var t := Insert(x, s[1..]);
      assert s == [s[0]] + s[1..];
      InsertBehindSorted(s[0], x, s[1..], t);
      [s[0]] + t
  }

  lemma InsertFrontSorted(x: PlayerScore, s: seq<PlayerScore>)
    requires s == [] || !CompScores(s[0], x)
    ensures Sorted(s) ==> Sorted([x] + s)
  {
    if Sorted(s) {
      var t := [x] + s;
      forall i, j | 0 <= i < j < |t| ensures !CompScores(t[j], t[i]) {
        if i > 0 { assert t[i] == s[i - 1] && t[j] == s[j - 1]; }
        else if j > 1 { assert !CompScores(s[j - 1], s[0]); }
      }
    }
  }

  lemma InsertBehindSorted(y: PlayerScore, x: PlayerScore, s: seq<PlayerScore>, t: seq<PlayerScore>)
    requires CompScores(y, x)
    requires multiset(t) == multiset(s) + multiset{x}
    requires Sorted(s) ==> Sorted(t)
    ensures Sorted([y] + s) ==> Sorted([y] + t)
  {
    if Sorted([y] + s) {
      assert Sorted(s) by {
        forall i, j | 0 <= i < j < |s| ensures !CompScores(s[j], s[i]) {
          assert ([y] + s)[i + 1] == s[i] && ([y] + s)[j + 1] == s[j];
        }
      }
      var u := [y] + t;
      forall i, j | 0 <= i < j < |u| ensures !CompScores(u[j], u[i]) {
        if i > 0 {
          assert u[i] == t[i - 1] && u[j] == t[j - 1];
        } else {
          assert u[j] == t[j - 1];
          assert t[j - 1] in multiset(t);
          if t[j - 1] != x {
            assert t[j - 1] in multiset(s);
            var k :| 0 <= k < |s| && s[k] == t[j - 1];
            assert ([y] + s)[k + 1] == s[k] && ([y] + s)[0] == y;
            assert !CompScores(([y] + s)[k + 1], ([y] + s)[0]);
          }
        }
      }
    }
  }

  /** The ranked view: insertion sort by the comparator. */
  function SortByRank(s: seq<PlayerScore>): (r: seq<PlayerScore>)
    ensures |r| == |s|
    ensures multiset(r) == multiset(s)
    ensures Sorted(r)
  {
    if s == [] then []
    else
      assert s == [s[0]] + s[1..];
      Insert(s[0], SortByRank(s[1..]))
  }

  /** A permutation keeps the set of names; with the length, it keeps uniqueness. */
  lemma {:induction false} PermutationKeepsNames(s: seq<PlayerScore>, t: seq<PlayerScore>)
    requires multiset(s) == multiset(t)
    ensures Names(s) == Names(t)
    ensures UniqueNames(s) ==> UniqueNames(t)
    decreases |s|
  {
    assert |s| == |multiset(s)| == |multiset(t)| == |t|;
    if s != [] {
      var x := s[0];
      assert x in multiset(t);
      var k :| 0 <= k < |t| && t[k] == x;
      var t' := t[..k] + t[k + 1..];
      assert multiset(s[1..]) == multiset(t') by {
        RemoveAt(t, k);
        assert s == [x] + s[1..];
        assert multiset(s[1..]) == multiset(s) - multiset{x};
      }
      PermutationKeepsNames(s[1..], t');
      // t is t' with x put back at position k; s is s[1..] with x put back in front
      assert t == t[..k] + [x] + t[k + 1..] by { RemoveAt(t, k); }
      RotateNames(t[..k], x, t[k + 1..]);
      assert Names(s) == Names(t) by {
        NamesCons(x, s[1..]);
        assert s == [x] + s[1..];
      }
      assert UniqueNames(s) ==> UniqueNames(t) by {
        UniqueNamesCons(x, s[1..]);
        UniqueNamesCons(x, t');
        assert s == [x] + s[1..];
      }
    }
  }

  lemma RemoveAt(t: seq<PlayerScore>, k: nat)
    requires k < |t|
    ensures t == t[..k] + [t[k]] + t[k + 1..]
    ensures multiset(t[..k] + t[k + 1..]) == multiset(t) - multiset{t[k]}
  {
    assert t == t[..k] + [t[k]] + t[k + 1..];
    assert multiset(t) == multiset(t[..k]) + multiset{t[k]} + multiset(t[k + 1..]);
  }

  /** Moving one record to the front changes neither the names nor their uniqueness. */
  lemma RotateNames(a: seq<PlayerScore>, x: PlayerScore, b: seq<PlayerScore>)
    ensures Names(a + [x] + b) == {x.name} + Names(a + b)
    ensures UniqueNames(a + [x] + b) <==> UniqueNames([x] + (a + b))
  {
    var t := a + [x] + b;
    var u := [x] + (a + b);
    // position p of t holds what position Pos(p) of u holds
    assert forall p :: 0 <= p < |a| ==> t[p] == u[p + 1];
    assert t[|a|] == u[0];
    assert forall p :: |a| < p < |t| ==> t[p] == u[p];
    assert forall q :: 1 <= q <= |a| ==> u[q] == t[q - 1];
    assert forall q :: |a| < q < |u| ==> u[q] == t[q];
    NamesCons(x, a + b);
    forall n | n in Names(t) ensures n in Names(u) {
      var p :| 0 <= p < |t| && t[p].name == n;
      if p < |a| { assert u[p + 1].name == n; } else if p == |a| { assert u[0].name == n; } else { assert u[p].name == n; }
    }
    forall n | n in Names(u) ensures n in Names(t) {
      var q :| 0 <= q < |u| && u[q].name == n;
      if q == 0 { assert t[|a|].name == n; } else if q <= |a| { assert t[q - 1].name == n; } else { assert t[q].name == n; }
    }
    if UniqueNames(t) {
      forall i, j | 0 <= i < j < |u| ensures u[i].name != u[j].name {
        var pi := if i == 0 then |a| else if i <= |a| then i - 1 else i;
        var pj := if j == 0 then |a| else if j <= |a| then j - 1 else j;
        assert u[i] == t[pi] && u[j] == t[pj] && pi != pj;
        if pi > pj { assert t[pj].name != t[pi].name; }
      }
    }
    if UniqueNames(u) {
      forall i, j | 0 <= i < j < |t| ensures t[i].name != t[j].name {
        var qi := if i < |a| then i + 1 else if i == |a| then 0 else i;
        var qj := if j < |a| then j + 1 else if j == |a| then 0 else j;
        assert t[i] == u[qi] && t[j] == u[qj] && qi != qj;
        if qi > qj { assert u[qj].name != u[qi].name; }
      }
    }
  }

  /** The index of the first record named `name`, as the search loop of saveScore finds it. */
  function FindName(s: seq<PlayerScore>, name: string): (r: Option<nat>)
    ensures r.Some? ==> r.value < |s| && s[r.value].name == name
    ensures r.Some? ==> forall k :: 0 <= k < r.value ==> s[k].name != name
    ensures r.None? <==> name !in Names(s)
  {
    if s == [] then None
    else if s[0].name == name then Some(0)
    else
      NamesCons(s[0], s[1..]);
      assert s == [s[0]] + s[1..];
      match FindName(s[1..], name)
      case None => None
      case Some(k) => Some(k + 1)
  }

  /** The record of a player who already has one, after one more recorded play. */
  function Accumulated(r: PlayerScore, score: int): PlayerScore
  {
    PlayerScore(r.name, r.score + score, r.gamesPlayed + 1, r.wins + 1)
  }

  /**
   * The record of `name` after one recorded play, before re-sorting: an existing
   * record adds `score` and counts one more game and ONE MORE WIN whatever `wins`
   * says; a new record starts at (score, 1 game, `wins`).
   */
  function Upserted(s: seq<PlayerScore>, name: string, score: int, wins: int): seq<PlayerScore>
  {
    match FindName(s, name)
    case Some(k) => s[k := Accumulated(s[k], score)]
    case None =>
      s + [PlayerScore(name, score, 1, wins)]
  }

  /** Exactly one record changes (or is added), and names stay unique. */
  lemma UpsertedChangesOneRecord(s: seq<PlayerScore>, name: string, score: int, wins: int)
    ensures name in Names(s) ==>
      exists k :: 0 <= k < |s| && s[k].name == name &&
        Upserted(s, name, score, wins) == s[k := Accumulated(s[k], score)]
    ensures name !in Names(s) ==>
      Upserted(s, name, score, wins) == s + [PlayerScore(name, score, 1, wins)]
    ensures UniqueNames(s) ==> UniqueNames(Upserted(s, name, score, wins))
    ensures Names(Upserted(s, name, score, wins)) == Names(s) + {name}
  {
    var u := Upserted(s, name, score, wins);
    match FindName(s, name)
    case Some(k) =>
      assert u[k].name == name;
      forall n | n in Names(u) ensures n in Names(s) + {name} {
        var i :| 0 <= i < |u| && u[i].name == n;
        if i != k { assert u[i] == s[i]; }
      }
      forall n | n in Names(s) + {name} ensures n in Names(u) {
        if n != name {
          var i :| 0 <= i < |s| && s[i].name == n;
          assert u[i] == s[i];
        }
      }
      if UniqueNames(s) {
        forall i, j | 0 <= i < j < |u| ensures u[i].name != u[j].name {
          assert u[i].name == s[i].name && u[j].name == s[j].name;
        }
      }
    case None =>
      forall n | n in Names(u) ensures n in Names(s) + {name} {
        var i :| 0 <= i < |u| && u[i].name == n;
        if i < |s| { assert u[i] == s[i]; }
      }
      forall n | n in Names(s) + {name} ensures n in Names(u) {
        if n == name { assert u[|s|].name == n; }
        else {
          var i :| 0 <= i < |s| && s[i].name == n;
          assert u[i] == s[i];
        }
      }
      if UniqueNames(s) {
        forall i, j | 0 <= i < j < |u| ensures u[i].name != u[j].name {
          if j == |s| { assert s[i].name in Names(s); }
        }
      }
  }

  /** Which of the three tables a game name is routed to. */
  datatype Table = TicTacToeTable | NumberGuessTable | RockPaperScissorsTable

  /** The router of getScoreVector: two names are recognised, everything else is the RPS table. */
  function TableFor(gameName: string): (t: Table)
    ensures t == TicTacToeTable <==> gameName == "TicTacToe"
    ensures t == NumberGuessTable <==> gameName == "NumberGuess"
  {
    if gameName == "TicTacToe" then TicTacToeTable
    else if gameName == "NumberGuess" then NumberGuessTable
    else RockPaperScissorsTable
  }

  /** The name the number-guessing game saves under is not the one the router knows. */
  lemma {:induction false} NumberGuessingSavesToRpsTable()
    ensures TableFor("NumberGuessing") == RockPaperScissorsTable
    ensures TableFor("RockPaperScissors") == RockPaperScissorsTable
    ensures TableFor("TicTacToe") == TicTacToeTable
  {
    assert "NumberGuessing" != "NumberGuess" by { assert |"NumberGuessing"| != |"NumberGuess"|; }
    assert "NumberGuessing" != "TicTacToe" by { assert "NumberGuessing"[0] != "TicTacToe"[0]; }
    assert "RockPaperScissors" != "NumberGuess" by { assert "RockPaperScissors"[0] != "NumberGuess"[0]; }
    assert "RockPaperScissors" != "TicTacToe" by { assert "RockPaperScissors"[0] != "TicTacToe"[0]; }
  }

  /** The three tables as one value. */
  datatype Ledger = Ledger(ttt: seq<PlayerScore>, ng: seq<PlayerScore>, rps: seq<PlayerScore>)
  {
    function Get(t: Table): seq<PlayerScore>
    {
      match t
      case TicTacToeTable => ttt
      case NumberGuessTable => ng
      case RockPaperScissorsTable => rps
    }

    function Set(t: Table, s: seq<PlayerScore>): (l: Ledger)
      ensures l.Get(t) == s
      ensures forall u :: u != t ==> l.Get(u) == Get(u)
    {
      match t
      case TicTacToeTable => this.(ttt := s)
      case NumberGuessTable => this.(ng := s)
      case RockPaperScissorsTable => this.(rps := s)
    }
  }

  /** Every table is ranked and has at most one record per name. */
  ghost predicate WellFormed(l: Ledger)
  {
    forall t :: Sorted(l.Get(t)) && UniqueNames(l.Get(t))
  }

  /** saveScore on the ledger value: upsert into the routed table, then re-rank it. */
  function Save(l: Ledger, gameName: string, playerName: string, score: int, wins: int): Ledger
  {
    var t := TableFor(gameName);
    l.Set(t, SortByRank(Upserted(l.Get(t), playerName, score, wins)))
  }

  /** In a table with unique names, the upsert replaces exactly the player's record, or adds one. */
  lemma UpsertedRecords(s: seq<PlayerScore>, name: string, score: int, wins: int)
    requires UniqueNames(s)
    ensures name !in Names(s) ==>
      multiset(Upserted(s, name, score, wins)) == multiset(s) + multiset{PlayerScore(name, score, 1, wins)}
    ensures forall r :: r in s && r.name == name ==>
      multiset(Upserted(s, name, score, wins)) == multiset(s) - multiset{r} + multiset{Accumulated(r, score)}
  {
    var u := Upserted(s, name, score, wins);
    forall r | r in s && r.name == name
      ensures multiset(u) == multiset(s) - multiset{r} + multiset{Accumulated(r, score)}
    {
      var i :| 0 <= i < |s| && s[i] == r;
      var k := FindName(s, name).value;
      assert i == k;
      assert u == s[k := Accumulated(r, score)];
    }
  }

  /**
   * What one save does to the ledger: only the routed table changes; it holds the old
   * records with the player's record replaced (or added), ranked; names stay unique.
   */
  lemma {:induction false} SaveSpec(l: Ledger, gameName: string, playerName: string, score: int, wins: int)
    requires UniqueNames(l.Get(TableFor(gameName)))
    ensures var t := TableFor(gameName);
      var s' := Save(l, gameName, playerName, score, wins).Get(t);
      && Sorted(s')
      && UniqueNames(s')
      && |l.Get(t)| <= |s'| <= |l.Get(t)| + 1
      && Names(s') == Names(l.Get(t)) + {playerName}
      && (playerName !in Names(l.Get(t)) ==>
            multiset(s') == multiset(l.Get(t)) + multiset{PlayerScore(playerName, score, 1, wins)})
      && (forall r :: r in l.Get(t) && r.name == playerName ==>
            multiset(s') == multiset(l.Get(t)) - multiset{r} + multiset{Accumulated(r, score)})
    ensures forall u :: u != TableFor(gameName) ==> Save(l, gameName, playerName, score, wins).Get(u) == l.Get(u)
  {
    var t := TableFor(gameName);
    var s := l.Get(t);
    var u := Upserted(s, playerName, score, wins);
    var s' := SortByRank(u);
    assert Save(l, gameName, playerName, score, wins).Get(t) == s';
    UpsertedChangesOneRecord(s, playerName, score, wins);
    UpsertedRecords(s, playerName, score, wins);
    PermutationKeepsNames(u, s');
  }

  lemma SaveKeepsWellFormed(l: Ledger, gameName: string, playerName: string, score: int, wins: int)
    requires WellFormed(l)
    ensures WellFormed(Save(l, gameName, playerName, score, wins))
  {
    SaveSpec(l, gameName, playerName, score, wins);
  }

  /** One outcome to record: the game it is saved under, the player, the points and the win flag. */
  datatype Award = Award(game: string, player: string, score: int, wins: int)

  /** The ledger after recording the awards in order. */
  function SaveAll(l: Ledger, awards: seq<Award>): Ledger
    decreases |awards|
  {
    if awards == [] then l
    else
      var a := awards[0];
      SaveAll(Save(l, a.game, a.player, a.score, a.wins), awards[1..])
  }

  lemma SaveAllOne(l: Ledger, a: Award)
    ensures SaveAll(l, [a]) == Save(l, a.game, a.player, a.score, a.wins)
  {
    assert [a][1..] == [];
  }

  lemma SaveAllTwo(l: Ledger, a: Award, b: Award)
    ensures SaveAll(l, [a, b]) == Save(Save(l, a.game, a.player, a.score, a.wins), b.game, b.player, b.score, b.wins)
  {
    assert [a, b][1..] == [b];
    SaveAllOne(Save(l, a.game, a.player, a.score, a.wins), b);
  }

  /** Recording the same player twice accumulates into a single record. */
  lemma {:induction false} RepeatedSaveAccumulates(g: string)
    ensures Save(Save(Ledger([], [], []), g, "Alice", 100, 1), g, "Alice", 50, 0).Get(TableFor(g))
      == [PlayerScore("Alice", 150, 2, 2)]
  {
    var t := TableFor(g);
    var l1 := Save(Ledger([], [], []), g, "Alice", 100, 1);
    assert Upserted([], "Alice", 100, 1) == [PlayerScore("Alice", 100, 1, 1)];
    assert l1.Get(t) == [PlayerScore("Alice", 100, 1, 1)];
    assert FindName(l1.Get(t), "Alice") == Some(0);
    assert Upserted(l1.Get(t), "Alice", 50, 0) == [PlayerScore("Alice", 150, 2, 2)];
  }

  /** The ledger of the arcade, shared by the three games. */
  class ScoreManager {
    var tttScores: seq<PlayerScore>
    var ngScores: seq<PlayerScore>
    var rpsScores: seq<PlayerScore>

    function Snapshot(): Ledger
      reads this
    {
      Ledger(tttScores, ngScores, rpsScores)
    }

    ghost predicate Valid()
      reads this
    {
      WellFormed(Snapshot())
    }

    constructor ()
      ensures Valid()
      ensures Snapshot() == Ledger([], [], [])
    {
      tttScores, ngScores, rpsScores := [], [], [];
    }

    /** getScoreVector, as a read of the routed table. */
    function ScoreVector(gameName: string): (s: seq<PlayerScore>)
      reads this
      ensures s == Snapshot().Get(TableFor(gameName))
    {
      match TableFor(gameName)
      case TicTacToeTable => tttScores
      case NumberGuessTable => ngScores
      case RockPaperScissorsTable => rpsScores
    }

    method SaveScore(gameName: string, playerName: string, score: int, wins: int)
      requires Valid()
      modifies this
      ensures Valid()
      ensures Snapshot() == Save(old(Snapshot()), gameName, playerName, score, wins)
    {
      var scores := ScoreVector(gameName);
      ghost var before := scores;
      var flag := false;
      var i := 0;
      while i < |scores|
        invariant 0 <= i <= |scores| == |before|
        invariant !flag ==> scores == before
        invariant !flag ==> forall k :: 0 <= k < i ==> before[k].name != playerName
        invariant flag ==> scores == Upserted(before, playerName, score, wins)
      {
        if scores[i].name == playerName {
          assert FindName(before, playerName) == Some(i);
          var it := scores[i];
          scores := scores[i := PlayerScore(it.name, it.score + score, it.gamesPlayed + 1, it.wins + 1)];
          flag := true;
          break;
        }
        i := i + 1;
      }
      if !flag {
        assert FindName(before, playerName) == None;
        scores := scores + [PlayerScore(playerName, score, 1, wins)];
      }
      assert scores == Upserted(before, playerName, score, wins);
      scores := SortByRank(scores);
      var l0 := Snapshot();
      var l := l0.Set(TableFor(gameName), scores);
      assert l == Save(l0, gameName, playerName, score, wins);
      SaveKeepsWellFormed(l0, gameName, playerName, score, wins);
      tttScores, ngScores, rpsScores := l.ttt, l.ng, l.rps;
      assert Snapshot() == l;
    }

    method ResetAllScores()
      modifies this
      ensures Valid()
      ensures Snapshot() == Ledger([], [], [])
    {
      tttScores := [];
      ngScores := [];
      rpsScores := [];
    }
  }
}
