/** The `player_tournament_results` table and reportMatch, which appends a
    match row and updates the two players' records. */
module Recorder {
  import opened Types
  import opened History

  /** A result row: the wins (1 per win, 0.5 per draw), the matches played and
      the strength-of-schedule score of one player in one tournament. */
  datatype Record = Record(wins: real, matches: int, score: real)

  /** Result rows are keyed by (player_id, tournament_id). */
  type Key = (PlayerId, TournamentId)
  type Table = map<Key, Record>

  /** `SET wins = wins + 1, score = score + bonus WHERE (player_id, tournament_id) = k`;
      like an UPDATE, it leaves the table alone when no row matches. */
  function CreditWin(m: Table, k: Key, bonus: real): Table {
    map x | x in m :: if x == k then m[x].(wins := m[x].wins + 1.0, score := m[x].score + bonus) else m[x]
  }

  /** `SET wins = wins + 0.5 WHERE (player_id, tournament_id) IN ks`. */
  function CreditDraw(m: Table, ks: set<Key>): Table {
    map x | x in m :: if x in ks then m[x].(wins := m[x].wins + 0.5) else m[x]
  }

  /** `SET matches = matches + 1 WHERE (player_id, tournament_id) IN ks`. */
  function CountMatch(m: Table, ks: set<Key>): Table {
    map x | x in m :: if x in ks then m[x].(matches := m[x].matches + 1) else m[x]
  }

  /** The result table after reportMatch(p1, p2, t, draw), or None when the
      loser of a win has no row (fetchone() yields nothing and the call fails). */
  function Reported(m: Table, p1: PlayerId, p2: PlayerId, t: TournamentId, draw: bool): (r: Option<Table>)
    ensures r.None? <==> !draw && (p2, t) !in m
    ensures r.Some? ==> r.value.Keys == m.Keys
    // nobody but the two players changes
    ensures r.Some? ==> forall k :: k in m && k != (p1, t) && k != (p2, t) ==> r.value[k] == m[k]
    // a win: the winner gains a win and the loser's pre-match wins as score
    ensures r.Some? && !draw && p1 != p2 && (p1, t) in m ==>
      r.value[(p1, t)] == Record(m[(p1, t)].wins + 1.0, m[(p1, t)].matches + 1, m[(p1, t)].score + m[(p2, t)].wins)
    // a win: the loser only gains a match
    ensures r.Some? && !draw && p1 != p2 ==>
      r.value[(p2, t)] == Record(m[(p2, t)].wins, m[(p2, t)].matches + 1, m[(p2, t)].score)
    // a player reported as beating itself: its one row is updated once per statement
    ensures r.Some? && !draw && p1 == p2 ==>
      r.value[(p1, t)] == Record(m[(p1, t)].wins + 1.0, m[(p1, t)].matches + 1, m[(p1, t)].score + m[(p1, t)].wins)
    // a draw: half a win and a match each, scores untouched
    ensures draw ==> r.Some? && forall k :: k in m && (k == (p1, t) || k == (p2, t)) ==>
      r.value[k] == Record(m[k].wins + 0.5, m[k].matches + 1, m[k].score)
  {
    var both := {(p1, t), (p2, t)};
    if !draw then
      if (p2, t) !in m then None
      else Some(CountMatch(CreditWin(m, (p1, t), m[(p2, t)].wins), both))
    else
      Some(CountMatch(CreditDraw(m, both), both))
  }

  /** Wins a row of `h` earns player `p` in tournament `t`. */
  function RowWins(row: MatchRow, p: PlayerId, t: TournamentId): real {
    if row.tournament != t then 0.0
    else if row.draw then (if row.player1 == p || row.player2 == p then 0.5 else 0.0)
    else if row.player1 == p then 1.0
    else 0.0
  }

  /** Wins of `p` in `t` according to the match history: 1 per win, 0.5 per draw. */
  function WinsIn(h: seq<MatchRow>, p: PlayerId, t: TournamentId): real {
    if h == [] then 0.0 else WinsIn(h[..|h| - 1], p, t) + RowWins(h[|h| - 1], p, t)
  }

  /** Matches of `p` in `t` according to the match history. */
  function MatchesIn(h: seq<MatchRow>, p: PlayerId, t: TournamentId): int {
    if h == [] then 0
    else
      var row := h[|h| - 1];
      MatchesIn(h[..|h| - 1], p, t) + (if row.tournament == t && (row.player1 == p || row.player2 == p) then 1 else 0)
  }

  /** Score of `p` in `t` according to the match history: for every match `p`
      won, the wins its opponent had before that match. */
  function ScoreIn(h: seq<MatchRow>, p: PlayerId, t: TournamentId): real {
    if h == [] then 0.0
    else
      var row := h[|h| - 1];
      var before := h[..|h| - 1];
      ScoreIn(before, p, t) + (if row.tournament == t && !row.draw && row.player1 == p then WinsIn(before, row.player2, t) else 0.0)
  }

  /** Every result row agrees with the match history. */
  ghost predicate Consistent(m: Table, h: seq<MatchRow>) {
    forall k :: k in m ==>
      m[k].wins == WinsIn(h, k.0, k.1) && m[k].matches == MatchesIn(h, k.0, k.1) && m[k].score == ScoreIn(h, k.0, k.1)
  }

  /** A successful report keeps the result table in agreement with the history
      it extends by one row. */
  lemma {:induction false} ReportKeepsConsistent(m: Table, h: seq<MatchRow>, p1: PlayerId, p2: PlayerId, t: TournamentId, draw: bool)
    requires Consistent(m, h)
    requires Reported(m, p1, p2, t, draw).Some?
    ensures Consistent(Reported(m, p1, p2, t, draw).value, h + [MatchRow(t, p1, p2, draw)])
  {
    var m' := Reported(m, p1, p2, t, draw).value;
    var row := MatchRow(t, p1, p2, draw);
    var h' := h + [row];
    assert h'[..|h'| - 1] == h && h'[|h'| - 1] == row;
    forall k | k in m'
      ensures m'[k].wins == WinsIn(h', k.0, k.1) && m'[k].matches == MatchesIn(h', k.0, k.1)
      ensures m'[k].score == ScoreIn(h', k.0, k.1)
    {
      assert WinsIn(h', k.0, k.1) == WinsIn(h, k.0, k.1) + RowWins(row, k.0, k.1);
      if !draw && k == (p1, t) {
        assert (p2, t) in m;
      }
    }
  }

  /** A failed win report is not atomic: the match row is already committed
      when the loser's row turns out to be missing, so whenever the winner has
      a row, the unchanged result table no longer agrees with the history. */
  lemma {:induction false} FailedReportLeavesResultsBehind(m: Table, h: seq<MatchRow>, p1: PlayerId, p2: PlayerId, t: TournamentId)
    requires Consistent(m, h)
    requires (p1, t) in m && (p2, t) !in m
    ensures Reported(m, p1, p2, t, false).None?
    ensures !Consistent(m, h + [MatchRow(t, p1, p2, false)])
  {
    var h' := h + [MatchRow(t, p1, p2, false)];
    assert h'[..|h'| - 1] == h;
    assert WinsIn(h', p1, t) == m[(p1, t)].wins + 1.0;
  }

  /** The database: the match history and the result table. */
  class Store {
    var history: seq<MatchRow>
    var results: Table

    constructor (history0: seq<MatchRow>, results0: Table)
      ensures history == history0 && results == results0
    {
      history := history0;
      results := results0;
    }

    /** reportMatch: player1 beat player2, or the two drew. The match row is
        committed first, so it stays even when the loser has no result row. */
    method ReportMatch(player1: PlayerId, player2: PlayerId, tournament: TournamentId, draw: bool) returns (r: Result<()>)
      modifies this
      ensures history == old(history) + [MatchRow(tournament, player1, player2, draw)]
      ensures r.Err? <==> Reported(old(results), player1, player2, tournament, draw).None?
      ensures r.Err? ==> r.error == MissingResultRow && results == old(results)
      ensures r.Ok? ==> results == Reported(old(results), player1, player2, tournament, draw).value
      ensures r.Ok? && Consistent(old(results), old(history)) ==> Consistent(results, history)
    {
      ghost var m, h := results, history;
      var both := {(player1, tournament), (player2, tournament)};
      history := history + [MatchRow(tournament, player1, player2, draw)];
      if !draw {
        if (player2, tournament) !in results {
          return Err(MissingResultRow);
        }
        var loserWins := results[(player2, tournament)].wins;
        results := CreditWin(results, (player1, tournament), loserWins);
      } else {
        results := CreditDraw(results, both);
      }
      results := CountMatch(results, both);
      r := Ok(());
      if Consistent(m, h) {
        ReportKeepsConsistent(m, h, player1, player2, tournament, draw);
      }
    }
  }
}
