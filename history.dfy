/** The `matches` table and the rematch-exclusion query built on it. */
module History {
  import opened Types

  /** One row of `matches`: (tournament_id, player1_id, player2_id, draw).
      When `draw` is false, player1 won and player2 lost. */
  datatype MatchRow = MatchRow(tournament: TournamentId, player1: PlayerId, player2: PlayerId, draw: bool)

  /** `row` is a match between `p` and `q`, with `p` on either side. */
  predicate Between(row: MatchRow, p: PlayerId, q: PlayerId) {
    (row.player1 == p && row.player2 == q) || (row.player2 == p && row.player1 == q)
  }

  /** Everyone `p` has already met in tournament `t`: the union of the opponents
      it met as player1 and those it met as player2, whatever the outcome. */
  function Opponents(h: seq<MatchRow>, t: TournamentId, p: PlayerId): (r: set<PlayerId>)
    ensures forall q :: q in r <==> exists i :: 0 <= i < |h| && h[i].tournament == t && Between(h[i], p, q)
  {
    if h == [] then {}
    else
      var row := h[|h| - 1];
      var earlier := Opponents(h[..|h| - 1], t, p);
      assert forall i :: 0 <= i < |h| - 1 ==> h[..|h| - 1][i] == h[i];
      if row.tournament != t then earlier
      else
        earlier
        + (if row.player1 == p then {row.player2} else {})
        + (if row.player2 == p then {row.player1} else {})
  }

  /** `p` and `q` have already played each other in tournament `t`. */
  predicate Played(h: seq<MatchRow>, t: TournamentId, p: PlayerId, q: PlayerId) {
    q in Opponents(h, t, p)
  }

  /** The exclusion looks in both directions: having played is symmetric, and a
      drawn match counts as played like any other. */
  lemma PlayedSymmetric(h: seq<MatchRow>, t: TournamentId, p: PlayerId, q: PlayerId)
    ensures Played(h, t, p, q) <==> Played(h, t, q, p)
  {
    if Played(h, t, p, q) {
      var i :| 0 <= i < |h| && h[i].tournament == t && Between(h[i], p, q);
      assert Between(h[i], q, p);
    }
    if Played(h, t, q, p) {
      var i :| 0 <= i < |h| && h[i].tournament == t && Between(h[i], q, p);
      assert Between(h[i], p, q);
    }
  }

  /** Appending a match row, drawn or not, makes its two players count as having
      played, and every pair that had played still has. */
  lemma AppendedMatchIsPlayed(h: seq<MatchRow>, row: MatchRow)
    ensures Played(h + [row], row.tournament, row.player1, row.player2)
    ensures Played(h + [row], row.tournament, row.player2, row.player1)
    ensures forall p, q :: Played(h, row.tournament, p, q) ==> Played(h + [row], row.tournament, p, q)
  {
    var h' := h + [row];
    assert h'[|h|] == row;
    assert Between(h'[|h|], row.player1, row.player2);
    assert Between(h'[|h|], row.player2, row.player1);
    forall p, q | Played(h, row.tournament, p, q)
      ensures Played(h', row.tournament, p, q)
    {
      var i :| 0 <= i < |h| && h[i].tournament == row.tournament && Between(h[i], p, q);
      assert h'[i] == h[i];
    }
  }
}
