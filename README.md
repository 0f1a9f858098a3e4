# Swiss-system tournament pairing, modelled in Dafny

This project models the core of `tournament.py`, a Swiss-system tournament
manager backed by a PostgreSQL database. It covers three operations and the
tables they work on.

- **playerStandings**: the parity gate. The standings rows are handed on only
  when there is an even number of players.
- **reportMatch**: records a result. It appends a row to `matches` and updates
  the `player_tournament_results` rows of the two players:
  - a win gives the winner one win and, as score, the wins its opponent had
    before the match;
  - a draw gives each player half a win;
  - both players gain one match.
- **swissPairings**: one greedy pass over the standings.
  - Each player still in the pool is paired with the first player in
    standings order who is still in the pool and whom it has not met in this
    tournament.
  - When the visited player is still in the pool and only two players are
    left in it, those two are paired without looking at the history, and the
    loop stops. Otherwise the loop can end with two players left over,
    unpaired.
  - A player with no eligible opponent is skipped and stays in the pool.
  - The call fails with `OddPlayerCount` when the player count is odd (it
    goes through `playerStandings`), and with `NoUniqueMatches` when no pair
    at all was formed.

## Modules

- `Types`: player and tournament ids, the `Error` cases, and `Result`/`Option`.
- `History`: the `matches` rows. Also `Opponents`, the subquery that finds
  everyone a player has met, and `Played`.
- `Standings`: a standings row; `RowOf`, the `standings_dict` lookup;
  `PlayerStandings`, the parity gate.
- `Recorder`: the result table as a map keyed by (player, tournament).
  - `Reported` is the specification of one report.
  - `Consistent` says every result row agrees with the match history.
  - The class `Store` holds both tables. Its method `ReportMatch` updates them.
- `Pairing`: the pass.
  - `Step` and `Scan` are the specification, one loop iteration at a time.
  - `PassInvariant` is what every state of the pass satisfies, proved by
    induction.
  - `SwissPairings` is the loop itself. It is proved equal to `Scan` by the
    invariant `PassState(pool, pairs, done) == Scan(s, h, t, i)`.
  - `FindOpponent` is the inner loop.
- `Scenarios`: concrete rounds. They include the repository's own pairing
  test, a round that comes back incomplete, and a round whose last pair is a
  rematch.

## Modelling decisions

- **Inputs.**
  - The database becomes explicit values: the `matches` rows are a
    `seq<MatchRow>`, and the result table is a `map`.
  - The `tournament_standings` view is an input: a sequence of rows already
    in the view's order. `Ranked` states the order the view is meant to
    deliver (wins, then score, both descending). It is a hypothesis of the
    scenario that needs it.
  - The ids in the standings are required to be distinct, because the view
    has one row per player and tournament.
- **Wins and score are `real`.** A draw adds `0.5`. The repository's test
  (`tournament_test.py:162-163`) expects a drawing player to have 1 win. The
  model follows the code, which adds half a win.
- **Error results replace exits.**
  - `print` followed by `sys.exit(1)` becomes an `Err`: an odd player count
    gives `OddPlayerCount`, and a pass that formed no pair gives
    `NoUniqueMatches`.
  - When the loser of a reported win has no result row, `fetchone()` returns
    nothing and `reportMatch` raises. The model returns `MissingResultRow`.
    The match row was committed before the failing read, so it stays in the
    history, and the result table is unchanged.
    `FailedReportLeavesResultsBehind` shows the consequence: if the winner has
    a row, the result table no longer agrees with the history.
- **UPDATE statements are maps over the table.** An `UPDATE … WHERE
  player_id IN (p1, p2)` touches each row at most once. A match reported with
  `p1 == p2` therefore counts as one match for that player, and a row that is
  absent stays absent.
- **The code is followed where the docstring promises more.**
  - The docstring of `swissPairings` (`tournament.py:242-245`) says each
    player appears exactly once in the pairings. The code skips a player
    with no eligible opponent, and can return an incomplete round:
    `SkippedPlayersStayUnpaired` shows such a round.
  - The two-left branch pairs the last two players even when they have
    already met: `TwoLeftMayRepeatAMatch` shows it.
  - The model keeps both behaviours, and its contracts state what the code
    guarantees:
    - the pairs are disjoint;
    - no pair formed by the general branch is a rematch;
    - each general-branch opponent is the nearest eligible one;
    - every player is paired when the two-left branch closes the pass;
    - the two-left branch does close the pass, and so every player appears in
      exactly one pair, when the player count is even and non-zero and no
      visited player is skipped (`CompleteRound`).

## Model

| member | source | states |
|---|---|---|
| Standings.PlayerStandings | tournament.py:173-177 | the rows are returned unchanged exactly when their number is even; otherwise the error is OddPlayerCount |
| Standings.RowOf | tournament.py:272 | the looked-up row is one of the standings rows and carries the requested id |
| Standings.RowOfOwnId | tournament.py:272 | with distinct ids, looking up a row's own id in the dictionary returns that row |
| History.Opponents | tournament.py:286-298 | q is an opponent of p in tournament t exactly when some match row of t has p and q on opposite sides, whatever the outcome |
| History.PlayedSymmetric | tournament.py:290-295 | the exclusion query is symmetric: p has played q exactly when q has played p |
| History.AppendedMatchIsPlayed | tournament.py:194-196 | once a match row is inserted, its two players count as having played each other, and every pair of players that had played in that tournament still has |
| Recorder.Reported | tournament.py:199-229 | fails exactly when a win's loser has no result row. Otherwise the keys are kept and only the two players' rows change. A winner gains one win, one match and the loser's pre-match wins as score. A loser gains one match. A self-reported win updates its one row once. A draw gives each present row half a win and one match, with the score unchanged. The table is built from CreditWin, CreditDraw and CountMatch, one per UPDATE statement (tournament.py:209-214, 217-222, 224-229) |
| Recorder.ReportKeepsConsistent | tournament.py:194-229 | if every result row agrees with the wins, matches and score derived from the history, it still agrees after a successful report and its appended match row |
| Recorder.FailedReportLeavesResultsBehind | tournament.py:194-207 | the report is not atomic: when the winner has a result row and the loser has none, the report fails, and the unchanged result table no longer agrees with the history that already holds the committed match row |
| Recorder.Store.ReportMatch | tournament.py:183-232 | the history gains exactly the reported match row, even on failure. The call fails with MissingResultRow exactly when the loser's row is absent, leaving the results unchanged. On success the results are the specified table, and agreement with the history is preserved |
| Pairing.Remove | tournament.py:306-307 | deleting a present id shortens the pool by one, keeps every other id, and adds nothing |
| Pairing.RemoveAt | tournament.py:306-307 | deleting the first occurrence of the element at index i cuts exactly that position out |
| Pairing.FirstIn | tournament.py:303-308 | the result is the index of the first standings row whose id is eligible, or the length when none is |
| Pairing.FindOpponent | tournament.py:303-308 | the inner loop returns exactly the first eligible index |
| Pairing.Step | tournament.py:274-308 | one iteration never adds an id to the pool. Its general branch looks for opponents in Eligible: the ids the rematch query returns, other than the player's own, intersected with the pool (tournament.py:286-301) |
| Pairing.Scan | tournament.py:270-308 | after any number of iterations the pool holds only standings ids |
| Pairing.InitialKeeps | tournament.py:270 | the initial state, with every standings id in the pool and no pairs, satisfies the pass invariant |
| Pairing.TwoLeftKeeps | tournament.py:279-284 | the two-left branch keeps the invariant: it adds the pair (pool[0], pool[1]) with their standings names, and ends the pass |
| Pairing.GeneralKeeps | tournament.py:285-308 | the general branch keeps the invariant. The new pair is not a rematch. Its opponent is the first eligible player in standings order. The two ids leave the pool |
| Pairing.StepKeeps | tournament.py:274-308 | every iteration keeps the pass invariant |
| Pairing.ScanKeeps | tournament.py:270-308 | every state of the pass satisfies the invariant. The pool is the standings minus the general-branch pairs, in order. The pairs are disjoint, carry their standings names and use standings ids. General-branch pairs are no rematch and take the nearest eligible opponent |
| Pairing.ScanStops | tournament.py:284 | after the two-left branch has fired, later iterations change nothing (the `break`) |
| Pairing.DoneCoversAll | tournament.py:279-284 | when the pass ends through the two-left branch, every standings id is in some pair |
| Pairing.RoundProperties | tournament.py:235-314 | the final state satisfies the pass invariant; there are at most half as many pairs as players; and when the two-left branch closed the pass, every player is paired |
| Pairing.RoundIsMatching | tournament.py:242-252 | the returned pairs are disjoint, use standings ids only, and number at most half the players |
| Pairing.NoSkipStep | tournament.py:274-308 | in an iteration where the general branch, if it runs, finds an opponent: the pool never grows; if the loop goes on, the visited player has left the pool, and the pool either is unchanged or has lost two players from a pool of more than two |
| Pairing.PoolEven | tournament.py:270-308 | with an even, non-empty standings and no skipped player, the pool holds an even number of players, at least two, for as long as the loop goes on |
| Pairing.OnlyUnvisitedLeft | tournament.py:270-308 | with no skipped player, while the loop goes on, every player left in the pool is one the loop has not visited yet |
| Pairing.CompleteRound | tournament.py:242-243 | the docstring's promise holds when the player count is even and non-zero and no visited player is skipped: the two-left branch closes the pass, the pairs are disjoint, and every standings player is in exactly one pair |
| Pairing.SwissPairings | tournament.py:235-314 | the result is SwissOutcome, the outcome of the specified pass: NoUniqueMatches when the pass formed no pair (tournament.py:310-312), the pairs otherwise. It is OddPlayerCount exactly when the player count is odd. On success it is a non-empty list of disjoint pairs of standings players, at most half as many as players |
| Scenarios.TwoPlayersAlwaysPaired | tournament.py:279-284 | two players are always paired, even when they have met before |
| Scenarios.FourPlayers | tournament.py:274-308 | with four players where the leader has not met the runner-up, the top two meet and the two-left branch pairs the other two |
| Scenarios.AfterFirstRound | tournament_test.py:189-190 | after a beats b and c beats d in a fresh tournament, a and c have one win each and b and d none |
| Scenarios.WinnersRankFirst | tournament_test.py:187-192 | with the standings ordered by wins, the two winners occupy the first two places and the two losers the last two |
| Scenarios.WinnersMeetAfterFirstRound | tournament_test.py:187-201 | the repository's pairing test: after one round, the pairing has two pairs, the two winners meet and the two losers meet |
| Scenarios.SkippedPlayersStayUnpaired | tournament.py:303-312 | a player with no eligible opponent is skipped: the round contains only the pair of the two others, and the skipped players are in no pair. The loop ends without the two-left branch, with the two skipped players still in the pool |
| Scenarios.TwoLeftMayRepeatAMatch | tournament.py:279-284 | with six players after three draws, the general branch forms two new pairs, and the two-left branch then pairs two players who have already met |

## Findings

| source | as written | input that shows it | evidently intended | confidence | as-written member | corrected member |
|---|---|---|---|---|---|---|
| tournament.py:242-243, 303-308 | a player with no eligible opponent is skipped and stays in the pool, so with an even count the round can leave players unpaired | four players where s[0] and s[1] have each met all three others and s[2] has not met s[3]: the call returns only (s[2], s[3]) | each player appears exactly once in the pairings when the count is even; the code keeps this promise in every round where no visited player is skipped, which is proved as stated; the model keeps the code's behaviour otherwise | not executed | Scenarios.SkippedPlayersStayUnpaired | Pairing.CompleteRound |

## Left out

- Connecting to the database, `deleteMatches`, `deleteResults`,
  `deleteTournaments`, `deletePlayers`, `countPlayers`, `countTournaments`, `registerPlayer`,
  `registerTournament` and `addPlayerToTournament` are not modelled. They are
  plain SQL statements with no logic beyond the tables they fill. The model
  takes those tables as values.
- The `tournament_standings` view and its sort: the view's SQL is not part of
  this model. Standings are an input in the view's order, and `Ranked` states
  that order where a scenario needs it.
- The `tournament = None` form of `playerStandings`, which reads the
  standings of all tournaments, is not modelled. Every operation here works
  in one tournament.
- `runTournament` is not modelled: it drives random match outcomes and uses
  `math.log`, which are randomness and floating point.
- Printing and the process exit are replaced by error results.
- `tournament_class.py` is not part of this model.
- Rollback and isolation between concurrent callers are not modelled. A
  report is one step of the `Store`; the partial effect of a failed report
  (the committed match row) is modelled.
- The rematch query selects from the `players` table. The model assumes that
  every standings id is a row of `players`, so the intersection with the pool
  is computed from the standings ids.
- Pairing.RoundIsMatching: does not promise that every player is paired,
  because the code does not (see `SkippedPlayersStayUnpaired`).
  `CompleteRound` states when every player is paired.
- Pairing.Step: its own contract states only that the pool never grows. What
  an iteration does is stated by StepKeeps and the pass lemmas.
