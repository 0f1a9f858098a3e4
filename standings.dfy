/** Rows of the `tournament_standings` view and the parity gate of playerStandings. */
module Standings {
  import opened Types

  /** One standings row: (id, name, wins, matches, score). */
  datatype Standing = Standing(id: PlayerId, name: string, wins: real, matches: int, score: real)

  /** The ids of the rows, in standings order. */
  function Ids(s: seq<Standing>): seq<PlayerId> {
    seq(|s|, i requires 0 <= i < |s| => s[i].id)
  }

  predicate Distinct(xs: seq<PlayerId>) {
    forall i, j :: 0 <= i < j < |xs| ==> xs[i] != xs[j]
  }

  /** The order the view is meant to deliver: wins descending, then score descending. */
  ghost predicate Ranked(s: seq<Standing>) {
    forall i, j :: 0 <= i < j < |s| ==>
      s[j].wins < s[i].wins || (s[j].wins == s[i].wins && s[j].score <= s[i].score)
  }

  /** The row with id `id`: the lookup `standings_dict[id]`. */
  function RowOf(s: seq<Standing>, id: PlayerId): (r: Standing)
    requires id in Ids(s)
    ensures r in s && r.id == id
  {
    if s[0].id == id then s[0]
    else
      assert id in Ids(s[1..]) by {
        var i :| 0 <= i < |s| && Ids(s)[i] == id;
        assert Ids(s[1..])[i - 1] == id;
      }
      RowOf(s[1..], id)
  }

  /** With distinct ids, looking a row up by its own id gives that row back. */
  lemma RowOfOwnId(s: seq<Standing>, i: int)
    requires Distinct(Ids(s)) && 0 <= i < |s|
    ensures s[i].id in Ids(s) && RowOf(s, s[i].id) == s[i]
  {
    assert Ids(s)[i] == s[i].id;
    var r := RowOf(s, s[i].id);
    var j :| 0 <= j < |s| && s[j] == r;
    assert Ids(s)[j] == Ids(s)[i];
  }

  /** playerStandings hands its rows on only when there is an even number of them. */
  function PlayerStandings(rows: seq<Standing>): (r: Result<seq<Standing>>)
    ensures r.Ok? <==> |rows| % 2 == 0
    ensures r.Ok? ==> r.value == rows
    ensures r.Err? ==> r.error == OddPlayerCount
  {
    if |rows| % 2 == 0 then Ok(rows) else Err(OddPlayerCount)
  }
}
