/** Concrete rounds: what swissPairings does with a few small standings. */
module Scenarios {
  import opened Types
  import opened History
  import opened Standings
  import opened Recorder
  import opened Pairing

  function PairOf(a: Standing, b: Standing): PairRow {
    PairRow(a.id, a.name, b.id, b.name)
  }

  lemma DistinctIdsAt(s: seq<Standing>, i: int, j: int)
    requires Distinct(Ids(s)) && 0 <= i < |s| && 0 <= j < |s| && i != j
    ensures s[i].id != s[j].id
  {
    assert Ids(s)[i] == s[i].id && Ids(s)[j] == s[j].id;
  }

  /** An iteration for a player that is already paired changes nothing. */
  lemma ScanSkipsPaired(s: seq<Standing>, h: seq<MatchRow>, t: TournamentId, i: nat, k: nat, st: PassState)
    requires k == i + 1 && k <= |s| && Scan(s, h, t, i) == st && !st.done
    requires s[i].id !in st.pool
    ensures Scan(s, h, t, k) == st
  {
    assert Scan(s, h, t, k) == Step(s, h, t, st, i);
  }

  /** An iteration for a player who has met everybody still in the pool changes nothing. */
  lemma ScanSkipsStuck(s: seq<Standing>, h: seq<MatchRow>, t: TournamentId, i: nat, k: nat, st: PassState)
    requires k == i + 1 && k <= |s| && Scan(s, h, t, i) == st && !st.done
    requires s[i].id in st.pool && |st.pool| != 2
    requires forall x :: x in st.pool && x != s[i].id ==> Played(h, t, s[i].id, x)
    ensures Scan(s, h, t, k) == st
  {
    assert Scan(s, h, t, k) == Step(s, h, t, st, i);
    assert Eligible(st.pool, Opponents(h, t, s[i].id), s[i].id) == {};
  }

  /** An iteration of the general branch in which `p` = s[i] takes `o` = s[j]. */
  lemma ScanPairs(s: seq<Standing>, h: seq<MatchRow>, t: TournamentId, i: nat, k: nat, st: PassState, j: nat)
    requires k == i + 1 && k <= |s| && Scan(s, h, t, i) == st && !st.done
    requires s[i].id in st.pool && |st.pool| != 2 && j < |s|
    requires FirstIn(s, Eligible(st.pool, Opponents(h, t, s[i].id), s[i].id)) == j
    ensures Scan(s, h, t, k) ==
      PassState(Remove(Remove(st.pool, s[i].id), s[j].id), st.pairs + [PairOf(s[i], s[j])], false)
  {
    assert Scan(s, h, t, k) == Step(s, h, t, st, i);
  }

  /** The two-left branch, when the pool holds s[a] and s[b]. */
  lemma ScanTwoLeft(s: seq<Standing>, h: seq<MatchRow>, t: TournamentId, k: nat, st: PassState, a: nat, b: nat)
    requires 0 < k <= |s| && Scan(s, h, t, k - 1) == st && !st.done
    requires Distinct(Ids(s)) && a < |s| && b < |s| && st.pool == [s[a].id, s[b].id]
    requires s[k - 1].id in st.pool
    ensures Scan(s, h, t, k) == PassState(st.pool, st.pairs + [PairOf(s[a], s[b])], true)
  {
    RowOfOwnId(s, a);
    RowOfOwnId(s, b);
  }

  /** `j` is the first row whose id is in `e`. */
  lemma FirstAt(s: seq<Standing>, e: set<PlayerId>, j: nat)
    requires j < |s| && s[j].id in e
    requires forall m :: 0 <= m < j ==> s[m].id !in e
    ensures FirstIn(s, e) == j
  {
  }

  lemma RemoveThirdAndFourth(a: PlayerId, b: PlayerId, c: PlayerId, d: PlayerId)
    requires a != b && a != c && a != d && b != c && b != d && c != d
    ensures Remove(Remove([a, b, c, d], c), d) == [a, b]
  {
    RemoveAt([a, b, c, d], 2);
    assert Remove([a, b, c, d], c) == [a, b, d];
    RemoveAt([a, b, d], 2);
  }

  lemma RemoveFirstAndThird(a: PlayerId, b: PlayerId, c: PlayerId, d: PlayerId, e: PlayerId, f: PlayerId)
    requires b != c
    ensures Remove(Remove([a, b, c, d, e, f], a), c) == [b, d, e, f]
  {
    assert Remove([a, b, c, d, e, f], a) == [b, c, d, e, f];
    RemoveAt([b, c, d, e, f], 1);
  }

  lemma RemoveFirstTwo(a: PlayerId, b: PlayerId, c: PlayerId, d: PlayerId)
    requires a != b
    ensures Remove(Remove([a, b, c, d], a), b) == [c, d]
  {
    assert Remove([a, b, c, d], a) == [b, c, d];
  }

  /** The outcome of a pass of an even number of players whose loop has ended in state `st`. */
  lemma OutcomeOfPass(s: seq<Standing>, h: seq<MatchRow>, t: TournamentId, k: nat, st: PassState)
    requires |s| % 2 == 0 && k <= |s| && Scan(s, h, t, k) == st && st.pairs != []
    requires st.done || k == |s|
    ensures SwissOutcome(s, h, t) == Ok(st.pairs)
  {
    if st.done {
      ScanStops(s, h, t, k, |s|);
    }
  }

  /** With two players the two-left branch pairs them at once, whether or not
      they have met before. */
  lemma TwoPlayersAlwaysPaired(s: seq<Standing>, h: seq<MatchRow>, t: TournamentId)
    requires |s| == 2 && Distinct(Ids(s))
    ensures SwissOutcome(s, h, t) == Ok([PairOf(s[0], s[1])])
  {
    assert Ids(s) == [s[0].id, s[1].id];
    RowOfOwnId(s, 0);
    RowOfOwnId(s, 1);
    assert Scan(s, h, t, 1) == PassState(Ids(s), [PairOf(s[0], s[1])], true);
    ScanStops(s, h, t, 1, 2);
  }

  /** Four players where the leader has not met the runner-up: the top two
      meet, and the bottom two are paired by the two-left branch. */
  lemma {:induction false} FourPlayers(s: seq<Standing>, h: seq<MatchRow>, t: TournamentId)
    requires |s| == 4 && Distinct(Ids(s))
    requires !Played(h, t, s[0].id, s[1].id)
    ensures RoundPairs(s, h, t) == [PairOf(s[0], s[1]), PairOf(s[2], s[3])]
  {
    assert Ids(s) == [s[0].id, s[1].id, s[2].id, s[3].id];
    DistinctIdsAt(s, 0, 1);
    DistinctIdsAt(s, 1, 2);
    DistinctIdsAt(s, 1, 3);
    FourPlayersChoice(s, h, t);
    var st0 := PassState(Ids(s), [], false);
    RemoveFirstTwo(s[0].id, s[1].id, s[2].id, s[3].id);
    ScanPairs(s, h, t, 0, 1, st0, 1);
    FourPlayersRest(s, h, t, PassState([s[2].id, s[3].id], [PairOf(s[0], s[1])], false));
  }

  lemma FourPlayersChoice(s: seq<Standing>, h: seq<MatchRow>, t: TournamentId)
    requires |s| == 4 && s[0].id != s[1].id
    requires !Played(h, t, s[0].id, s[1].id)
    ensures FirstIn(s, Eligible([s[0].id, s[1].id, s[2].id, s[3].id], Opponents(h, t, s[0].id), s[0].id)) == 1
  {
    var e := Eligible([s[0].id, s[1].id, s[2].id, s[3].id], Opponents(h, t, s[0].id), s[0].id);
    assert s[1].id in e && s[0].id !in e;
    FirstAt(s, e, 1);
  }

  /** s[1] is already paired, and the two-left branch pairs s[2] with s[3]. */
  lemma {:induction false} FourPlayersRest(s: seq<Standing>, h: seq<MatchRow>, t: TournamentId, st1: PassState)
    requires |s| == 4 && Distinct(Ids(s)) && s[1].id != s[2].id && s[1].id != s[3].id
    requires st1 == PassState([s[2].id, s[3].id], [PairOf(s[0], s[1])], false)
    requires Scan(s, h, t, 1) == st1
    ensures RoundPairs(s, h, t) == [PairOf(s[0], s[1]), PairOf(s[2], s[3])]
  {
    ScanSkipsPaired(s, h, t, 1, 2, st1);
    ScanTwoLeft(s, h, t, 3, st1, 2, 3);
    assert st1.pairs + [PairOf(s[2], s[3])] == [PairOf(s[0], s[1]), PairOf(s[2], s[3])];
    ScanStops(s, h, t, 3, 4);
  }

  /** Every (player, tournament) key of `ids` with an empty record. */
  function FreshTable(ids: seq<PlayerId>, t: TournamentId): (m: Table)
    ensures forall p :: (p, t) in m <==> p in ids
  {
    map p | p in ids :: (p, t) := Record(0.0, 0, 0.0)
  }

  /** The result table after `a` beat `b` and `c` beat `d` in a fresh tournament. */
  function AfterFirstRound(t: TournamentId, a: PlayerId, b: PlayerId, c: PlayerId, d: PlayerId): (m: Table)
    requires a != b && a != c && a != d && b != c && b != d && c != d
    ensures m.Keys == FreshTable([a, b, c, d], t).Keys
    ensures m[(a, t)].wins == 1.0 && m[(c, t)].wins == 1.0 && m[(b, t)].wins == 0.0 && m[(d, t)].wins == 0.0
  {
    var m0 := FreshTable([a, b, c, d], t);
    var m1 := Reported(m0, a, b, t, false).value;
    Reported(m1, c, d, t, false).value
  }

  /** The standings rows agree with the result table of tournament `t`. */
  ghost predicate AgreesWith(s: seq<Standing>, m: Table, t: TournamentId) {
    forall i :: 0 <= i < |s| ==> (s[i].id, t) in m && s[i].wins == m[(s[i].id, t)].wins && s[i].score == m[(s[i].id, t)].score
  }

  /** After the first round the two winners rank first and the two losers last. */
  lemma WinnersRankFirst(t: TournamentId, a: PlayerId, b: PlayerId, c: PlayerId, d: PlayerId, s: seq<Standing>)
    requires a != b && a != c && a != d && b != c && b != d && c != d
    requires |s| == 4 && Distinct(Ids(s))
    requires AgreesWith(s, AfterFirstRound(t, a, b, c, d), t) && Ranked(s)
    ensures {s[0].id, s[1].id} == {a, c} && {s[2].id, s[3].id} == {b, d}
  {
    var m := AfterFirstRound(t, a, b, c, d);
    DistinctIdsAt(s, 0, 1);
    DistinctIdsAt(s, 0, 2);
    DistinctIdsAt(s, 0, 3);
    DistinctIdsAt(s, 1, 2);
    DistinctIdsAt(s, 1, 3);
    DistinctIdsAt(s, 2, 3);
    forall i | 0 <= i < 4 ensures s[i].id in {a, b, c, d} && (s[i].wins == 1.0 <==> s[i].id in {a, c}) {
      assert (s[i].id, t) in m;
      assert s[i].id in [a, b, c, d];
    }
    assert s[0].wins == 1.0;
    assert s[1].wins == 1.0;
  }

  /** The repository's pairing test: a beat b and c beat d; whichever way the
      view breaks the ties, the two winners meet and so do the two losers. */
  lemma {:induction false} WinnersMeetAfterFirstRound(t: TournamentId, a: PlayerId, b: PlayerId, c: PlayerId, d: PlayerId, s: seq<Standing>)
    requires a != b && a != c && a != d && b != c && b != d && c != d
    requires |s| == 4 && Distinct(Ids(s))
    requires AgreesWith(s, AfterFirstRound(t, a, b, c, d), t) && Ranked(s)
    ensures var r := SwissOutcome(s, [MatchRow(t, a, b, false), MatchRow(t, c, d, false)], t);
      r.Ok? && |r.value| == 2 &&
      {r.value[0].id1, r.value[0].id2} == {a, c} && {r.value[1].id1, r.value[1].id2} == {b, d}
  {
    var h := [MatchRow(t, a, b, false), MatchRow(t, c, d, false)];
    WinnersRankFirst(t, a, b, c, d, s);
    assert !Played(h, t, s[0].id, s[1].id) by {
      forall i | 0 <= i < |h| ensures !Between(h[i], s[0].id, s[1].id) {}
    }
    FourPlayers(s, h, t);
  }

  /** A player with no eligible opponent is skipped and left in the pool: here
      s[0] and s[1] have each met everybody else, the general branch pairs
      s[2] with s[3], and the loop ends without the two-left branch, with
      s[0] and s[1] still in the pool and unpaired. */
  lemma {:induction false} SkippedPlayersStayUnpaired(s: seq<Standing>, h: seq<MatchRow>, t: TournamentId)
    requires |s| == 4 && Distinct(Ids(s))
    requires Played(h, t, s[0].id, s[1].id) && Played(h, t, s[0].id, s[2].id) && Played(h, t, s[0].id, s[3].id)
    requires Played(h, t, s[1].id, s[2].id) && Played(h, t, s[1].id, s[3].id)
    requires !Played(h, t, s[2].id, s[3].id)
    ensures SwissOutcome(s, h, t) == Ok([PairOf(s[2], s[3])])
    ensures Scan(s, h, t, 4) == PassState([s[0].id, s[1].id], [PairOf(s[2], s[3])], false)
    ensures s[0].id !in Flat([PairOf(s[2], s[3])]) && s[1].id !in Flat([PairOf(s[2], s[3])])
  {
    assert Ids(s) == [s[0].id, s[1].id, s[2].id, s[3].id];
    DistinctIdsAt(s, 0, 1);
    DistinctIdsAt(s, 0, 2);
    DistinctIdsAt(s, 0, 3);
    DistinctIdsAt(s, 1, 2);
    DistinctIdsAt(s, 1, 3);
    DistinctIdsAt(s, 2, 3);
    PlayedSymmetric(h, t, s[0].id, s[1].id);
    PlayedSymmetric(h, t, s[0].id, s[2].id);
    PlayedSymmetric(h, t, s[1].id, s[2].id);
    SkippedStart(s, h, t);
    assert Flat([PairOf(s[2], s[3])]) == [s[2].id, s[3].id];
  }

  /** s[0] and s[1] are skipped: each has met every other player in the pool. */
  lemma {:induction false} SkippedStart(s: seq<Standing>, h: seq<MatchRow>, t: TournamentId)
    requires |s| == 4 && Ids(s) == [s[0].id, s[1].id, s[2].id, s[3].id]
    requires s[0].id != s[1].id && s[0].id != s[2].id && s[0].id != s[3].id
    requires s[1].id != s[2].id && s[1].id != s[3].id && s[2].id != s[3].id
    requires Played(h, t, s[0].id, s[1].id) && Played(h, t, s[0].id, s[2].id) && Played(h, t, s[0].id, s[3].id)
    requires Played(h, t, s[1].id, s[0].id) && Played(h, t, s[1].id, s[2].id) && Played(h, t, s[1].id, s[3].id)
    requires !Played(h, t, s[2].id, s[3].id)
    ensures SwissOutcome(s, h, t) == Ok([PairOf(s[2], s[3])])
    ensures Scan(s, h, t, 4) == PassState([s[0].id, s[1].id], [PairOf(s[2], s[3])], false)
  {
    var st0 := PassState(Ids(s), [], false);
    ScanSkipsStuck(s, h, t, 0, 1, st0);
    ScanSkipsStuck(s, h, t, 1, 2, st0);
    SkippedMiddle(s, h, t, st0);
  }

  /** s[2] takes s[3], the only player it has not met. */
  lemma {:induction false} SkippedMiddle(s: seq<Standing>, h: seq<MatchRow>, t: TournamentId, st0: PassState)
    requires |s| == 4
    requires s[0].id != s[1].id && s[0].id != s[2].id && s[0].id != s[3].id
    requires s[1].id != s[2].id && s[1].id != s[3].id && s[2].id != s[3].id
    requires st0 == PassState([s[0].id, s[1].id, s[2].id, s[3].id], [], false)
    requires Scan(s, h, t, 2) == st0
    requires Played(h, t, s[2].id, s[0].id) && Played(h, t, s[2].id, s[1].id) && !Played(h, t, s[2].id, s[3].id)
    ensures SwissOutcome(s, h, t) == Ok([PairOf(s[2], s[3])])
    ensures Scan(s, h, t, 4) == PassState([s[0].id, s[1].id], [PairOf(s[2], s[3])], false)
  {
    var st3 := PassState([s[0].id, s[1].id], [PairOf(s[2], s[3])], false);
    RemoveThirdAndFourth(s[0].id, s[1].id, s[2].id, s[3].id);
    SkippedChoice(s, h, t);
    ScanPairs(s, h, t, 2, 3, st0, 3);
    assert st0.pairs + [PairOf(s[2], s[3])] == st3.pairs;
    SkippedFinish(s, h, t, st3);
  }

  lemma SkippedChoice(s: seq<Standing>, h: seq<MatchRow>, t: TournamentId)
    requires |s| == 4
    requires s[0].id != s[2].id && s[1].id != s[2].id && s[2].id != s[3].id
    requires Played(h, t, s[2].id, s[0].id) && Played(h, t, s[2].id, s[1].id) && !Played(h, t, s[2].id, s[3].id)
    ensures FirstIn(s, Eligible([s[0].id, s[1].id, s[2].id, s[3].id], Opponents(h, t, s[2].id), s[2].id)) == 3
  {
    var e := Eligible([s[0].id, s[1].id, s[2].id, s[3].id], Opponents(h, t, s[2].id), s[2].id);
    assert s[3].id in e;
    forall m | 0 <= m < 3 ensures s[m].id !in e {
      assert s[m].id in [s[0].id, s[1].id, s[2].id];
    }
    FirstAt(s, e, 3);
  }

  /** s[3] is already paired, and the loop ends with s[0] and s[1] still in the pool. */
  lemma SkippedFinish(s: seq<Standing>, h: seq<MatchRow>, t: TournamentId, st3: PassState)
    requires |s| == 4 && s[3].id != s[0].id && s[3].id != s[1].id
    requires st3 == PassState([s[0].id, s[1].id], [PairOf(s[2], s[3])], false)
    requires Scan(s, h, t, 3) == st3
    ensures SwissOutcome(s, h, t) == Ok([PairOf(s[2], s[3])])
    ensures Scan(s, h, t, 4) == PassState([s[0].id, s[1].id], [PairOf(s[2], s[3])], false)
  {
    ScanSkipsPaired(s, h, t, 3, 4, st3);
    OutcomeOfPass(s, h, t, 4, st3);
  }

  /** Six players after three drawn matches (s[0], s[1]), (s[2], s[3]) and
      (s[4], s[5]), all level, listed in that order: the general branch pairs
      s[0] with s[2] and s[1] with s[3], and the two-left branch then pairs
      s[4] with s[5] again. */
  lemma {:induction false} TwoLeftMayRepeatAMatch(s: seq<Standing>, t: TournamentId)
    requires |s| == 6 && Distinct(Ids(s))
    ensures var h := [MatchRow(t, s[0].id, s[1].id, true), MatchRow(t, s[2].id, s[3].id, true), MatchRow(t, s[4].id, s[5].id, true)];
      SwissOutcome(s, h, t) == Ok([PairOf(s[0], s[2]), PairOf(s[1], s[3]), PairOf(s[4], s[5])]) &&
      Played(h, t, s[4].id, s[5].id)
  {
    var h := [MatchRow(t, s[0].id, s[1].id, true), MatchRow(t, s[2].id, s[3].id, true), MatchRow(t, s[4].id, s[5].id, true)];
    assert Ids(s) == [s[0].id, s[1].id, s[2].id, s[3].id, s[4].id, s[5].id];
    forall i, j | 0 <= i < 6 && 0 <= j < 6 && i != j ensures s[i].id != s[j].id {
      DistinctIdsAt(s, i, j);
    }
    // s[0] has met s[1] but not s[2]; s[1] has not met s[3]
    assert Played(h, t, s[0].id, s[1].id) by { assert Between(h[0], s[0].id, s[1].id); }
    assert !Played(h, t, s[0].id, s[2].id) by {
      forall i | 0 <= i < |h| ensures !Between(h[i], s[0].id, s[2].id) {}
    }
    assert !Played(h, t, s[1].id, s[3].id) by {
      forall i | 0 <= i < |h| ensures !Between(h[i], s[1].id, s[3].id) {}
    }
    assert Played(h, t, s[4].id, s[5].id) by { assert Between(h[2], s[4].id, s[5].id); }
    SixPlayersPass(s, h, t);
  }

  /** s[0] skips s[1], whom it has met, and takes s[2]. */
  lemma {:induction false} SixPlayersPass(s: seq<Standing>, h: seq<MatchRow>, t: TournamentId)
    requires |s| == 6 && Ids(s) == [s[0].id, s[1].id, s[2].id, s[3].id, s[4].id, s[5].id]
    requires forall i, j :: 0 <= i < 6 && 0 <= j < 6 && i != j ==> s[i].id != s[j].id
    requires Played(h, t, s[0].id, s[1].id) && !Played(h, t, s[0].id, s[2].id) && !Played(h, t, s[1].id, s[3].id)
    ensures SwissOutcome(s, h, t) == Ok([PairOf(s[0], s[2]), PairOf(s[1], s[3]), PairOf(s[4], s[5])])
  {
    var st0 := PassState(Ids(s), [], false);
    var st1 := PassState([s[1].id, s[3].id, s[4].id, s[5].id], [PairOf(s[0], s[2])], false);
    RemoveFirstAndThird(s[0].id, s[1].id, s[2].id, s[3].id, s[4].id, s[5].id);
    SixPlayersFirstChoice(s, h, t);
    ScanPairs(s, h, t, 0, 1, st0, 2);
    assert st0.pairs + [PairOf(s[0], s[2])] == st1.pairs;
    SixPlayersRest(s, h, t, st1);
  }

  lemma SixPlayersFirstChoice(s: seq<Standing>, h: seq<MatchRow>, t: TournamentId)
    requires |s| == 6 && s[0].id != s[2].id
    requires Played(h, t, s[0].id, s[1].id) && !Played(h, t, s[0].id, s[2].id)
    ensures FirstIn(s, Eligible([s[0].id, s[1].id, s[2].id, s[3].id, s[4].id, s[5].id], Opponents(h, t, s[0].id), s[0].id)) == 2
  {
    var e := Eligible([s[0].id, s[1].id, s[2].id, s[3].id, s[4].id, s[5].id], Opponents(h, t, s[0].id), s[0].id);
    assert s[2].id in e;
    forall m | 0 <= m < 2 ensures s[m].id !in e {
      assert s[m].id in [s[0].id, s[1].id];
    }
    FirstAt(s, e, 2);
  }

  /** s[1] takes s[3], the first player left in the pool that it has not met. */
  lemma {:induction false} SixPlayersRest(s: seq<Standing>, h: seq<MatchRow>, t: TournamentId, st1: PassState)
    requires |s| == 6 && Distinct(Ids(s))
    requires s[1].id != s[3].id && s[1].id != s[4].id && s[1].id != s[5].id
    requires s[3].id != s[4].id && s[3].id != s[5].id && s[4].id != s[5].id
    requires s[0].id != s[1].id && s[0].id != s[3].id && s[0].id != s[4].id && s[0].id != s[5].id
    requires s[2].id != s[1].id && s[2].id != s[3].id && s[2].id != s[4].id && s[2].id != s[5].id
    requires !Played(h, t, s[1].id, s[3].id)
    requires st1 == PassState([s[1].id, s[3].id, s[4].id, s[5].id], [PairOf(s[0], s[2])], false)
    requires Scan(s, h, t, 1) == st1
    ensures SwissOutcome(s, h, t) == Ok([PairOf(s[0], s[2]), PairOf(s[1], s[3]), PairOf(s[4], s[5])])
  {
    var st2 := PassState([s[4].id, s[5].id], [PairOf(s[0], s[2]), PairOf(s[1], s[3])], false);
    RemoveFirstTwo(s[1].id, s[3].id, s[4].id, s[5].id);
    SixPlayersSecondChoice(s, h, t);
    ScanPairs(s, h, t, 1, 2, st1, 3);
    assert st1.pairs + [PairOf(s[1], s[3])] == st2.pairs;
    SixPlayersEnd(s, h, t, st2);
  }

  lemma SixPlayersSecondChoice(s: seq<Standing>, h: seq<MatchRow>, t: TournamentId)
    requires |s| == 6
    requires s[1].id != s[3].id && s[1].id != s[4].id && s[1].id != s[5].id
    requires s[0].id != s[1].id && s[0].id != s[3].id && s[0].id != s[4].id && s[0].id != s[5].id
    requires s[2].id != s[1].id && s[2].id != s[3].id && s[2].id != s[4].id && s[2].id != s[5].id
    requires !Played(h, t, s[1].id, s[3].id)
    ensures FirstIn(s, Eligible([s[1].id, s[3].id, s[4].id, s[5].id], Opponents(h, t, s[1].id), s[1].id)) == 3
  {
    var e := Eligible([s[1].id, s[3].id, s[4].id, s[5].id], Opponents(h, t, s[1].id), s[1].id);
    assert s[3].id in e;
    forall m | 0 <= m < 3 ensures s[m].id !in e {
      assert s[m].id in [s[0].id, s[1].id, s[2].id];
    }
    FirstAt(s, e, 3);
  }

  /** s[2] and s[3] are already paired. */
  lemma {:induction false} SixPlayersEnd(s: seq<Standing>, h: seq<MatchRow>, t: TournamentId, st2: PassState)
    requires |s| == 6 && Distinct(Ids(s))
    requires s[2].id != s[4].id && s[2].id != s[5].id && s[3].id != s[4].id && s[3].id != s[5].id
    requires st2 == PassState([s[4].id, s[5].id], [PairOf(s[0], s[2]), PairOf(s[1], s[3])], false)
    requires Scan(s, h, t, 2) == st2
    ensures SwissOutcome(s, h, t) == Ok([PairOf(s[0], s[2]), PairOf(s[1], s[3]), PairOf(s[4], s[5])])
  {
    ScanSkipsPaired(s, h, t, 2, 3, st2);
    ScanSkipsPaired(s, h, t, 3, 4, st2);
    SixPlayersLast(s, h, t, st2);
  }

  /** The two-left branch pairs s[4] with s[5], although they have met. */
  lemma {:induction false} SixPlayersLast(s: seq<Standing>, h: seq<MatchRow>, t: TournamentId, st2: PassState)
    requires |s| == 6 && Distinct(Ids(s))
    requires st2 == PassState([s[4].id, s[5].id], [PairOf(s[0], s[2]), PairOf(s[1], s[3])], false)
    requires Scan(s, h, t, 4) == st2
    ensures SwissOutcome(s, h, t) == Ok([PairOf(s[0], s[2]), PairOf(s[1], s[3]), PairOf(s[4], s[5])])
  {
    ScanTwoLeft(s, h, t, 5, st2, 4, 5);
    var all := [PairOf(s[0], s[2]), PairOf(s[1], s[3]), PairOf(s[4], s[5])];
    assert st2.pairs + [PairOf(s[4], s[5])] == all;
    OutcomeOfPass(s, h, t, 5, PassState(st2.pool, all, true));
  }
}
