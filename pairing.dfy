/** swissPairings: one pass over the standings that pairs each still-unpaired
    player with the first player below or above it in standings order that is
    still in the pool and that it has not met yet. */
module Pairing {
  import opened Types
  import opened History
  import opened Standings

  /** A row of the result: (id1, name1, id2, name2). */
  datatype PairRow = PairRow(id1: PlayerId, name1: string, id2: PlayerId, name2: string)

  /** The state of the pass: the player pool, the pairs formed so far, and
      whether the two-left branch has broken out of the loop. */
  datatype PassState = PassState(pool: seq<PlayerId>, pairs: seq<PairRow>, done: bool)

  /** `del xs[xs.index(x)]`: drop the first occurrence of `x`. */
  function Remove(xs: seq<PlayerId>, x: PlayerId): (r: seq<PlayerId>)
    requires x in xs
    ensures |r| == |xs| - 1
    ensures forall y :: y in r ==> y in xs
    ensures forall y :: y != x ==> (y in r <==> y in xs)
  {
    if xs[0] == x then xs[1..] else [xs[0]] + Remove(xs[1..], x)
  }

  /** Removing the element at `i`, which does not occur earlier, cuts it out. */
  lemma {:induction false} RemoveAt(xs: seq<PlayerId>, i: nat)
    requires i < |xs| && forall j :: 0 <= j < i ==> xs[j] != xs[i]
    ensures Remove(xs, xs[i]) == xs[..i] + xs[i + 1..]
  {
    if i > 0 {
      RemoveAt(xs[1..], i - 1);
      assert xs[1..][..i - 1] + xs[1..][i..] == (xs[..i] + xs[i + 1..])[1..];
    }
  }

  /** The opponents the query offers `p`, intersected with the pool. */
  function Eligible(pool: seq<PlayerId>, opponents: set<PlayerId>, p: PlayerId): set<PlayerId> {
    set x | x in pool && x != p && x !in opponents
  }

  /** Index of the first standings row whose id is in `e`, or |s| if there is none. */
  function FirstIn(s: seq<Standing>, e: set<PlayerId>): (k: nat)
    ensures k <= |s|
    ensures k < |s| ==> s[k].id in e
    ensures forall j :: 0 <= j < k ==> s[j].id !in e
  {
    if s == [] then 0
    else if s[0].id in e then 0
    else 1 + FirstIn(s[1..], e)
  }

  /** One iteration of the outer loop, for the row at index `i`. */
  function Step(s: seq<Standing>, h: seq<MatchRow>, t: TournamentId, st: PassState, i: nat): (r: PassState)
    requires i < |s|
    requires forall x :: x in st.pool ==> x in Ids(s)
    ensures forall x :: x in r.pool ==> x in st.pool
  {
    var p := s[i];
    if p.id !in st.pool then st
    else if |st.pool| == 2 then
      // the last two in the pool are paired without looking at the history
      var a, b := RowOf(s, st.pool[0]), RowOf(s, st.pool[1]);
      PassState(st.pool, st.pairs + [PairRow(a.id, a.name, b.id, b.name)], true)
    else
      var k := FirstIn(s, Eligible(st.pool, Opponents(h, t, p.id), p.id));
      if k == |s| then st  // no eligible opponent: `p` is skipped and stays in the pool
      else
        PassState(Remove(Remove(st.pool, p.id), s[k].id), st.pairs + [PairRow(p.id, p.name, s[k].id, s[k].name)], false)
  }

  /** The state once the loop has visited the first `k` rows of the standings. */
  function Scan(s: seq<Standing>, h: seq<MatchRow>, t: TournamentId, k: nat): (st: PassState)
    requires k <= |s|
    ensures forall x :: x in st.pool ==> x in Ids(s)
  {
    if k == 0 then PassState(Ids(s), [], false)
    else
      var prev := Scan(s, h, t, k - 1);
      if prev.done then prev else Step(s, h, t, prev, k - 1)
  }

  /** The pairs the whole pass produces. */
  function RoundPairs(s: seq<Standing>, h: seq<MatchRow>, t: TournamentId): seq<PairRow> {
    Scan(s, h, t, |s|).pairs
  }

  /** What swissPairings returns for the standings rows `rows` of tournament `t`. */
  function SwissOutcome(rows: seq<Standing>, h: seq<MatchRow>, t: TournamentId): Result<seq<PairRow>> {
    match PlayerStandings(rows)
    case Err(e) => Err(e)
    case Ok(s) =>
      var ps := RoundPairs(s, h, t);
      if ps == [] then Err(NoUniqueMatches) else Ok(ps)
  }

  // ---------------------------------------------------------------------------
  // What the pass guarantees

  /** The ids of the pairs, in order. */
  function Flat(ps: seq<PairRow>): seq<PlayerId> {
    if ps == [] then [] else Flat(ps[..|ps| - 1]) + [ps[|ps| - 1].id1, ps[|ps| - 1].id2]
  }

  /** `xs` without the elements of `gone`, order kept. */
  function Without(xs: seq<PlayerId>, gone: seq<PlayerId>): (r: seq<PlayerId>)
    ensures forall y :: y in r <==> y in xs && y !in gone
  {
    if xs == [] then [] else (if xs[0] in gone then [] else [xs[0]]) + Without(xs[1..], gone)
  }

  /** The pairs formed in the general branch: all of them but the last one when
      the two-left branch ended the pass. */
  function General(st: PassState): seq<PairRow> {
    if st.done && |st.pairs| > 0 then st.pairs[..|st.pairs| - 1] else st.pairs
  }

  /** The pair carries the names the standings give its two ids. */
  predicate NamedAsIn(s: seq<Standing>, pr: PairRow) {
    pr.id1 in Ids(s) && pr.id2 in Ids(s) && pr.name1 == RowOf(s, pr.id1).name && pr.name2 == RowOf(s, pr.id2).name
  }

  /** Nobody that ranks above `pr.id2`, other than `pr.id1` itself, was still
      unpaired after the pairs `before` and not yet played by `pr.id1`. */
  ghost predicate NearestRank(s: seq<Standing>, h: seq<MatchRow>, t: TournamentId, before: seq<PairRow>, pr: PairRow) {
    forall m, k :: 0 <= m < k < |s| && s[k].id == pr.id2 && s[m].id != pr.id1 && s[m].id !in Flat(before) ==>
      Played(h, t, pr.id1, s[m].id)
  }

  /** The pool is the standings minus the players paired in the general
      branch, kept in standings order; each such pair took two from it. */
  ghost predicate PoolInvariant(s: seq<Standing>, st: PassState) {
    var g := General(st);
    st.pool == Without(Ids(s), Flat(g)) && |st.pool| + 2 * |g| == |s|
  }

  /** Pairs are made of distinct standings players, carry their standings
      names, and no player is in two pairs. */
  ghost predicate PairsInvariant(s: seq<Standing>, st: PassState) {
    && Distinct(Flat(st.pairs))
    && (forall x :: x in Flat(st.pairs) ==> x in Ids(s))
    && (forall j :: 0 <= j < |st.pairs| ==> NamedAsIn(s, st.pairs[j]))
  }

  /** A general-branch pair is never a rematch, and its opponent is the nearest eligible one. */
  ghost predicate ChoiceInvariant(s: seq<Standing>, h: seq<MatchRow>, t: TournamentId, st: PassState) {
    var g := General(st);
    && (forall j :: 0 <= j < |g| ==> !Played(h, t, g[j].id1, g[j].id2))
    && (forall j :: 0 <= j < |g| ==> NearestRank(s, h, t, g[..j], g[j]))
  }

  /** The two-left branch pairs the two players still in the pool, in pool order. */
  ghost predicate TwoLeftInvariant(st: PassState) {
    var g := General(st);
    st.done ==> |st.pairs| == |g| + 1 && |st.pool| == 2 &&
                st.pairs[|g|].id1 == st.pool[0] && st.pairs[|g|].id2 == st.pool[1]
  }

  /** What holds of the state of the pass after every iteration. */
  ghost predicate PassInvariant(s: seq<Standing>, h: seq<MatchRow>, t: TournamentId, st: PassState) {
    PoolInvariant(s, st) && PairsInvariant(s, st) && ChoiceInvariant(s, h, t, st) && TwoLeftInvariant(st)
  }

  lemma {:induction false} FlatAppend(ps: seq<PairRow>, pr: PairRow)
    ensures Flat(ps + [pr]) == Flat(ps) + [pr.id1, pr.id2]
  {
    assert (ps + [pr])[..|ps|] == ps;
  }

  lemma {:induction false} WithoutNothing(xs: seq<PlayerId>)
    ensures Without(xs, []) == xs
  {
    if xs != [] {
      WithoutNothing(xs[1..]);
    }
  }

  lemma {:induction false} WithoutDistinct(xs: seq<PlayerId>, gone: seq<PlayerId>)
    requires Distinct(xs)
    ensures Distinct(Without(xs, gone))
  {
    if xs != [] {
      var rest := xs[1..];
      assert Distinct(rest) by {
        forall i, j | 0 <= i < j < |rest| ensures rest[i] != rest[j] {
          assert rest[i] == xs[i + 1] && rest[j] == xs[j + 1];
        }
      }
      WithoutDistinct(rest, gone);
      assert xs[0] !in rest;
      var w := Without(rest, gone);
      var head: seq<PlayerId> := if xs[0] in gone then [] else [xs[0]];
      assert Without(xs, gone) == head + w;
      forall i, j | 0 <= i < j < |head + w| ensures (head + w)[i] != (head + w)[j] {
        if |head| == 1 && i == 0 {
          assert (head + w)[j] == w[j - 1];
          assert w[j - 1] in w;
        }
      }
    }
  }

  lemma {:induction false} WithoutAbsent(xs: seq<PlayerId>, gone: seq<PlayerId>, y: PlayerId)
    requires y !in xs
    ensures Without(xs, gone + [y]) == Without(xs, gone)
  {
    if xs != [] {
      WithoutAbsent(xs[1..], gone, y);
    }
  }

  /** Deleting a pooled player from the pool is the same as adding it to the paired ones. */
  lemma {:induction false} RemoveWithout(xs: seq<PlayerId>, gone: seq<PlayerId>, x: PlayerId)
    requires Distinct(xs)
    requires x in Without(xs, gone)
    ensures Remove(Without(xs, gone), x) == Without(xs, gone + [x])
  {
    var rest := xs[1..];
    assert Distinct(rest) by {
      forall i, j | 0 <= i < j < |rest| ensures rest[i] != rest[j] {
        assert rest[i] == xs[i + 1] && rest[j] == xs[j + 1];
      }
    }
    assert Without(xs, gone) == (if xs[0] in gone then [] else [xs[0]]) + Without(rest, gone);
    assert Without(xs, gone + [x]) == (if xs[0] in gone + [x] then [] else [xs[0]]) + Without(rest, gone + [x]);
    if xs[0] in gone {
      assert xs[0] in gone + [x];
      assert Without(xs, gone) == Without(rest, gone);
      assert Without(xs, gone + [x]) == Without(rest, gone + [x]);
      RemoveWithout(rest, gone, x);
    } else if xs[0] == x {
      assert x !in rest;
      WithoutAbsent(rest, gone, x);
    } else {
      var w := Without(rest, gone);
      assert ([xs[0]] + w)[0] == xs[0] && ([xs[0]] + w)[1..] == w;
      RemoveWithout(rest, gone, x);
    }
  }

  lemma DistinctAppendTwo(xs: seq<PlayerId>, a: PlayerId, b: PlayerId)
    requires Distinct(xs) && a !in xs && b !in xs && a != b
    ensures Distinct(xs + [a, b])
  {
    var ys := xs + [a, b];
    forall i, j | 0 <= i < j < |ys| ensures ys[i] != ys[j] {
      if j == |xs| {
        assert ys[i] == xs[i];
      } else if j == |xs| + 1 && i < |xs| {
        assert ys[i] == xs[i];
      }
    }
  }

  lemma {:induction false} PrefixOfAppend(ps: seq<PairRow>, pr: PairRow, j: int)
    requires 0 <= j <= |ps|
    ensures (ps + [pr])[..j] == ps[..j]
  {
  }

  /** The two-left branch keeps the invariant. */
  lemma {:induction false} TwoLeftKeeps(s: seq<Standing>, h: seq<MatchRow>, t: TournamentId, st: PassState, i: nat)
    requires Distinct(Ids(s)) && i < |s| && !st.done
    requires PassInvariant(s, h, t, st)
    requires s[i].id in st.pool && |st.pool| == 2
    ensures PassInvariant(s, h, t, Step(s, h, t, st, i))
  {
    var r := Step(s, h, t, st, i);
    var a, b := RowOf(s, st.pool[0]), RowOf(s, st.pool[1]);
    var pr := PairRow(a.id, a.name, b.id, b.name);
    assert r == PassState(st.pool, st.pairs + [pr], true);
    assert General(r) == st.pairs;
    WithoutDistinct(Ids(s), Flat(st.pairs));
    assert st.pool[0] != st.pool[1];
    assert st.pool[0] in st.pool && st.pool[1] in st.pool;
    FlatAppend(st.pairs, pr);
    DistinctAppendTwo(Flat(st.pairs), pr.id1, pr.id2);
    forall j | 0 <= j < |r.pairs| ensures NamedAsIn(s, r.pairs[j]) {
      if j < |st.pairs| {
        assert r.pairs[j] == st.pairs[j];
      }
    }
  }

  /** The state after `p` = s[i] is paired with `o` = s[k] in the general branch. */
  function Paired(s: seq<Standing>, st: PassState, i: nat, k: nat): PassState
    requires i < |s| && k < |s|
    requires s[i].id in st.pool && s[k].id in st.pool && s[i].id != s[k].id
  {
    PassState(Remove(Remove(st.pool, s[i].id), s[k].id),
              st.pairs + [PairRow(s[i].id, s[i].name, s[k].id, s[k].name)], false)
  }

  lemma {:induction false} GeneralPool(s: seq<Standing>, st: PassState, i: nat, k: nat)
    requires Distinct(Ids(s)) && i < |s| && k < |s| && !st.done
    requires PoolInvariant(s, st)
    requires s[i].id in st.pool && s[k].id in st.pool && s[i].id != s[k].id
    ensures PoolInvariant(s, Paired(s, st, i, k))
  {
    var r := Paired(s, st, i, k);
    var p, o := s[i].id, s[k].id;
    var f := Flat(st.pairs);
    var pr := PairRow(p, s[i].name, o, s[k].name);
    assert General(st) == st.pairs;
    assert r.pairs == st.pairs + [pr];
    assert General(r) == r.pairs;
    FlatAppend(st.pairs, pr);
    RemoveWithout(Ids(s), f, p);
    assert o in Without(Ids(s), f + [p]);
    RemoveWithout(Ids(s), f + [p], o);
    assert f + [p] + [o] == f + [p, o];
  }

  lemma {:induction false} GeneralPairs(s: seq<Standing>, st: PassState, i: nat, k: nat)
    requires Distinct(Ids(s)) && i < |s| && k < |s| && !st.done
    requires PoolInvariant(s, st) && PairsInvariant(s, st)
    requires s[i].id in st.pool && s[k].id in st.pool && s[i].id != s[k].id
    ensures PairsInvariant(s, Paired(s, st, i, k))
  {
    var r := Paired(s, st, i, k);
    var pr := r.pairs[|st.pairs|];
    assert r.pairs == st.pairs + [pr];
    assert General(st) == st.pairs;
    FlatAppend(st.pairs, pr);
    DistinctAppendTwo(Flat(st.pairs), s[i].id, s[k].id);
    RowOfOwnId(s, i);
    RowOfOwnId(s, k);
    forall j | 0 <= j < |r.pairs| ensures NamedAsIn(s, r.pairs[j]) {
      if j < |st.pairs| {
        assert r.pairs[j] == st.pairs[j];
      }
    }
  }

  lemma {:induction false} GeneralChoice(s: seq<Standing>, h: seq<MatchRow>, t: TournamentId, st: PassState, i: nat)
    requires Distinct(Ids(s)) && i < |s| && !st.done
    requires PoolInvariant(s, st) && ChoiceInvariant(s, h, t, st)
    requires s[i].id in st.pool
    requires FirstIn(s, Eligible(st.pool, Opponents(h, t, s[i].id), s[i].id)) < |s|
    ensures var k := FirstIn(s, Eligible(st.pool, Opponents(h, t, s[i].id), s[i].id));
      s[k].id in st.pool && s[k].id != s[i].id && ChoiceInvariant(s, h, t, Paired(s, st, i, k))
  {
    var p := s[i].id;
    var e := Eligible(st.pool, Opponents(h, t, p), p);
    var k := FirstIn(s, e);
    var o := s[k].id;
    assert o in e;
    var r := Paired(s, st, i, k);
    var pr := r.pairs[|st.pairs|];
    var f := Flat(st.pairs);
    assert r.pairs == st.pairs + [pr];
    assert General(st) == st.pairs;
    assert General(r) == r.pairs;
    forall j | 0 <= j < |r.pairs|
      ensures !Played(h, t, r.pairs[j].id1, r.pairs[j].id2)
      ensures NearestRank(s, h, t, r.pairs[..j], r.pairs[j])
    {
      if j < |st.pairs| {
        PrefixOfAppend(st.pairs, pr, j);
        assert r.pairs[j] == st.pairs[j];
      } else {
        assert r.pairs[..j] == st.pairs;
        forall m, k' | 0 <= m < k' < |s| && s[k'].id == o && s[m].id != p && s[m].id !in f
          ensures Played(h, t, p, s[m].id)
        {
          assert Ids(s)[k'] == Ids(s)[k];
          assert s[m].id in Ids(s) by { assert Ids(s)[m] == s[m].id; }
          assert s[m].id in st.pool;
          assert s[m].id !in e;
        }
      }
    }
  }

  /** A pair formed in the general branch keeps the invariant. */
  lemma {:induction false} GeneralKeeps(s: seq<Standing>, h: seq<MatchRow>, t: TournamentId, st: PassState, i: nat)
    requires Distinct(Ids(s)) && i < |s| && !st.done
    requires PassInvariant(s, h, t, st)
    requires s[i].id in st.pool && |st.pool| != 2
    ensures PassInvariant(s, h, t, Step(s, h, t, st, i))
  {
    var p := s[i].id;
    var k := FirstIn(s, Eligible(st.pool, Opponents(h, t, p), p));
    if k < |s| {
      GeneralChoice(s, h, t, st, i);
      assert Step(s, h, t, st, i) == Paired(s, st, i, k);
      GeneralPool(s, st, i, k);
      GeneralPairs(s, st, i, k);
    }
  }

  /** Every iteration keeps the invariant. */
  lemma {:induction false} StepKeeps(s: seq<Standing>, h: seq<MatchRow>, t: TournamentId, st: PassState, i: nat)
    requires Distinct(Ids(s)) && i < |s| && !st.done
    requires PassInvariant(s, h, t, st)
    ensures PassInvariant(s, h, t, Step(s, h, t, st, i))
  {
    if s[i].id in st.pool {
      if |st.pool| == 2 {
        TwoLeftKeeps(s, h, t, st, i);
      } else {
        GeneralKeeps(s, h, t, st, i);
      }
    }
  }

  /** The pass starts with every standings player in the pool and no pairs. */
  lemma InitialKeeps(s: seq<Standing>, h: seq<MatchRow>, t: TournamentId)
    ensures PassInvariant(s, h, t, PassState(Ids(s), [], false))
  {
    WithoutNothing(Ids(s));
  }

  /** An iteration, or the end of the loop, keeps the invariant. */
  lemma NextKeeps(s: seq<Standing>, h: seq<MatchRow>, t: TournamentId, i: nat)
    requires Distinct(Ids(s)) && i < |s|
    requires PassInvariant(s, h, t, Scan(s, h, t, i))
    ensures PassInvariant(s, h, t, Scan(s, h, t, i + 1))
  {
    var prev := Scan(s, h, t, i);
    if !prev.done {
      StepKeeps(s, h, t, prev, i);
    }
  }

  /** Every state of the pass satisfies the invariant. */
  lemma {:induction false} ScanKeeps(s: seq<Standing>, h: seq<MatchRow>, t: TournamentId, k: nat)
    requires Distinct(Ids(s)) && k <= |s|
    ensures PassInvariant(s, h, t, Scan(s, h, t, k))
  {
    if k == 0 {
      InitialKeeps(s, h, t);
    } else {
      var i := k - 1;
      ScanKeeps(s, h, t, i);
      NextKeeps(s, h, t, i);
      assert i + 1 == k;
    }
  }

  /** Once the two-left branch has fired the loop is over: nothing changes afterwards. */
  lemma {:induction false} ScanStops(s: seq<Standing>, h: seq<MatchRow>, t: TournamentId, i: nat, j: nat)
    requires i <= j <= |s|
    requires Scan(s, h, t, i).done
    ensures Scan(s, h, t, j) == Scan(s, h, t, i)
    decreases j
  {
    if j > i {
      ScanStops(s, h, t, i, j - 1);
    }
  }

  /** When the two-left branch ended the pass, every standings player is in a pair. */
  lemma {:induction false} DoneCoversAll(s: seq<Standing>, st: PassState)
    requires PoolInvariant(s, st) && PairsInvariant(s, st) && TwoLeftInvariant(st) && st.done
    ensures forall x :: x in Ids(s) <==> x in Flat(st.pairs)
  {
    var g := General(st);
    assert st.pairs == g + [st.pairs[|g|]];
    FlatAppend(g, st.pairs[|g|]);
    forall x | x in Ids(s) ensures x in Flat(st.pairs) {
      if x !in Flat(g) {
        assert x in st.pool;
        assert x == st.pool[0] || x == st.pool[1];
      }
    }
  }

  /** The result of the pass: pairs of distinct standings players, nobody twice,
      at most half as many pairs as players, no rematch and nearest-rank choice
      in the general branch; and when the two-left branch closes the pass, every
      player of the standings is paired. */
  lemma {:induction false} RoundProperties(s: seq<Standing>, h: seq<MatchRow>, t: TournamentId)
    requires Distinct(Ids(s))
    ensures PassInvariant(s, h, t, Scan(s, h, t, |s|))
    ensures 2 * |RoundPairs(s, h, t)| <= |s|
    ensures Scan(s, h, t, |s|).done ==> forall x :: x in Ids(s) <==> x in Flat(RoundPairs(s, h, t))
  {
    var st := Scan(s, h, t, |s|);
    assert RoundPairs(s, h, t) == st.pairs;
    ScanKeeps(s, h, t, |s|);
    assert PoolInvariant(s, st) && PairsInvariant(s, st) && TwoLeftInvariant(st);
    if st.done {
      DoneCoversAll(s, st);
    }
  }

  /** The pairs of a pass, as the caller of swissPairings sees them. */
  lemma RoundIsMatching(s: seq<Standing>, h: seq<MatchRow>, t: TournamentId)
    requires Distinct(Ids(s))
    ensures 2 * |RoundPairs(s, h, t)| <= |s|
    ensures Distinct(Flat(RoundPairs(s, h, t)))
    ensures forall x :: x in Flat(RoundPairs(s, h, t)) ==> x in Ids(s)
  {
    RoundProperties(s, h, t);
    assert PairsInvariant(s, Scan(s, h, t, |s|));
  }

  // ---------------------------------------------------------------------------
  // When the round is complete

  /** The general branch found an opponent for the player visited at `i`,
      whenever it ran for that player. */
  ghost predicate FoundAt(s: seq<Standing>, h: seq<MatchRow>, t: TournamentId, i: nat)
    requires i < |s|
  {
    var st := Scan(s, h, t, i);
    !st.done && s[i].id in st.pool && |st.pool| != 2 ==>
      FirstIn(s, Eligible(st.pool, Opponents(h, t, s[i].id), s[i].id)) < |s|
  }

  /** No visited player is skipped for want of an eligible opponent. */
  ghost predicate NoSkip(s: seq<Standing>, h: seq<MatchRow>, t: TournamentId) {
    forall i :: 0 <= i < |s| ==> FoundAt(s, h, t, i)
  }

  /** Deleting an element from a list without repeats removes it altogether. */
  lemma {:induction false} RemoveGone(xs: seq<PlayerId>, x: PlayerId)
    requires Distinct(xs) && x in xs
    ensures x !in Remove(xs, x)
  {
    var rest := xs[1..];
    if xs[0] == x {
      forall j | 0 <= j < |rest| ensures rest[j] != x {
        assert rest[j] == xs[j + 1];
      }
    } else {
      assert Distinct(rest) by {
        forall i, j | 0 <= i < j < |rest| ensures rest[i] != rest[j] {
          assert rest[i] == xs[i + 1] && rest[j] == xs[j + 1];
        }
      }
      RemoveGone(rest, x);
    }
  }

  /** The pool of the pass never holds a player twice. */
  lemma PoolDistinct(s: seq<Standing>, h: seq<MatchRow>, t: TournamentId, i: nat)
    requires Distinct(Ids(s)) && i <= |s|
    ensures Distinct(Scan(s, h, t, i).pool)
  {
    ScanKeeps(s, h, t, i);
    WithoutDistinct(Ids(s), Flat(General(Scan(s, h, t, i))));
  }

  /** The general branch, when it finds an opponent for `p` = s[i], takes `p`
      and that opponent out of a pool without repeats, and the loop goes on. */
  lemma {:induction false} GeneralLeaves(s: seq<Standing>, h: seq<MatchRow>, t: TournamentId, st: PassState, i: nat)
    requires i < |s| && !st.done && Distinct(st.pool)
    requires forall x :: x in st.pool ==> x in Ids(s)
    requires s[i].id in st.pool && |st.pool| != 2
    requires FirstIn(s, Eligible(st.pool, Opponents(h, t, s[i].id), s[i].id)) < |s|
    ensures !Step(s, h, t, st, i).done
    ensures s[i].id !in Step(s, h, t, st, i).pool
    ensures |Step(s, h, t, st, i).pool| + 2 == |st.pool|
  {
    var p := s[i].id;
    var e := Eligible(st.pool, Opponents(h, t, p), p);
    var o := s[FirstIn(s, e)].id;
    assert o in e;
    RemoveGone(st.pool, p);
    assert Step(s, h, t, st, i).pool == Remove(Remove(st.pool, p), o);
  }

  /** An iteration of a pass in which nobody is skipped: if the loop goes on,
      the visited player has left the pool, and the pool either stayed as it
      was or lost two players from more than two. */
  lemma NoSkipStep(s: seq<Standing>, h: seq<MatchRow>, t: TournamentId, i: nat, k: nat)
    requires k == i + 1 && k <= |s| && Distinct(Ids(s)) && FoundAt(s, h, t, i)
    ensures !Scan(s, h, t, k).done ==> !Scan(s, h, t, i).done
    ensures !Scan(s, h, t, k).done ==> s[i].id !in Scan(s, h, t, k).pool
    ensures forall x :: x in Scan(s, h, t, k).pool ==> x in Scan(s, h, t, i).pool
    ensures !Scan(s, h, t, k).done ==>
      Scan(s, h, t, k).pool == Scan(s, h, t, i).pool ||
      (|Scan(s, h, t, k).pool| + 2 == |Scan(s, h, t, i).pool| && |Scan(s, h, t, i).pool| != 2)
  {
    var prev := Scan(s, h, t, i);
    if !prev.done {
      assert Scan(s, h, t, k) == Step(s, h, t, prev, i);
      if s[i].id in prev.pool && |prev.pool| != 2 {
        PoolDistinct(s, h, t, i);
        GeneralLeaves(s, h, t, prev, i);
      }
    }
  }

  /** Staying put, or losing two from an even number other than two, keeps a
      count even and at least two. */
  lemma EvenStep(a: int, b: int)
    requires a % 2 == 0 && a >= 2
    requires b == a || (b + 2 == a && a != 2)
    ensures b % 2 == 0 && b >= 2
  {
  }

  /** While the loop goes on in a pass without skips, the pool has an even
      number of players, and at least two. */
  lemma {:induction false} PoolEven(s: seq<Standing>, h: seq<MatchRow>, t: TournamentId, k: nat)
    requires |s| % 2 == 0 && |s| > 0 && k <= |s| && Distinct(Ids(s)) && NoSkip(s, h, t)
    ensures !Scan(s, h, t, k).done ==> |Scan(s, h, t, k).pool| % 2 == 0 && |Scan(s, h, t, k).pool| >= 2
  {
    if k == 0 {
      assert Scan(s, h, t, k).pool == Ids(s);
    } else {
      var i := k - 1;
      PoolEven(s, h, t, i);
      assert FoundAt(s, h, t, i);
      NoSkipStep(s, h, t, i, k);
      assert i + 1 == k;
      var a, b := Scan(s, h, t, i), Scan(s, h, t, k);
      if !b.done {
        EvenStep(|a.pool|, |b.pool|);
      }
    }
  }

  /** While the loop goes on in a pass without skips, only players it has not
      visited yet are left in the pool. */
  lemma {:induction false} OnlyUnvisitedLeft(s: seq<Standing>, h: seq<MatchRow>, t: TournamentId, k: nat)
    requires k <= |s| && Distinct(Ids(s)) && NoSkip(s, h, t)
    ensures !Scan(s, h, t, k).done ==>
      forall x :: x in Scan(s, h, t, k).pool ==> exists j :: k <= j < |s| && s[j].id == x
  {
    if k == 0 {
      forall x | x in Ids(s) ensures exists j :: 0 <= j < |s| && s[j].id == x {
        var j :| 0 <= j < |s| && Ids(s)[j] == x;
        assert s[j].id == x;
      }
    } else {
      var i := k - 1;
      OnlyUnvisitedLeft(s, h, t, i);
      assert FoundAt(s, h, t, i);
      NoSkipStep(s, h, t, i, k);
      assert i + 1 == k;
    }
  }

  /** swissPairings keeps the promise that every player of an even, non-empty
      standings appears in exactly one pair whenever no visited player is
      skipped: the two-left branch then closes the pass. */
  lemma {:induction false} CompleteRound(s: seq<Standing>, h: seq<MatchRow>, t: TournamentId)
    requires Distinct(Ids(s)) && |s| % 2 == 0 && |s| > 0 && NoSkip(s, h, t)
    ensures Scan(s, h, t, |s|).done
    ensures Distinct(Flat(RoundPairs(s, h, t)))
    ensures forall x :: x in Ids(s) <==> x in Flat(RoundPairs(s, h, t))
  {
    var st := Scan(s, h, t, |s|);
    PoolEven(s, h, t, |s|);
    OnlyUnvisitedLeft(s, h, t, |s|);
    if |st.pool| > 0 {
      assert st.pool[0] in st.pool;
    }
    RoundProperties(s, h, t);
    assert PairsInvariant(s, st);
  }

  // ---------------------------------------------------------------------------
  // The implementation

  /** The inner loop: scan the standings for the first eligible opponent. */
  method FindOpponent(s: seq<Standing>, eligible: set<PlayerId>) returns (k: nat)
    ensures k == FirstIn(s, eligible)
  {
    k := 0;
    while k < |s| && s[k].id !in eligible
      invariant k <= |s|
      invariant forall j :: 0 <= j < k ==> s[j].id !in eligible
    {
      k := k + 1;
    }
  }

  /** swissPairings for the standings rows `rows` of tournament `t` and the match history `h`. */
  method SwissPairings(rows: seq<Standing>, h: seq<MatchRow>, t: TournamentId) returns (r: Result<seq<PairRow>>)
    requires Distinct(Ids(rows))
    ensures r == SwissOutcome(rows, h, t)
    ensures r == Err(OddPlayerCount) <==> |rows| % 2 == 1
    ensures r.Ok? ==> 0 < |r.value| && 2 * |r.value| <= |rows|
    ensures r.Ok? ==> Distinct(Flat(r.value)) && forall x :: x in Flat(r.value) ==> x in Ids(rows)
  {
    var standings := PlayerStandings(rows);
    if standings.Err? {
      return Err(standings.error);
    }
    var s := standings.value;
    var pool := Ids(s);
    var pairs: seq<PairRow> := [];
    var done := false;
    var i := 0;
    while i < |s| && !done
      invariant i <= |s|
      invariant PassState(pool, pairs, done) == Scan(s, h, t, i)
    {
      var p := s[i];
      if p.id !in pool {
        // already paired
      } else if |pool| == 2 {
        var a, b := RowOf(s, pool[0]), RowOf(s, pool[1]);
        pairs := pairs + [PairRow(a.id, a.name, b.id, b.name)];
        done := true;
      } else {
        var eligible := Eligible(pool, Opponents(h, t, p.id), p.id);
        var k := FindOpponent(s, eligible);
        if k < |s| {
          pairs := pairs + [PairRow(p.id, p.name, s[k].id, s[k].name)];
          pool := Remove(pool, p.id);
          pool := Remove(pool, s[k].id);
        }
      }
      i := i + 1;
    }
    if done {
      ScanStops(s, h, t, i, |s|);
    }
    RoundIsMatching(s, h, t);
    if pairs == [] {
      return Err(NoUniqueMatches);
    }
    return Ok(pairs);
  }
}
