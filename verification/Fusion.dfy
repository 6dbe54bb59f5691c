/** Reciprocal rank fusion: one ranking out of several. */
module Fusion {
  import opened Core
  import opened Ranking

  type Ranked = seq<VectorId>

  predicate Finite(k: real, rank: nat) { k + rank as real != 0.0 }

  // No rank sits on the pole of 1 / (k + rank).
  ghost predicate NoPole(k: real) { forall rank: nat :: rank >= 1 ==> Finite(k, rank) }

  // What a rank is worth; ranks start at one.
  function Weight(k: real, rank: nat): real {
    if Finite(k, rank) then 1.0 / (k + rank as real) else 0.0
  }

  // Off the pole a weight is the reciprocal of k plus the rank.
  lemma WeightMeans(k: real, rank: nat)
    requires k + rank as real != 0.0
    ensures Weight(k, rank) * (k + rank as real) == 1.0
  {
    assert Finite(k, rank);
  }

  // What one ranking gives an id, over all its positions.
  function ListScore(ranking: Ranked, k: real, id: VectorId): Score {
    if ranking == [] then 0.0
    else
      var n := |ranking|;
      ListScore(ranking[..n - 1], k, id) + (if ranking[n - 1] == id then Weight(k, n) else 0.0)
  }

  function FusedScore(rankings: seq<Ranked>, k: real, id: VectorId): Score {
    if rankings == [] then 0.0
    else
      var n := |rankings| - 1;
      FusedScore(rankings[..n], k, id) + ListScore(rankings[n], k, id)
  }

  ghost function RankedIds(rankings: seq<Ranked>): set<VectorId> {
    set r, id | r in rankings && id in r :: id
  }

  // Every ranked id with the sum of what the rankings give it.
  ghost function Fused(rankings: seq<Ranked>, k: real): map<VectorId, Score> {
    map id | id in RankedIds(rankings) :: FusedScore(rankings, k, id)
  }

  lemma {:induction false} UnrankedScore(ranking: Ranked, k: real, id: VectorId)
    requires id !in ranking
    ensures ListScore(ranking, k, id) == 0.0
  {
    if ranking != [] {
      UnrankedScore(ranking[..|ranking| - 1], k, id);
    }
  }

  lemma {:induction false} UnseenScore(rankings: seq<Ranked>, k: real, id: VectorId)
    requires id !in RankedIds(rankings)
    ensures FusedScore(rankings, k, id) == 0.0
  {
    if rankings != [] {
      var n := |rankings| - 1;
      assert rankings[n] in rankings;
      UnrankedScore(rankings[n], k, id);
      assert forall r :: r in rankings[..n] ==> r in rankings;
      UnseenScore(rankings[..n], k, id);
    }
  }

  lemma ScoreSnoc(rankings: seq<Ranked>, ranking: Ranked, k: real, id: VectorId)
    ensures FusedScore(rankings + [ranking], k, id) == FusedScore(rankings, k, id) + ListScore(ranking, k, id)
    ensures id in RankedIds(rankings + [ranking]) <==> id in RankedIds(rankings) || id in ranking
  {
    var all := rankings + [ranking];
    assert all[..|rankings|] == rankings;
    if id in ranking {
      assert ranking in all;
    }
    forall r | r in rankings && id in r
      ensures id in RankedIds(all)
    {
      assert r in all;
    }
  }

  // One more position of the last ranking.
  lemma FusedStep(rankings: seq<Ranked>, ranking: Ranked, id: VectorId, k: real)
    ensures var before := Fused(rankings + [ranking], k);
            Fused(rankings + [ranking + [id]], k)
            == before[id := (if id in before then before[id] else 0.0) + Weight(k, |ranking| + 1)]
  {
    var longer := ranking + [id];
    assert longer[..|ranking|] == ranking;
    forall other
      ensures other in RankedIds(rankings + [longer]) <==> other in RankedIds(rankings + [ranking]) || other == id
      ensures FusedScore(rankings + [longer], k, other)
              == FusedScore(rankings + [ranking], k, other) + (if other == id then Weight(k, |ranking| + 1) else 0.0)
    {
      ScoreSnoc(rankings, longer, k, other);
      ScoreSnoc(rankings, ranking, k, other);
    }
    if id !in RankedIds(rankings + [ranking]) {
      UnseenScore(rankings + [ranking], k, id);
    }
    hide RankedIds, FusedScore, ListScore;
  }

  // A ranking not yet started gives nothing.
  lemma FusedStart(rankings: seq<Ranked>, k: real)
    ensures Fused(rankings + [[]], k) == Fused(rankings, k)
  {
    forall id
      ensures id in RankedIds(rankings + [[]]) <==> id in RankedIds(rankings)
      ensures FusedScore(rankings + [[]], k, id) == FusedScore(rankings, k, id)
    {
      ScoreSnoc(rankings, [], k, id);
    }
    hide RankedIds, FusedScore;
  }

  // fuse_rrf
  method FuseRrf(rankings: seq<Ranked>, k: real) returns (fused: seq<Hit>)
    requires NoPole(k)
    ensures IsRanking(fused, Fused(rankings, k))
  {
    hide Fused;
    var scores: map<VectorId, Score> := map[];
    assert scores == Fused([], k) by { NothingFused(k); }
    for i := 0 to |rankings|
      invariant scores == Fused(rankings[..i], k)
    {
      var ranking := rankings[i];
      FusedStart(rankings[..i], k);
      for j := 0 to |ranking|
        invariant scores == Fused(rankings[..i] + [ranking[..j]], k)
      {
        var id, rank := ranking[j], j + 1;
        assert Finite(k, rank);
        FusedStep(rankings[..i], ranking[..j], id, k);
        assert ranking[..j] + [id] == ranking[..j + 1];
        scores := scores[id := (if id in scores then scores[id] else 0.0) + 1.0 / (k + rank as real)];
      }
      assert ranking[..|ranking|] == ranking;
      assert rankings[..i] + [ranking] == rankings[..i + 1];
    }
    assert rankings[..|rankings|] == rankings;
    var listed: seq<Hit> := [];
    var rest := scores.Keys;
    while rest != {}
      invariant rest <= scores.Keys
      invariant DistinctIds(listed)
      invariant forall h :: h in listed <==> h.id in scores && h.id !in rest && h.score == scores[h.id]
    {
      var id :| id in rest;
      rest := rest - {id};
      listed := listed + [Hit(id, scores[id])];
    }
    fused := Sort(listed, HitKey);
    SortedIsRanking(listed, scores);
  }

  lemma NothingFused(k: real)
    ensures Fused([], k) == map[]
  {
  }

  lemma {:induction false} ScoreAt(rankings: seq<Ranked>, at: nat, k: real, id: VectorId)
    requires at < |rankings|
    ensures FusedScore(rankings, k, id) == FusedScore(rankings[..at] + rankings[at + 1..], k, id) + ListScore(rankings[at], k, id)
  {
    var n := |rankings| - 1;
    var without := rankings[..at] + rankings[at + 1..];
    if at == n {
      assert without == rankings[..n];
    } else {
      var init := rankings[..n];
      ScoreAt(init, at, k, id);
      assert without[..|without| - 1] == init[..at] + init[at + 1..];
      assert without[|without| - 1] == rankings[n];
    }
  }

  lemma WithoutOne<T>(s: seq<T>, at: nat)
    requires at < |s|
    ensures multiset(s[..at] + s[at + 1..]) == multiset(s) - multiset{s[at]}
  {
    assert s == s[..at] + [s[at]] + s[at + 1..];
  }

  lemma {:induction false} ScorePermutes(a: seq<Ranked>, c: seq<Ranked>, k: real, id: VectorId)
    requires multiset(a) == multiset(c)
    ensures FusedScore(a, k, id) == FusedScore(c, k, id)
    decreases |a|
  {
    assert |a| == |multiset(a)| && |c| == |multiset(c)|;
    if a != [] {
      var n := |a| - 1;
      assert a[n] in multiset(c);
      var at :| 0 <= at < |c| && c[at] == a[n];
      ScoreAt(c, at, k, id);
      var without := c[..at] + c[at + 1..];
      WithoutOne(a, n);
      WithoutOne(c, at);
      assert a[..n] + a[n + 1..] == a[..n];
      assert multiset(a[..n]) == multiset(without);
      ScorePermutes(a[..n], without, k, id);
    }
  }

  // The order in which the rankings are given does not matter.
  lemma OrderIrrelevant(a: seq<Ranked>, c: seq<Ranked>, k: real, fusedA: seq<Hit>, fusedC: seq<Hit>)
    requires multiset(a) == multiset(c)
    requires IsRanking(fusedA, Fused(a, k)) && IsRanking(fusedC, Fused(c, k))
    ensures fusedA == fusedC
  {
    forall r
      ensures r in a <==> r in c
    {
      assert r in a <==> r in multiset(a);
      assert r in c <==> r in multiset(c);
    }
    assert RankedIds(a) == RankedIds(c);
    forall id
      ensures FusedScore(a, k, id) == FusedScore(c, k, id)
    {
      ScorePermutes(a, c, k, id);
    }
    assert Fused(a, k) == Fused(c, k);
    hide Fused, IsRanking;
    RankingUnique(fusedA, fusedC, Fused(a, k));
  }

  function Ids(hits: seq<Hit>): Ranked {
    seq(|hits|, i requires 0 <= i < |hits| => hits[i].id)
  }

  ghost predicate Precedes(r: Ranked, x: VectorId, y: VectorId) {
    exists i, j :: 0 <= i < j < |r| && r[i] == x && r[j] == y
  }

  // Without repeats, an id gets the weight of its one rank.
  lemma {:induction false} OneRank(r: Ranked, k: real, at: nat)
    requires Distinct(r) && at < |r|
    ensures ListScore(r, k, r[at]) == Weight(k, at + 1)
  {
    var n := |r| - 1;
    if at == n {
      UnrankedScore(r[..n], k, r[n]);
    } else {
      OneRank(r[..n], k, at);
    }
  }

  // So an id ranked once gets 1 / (k + position + 1).
  lemma OneRankMeans(r: Ranked, k: real, at: nat)
    requires NoPole(k) && Distinct(r) && at < |r|
    ensures ListScore(r, k, r[at]) * (k + (at + 1) as real) == 1.0
  {
    OneRank(r, k, at);
    assert Finite(k, at + 1);
    WeightMeans(k, at + 1);
  }

  // Two rankings: an id gets the reciprocal of k plus its rank from each that
  // names it.
  lemma TwoRankings(d: Ranked, l: Ranked, k: real, i: nat, j: nat)
    requires NoPole(k) && Distinct(d) && Distinct(l) && i < |d|
    ensures Finite(k, i + 1) && Finite(k, j + 1) && d[i] in Fused([d, l], k)
    ensures j < |l| && l[j] == d[i] ==>
              Fused([d, l], k)[d[i]] == 1.0 / (k + (i + 1) as real) + 1.0 / (k + (j + 1) as real)
    ensures d[i] !in l ==> Fused([d, l], k)[d[i]] == 1.0 / (k + (i + 1) as real)
  {
    assert Finite(k, i + 1) && Finite(k, j + 1);
    BothScores(d, l, k, d[i]);
    OneRank(d, k, i);
    if j < |l| && l[j] == d[i] {
      OneRank(l, k, j);
    }
    if d[i] !in l {
      UnrankedScore(l, k, d[i]);
    }
  }

  lemma BothScores(d: Ranked, l: Ranked, k: real, id: VectorId)
    requires id in d
    ensures id in Fused([d, l], k) && Fused([d, l], k)[id] == ListScore(d, k, id) + ListScore(l, k, id)
  {
    assert [d, l][0] == d && d in [d, l];
    assert [d, l][..1] == [d] && [d][..0] == [];
    assert FusedScore([d], k, id) == ListScore(d, k, id);
    hide ListScore;
  }

  lemma {:induction false} WeightDecreases(k: real, a: nat, c: nat)
    requires k > -1.0 && 1 <= a < c
    ensures Weight(k, a) > Weight(k, c) > 0.0
  {
    var x, y := k + a as real, k + c as real;
    assert 0.0 < x < y;
    Reciprocals(x, y);
  }

  lemma Reciprocals(x: real, y: real)
    requires 0.0 < x < y
    ensures 1.0 / x > 1.0 / y > 0.0
  {
    var u, v := 1.0 / x, 1.0 / y;
    assert u * x == 1.0 && v * y == 1.0;
    assert v > 0.0;
    assert v * x < v * y;
  }

  lemma {:induction false} ListScorePositive(r: Ranked, k: real, id: VectorId)
    requires k > -1.0
    ensures ListScore(r, k, id) >= 0.0
  {
    if r != [] {
      ListScorePositive(r[..|r| - 1], k, id);
      WeightDecreases(k, |r|, |r| + 1);
    }
  }

  // Nowhere behind and ahead wherever the other appears means a higher score.
  lemma {:induction false} DominantScore(rankings: seq<Ranked>, k: real, x: VectorId, y: VectorId)
    requires k > -1.0
    requires forall r :: r in rankings ==> Distinct(r)
    requires forall r :: r in rankings && y in r ==> Precedes(r, x, y)
    ensures FusedScore(rankings, k, x) >= FusedScore(rankings, k, y)
    ensures y in RankedIds(rankings) ==> FusedScore(rankings, k, x) > FusedScore(rankings, k, y)
  {
    if rankings != [] {
      var n := |rankings| - 1;
      var r := rankings[n];
      assert r in rankings;
      assert rankings == rankings[..n] + [r];
      ScoreSnoc(rankings[..n], r, k, y);
      DominantScore(rankings[..n], k, x, y);
      if y in r {
        var i, j :| 0 <= i < j < |r| && r[i] == x && r[j] == y;
        OneRank(r, k, i);
        OneRank(r, k, j);
        WeightDecreases(k, i + 1, j + 1);
      } else {
        UnrankedScore(r, k, y);
        ListScorePositive(r, k, x);
      }
    }
  }

  // Such an id comes earlier in the fused list.
  lemma Dominance(rankings: seq<Ranked>, k: real, fused: seq<Hit>, x: VectorId, y: VectorId)
    requires k > -1.0 && IsRanking(fused, Fused(rankings, k))
    requires forall r :: r in rankings ==> Distinct(r)
    requires forall r :: r in rankings && y in r ==> Precedes(r, x, y)
    requires y in RankedIds(rankings)
    ensures Precedes(Ids(fused), x, y)
  {
    DominantScore(rankings, k, x, y);
    var r :| r in rankings && y in r;
    assert Precedes(r, x, y);
    assert x in r;
    assert x in RankedIds(rankings);
    var scores := Fused(rankings, k);
    hide RankedIds, FusedScore;
    var hx, hy := Hit(x, scores[x]), Hit(y, scores[y]);
    assert hx in fused && hy in fused;
    var i :| 0 <= i < |fused| && fused[i] == hx;
    var j :| 0 <= j < |fused| && fused[j] == hy;
    assert hx.score > hy.score;
    assert StrictlyRanked(fused);
    assert Ids(fused)[i] == x && Ids(fused)[j] == y;
  }

  // The fused list names each ranked id once and nothing else.
  lemma FusedIds(rankings: seq<Ranked>, k: real, fused: seq<Hit>)
    requires IsRanking(fused, Fused(rankings, k))
    ensures DistinctIds(fused)
    ensures forall id :: id in Ids(fused) <==> id in RankedIds(rankings)
  {
    var scores := Fused(rankings, k);
    forall i, j | 0 <= i < j < |fused|
      ensures fused[i].id != fused[j].id
    {
      assert Before(fused[i], fused[j]);
      assert fused[i] in fused && fused[j] in fused;
    }
    forall id
      ensures id in Ids(fused) <==> id in RankedIds(rankings)
    {
      if id in RankedIds(rankings) {
        assert Hit(id, scores[id]) in fused;
        var i :| 0 <= i < |fused| && fused[i] == Hit(id, scores[id]);
        assert Ids(fused)[i] == id;
      }
      if id in Ids(fused) {
        var i :| 0 <= i < |fused| && Ids(fused)[i] == id;
        assert fused[i] in fused;
      }
    }
  }
}
