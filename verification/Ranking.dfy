/** Sorting by (score descending, id ascending), and what the top-k of a set of
    scored ids is. */
module Ranking {
  import opened Core

  // No element comes strictly before an earlier one.
  ghost predicate Ordered<T>(s: seq<T>, key: T -> Hit) {
    forall i, j :: 0 <= i < j < |s| ==> !Before(key(s[j]), key(s[i]))
  }

  // Where a stable sort puts x: after everything x does not precede.
  function Place<T>(x: T, s: seq<T>, key: T -> Hit): seq<T> {
    if s == [] then [x]
    else if Before(key(x), key(s[0])) then [x] + s
    else [s[0]] + Place(x, s[1..], key)
  }

  // The stable sort every search ends with.
  function Sort<T>(s: seq<T>, key: T -> Hit): seq<T> {
    if s == [] then [] else Place(s[|s| - 1], Sort(s[..|s| - 1], key), key)
  }

  lemma {:induction false} PlacePermutes<T>(x: T, s: seq<T>, key: T -> Hit)
    ensures multiset(Place(x, s, key)) == multiset(s) + multiset{x}
    ensures |Place(x, s, key)| == |s| + 1
  {
    if s != [] && !Before(key(x), key(s[0])) {
      PlacePermutes(x, s[1..], key);
      assert s == [s[0]] + s[1..];
    }
  }

  lemma {:induction false} PlaceOrdered<T>(x: T, s: seq<T>, key: T -> Hit)
    requires Ordered(s, key)
    ensures Ordered(Place(x, s, key), key)
  {
    if s != [] && !Before(key(x), key(s[0])) {
      PlaceOrdered(x, s[1..], key);
      PlacePermutes(x, s[1..], key);
      var rest := Place(x, s[1..], key);
      forall y | y in rest
        ensures !Before(key(y), key(s[0]))
      {
        assert y in multiset(rest);
      }
    }
  }

  lemma {:induction false} SortPermutes<T>(s: seq<T>, key: T -> Hit)
    ensures multiset(Sort(s, key)) == multiset(s)
    ensures |Sort(s, key)| == |s|
  {
    if s != [] {
      var n := |s| - 1;
      SortPermutes(s[..n], key);
      PlacePermutes(s[n], Sort(s[..n], key), key);
      assert s == s[..n] + [s[n]];
    }
  }

  lemma {:induction false} SortOrdered<T>(s: seq<T>, key: T -> Hit)
    ensures Ordered(Sort(s, key), key)
  {
    if s != [] {
      var n := |s| - 1;
      SortOrdered(s[..n], key);
      PlaceOrdered(s[n], Sort(s[..n], key), key);
    }
  }

  lemma SortMembers<T>(s: seq<T>, key: T -> Hit)
    ensures forall x :: x in Sort(s, key) <==> x in s
  {
    SortPermutes(s, key);
    forall x
      ensures x in Sort(s, key) <==> x in s
    {
      assert x in Sort(s, key) <==> x in multiset(Sort(s, key));
      assert x in s <==> x in multiset(s);
    }
  }

  // Sorting an ordered list again changes nothing.
  lemma {:induction false} SortFixed<T>(s: seq<T>, key: T -> Hit)
    requires Ordered(s, key)
    ensures Sort(s, key) == s
  {
    if s != [] {
      var n := |s| - 1;
      SortFixed(s[..n], key);
      PlaceLast(s[n], s[..n], key);
      assert s == s[..n] + [s[n]];
    }
  }

  lemma {:induction false} PlaceLast<T>(x: T, s: seq<T>, key: T -> Hit)
    requires forall y :: y in s ==> !Before(key(x), key(y))
    ensures Place(x, s, key) == s + [x]
  {
    if s != [] {
      PlaceLast(x, s[1..], key);
      assert s + [x] == [s[0]] + (s[1..] + [x]);
    }
  }

  function HitKey(h: Hit): Hit { h }

  ghost predicate StrictlyRanked(hits: seq<Hit>) {
    forall i, j :: 0 <= i < j < |hits| ==> Before(hits[i], hits[j])
  }

  // hits lists every id of scores, once, with its score, best first.
  ghost predicate IsRanking(hits: seq<Hit>, scores: map<VectorId, Score>) {
    && StrictlyRanked(hits)
    && (forall h :: h in hits ==> h.id in scores && h.score == scores[h.id])
    && (forall id :: id in scores ==> Hit(id, scores[id]) in hits)
  }

  // hits are the k best scored ids, best first.
  ghost predicate IsTopK(hits: seq<Hit>, scores: map<VectorId, Score>, k: nat) {
    exists full :: IsRanking(full, scores) && hits == Take(full, k)
  }

  lemma {:induction false} RankingUnique(a: seq<Hit>, b: seq<Hit>, scores: map<VectorId, Score>)
    requires IsRanking(a, scores) && IsRanking(b, scores)
    ensures a == b
    decreases |a|
  {
    assert b != [] ==> b[0] in b;
    if a != [] {
      assert a[0] in a;
      assert Hit(a[0].id, scores[a[0].id]) in b;
      assert b[0] in b;
      assert Hit(b[0].id, scores[b[0].id]) in a;
      assert a[0] == b[0];
      var rest := scores - {a[0].id};
      RankingTail(a, scores);
      RankingTail(b, scores);
      RankingUnique(a[1..], b[1..], rest);
    }
  }

  lemma RankingTail(a: seq<Hit>, scores: map<VectorId, Score>)
    requires IsRanking(a, scores) && a != []
    ensures IsRanking(a[1..], scores - {a[0].id})
  {
    var rest := scores - {a[0].id};
    forall h | h in a[1..]
      ensures h.id in rest && h.score == rest[h.id]
    {
      var j :| 1 <= j < |a| && a[j] == h;
      assert Before(a[0], a[j]);
      assert a[j] in a && a[0] in a;
    }
    forall id | id in rest
      ensures Hit(id, rest[id]) in a[1..]
    {
      assert Hit(id, scores[id]) in a;
    }
  }

  // A ranking is as long as there are scored ids.
  lemma {:induction false} RankingLength(hits: seq<Hit>, scores: map<VectorId, Score>)
    requires IsRanking(hits, scores)
    ensures |hits| == |scores|
    decreases |hits|
  {
    assert forall id :: id in scores ==> Hit(id, scores[id]) in hits;
    if hits == [] {
      assert scores.Keys == {};
    } else {
      assert hits[0] in hits;
      RankingTail(hits, scores);
      RankingLength(hits[1..], scores - {hits[0].id});
      assert (scores - {hits[0].id}).Keys == scores.Keys - {hits[0].id};
    }
  }

  // The k best are determined by the scores alone.
  lemma TopKUnique(a: seq<Hit>, b: seq<Hit>, scores: map<VectorId, Score>, k: nat)
    requires IsTopK(a, scores, k) && IsTopK(b, scores, k)
    ensures a == b
  {
    var fa :| IsRanking(fa, scores) && a == Take(fa, k);
    var fb :| IsRanking(fb, scores) && b == Take(fb, k);
    RankingUnique(fa, fb, scores);
  }

  ghost predicate DistinctIds(hits: seq<Hit>) {
    forall i, j :: 0 <= i < j < |hits| ==> hits[i].id != hits[j].id
  }

  // Sorting hits with distinct ids ranks them.
  lemma SortedIsRanking(hits: seq<Hit>, scores: map<VectorId, Score>)
    requires DistinctIds(hits)
    requires forall h :: h in hits <==> h.id in scores && h.score == scores[h.id]
    ensures IsRanking(Sort(hits, HitKey), scores)
  {
    var full := Sort(hits, HitKey);
    SortMembers(hits, HitKey);
    SortOrdered(hits, HitKey);
    SortDistinct(hits);
    forall i, j | 0 <= i < j < |full|
      ensures Before(full[i], full[j])
    {
      assert !Before(HitKey(full[j]), HitKey(full[i]));
    }
    forall h | h in full
      ensures h.id in scores && h.score == scores[h.id]
    {
      assert h in hits;
    }
    forall id | id in scores
      ensures Hit(id, scores[id]) in full
    {
      assert Hit(id, scores[id]) in hits;
    }
  }

  // Cut at k, they are the k best.
  lemma SortedIsTopK(hits: seq<Hit>, scores: map<VectorId, Score>, k: nat)
    requires DistinctIds(hits)
    requires forall h :: h in hits <==> h.id in scores && h.score == scores[h.id]
    ensures IsTopK(Take(Sort(hits, HitKey), k), scores, k)
  {
    SortedIsRanking(hits, scores);
  }

  // Any scores have a ranking.
  lemma {:induction false} RankingExists(scores: map<VectorId, Score>) returns (full: seq<Hit>)
    ensures IsRanking(full, scores)
    decreases |scores|
  {
    if scores == map[] {
      full := [];
    } else {
      var id :| id in scores;
      var rest := scores - {id};
      assert rest.Keys == scores.Keys - {id};
      var before := RankingExists(rest);
      var hits := before + [Hit(id, scores[id])];
      RankedDistinct(before, rest);
      OneMore(before, scores, id);
      SortedIsRanking(hits, scores);
      full := Sort(hits, HitKey);
    }
  }

  lemma OneMore(before: seq<Hit>, scores: map<VectorId, Score>, id: VectorId)
    requires id in scores && IsRanking(before, scores - {id}) && DistinctIds(before)
    ensures var hits := before + [Hit(id, scores[id])];
            DistinctIds(hits) && forall h :: h in hits <==> h.id in scores && h.score == scores[h.id]
  {
    var hits := before + [Hit(id, scores[id])];
    forall h | h in hits
      ensures h.id in scores && h.score == scores[h.id]
    {
      assert h in before || h == Hit(id, scores[id]);
    }
    forall h: Hit | h.id in scores && h.score == scores[h.id]
      ensures h in hits
    {
      assert hits[|before|] == Hit(id, scores[id]);
      if h.id != id {
        assert Hit(h.id, (scores - {id})[h.id]) in before;
      }
    }
    assert forall i :: 0 <= i < |before| ==> before[i] in before && hits[i] == before[i];
  }

  lemma RankedDistinct(hits: seq<Hit>, scores: map<VectorId, Score>)
    requires IsRanking(hits, scores)
    ensures DistinctIds(hits)
  {
    forall i, j | 0 <= i < j < |hits|
      ensures hits[i].id != hits[j].id
    {
      assert Before(hits[i], hits[j]);
      assert hits[i] in hits && hits[j] in hits;
    }
  }

  // In order, of the right length, each a candidate with its score, and every
  // candidate left out after all of them.
  ghost predicate Best(hits: seq<Hit>, scores: map<VectorId, Score>, k: nat) {
    && |hits| == Min(k, |scores|)
    && (forall h :: h in hits ==> h.id in scores && h.score == scores[h.id])
    && (forall i, j :: 0 <= i < j < |hits| ==>
          hits[i].score > hits[j].score || (hits[i].score == hits[j].score && hits[i].id < hits[j].id))
    && (forall h, id :: h in hits && id in scores && Hit(id, scores[id]) !in hits ==>
          h.score > scores[id] || (h.score == scores[id] && h.id < id))
  }

  // What it is to be the k best, without a ranking of all the rest.
  lemma TopKMeans(hits: seq<Hit>, scores: map<VectorId, Score>, k: nat)
    ensures IsTopK(hits, scores, k) <==> Best(hits, scores, k)
  {
    if IsTopK(hits, scores, k) {
      TopKIsBest(hits, scores, k);
    }
    if Best(hits, scores, k) {
      BestIsTopK(hits, scores, k);
    }
  }

  lemma TopKIsBest(hits: seq<Hit>, scores: map<VectorId, Score>, k: nat)
    requires IsTopK(hits, scores, k)
    ensures Best(hits, scores, k)
  {
    var full :| IsRanking(full, scores) && hits == Take(full, k);
    RankingLength(full, scores);
    assert forall h :: h in hits ==> h in full;
    forall h, id | h in hits && id in scores && Hit(id, scores[id]) !in hits
      ensures Before(h, Hit(id, scores[id]))
    {
      var i :| 0 <= i < |hits| && hits[i] == h;
      assert full[i] == h;
      OnlyInRest(full, |hits|, Hit(id, scores[id]));
    }
  }

  lemma OnlyInRest(full: seq<Hit>, n: nat, x: Hit)
    requires n <= |full| && x in full && x !in full[..n]
    ensures exists j :: n <= j < |full| && full[j] == x
  {
    assert full == full[..n] + full[n..];
    var j :| n <= j < |full| && full[j] == x;
  }

  lemma BestIsTopK(hits: seq<Hit>, scores: map<VectorId, Score>, k: nat)
    requires Best(hits, scores, k)
    ensures IsTopK(hits, scores, k)
  {
    var ids := set h | h in hits :: h.id;
    var rest := RankingExists(scores - ids);
    var full := hits + rest;
    forall i, j | 0 <= i < j < |full|
      ensures Before(full[i], full[j])
    {
      if i < |hits| <= j {
        LeftOut(hits, rest, scores, ids, j - |hits|);
        assert hits[i] in hits;
      }
    }
    forall id | id in scores
      ensures Hit(id, scores[id]) in full
    {
      if id !in ids {
        assert id in scores - ids;
        assert Hit(id, scores[id]) in rest;
      }
    }
    forall h | h in full
      ensures h.id in scores && h.score == scores[h.id]
    {
      assert h in hits || h in rest;
    }
    assert IsRanking(full, scores);
    RankingLength(full, scores);
    assert Take(full, k) == hits;
  }

  lemma LeftOut(hits: seq<Hit>, rest: seq<Hit>, scores: map<VectorId, Score>, ids: set<VectorId>, j: nat)
    requires IsRanking(rest, scores - ids) && j < |rest| && ids == set h | h in hits :: h.id
    ensures rest[j].id in scores && rest[j] == Hit(rest[j].id, scores[rest[j].id]) && rest[j] !in hits
  {
    assert rest[j] in rest;
  }

  ghost predicate Distinct<T(!new)>(s: seq<T>) {
    forall i, j :: 0 <= i < j < |s| ==> s[i] != s[j]
  }

  // Sorting repeats nothing that was not repeated.
  lemma SortKeepsDistinct<T(!new)>(s: seq<T>, key: T -> Hit)
    requires Distinct(s)
    ensures Distinct(Sort(s, key))
  {
    var full := Sort(s, key);
    SortPermutes(s, key);
    SortMembers(s, key);
    forall i, j | 0 <= i < j < |full|
      ensures full[i] != full[j]
    {
      assert full[i] in s;
      OnceCounted(s, full[i]);
      if full[i] == full[j] {
        TwiceCounted(full, i, j);
      }
    }
  }

  lemma SortDistinct(hits: seq<Hit>)
    requires DistinctIds(hits)
    ensures DistinctIds(Sort(hits, HitKey))
  {
    var full := Sort(hits, HitKey);
    SortKeepsDistinct(hits, HitKey);
    SortMembers(hits, HitKey);
    forall i, j | 0 <= i < j < |full|
      ensures full[i].id != full[j].id
    {
      assert full[i] in hits && full[j] in hits;
    }
  }

  lemma TwiceCounted<T>(s: seq<T>, i: nat, j: nat)
    requires i < j < |s| && s[i] == s[j]
    ensures multiset(s)[s[i]] >= 2
  {
    assert s == s[..j] + s[j..];
    assert s[i] in s[..j];
    assert s[j] in s[j..] by { assert s[j..][0] == s[j]; }
  }

  lemma OnceCounted<T(!new)>(s: seq<T>, x: T)
    requires Distinct(s) && x in s
    ensures multiset(s)[x] == 1
  {
    var i :| 0 <= i < |s| && s[i] == x;
    assert s == s[..i] + [x] + s[i + 1..];
    assert x !in s[..i];
    assert x !in s[i + 1..];
  }
}
