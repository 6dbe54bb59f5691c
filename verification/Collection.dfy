/** What a collection holds, and what its operations do to the three stores. */
module Stores {
  import opened Core
  import opened Lexical
  import Oracle

  // A payload as it is stored.
  type Payload = seq<Byte>

  // A compiled filter: which payloads it matches.
  type Filter = Payload -> bool

  datatype State = State(vectors: Oracle.Content, docs: Docs, payloads: map<VectorId, Payload>)

  datatype PointOp =
    | Upsert(id: VectorId, embedding: Embedding, document: Option<string>, payload: Option<Payload>)
    | Delete(id: VectorId)
    | DeleteByFilter(filter: Filter)

  // Every document and every payload belongs to a stored vector.
  ghost predicate Consistent(s: State) {
    s.docs.Keys <= s.vectors.Keys && s.payloads.Keys <= s.vectors.Keys
  }

  ghost function Matching(payloads: map<VectorId, Payload>, filter: Filter): set<VectorId> {
    set id | id in payloads && filter(payloads[id])
  }

  // upsert: the vector is removed before the new one is known to fit.
  ghost function Upserted(b: Bm25, dimension: nat, s: State, id: VectorId, e: Embedding, document: Option<string>,
                          payload: Option<Payload>): State
  {
    if |e| != dimension then s.(vectors := s.vectors - {id})
    else State(s.vectors[id := e],
               if document.Some? then s.docs[id := StatsOf(b.tokenize(document.value))] else s.docs - {id},
               if payload.Some? then s.payloads[id := payload.value] else s.payloads - {id})
  }

  ghost function Without(s: State, ids: set<VectorId>): State {
    State(s.vectors - ids, s.docs - ids, s.payloads - ids)
  }

  // How many of some ids have a vector.
  ghost function Stored(s: State, ids: set<VectorId>): nat { |ids * s.vectors.Keys| }

  ghost function ApplyPoint(b: Bm25, dimension: nat, s: State, op: PointOp): State {
    match op
    case Upsert(id, e, document, payload) => Upserted(b, dimension, s, id, e, document, payload)
    case Delete(id) => Without(s, {id})
    case DeleteByFilter(filter) => Without(s, Matching(s.payloads, filter))
  }

  ghost function RunPoints(b: Bm25, dimension: nat, s: State, ops: seq<PointOp>): State {
    if ops == [] then s
    else ApplyPoint(b, dimension, RunPoints(b, dimension, s, ops[..|ops| - 1]), ops[|ops| - 1])
  }

  // An accepted upsert stores what it was given and nothing older: the vector,
  // the document's statistics exactly if there is one, the payload exactly if
  // there is one. Every other point is left alone.
  lemma UpsertMeans(b: Bm25, dimension: nat, s: State, id: VectorId, e: Embedding, document: Option<string>,
                    payload: Option<Payload>, other: VectorId)
    requires |e| == dimension
    ensures var after := ApplyPoint(b, dimension, s, Upsert(id, e, document, payload));
            && id in after.vectors && after.vectors[id] == e
            && (id in after.docs <==> document.Some?)
            && (id in after.payloads <==> payload.Some?)
            && (payload.Some? ==> after.payloads[id] == payload.value)
            && (other != id ==> Untouched(s, after, other))
    ensures document.Some? ==>
              var stats := ApplyPoint(b, dimension, s, Upsert(id, e, document, payload)).docs[id];
              var tokens := b.tokenize(document.value);
              && stats.length == |tokens|
              && (forall t :: t in stats.frequencies <==> t in tokens)
              && (forall t :: t in tokens ==> stats.frequencies[t] == multiset(tokens)[t])
  {
    if document.Some? {
      var tokens := b.tokenize(document.value);
      forall t
        ensures t in Count(tokens) <==> t in tokens
        ensures t in tokens ==> Count(tokens)[t] == multiset(tokens)[t]
      {
        CountMeans(tokens, t);
      }
    }
  }

  // A rejected upsert takes the vector and touches nothing else.
  lemma RejectedMeans(b: Bm25, dimension: nat, s: State, id: VectorId, e: Embedding, document: Option<string>,
                      payload: Option<Payload>, other: VectorId)
    requires |e| != dimension
    ensures var after := ApplyPoint(b, dimension, s, Upsert(id, e, document, payload));
            && id !in after.vectors && after.docs == s.docs && after.payloads == s.payloads
            && (other != id ==> Untouched(s, after, other))
  {
    assert Upserted(b, dimension, s, id, e, document, payload) == s.(vectors := s.vectors - {id});
  }

  // An upsert keeps the stores consistent unless the embedding has the wrong
  // length and the id had a document or a payload.
  lemma UpsertConsistent(b: Bm25, dimension: nat, s: State, id: VectorId, e: Embedding, document: Option<string>,
                         payload: Option<Payload>)
    requires Consistent(s)
    ensures Consistent(Upserted(b, dimension, s, id, e, document, payload))
            <==> |e| == dimension || (id !in s.docs && id !in s.payloads)
  {
    var after := Upserted(b, dimension, s, id, e, document, payload);
    if |e| != dimension && (id in s.docs || id in s.payloads) {
      assert id !in after.vectors;
      assert id in after.docs.Keys || id in after.payloads.Keys;
    }
  }

  // A rejected upsert leaves no trace exactly when there was nothing to lose.
  lemma RejectedUpsert(b: Bm25, dimension: nat, s: State, id: VectorId, e: Embedding, document: Option<string>,
                       payload: Option<Payload>)
    requires |e| != dimension
    ensures Upserted(b, dimension, s, id, e, document, payload) == s <==> id !in s.vectors
  {
    if id in s.vectors {
      assert id !in Upserted(b, dimension, s, id, e, document, payload).vectors;
    } else {
      assert s.vectors - {id} == s.vectors;
    }
  }

  const ONE := F32(0, 0, 128, 63)

  // The loss is real: a point with the vector [1.0] and a payload, upserted
  // again with a vector of two components, keeps its payload and has no vector.
  lemma UpsertLosesVector(b: Bm25, payload: Payload) returns (s: State, after: State)
    ensures s == RunPoints(b, 1, State(map[], map[], map[]), [Upsert(1, [ONE], None, Some(payload))])
    ensures after == ApplyPoint(b, 1, s, Upsert(1, [ONE, ONE], None, Some(payload)))
    ensures Consistent(s) && s.vectors == map[1 := [ONE]]
    ensures !Consistent(after) && after.vectors == map[] && after.payloads == map[1 := payload]
  {
    var ops := [Upsert(1, [ONE], None, Some(payload))];
    assert ops[..0] == [];
    s := RunPoints(b, 1, State(map[], map[], map[]), ops);
    after := ApplyPoint(b, 1, s, Upsert(1, [ONE, ONE], None, Some(payload)));
    assert s == State(map[1 := [ONE]], map[], map[1 := payload]) by {
      var none: Docs := map[];
      assert none - {1} == none;
      assert RunPoints(b, 1, State(map[], map[], map[]), []) == State(map[], map[], map[]);
    }
    UpsertConsistent(b, 1, s, 1, [ONE, ONE], None, Some(payload));
    assert 1 in s.payloads;
  }

  ghost predicate Fits(op: PointOp, dimension: nat) {
    op.Upsert? ==> |op.embedding| == dimension
  }

  lemma {:induction false} RunConsistent(b: Bm25, dimension: nat, s: State, ops: seq<PointOp>)
    requires Consistent(s)
    requires forall op :: op in ops ==> Fits(op, dimension)
    ensures Consistent(RunPoints(b, dimension, s, ops))
  {
    if ops != [] {
      var n := |ops| - 1;
      assert ops[n] in ops;
      RunConsistent(b, dimension, s, ops[..n]);
      var before := RunPoints(b, dimension, s, ops[..n]);
      match ops[n] {
        case Upsert(id, e, document, payload) => { UpsertConsistent(b, dimension, before, id, e, document, payload); }
        case _ => {}
      }
    }
  }

  ghost predicate Gone(s: State, id: VectorId) {
    id !in s.vectors && id !in s.docs && id !in s.payloads
  }

  ghost predicate Untouched(s: State, after: State, id: VectorId) {
    && (id in s.vectors <==> id in after.vectors) && (id in s.vectors ==> s.vectors[id] == after.vectors[id])
    && (id in s.docs <==> id in after.docs) && (id in s.docs ==> s.docs[id] == after.docs[id])
    && (id in s.payloads <==> id in after.payloads) && (id in s.payloads ==> s.payloads[id] == after.payloads[id])
  }

  // A delete by filter takes exactly the points whose payload matches.
  lemma FilterDeletes(b: Bm25, dimension: nat, s: State, filter: Filter, id: VectorId)
    ensures var after := ApplyPoint(b, dimension, s, DeleteByFilter(filter));
            if id in s.payloads && filter(s.payloads[id]) then Gone(after, id) else Untouched(s, after, id)
  {
    assert id in Matching(s.payloads, filter) <==> id in s.payloads && filter(s.payloads[id]);
  }

  // Some delete of the run hits the id: by name, or by its payload.
  ghost predicate Deletes(s: State, op: PointOp, id: VectorId) {
    (op.Delete? && op.id == id) || (op.DeleteByFilter? && id in Matching(s.payloads, op.filter))
  }

  // A run of deletes takes a point out of all three stores or leaves it alone,
  // and which of the two can be read off the run and the point's own payload.
  lemma {:induction false} DeletesWhole(b: Bm25, dimension: nat, s: State, ops: seq<PointOp>, id: VectorId)
    requires forall op :: op in ops ==> !op.Upsert?
    ensures if exists op :: op in ops && Deletes(s, op, id) then Gone(RunPoints(b, dimension, s, ops), id)
            else Untouched(s, RunPoints(b, dimension, s, ops), id)
  {
    if ops != [] {
      var n := |ops| - 1;
      assert ops == ops[..n] + [ops[n]];
      assert ops[n] in ops;
      DeletesWhole(b, dimension, s, ops[..n], id);
      var before := RunPoints(b, dimension, s, ops[..n]);
      if exists op :: op in ops[..n] && Deletes(s, op, id) {
        var op :| op in ops[..n] && Deletes(s, op, id);
        assert op in ops;
      } else {
        assert Deletes(s, ops[n], id) <==> Deletes(before, ops[n], id);
      }
    }
  }
}

/** What a hybrid query answers with, given how each channel scores. */
module Hybrid {
  import opened Core
  import opened Ranking
  import opened Fusion

  const USIZE_MAX: nat := 0xFFFF_FFFF_FFFF_FFFF

  // How deep each channel is fetched: k times the overfetch factor, saturating.
  function Depth(k: nat, overfetch: nat): nat { Min(k * overfetch, USIZE_MAX) }

  // The fused order of the best of both channels.
  ghost predicate IsFusion(ranked: seq<Hit>, dense: map<VectorId, Score>, lexical: map<VectorId, Score>, depth: nat, rrfK: real) {
    exists d, l :: IsTopK(d, dense, depth) && IsTopK(l, lexical, depth) && IsRanking(ranked, Fused([Ids(d), Ids(l)], rrfK))
  }

  // With both channels their fusion, with one that channel.
  ghost predicate IsHybrid(ranked: seq<Hit>, dense: Option<map<VectorId, Score>>, lexical: Option<map<VectorId, Score>>,
                           depth: nat, rrfK: real)
  {
    match (dense, lexical)
    case (Some(d), Some(l)) => IsFusion(ranked, d, l, depth, rrfK)
    case (Some(d), None) => IsTopK(ranked, d, depth)
    case (None, Some(l)) => IsTopK(ranked, l, depth)
    case (None, None) => false
  }

  lemma RankingIds(hits: seq<Hit>, scores: map<VectorId, Score>, k: nat)
    requires IsTopK(hits, scores, k)
    ensures Distinct(Ids(hits))
    ensures forall id :: id in Ids(hits) ==> id in scores && Hit(id, scores[id]) in hits
  {
    var full :| IsRanking(full, scores) && hits == Take(full, k);
    var ids := Ids(hits);
    forall h | h in hits
      ensures h.id in scores && h == Hit(h.id, scores[h.id])
    {
      assert h in full;
    }
    forall i, j | 0 <= i < j < |ids|
      ensures ids[i] != ids[j]
    {
      assert Before(full[i], full[j]);
      assert hits[i] in hits && hits[j] in hits;
    }
    forall id | id in ids
      ensures id in scores && Hit(id, scores[id]) in hits
    {
      var i :| 0 <= i < |ids| && ids[i] == id;
      assert hits[i] in hits;
    }
  }

  // Cutting the k best further.
  lemma TakeTopK(hits: seq<Hit>, scores: map<VectorId, Score>, depth: nat, k: nat)
    requires IsTopK(hits, scores, depth)
    ensures IsTopK(Take(hits, k), scores, Min(k, depth))
  {
    var full :| IsRanking(full, scores) && hits == Take(full, depth);
    assert Take(hits, k) == Take(full, Min(k, depth));
  }

  // One channel alone answers with its k best, unless the overfetch factor is
  // zero, and then with nothing.
  lemma SingleChannel(ranked: seq<Hit>, scores: map<VectorId, Score>, k: nat, overfetch: nat)
    requires k <= USIZE_MAX && IsTopK(ranked, scores, Depth(k, overfetch))
    ensures if overfetch == 0 then Take(ranked, k) == [] else IsTopK(Take(ranked, k), scores, k)
  {
    if overfetch != 0 {
      assert k * overfetch >= k;
      TakeTopK(ranked, scores, Depth(k, overfetch), k);
    }
  }

  // Every id in a hybrid answer was a candidate of some channel.
  lemma HybridCandidates(ranked: seq<Hit>, dense: Option<map<VectorId, Score>>, lexical: Option<map<VectorId, Score>>,
                         depth: nat, rrfK: real)
    requires IsHybrid(ranked, dense, lexical, depth, rrfK)
    ensures DistinctIds(ranked)
    ensures forall h :: h in ranked ==> (dense.Some? && h.id in dense.value) || (lexical.Some? && h.id in lexical.value)
  {
    match (dense, lexical) {
      case (Some(ds), Some(ls)) => {
        var d, l :| IsTopK(d, ds, depth) && IsTopK(l, ls, depth) && IsRanking(ranked, Fused([Ids(d), Ids(l)], rrfK));
        RankingIds(d, ds, depth);
        RankingIds(l, ls, depth);
        FusedIds([Ids(d), Ids(l)], rrfK, ranked);
        forall h | h in ranked
          ensures h.id in ds || h.id in ls
        {
          assert h.id in RankedIds([Ids(d), Ids(l)]);
        }
      }
      case (Some(ds), None) => { SingleCandidates(ranked, ds, depth); }
      case (None, Some(ls)) => { SingleCandidates(ranked, ls, depth); }
    }
  }

  lemma SingleCandidates(ranked: seq<Hit>, scores: map<VectorId, Score>, depth: nat)
    requires IsTopK(ranked, scores, depth)
    ensures DistinctIds(ranked)
    ensures forall h :: h in ranked ==> h.id in scores
  {
    RankingIds(ranked, scores, depth);
    var ids := Ids(ranked);
    forall i, j | 0 <= i < j < |ranked|
      ensures ranked[i].id != ranked[j].id
    {
      assert ids[i] != ids[j];
    }
    forall h | h in ranked
      ensures h.id in scores
    {
      var i :| 0 <= i < |ranked| && ranked[i] == h;
      assert ids[i] in ids;
    }
  }

  // Wherever y is a candidate, x is one that scores better, or as well with a lower id.
  ghost predicate Outranks(scores: map<VectorId, Score>, x: VectorId, y: VectorId) {
    y in scores ==> x in scores && Before(Hit(x, scores[x]), Hit(y, scores[y]))
  }

  lemma OutranksPrecedes(hits: seq<Hit>, scores: map<VectorId, Score>, depth: nat, x: VectorId, y: VectorId)
    requires IsTopK(hits, scores, depth) && Outranks(scores, x, y)
    ensures y in Ids(hits) ==> Precedes(Ids(hits), x, y)
  {
    var ids := Ids(hits);
    if y in ids {
      var full :| IsRanking(full, scores) && hits == Take(full, depth);
      var j :| 0 <= j < |ids| && ids[j] == y;
      assert full[j] in full && full[j] == Hit(y, scores[y]);
      assert Hit(x, scores[x]) in full;
      var i :| 0 <= i < |full| && full[i] == Hit(x, scores[x]);
      assert StrictlyRanked(full);
      assert !Before(full[j], full[i]);
      assert i < j;
      assert ids[i] == x;
    }
  }

  // An id that outranks another in both channels comes before it in the answer.
  lemma HybridDominance(ranked: seq<Hit>, dense: map<VectorId, Score>, lexical: map<VectorId, Score>, depth: nat, rrfK: real,
                        x: VectorId, y: VectorId)
    requires rrfK > -1.0 && IsFusion(ranked, dense, lexical, depth, rrfK)
    requires Outranks(dense, x, y) && Outranks(lexical, x, y)
    ensures y in Ids(ranked) ==> Precedes(Ids(ranked), x, y)
  {
    var d, l :| IsTopK(d, dense, depth) && IsTopK(l, lexical, depth) && IsRanking(ranked, Fused([Ids(d), Ids(l)], rrfK));
    var lists := [Ids(d), Ids(l)];
    RankingIds(d, dense, depth);
    RankingIds(l, lexical, depth);
    OutranksPrecedes(d, dense, depth, x, y);
    OutranksPrecedes(l, lexical, depth, x, y);
    FusedIds(lists, rrfK, ranked);
    BothChannels(Ids(d), Ids(l), x, y);
    hide Fused, IsRanking, IsTopK, Precedes, Ids, RankedIds, Distinct;
    if y in Ids(ranked) {
      Dominance(lists, rrfK, ranked, x, y);
    }
  }

  lemma BothChannels(d: Ranked, l: Ranked, x: VectorId, y: VectorId)
    requires Distinct(d) && Distinct(l)
    requires y in d ==> Precedes(d, x, y)
    requires y in l ==> Precedes(l, x, y)
    ensures forall r :: r in [d, l] ==> Distinct(r)
    ensures forall r :: r in [d, l] && y in r ==> Precedes(r, x, y)
  {
  }

  // Fetched deep enough, the answer fuses the two complete rankings.
  lemma DeepFusion(ranked: seq<Hit>, dense: map<VectorId, Score>, lexical: map<VectorId, Score>, depth: nat, rrfK: real,
                   d: seq<Hit>, l: seq<Hit>)
    requires IsFusion(ranked, dense, lexical, depth, rrfK)
    requires |dense| <= depth && |lexical| <= depth
    requires IsRanking(d, dense) && IsRanking(l, lexical)
    ensures IsRanking(ranked, Fused([Ids(d), Ids(l)], rrfK))
  {
    var td, tl :| IsTopK(td, dense, depth) && IsTopK(tl, lexical, depth) && IsRanking(ranked, Fused([Ids(td), Ids(tl)], rrfK));
    RankingLength(d, dense);
    RankingLength(l, lexical);
    assert Take(d, depth) == d && Take(l, depth) == l;
    TopKUnique(td, d, dense, depth);
    TopKUnique(tl, l, lexical, depth);
  }

  // The query's own depth: its answer fuses the first k * overfetch ids of each
  // complete ranking, so all of them where there are no more. (No channel has
  // more candidates than a machine word can count.)
  lemma QueryFusion(ranked: seq<Hit>, dense: map<VectorId, Score>, lexical: map<VectorId, Score>, k: nat, overfetch: nat,
                    rrfK: real, d: seq<Hit>, l: seq<Hit>)
    requires IsFusion(ranked, dense, lexical, Depth(k, overfetch), rrfK)
    requires |dense| < 0x1_0000_0000_0000_0000 && |lexical| < 0x1_0000_0000_0000_0000
    requires IsRanking(d, dense) && IsRanking(l, lexical)
    ensures IsRanking(ranked, Fused([Ids(Take(d, k * overfetch)), Ids(Take(l, k * overfetch))], rrfK))
    ensures |dense| <= k * overfetch && |lexical| <= k * overfetch ==> IsRanking(ranked, Fused([Ids(d), Ids(l)], rrfK))
  {
    var depth, wanted := Depth(k, overfetch), k * overfetch;
    var td, tl :| IsTopK(td, dense, depth) && IsTopK(tl, lexical, depth) && IsRanking(ranked, Fused([Ids(td), Ids(tl)], rrfK));
    RankingLength(d, dense);
    RankingLength(l, lexical);
    assert Take(d, depth) == Take(d, wanted) && Take(l, depth) == Take(l, wanted);
    TopKUnique(td, Take(d, depth), dense, depth);
    TopKUnique(tl, Take(l, depth), lexical, depth);
    assert |d| <= wanted ==> Take(d, wanted) == d;
    assert |l| <= wanted ==> Take(l, wanted) == l;
  }

  // A candidate is in the answer before the cut exactly if one of the channels
  // ranks it among its first k * overfetch.
  lemma QueryFetches(ranked: seq<Hit>, dense: map<VectorId, Score>, lexical: map<VectorId, Score>, k: nat, overfetch: nat,
                     rrfK: real, d: seq<Hit>, l: seq<Hit>, id: VectorId)
    requires IsFusion(ranked, dense, lexical, Depth(k, overfetch), rrfK)
    requires |dense| < 0x1_0000_0000_0000_0000 && |lexical| < 0x1_0000_0000_0000_0000
    requires IsRanking(d, dense) && IsRanking(l, lexical)
    ensures (exists h :: h in ranked && h.id == id)
            <==> || (exists i :: 0 <= i < |d| && i < k * overfetch && d[i].id == id)
                 || (exists i :: 0 <= i < |l| && i < k * overfetch && l[i].id == id)
  {
    var wanted := k * overfetch;
    QueryFusion(ranked, dense, lexical, k, overfetch, rrfK, d, l);
    var lists := [Ids(Take(d, wanted)), Ids(Take(l, wanted))];
    FusedIds(lists, rrfK, ranked);
    TakenIds(d, wanted, id);
    TakenIds(l, wanted, id);
    TakenIds(ranked, |ranked|, id);
    assert Take(ranked, |ranked|) == ranked;
    hide IsFusion, IsRanking, Fused, Ids, Take;
    assert id in RankedIds(lists) <==> id in lists[0] || id in lists[1] by {
      assert lists[0] in lists && lists[1] in lists;
    }
    assert id in Ids(ranked) <==> exists h :: h in ranked && h.id == id;
  }

  lemma TakenIds(hits: seq<Hit>, k: nat, id: VectorId)
    ensures id in Ids(Take(hits, k)) <==> exists i :: 0 <= i < |hits| && i < k && hits[i].id == id
    ensures id in Ids(hits) <==> exists h :: h in hits && h.id == id
  {
    var ids := Ids(Take(hits, k));
    forall i | 0 <= i < |hits| && i < k && hits[i].id == id
      ensures id in ids
    {
      assert ids[i] == id;
    }
    forall h | h in hits && h.id == id
      ensures id in Ids(hits)
    {
      var i :| 0 <= i < |hits| && hits[i] == h;
      assert Ids(hits)[i] == id;
    }
  }

  // Past the range of a machine word the depth stays at its largest value, so
  // one channel alone gives at most k hits there too.
  lemma QueryChannel(ranked: seq<Hit>, scores: map<VectorId, Score>, k: nat, overfetch: nat, full: seq<Hit>)
    requires IsTopK(ranked, scores, Depth(k, overfetch)) && IsRanking(full, scores)
    ensures k * overfetch < 0x1_0000_0000_0000_0000 ==> ranked == Take(full, k * overfetch)
    ensures k * overfetch >= 0x1_0000_0000_0000_0000 ==> ranked == Take(full, 0xFFFF_FFFF_FFFF_FFFF)
  {
    TopKUnique(ranked, Take(full, Depth(k, overfetch)), scores, Depth(k, overfetch));
  }
}

/** Collection: a vector index, a text index and a payload store as one unit. */
module Collections {
  import opened Core
  import opened Ranking
  import opened Lexical
  import opened MemoryLexical
  import opened Stores
  import opened Hybrid
  import Fusion
  import Oracle
  import Flat

  datatype QueryError = EmptyQuery | UnsupportedMetric(metric: Metric) | Index(error: IndexError)

  datatype SearchHit = SearchHit(id: VectorId, score: Score, payload: Option<Payload>)

  datatype Found = Hits(hits: seq<SearchHit>) | Refused(error: QueryError)

  datatype HybridQuery = HybridQuery(vector: Option<Embedding>, text: Option<string>, k: nat, filter: Option<Filter>,
                                     metric: Option<Metric>, rrfK: real, overfetch: nat)

  // Each hit with the payload stored for its id.
  function Hydrated(ranked: seq<Hit>, payloads: map<VectorId, Payload>): seq<SearchHit> {
    seq(|ranked|, i requires 0 <= i < |ranked| =>
          SearchHit(ranked[i].id, ranked[i].score, if ranked[i].id in payloads then Some(payloads[ranked[i].id]) else None))
  }

  // Without a filter every id passes, with one those whose payload matches.
  function Admission(payloads: map<VectorId, Payload>, filter: Option<Filter>): VectorId -> bool {
    (id: VectorId) => filter.None? || (id in payloads && filter.value(payloads[id]))
  }

  // What is shown of a hit is what is stored: its payload exactly if there is
  // one, and one that the filter, if any, matches.
  ghost predicate Presented(hits: seq<SearchHit>, entries: map<VectorId, Payload>, filter: Option<Filter>) {
    forall h :: h in hits ==>
      && (h.payload.Some? <==> h.id in entries)
      && (h.payload.Some? ==> h.payload.value == entries[h.id])
      && (filter.Some? ==> h.payload.Some? && filter.value(h.payload.value))
  }

  class InMemoryPayloadStore {
    var entries: map<VectorId, Payload>

    constructor ()
      ensures entries == map[]
    {
      entries := map[];
    }

    method MatchingIds(filter: Filter) returns (ids: set<VectorId>)
      ensures ids == Matching(entries, filter)
    {
      ids := {};
      var rest := entries.Keys;
      while rest != {}
        invariant rest <= entries.Keys
        invariant ids == set id | id in entries && id !in rest && filter(entries[id])
      {
        var id :| id in rest;
        rest := rest - {id};
        if filter(entries[id]) {
          ids := ids + {id};
        }
      }
    }
  }

  class Collection {
    const index: Flat.FlatIndex
    const lexical: InMemoryLexicalIndex
    const payloads: InMemoryPayloadStore
    // What the index reports as supported: all three metrics, or its own.
    const supported: set<Metric>
    ghost var vectors: Oracle.Content

    ghost predicate Valid()
      reads this, index, lexical
    {
      Flat.Holds(index.points, vectors) && Exact(lexical.State())
    }

    ghost function Contents(): State
      reads this, lexical, payloads
    {
      State(vectors, lexical.docs, payloads.entries)
    }

    constructor (index: Flat.FlatIndex, lexical: InMemoryLexicalIndex, payloads: InMemoryPayloadStore,
                 supported: set<Metric>, ghost vectors: Oracle.Content)
      requires Flat.Holds(index.points, vectors) && Exact(lexical.State())
      ensures Valid() && Contents() == State(vectors, lexical.docs, payloads.entries)
      ensures this.index == index && this.lexical == lexical && this.payloads == payloads && this.supported == supported
    {
      this.index, this.lexical, this.payloads, this.supported, this.vectors := index, lexical, payloads, supported, vectors;
    }

    method UpsertPoint(id: VectorId, e: Embedding, document: Option<string>, payload: Option<Payload>) returns (r: Result<()>)
      requires Valid()
      modifies this, index, lexical, payloads
      ensures Valid()
      ensures Contents() == Upserted(lexical.b, index.dimension, old(Contents()), id, e, document, payload)
      ensures r == if |e| == index.dimension then Ok(()) else Err(DimensionMismatch(index.dimension, |e|))
    {
      hide Flat.Holds, Exact, Count, Flat.Remove, Flat.Position;
      ghost var before := vectors;
      Flat.RemoveRefines(index.points, vectors, id);
      var _ := index.RemovePoint(id);
      vectors := vectors - {id};
      Flat.InsertRefines(index.points, vectors, index.dimension, id, e);
      r := index.InsertPoint(id, e);
      if r.Err? {
        return;
      }
      vectors := vectors[id := e];
      ReplaceOne(before, id, e);
      match document {
        case Some(text) => lexical.Insert(id, text);
        case None => lexical.Remove(id);
      }
      payloads.entries := if payload.Some? then payloads.entries[id := payload.value] else payloads.entries - {id};
    }

    method DeletePoint(id: VectorId) returns (removed: bool)
      requires Valid()
      modifies this, index, lexical, payloads
      ensures Valid() && Contents() == Without(old(Contents()), {id})
      ensures removed <==> id in old(Contents()).vectors
    {
      hide Flat.Holds, Exact, Flat.Remove, Flat.Position;
      Flat.RemoveRefines(index.points, vectors, id);
      removed := index.RemovePoint(id);
      vectors := vectors - {id};
      lexical.Remove(id);
      payloads.entries := payloads.entries - {id};
    }

    // Deletes some points, in any order, and counts the vectors.
    method DeleteAll(ids: set<VectorId>) returns (count: nat)
      requires Valid()
      modifies this, index, lexical, payloads
      ensures Valid() && Contents() == Without(old(Contents()), ids)
      ensures count == Stored(old(Contents()), ids)
    {
      hide Without, Valid, Contents, Stored;
      ghost var start := Contents();
      WithoutNothing(start);
      count := 0;
      var rest := ids;
      ghost var done: set<VectorId> := {};
      while rest != {}
        invariant Valid() && Contents() == Without(start, done)
        invariant done !! rest && done + rest == ids
        invariant count == Stored(start, done)
      {
        var id :| id in rest;
        WithoutMore(start, done, id);
        StoredMore(start, done, id);
        var removed := DeletePoint(id);
        if removed {
          count := count + 1;
        }
        rest := rest - {id};
        done := done + {id};
      }
      assert done == ids;
    }

    // delete_by_filter
    method DeleteMatching(filter: Filter) returns (count: nat)
      requires Valid()
      modifies this, index, lexical, payloads
      ensures Valid() && Contents() == ApplyPoint(lexical.b, index.dimension, old(Contents()), DeleteByFilter(filter))
      ensures count == Stored(old(Contents()), Matching(old(payloads.entries), filter))
      ensures old(Consistent(Contents())) ==> count == |Matching(old(payloads.entries), filter)|
      ensures Matching(payloads.entries, filter) == {}
    {
      hide Matching, Consistent, Without, Flat.Holds, Exact;
      FilterClears(Contents(), filter);
      var matching := payloads.MatchingIds(filter);
      count := DeleteAll(matching);
    }

    // search: filtered, metric-aware, with payloads.
    method Search(query: Embedding, k: nat, metric: Option<Metric>, filter: Option<Filter>) returns (found: Found)
      requires Valid()
      ensures var m := if metric.Some? then metric.value else index.metric;
              if m !in supported then found == Refused(QueryError.UnsupportedMetric(m))
              else if |query| != index.dimension then found == Refused(Index(DimensionMismatch(index.dimension, |query|)))
              else exists ranked ::
                     && IsTopK(ranked, Oracle.Scores(vectors, query, index.metrics(m), Admission(payloads.entries, filter)), k)
                     && found == Hits(Hydrated(ranked, payloads.entries))
      ensures found.Hits? ==> |found.hits| <= k && Presented(found.hits, payloads.entries, filter)
    {
      hide Flat.Holds, IsTopK, Flat.Search;
      var m := if metric.Some? then metric.value else index.metric;
      if m !in supported {
        return Refused(QueryError.UnsupportedMetric(m));
      }
      var neighbors := DenseChannel(query, k, m, filter);
      if neighbors.Err? {
        return Refused(Index(neighbors.error));
      }
      SearchHits(vectors, query, index.metrics(m), payloads.entries, filter, neighbors.value, k);
      HydratedReads(neighbors.value, payloads.entries, filter);
      var hits := Hydrate(neighbors.value);
      found := Hits(hits);
    }

    method AllowedIds(filter: Option<Filter>) returns (allowed: Option<set<VectorId>>)
      ensures forall id :: (allowed.None? || id in allowed.value) <==> Admission(payloads.entries, filter)(id)
    {
      match filter {
        case Some(f) =>
          var ids := payloads.MatchingIds(f);
          allowed := Some(ids);
        case None => allowed := None;
      }
    }

    // The vector index asked for its best admissible ids.
    method DenseChannel(query: Embedding, depth: nat, m: Metric, filter: Option<Filter>) returns (r: Result<seq<Hit>>)
      requires Valid()
      ensures |query| != index.dimension ==> r == Err(DimensionMismatch(index.dimension, |query|))
      ensures |query| == index.dimension ==>
                && r.Ok?
                && IsTopK(r.value, Oracle.Scores(vectors, query, index.metrics(m), Admission(payloads.entries, filter)), depth)
    {
      hide Flat.Holds, IsTopK;
      var allowed := AllowedIds(filter);
      var admit := (id: VectorId) => allowed.None? || id in allowed.value;
      r := index.SearchFiltered(query, depth, m, admit);
      if |query| == index.dimension {
        Flat.SearchIsTopK(index.points, vectors, index.dimension, query, depth, index.metrics(m), admit);
        assert Oracle.Scores(vectors, query, index.metrics(m), admit)
            == Oracle.Scores(vectors, query, index.metrics(m), Admission(payloads.entries, filter));
      }
    }

    // The text index asked for its best admissible ids.
    method LexicalChannel(text: string, depth: nat, filter: Option<Filter>) returns (hits: seq<Hit>)
      requires Valid()
      ensures var terms, admit := lexical.b.tokenize(text), Admission(payloads.entries, filter);
              IsTopK(hits, Lexical.Scores(lexical.b, lexical.docs, terms, admit), depth)
    {
      hide Flat.Holds, IsTopK, Exact, DocScore;
      var allowed := AllowedIds(filter);
      var admit := (id: VectorId) => allowed.None? || id in allowed.value;
      hits := lexical.SearchText(text, depth, admit);
      assert Lexical.Scores(lexical.b, lexical.docs, lexical.b.tokenize(text), admit)
          == Lexical.Scores(lexical.b, lexical.docs, lexical.b.tokenize(text), Admission(payloads.entries, filter));
    }

    method Hydrate(ranked: seq<Hit>) returns (hits: seq<SearchHit>)
      ensures hits == Hydrated(ranked, payloads.entries)
    {
      hits := [];
      for i := 0 to |ranked|
        invariant hits == Hydrated(ranked, payloads.entries)[..i]
      {
        var id := ranked[i].id;
        var payload := if id in payloads.entries then Some(payloads.entries[id]) else None;
        hits := hits + [SearchHit(id, ranked[i].score, payload)];
      }
    }

    method SearchHybrid(q: HybridQuery) returns (found: Found)
      requires Valid()
      requires q.vector.Some? && q.text.Some? ==> Fusion.NoPole(q.rrfK)
      ensures var m, admit := if q.metric.Some? then q.metric.value else index.metric, Admission(payloads.entries, q.filter);
              if q.vector.None? && q.text.None? then found == Refused(EmptyQuery)
              else if q.vector.Some? && m !in supported then found == Refused(QueryError.UnsupportedMetric(m))
              else if q.vector.Some? && |q.vector.value| != index.dimension
              then found == Refused(Index(DimensionMismatch(index.dimension, |q.vector.value|)))
              else exists ranked ::
                     && IsHybrid(ranked,
                                 if q.vector.None? then None
                                 else Some(Oracle.Scores(vectors, q.vector.value, index.metrics(m), admit)),
                                 if q.text.None? then None
                                 else Some(Lexical.Scores(lexical.b, lexical.docs, lexical.b.tokenize(q.text.value), admit)),
                                 Depth(q.k, q.overfetch), q.rrfK)
                     && found == Hits(Hydrated(Take(ranked, q.k), payloads.entries))
      ensures found.Hits? ==> |found.hits| <= q.k && Presented(found.hits, payloads.entries, q.filter)
    {
      hide Valid, IsTopK, IsRanking, Fusion.Fused, Fusion.NoPole, Oracle.Scores, Lexical.Scores, Hydrated;
      if q.vector.None? && q.text.None? {
        return Refused(EmptyQuery);
      }
      var m := if q.metric.Some? then q.metric.value else index.metric;
      ghost var admit := Admission(payloads.entries, q.filter);
      var depth := Depth(q.k, q.overfetch);
      var dense: Option<seq<Hit>> := None;
      if q.vector.Some? {
        if m !in supported {
          return Refused(QueryError.UnsupportedMetric(m));
        }
        var neighbors := DenseChannel(q.vector.value, depth, m, q.filter);
        if neighbors.Err? {
          return Refused(Index(neighbors.error));
        }
        dense := Some(neighbors.value);
      }
      var texts: Option<seq<Hit>> := None;
      if q.text.Some? {
        var found := LexicalChannel(q.text.value, depth, q.filter);
        texts := Some(found);
      }
      var ranked: seq<Hit>;
      match (dense, texts) {
        case (Some(d), Some(l)) =>
          ranked := Fusion.FuseRrf([Fusion.Ids(d), Fusion.Ids(l)], q.rrfK);
        case (Some(single), None) => ranked := single;
        case (None, Some(single)) => ranked := single;
      }
      ghost var denseScores := if q.vector.None? then None
                               else Some(Oracle.Scores(vectors, q.vector.value, index.metrics(m), admit));
      ghost var textScores := if q.text.None? then None
                              else Some(Lexical.Scores(lexical.b, lexical.docs, lexical.b.tokenize(q.text.value), admit));
      assert IsHybrid(ranked, denseScores, textScores, depth, q.rrfK);
      HybridHits(Contents(), lexical.b, q, index.metrics(m), ranked, depth);
      HydratedReads(Take(ranked, q.k), payloads.entries, q.filter);
      var hits := Hydrate(Take(ranked, q.k));
      found := Hits(hits);
    }
  }

  lemma WithoutNothing(s: State)
    ensures Without(s, {}) == s && Stored(s, {}) == 0
  {
    assert s.vectors - {} == s.vectors && s.docs - {} == s.docs && s.payloads - {} == s.payloads;
  }

  lemma MinusTwice<V>(m: map<VectorId, V>, done: set<VectorId>, id: VectorId)
    ensures m - done - {id} == m - (done + {id})
  {
    assert (m - done - {id}).Keys == (m - (done + {id})).Keys;
  }

  lemma WithoutMore(s: State, done: set<VectorId>, id: VectorId)
    ensures Without(Without(s, done), {id}) == Without(s, done + {id})
  {
    MinusTwice(s.vectors, done, id);
    MinusTwice(s.docs, done, id);
    MinusTwice(s.payloads, done, id);
  }

  lemma StoredMore(s: State, done: set<VectorId>, id: VectorId)
    requires id !in done
    ensures id in Without(s, done).vectors <==> id in s.vectors
    ensures Stored(s, done + {id}) == Stored(s, done) + (if id in s.vectors then 1 else 0)
  {
    assert (done + {id}) * s.vectors.Keys == done * s.vectors.Keys + (if id in s.vectors then {id} else {});
  }

  lemma FilterClears(s: State, filter: Filter)
    ensures Matching(Without(s, Matching(s.payloads, filter)).payloads, filter) == {}
    ensures Consistent(s) ==> Stored(s, Matching(s.payloads, filter)) == |Matching(s.payloads, filter)|
  {
    if Consistent(s) {
      assert Matching(s.payloads, filter) * s.vectors.Keys == Matching(s.payloads, filter);
    }
  }

  // What a hydrated list says of each hit: the id and the score it was ranked
  // with, and its payload exactly if one is stored.
  lemma HydratedReads(ranked: seq<Hit>, entries: map<VectorId, Payload>, filter: Option<Filter>)
    ensures var hits := Hydrated(ranked, entries);
            && |hits| == |ranked|
            && (forall i :: 0 <= i < |ranked| ==> hits[i].id == ranked[i].id && hits[i].score == ranked[i].score)
            && (forall h :: h in hits ==> (h.payload.Some? <==> h.id in entries))
            && (forall h :: h in hits && h.payload.Some? ==> h.payload.value == entries[h.id])
            && ((forall h :: h in ranked ==> Admission(entries, filter)(h.id)) ==> Presented(hits, entries, filter))
  {
    var hits := Hydrated(ranked, entries);
    forall i | 0 <= i < |hits|
      ensures (forall h :: h in ranked ==> Admission(entries, filter)(h.id)) ==> Admission(entries, filter)(hits[i].id)
    {
      assert ranked[i] in ranked;
    }
  }

  lemma SearchHits(vectors: Oracle.Content, query: Embedding, score: Scorer, entries: map<VectorId, Payload>,
                   filter: Option<Filter>, ranked: seq<Hit>, k: nat)
    requires IsTopK(ranked, Oracle.Scores(vectors, query, score, Admission(entries, filter)), k)
    ensures |ranked| <= k
    ensures forall h :: h in ranked ==> Admission(entries, filter)(h.id)
  {
    SingleCandidates(ranked, Oracle.Scores(vectors, query, score, Admission(entries, filter)), k);
  }

  // Every hit of a filtered hybrid query passes the filter, and in consistent
  // stores every hit is a stored vector.
  lemma HybridHits(s: State, b: Bm25, q: HybridQuery, score: Scorer, ranked: seq<Hit>, depth: nat)
    requires var admit := Admission(s.payloads, q.filter);
             IsHybrid(ranked,
                      if q.vector.None? then None else Some(Oracle.Scores(s.vectors, q.vector.value, score, admit)),
                      if q.text.None? then None else Some(Lexical.Scores(b, s.docs, b.tokenize(q.text.value), admit)),
                      depth, q.rrfK)
    ensures DistinctIds(Take(ranked, q.k)) && |Take(ranked, q.k)| <= q.k
    ensures forall h :: h in Take(ranked, q.k) ==> Admission(s.payloads, q.filter)(h.id)
    ensures Consistent(s) ==> forall h :: h in Take(ranked, q.k) ==> h.id in s.vectors
  {
    var admit := Admission(s.payloads, q.filter);
    var dense := if q.vector.None? then None else Some(Oracle.Scores(s.vectors, q.vector.value, score, admit));
    var lexical := if q.text.None? then None else Some(Lexical.Scores(b, s.docs, b.tokenize(q.text.value), admit));
    HybridCandidates(ranked, dense, lexical, depth, q.rrfK);
    hide IsHybrid, DocScore;
    assert forall h :: h in Take(ranked, q.k) ==> h in ranked;
  }
}
