/** When a search of the graph answers as a flat scan does. */
module HnswExact {
  import opened Core
  import opened Ranking
  import opened Config
  import opened Graph
  import opened Descent
  import opened Beam
  import opened BeamFacts
  import opened Hnsw
  import opened HnswLinking
  import opened HnswConnect
  import opened HnswInvariant
  import opened HnswRuns
  import Oracle
  import Flat

  // --- from candidates to hits ---

  lemma {:induction false} HitsAt(list: seq<Candidate>)
    ensures |Hits(list)| == |list|
    ensures forall i :: 0 <= i < |list| ==> Hits(list)[i] == Key(list[i])
  {
    if list != [] {
      HitsAt(list[..|list| - 1]);
    }
  }

  // The beam's result, as hits: distinct live admissible ids, best first.
  ghost predicate IsAnswer(g: Graph, query: Embedding, score: Scorer, admit: VectorId -> bool, hits: seq<Hit>) {
    var scores := Oracle.Scores(Content(g), query, score, admit);
    && StrictlyRanked(hits)
    && forall h :: h in hits ==> h.id in scores && h.score == scores[h.id]
  }

  lemma CandidateScores(s: Search, n: nat)
    requires GoodLive(s.probe.graph) && n < |s.probe.graph.nodes| && s.Admissible(n)
    ensures var scores := Oracle.Scores(Content(s.probe.graph), s.probe.query, s.probe.score, s.admit);
            Key(s.At(n)).id in scores && scores[Key(s.At(n)).id] == Key(s.At(n)).score
  {
    assert s.probe.graph.IsLive(n);
  }

  lemma DistinctLive(s: Search, a: nat, b: nat)
    requires GoodLive(s.probe.graph) && a < |s.probe.graph.nodes| && b < |s.probe.graph.nodes| && a != b
    requires s.Admissible(a) && s.Admissible(b)
    ensures Key(s.At(a)).id != Key(s.At(b)).id
  {}

  // The candidates are nodes of the graph, admissible and distinct.
  ghost predicate Admitted(s: Search, out: seq<Candidate>) {
    && (forall c :: c in out ==> c == s.At(c.node) && c.node < |s.probe.graph.nodes| && s.Admissible(c.node))
    && DistinctNodes(out)
    && Ordered(out, Key)
  }

  lemma AdmittedAnswer(s: Search, out: seq<Candidate>)
    requires GoodLive(s.probe.graph) && Admitted(s, out)
    ensures IsAnswer(s.probe.graph, s.probe.query, s.probe.score, s.admit, Hits(out))
  {
    var hits := Hits(out);
    HitsAt(out);
    hide GoodLive, Content, Hits;
    forall i, j | 0 <= i < j < |hits|
      ensures Before(hits[i], hits[j])
    {
      assert out[i] in out && out[j] in out;
      DistinctLive(s, out[i].node, out[j].node);
      assert !Before(Key(out[j]), Key(out[i]));
    }
    var scores := Oracle.Scores(Content(s.probe.graph), s.probe.query, s.probe.score, s.admit);
    forall h | h in hits
      ensures h.id in scores && h.score == scores[h.id]
    {
      var i :| 0 <= i < |hits| && hits[i] == h;
      assert out[i] in out;
      CandidateScores(s, out[i].node);
    }
  }

  lemma BeamAnswer(s: Search, entry: nat)
    requires s.ef >= 1 && entry < |s.probe.graph.nodes| && InRange(s.probe.graph) && GoodLive(s.probe.graph)
    ensures IsAnswer(s.probe.graph, s.probe.query, s.probe.score, s.admit, Hits(BeamSearch(s, entry)))
  {
    BeamSound(s, entry);
    AdmittedAnswer(s, BeamSearch(s, entry));
  }

  // The cut, the sort and the second cut of search_filtered only cut.
  lemma {:induction false} ResultIsPrefix(list: seq<Candidate>, k: nat)
    requires StrictlyRanked(Hits(list))
    ensures Take(Sort(Hits(Take(list, k)), HitKey), k) == Take(Hits(list), k)
  {
    HitsAt(list);
    HitsAt(Take(list, k));
    var cut := Hits(Take(list, k));
    assert cut == Take(Hits(list), k);
    forall i, j | 0 <= i < j < |cut|
      ensures !Before(HitKey(cut[j]), HitKey(cut[i]))
    {
      assert Before(cut[i], cut[j]);
    }
    SortFixed(cut, HitKey);
  }

  ghost function SearchOf(ix: Index, query: Embedding, k: nat, admit: VectorId -> bool): Search {
    Search(Probe(ix.graph, query, ix.Scorer()), Max(ix.config.efSearch, k), 0, admit)
  }

  lemma StartInRange(ix: Index, query: Embedding, entry: nat)
    requires Good(ix) && ix.graph.IsLive(entry)
    ensures SearchFrom(ix, query, entry) < |ix.graph.nodes|
  {
    GoodInRange(ix.graph, ix.config);
    var p := Probe(ix.graph, query, ix.Scorer());
    var all := Nodes(ix.graph);
    forall l: nat
      ensures ClosedOn(ix.graph, all, l)
    {
    }
    DescendStays(p, ix.graph.NodeLevel(entry) + 1, 1, entry, all);
  }

  // In every reachable state a search returns distinct live admissible ids with
  // their scores, best first, at most k of them.
  lemma SearchSound(ix: Index, query: Embedding, k: nat, admit: VectorId -> bool)
    requires Good(ix) && |query| == ix.dimension
    ensures var r := SearchFiltered(ix, query, k, ix.config.metric, admit);
            r.Ok? && |r.value| <= k && IsAnswer(ix.graph, query, ix.Scorer(), admit, r.value)
  {
    if ix.graph.entry.Some? {
      var s, from := SearchOf(ix, query, k, admit), SearchFrom(ix, query, ix.graph.entry.value);
      StartInRange(ix, query, ix.graph.entry.value);
      GoodInRange(ix.graph, ix.config);
      BeamAnswer(s, from);
      ResultIsPrefix(BeamSearch(s, from), k);
    }
  }

  ghost function AdmissibleNodes(g: Graph, admit: VectorId -> bool): set<nat> {
    set n: nat | n < |g.nodes| && g.IsLive(n) && admit(g.NodeId(n))
  }

  lemma RankingFromBeam(s: Search, entry: nat)
    requires s.ef >= 1 && entry < |s.probe.graph.nodes| && InRange(s.probe.graph) && GoodLive(s.probe.graph)
    requires NodesOf(BeamSearch(s, entry)) == AdmissibleNodes(s.probe.graph, s.admit)
    ensures IsRanking(Hits(BeamSearch(s, entry)), Oracle.Scores(Content(s.probe.graph), s.probe.query, s.probe.score, s.admit))
  {
    var g, out := s.probe.graph, BeamSearch(s, entry);
    var hits, scores := Hits(out), Oracle.Scores(Content(g), s.probe.query, s.probe.score, s.admit);
    BeamAnswer(s, entry);
    BeamSound(s, entry);
    HitsAt(out);
    hide BeamSearch;
    forall id | id in scores
      ensures Hit(id, scores[id]) in hits
    {
      var n := g.live[id];
      assert n in AdmissibleNodes(g, s.admit);
      var c :| c in out && c.node == n;
      var i :| 0 <= i < |out| && out[i] == c;
      assert hits[i] == Hit(id, scores[id]);
    }
  }

  // Whenever layer 0 leads from where the search starts to every live
  // admissible node, and the beam is at least as wide as there are such nodes,
  // the search answers with the k best.
  lemma SearchExact(ix: Index, query: Embedding, k: nat, admit: VectorId -> bool)
    requires Good(ix) && |query| == ix.dimension
    requires |AdmissibleNodes(ix.graph, admit)| <= Max(ix.config.efSearch, k)
    requires ix.graph.entry.Some? ==>
               forall n :: n in AdmissibleNodes(ix.graph, admit) ==>
                 Reaches(ix.graph, 0, SearchFrom(ix, query, ix.graph.entry.value), n)
    ensures var r := SearchFiltered(ix, query, k, ix.config.metric, admit);
            r.Ok? && IsTopK(r.value, Oracle.Scores(Content(ix.graph), query, ix.Scorer(), admit), k)
  {
    var scores := Oracle.Scores(Content(ix.graph), query, ix.Scorer(), admit);
    if ix.graph.entry.Some? {
      var s, from := SearchOf(ix, query, k, admit), SearchFrom(ix, query, ix.graph.entry.value);
      StartInRange(ix, query, ix.graph.entry.value);
      GoodInRange(ix.graph, ix.config);
      assert Targets(s, from) == AdmissibleNodes(ix.graph, admit);
      BeamExact(s, from);
      RankingFromBeam(s, from);
      BeamAnswer(s, from);
      ResultIsPrefix(BeamSearch(s, from), k);
    } else {
      NothingLive(ix.graph);
      assert scores == map[];
      assert IsRanking([], scores);
      assert Take<Hit>([], k) == [];
    }
  }

  lemma NothingLive(g: Graph)
    requires GoodLive(g) && forall i: nat :: !g.IsLive(i)
    ensures Content(g) == map[]
  {
    forall id
      ensures id !in g.live
    {
    }
  }

  lemma AdmissibleCount(g: Graph, admit: VectorId -> bool)
    requires GoodLive(g)
    ensures |AdmissibleNodes(g, admit)| <= g.liveCount
  {
    var nodes := AdmissibleNodes(g, admit);
    var ids := set n | n in nodes :: g.NodeId(n);
    ImageCount(g, nodes, ids);
    assert ids <= g.live.Keys;
    CountSubset(ids, g.live.Keys);
  }

  lemma {:induction false} ImageCount(g: Graph, nodes: set<nat>, ids: set<VectorId>)
    requires GoodLive(g) && forall n :: n in nodes ==> g.IsLive(n)
    requires ids == set n | n in nodes :: g.NodeId(n)
    ensures |nodes| == |ids|
    decreases nodes
  {
    if nodes != {} {
      var n :| n in nodes;
      var rest := nodes - {n};
      var restIds := set x | x in rest :: g.NodeId(x);
      ImageCount(g, rest, restIds);
      assert g.NodeId(n) !in restIds;
      assert ids == restIds + {g.NodeId(n)};
      assert nodes == rest + {n};
    } else {
      assert ids == {};
    }
  }

  // With k at least the number of live admissible nodes the converse holds too:
  // the answer is right exactly when layer 0 leads to all of them.
  lemma SearchExactIff(ix: Index, query: Embedding, k: nat, admit: VectorId -> bool)
    requires Good(ix) && |query| == ix.dimension
    requires |AdmissibleNodes(ix.graph, admit)| <= k
    ensures var r := SearchFiltered(ix, query, k, ix.config.metric, admit);
            && r.Ok?
            && (IsTopK(r.value, Oracle.Scores(Content(ix.graph), query, ix.Scorer(), admit), k)
                <==> (ix.graph.entry.Some? ==>
                        forall n :: n in AdmissibleNodes(ix.graph, admit) ==>
                          Reaches(ix.graph, 0, SearchFrom(ix, query, ix.graph.entry.value), n)))
  {
    hide Good, SearchFiltered, SearchFrom, Content, IsTopK, Reaches, AdmissibleNodes, IsAnswer;
    var scores := Oracle.Scores(Content(ix.graph), query, ix.Scorer(), admit);
    SearchSound(ix, query, k, admit);
    var r := SearchFiltered(ix, query, k, ix.config.metric, admit);
    if IsTopK(r.value, scores, k) && ix.graph.entry.Some? {
      forall n | n in AdmissibleNodes(ix.graph, admit)
        ensures Reaches(ix.graph, 0, SearchFrom(ix, query, ix.graph.entry.value), n)
      {
        AnsweredIsReached(ix, query, k, admit, n);
      }
    }
    if ix.graph.entry.Some? ==>
         forall n :: n in AdmissibleNodes(ix.graph, admit) ==>
           Reaches(ix.graph, 0, SearchFrom(ix, query, ix.graph.entry.value), n)
    {
      SearchExact(ix, query, k, admit);
    }
  }

  lemma AnsweredIsReached(ix: Index, query: Embedding, k: nat, admit: VectorId -> bool, n: nat)
    requires Good(ix) && |query| == ix.dimension && ix.graph.entry.Some?
    requires |AdmissibleNodes(ix.graph, admit)| <= k && n in AdmissibleNodes(ix.graph, admit)
    requires var scores := Oracle.Scores(Content(ix.graph), query, ix.Scorer(), admit);
             SearchFiltered(ix, query, k, ix.config.metric, admit).Ok?
             && IsTopK(SearchFiltered(ix, query, k, ix.config.metric, admit).value, scores, k)
    ensures Reaches(ix.graph, 0, SearchFrom(ix, query, ix.graph.entry.value), n)
  {
    var g, s, from := ix.graph, SearchOf(ix, query, k, admit), SearchFrom(ix, query, ix.graph.entry.value);
    var scores := Oracle.Scores(Content(g), query, ix.Scorer(), admit);
    StartInRange(ix, query, g.entry.value);
    GoodInRange(g, ix.config);
    BeamAnswer(s, from);
    BeamSound(s, from);
    ResultIsPrefix(BeamSearch(s, from), k);
    var out := BeamSearch(s, from);
    HitsAt(out);
    assert SearchFiltered(ix, query, k, ix.config.metric, admit).value == Take(Hits(out), k);
    ScoredCount(g, query, ix.Scorer(), admit);
    hide BeamSearch, SearchFiltered, SearchFrom, GoodEdges, Connected, Reaches, GoodEntry, GoodOrder, Finish;
    Listed(Take(Hits(out), k), scores, k, g.NodeId(n));
    var i :| 0 <= i < |Hits(out)| && Hits(out)[i].id == g.NodeId(n);
    assert out[i] in out;
    assert s.Admissible(n) && s.At(n).id == g.NodeId(n);
    if out[i].node != n {
      DistinctLive(s, out[i].node, n);
    }
  }

  // The k best of at most k scored ids are all of them.
  lemma Listed(hits: seq<Hit>, scores: map<VectorId, Score>, k: nat, id: VectorId)
    requires IsTopK(hits, scores, k) && |scores| <= k && id in scores
    ensures exists i :: 0 <= i < |hits| && hits[i].id == id
  {
    var full :| IsRanking(full, scores) && hits == Take(full, k);
    RankingLength(full, scores);
    assert Hit(id, scores[id]) in full;
  }

  // One scored id for each live admissible node.
  lemma ScoredCount(g: Graph, query: Embedding, score: Scorer, admit: VectorId -> bool)
    requires GoodLive(g)
    ensures var scores := Oracle.Scores(Content(g), query, score, admit);
            && |scores| == |AdmissibleNodes(g, admit)|
            && forall n :: n in AdmissibleNodes(g, admit) ==> g.NodeId(n) in scores
  {
    var nodes, scores := AdmissibleNodes(g, admit), Oracle.Scores(Content(g), query, score, admit);
    var ids := set n | n in nodes :: g.NodeId(n);
    ImageCount(g, nodes, ids);
    forall id
      ensures id in ids <==> id in scores
    {
      if id in scores {
        assert g.live[id] in nodes && g.NodeId(g.live[id]) == id;
      }
    }
    assert scores.Keys == ids;
  }

  // In a connected graph the search may start anywhere the descent ends.
  lemma ConnectedReaches(ix: Index, query: Embedding, entry: nat, n: nat)
    requires Good(ix) && Connected(ix.graph) && ix.graph.IsLive(entry) && ix.graph.IsLive(n)
    ensures Reaches(ix.graph, 0, SearchFrom(ix, query, entry), n)
  {
    GoodInRange(ix.graph, ix.config);
    hide Good, GoodEdges, GoodLive, GoodEntry;
    ReachesSelf(ix.graph, 0, entry);
    DescentGrounded(ix.graph, Probe(ix.graph, query, ix.Scorer()), ix.graph.NodeLevel(entry) + 1, 1, entry);
    assert Mutual(ix.graph, entry, n);
    MutualTransitive(ix.graph, SearchFrom(ix, query, entry), entry, n);
  }

  lemma SmallSearchExact(ix: Index, query: Embedding, k: nat, admit: VectorId -> bool)
    requires Good(ix) && |query| == ix.dimension
    requires |ix.graph.nodes| <= 2 * ix.config.m + 1
    requires ix.graph.liveCount <= Max(ix.config.efSearch, k)
    ensures var r := SearchFiltered(ix, query, k, ix.config.metric, admit);
            r.Ok? && IsTopK(r.value, Oracle.Scores(Content(ix.graph), query, ix.Scorer(), admit), k)
  {
    AdmissibleCount(ix.graph, admit);
    if ix.graph.entry.Some? {
      forall n | n in AdmissibleNodes(ix.graph, admit)
        ensures Reaches(ix.graph, 0, SearchFrom(ix, query, ix.graph.entry.value), n)
      {
        ConnectedReaches(ix, query, ix.graph.entry.value, n);
      }
    }
    hide Good, SearchFiltered;
    SearchExact(ix, query, k, admit);
  }

  // --- the flat index beside it ---

  // FlatIndex under the same operations; it has nothing to compact.
  function FlatStep(points: seq<Flat.Point>, dimension: nat, op: Oracle.Op): seq<Flat.Point> {
    match op
    case Insert(id, e) =>
      (match Flat.Insert(points, dimension, id, e)
       case Ok(next) => next
       case Err(_) => points)
    case Remove(id) => Flat.Remove(points, id)
    case Compact => points
  }

  function FlatRun(dimension: nat, ops: seq<Oracle.Op>): seq<Flat.Point> {
    if ops == [] then [] else FlatStep(FlatRun(dimension, ops[..|ops| - 1]), dimension, ops[|ops| - 1])
  }

  lemma {:induction false} FlatRunHolds(dimension: nat, ops: seq<Oracle.Op>)
    ensures Flat.Holds(FlatRun(dimension, ops), Oracle.Run(map[], dimension, ops))
  {
    if ops != [] {
      var n := |ops| - 1;
      FlatRunHolds(dimension, ops[..n]);
      var points, content := FlatRun(dimension, ops[..n]), Oracle.Run(map[], dimension, ops[..n]);
      match ops[n]
      case Insert(id, e) => Flat.InsertRefines(points, content, dimension, id, e);
      case Remove(id) => Flat.RemoveRefines(points, content, id);
      case Compact =>
    }
  }

  // For every sequence of operations that leaves at most 2m + 1 nodes,
  // tombstones included, and every query whose beam max(ef_search, k) is at
  // least the live count, the graph's answer is the flat index's answer.
  lemma HnswEqualsFlat(config: HnswConfig, dimension: nat, num: Numerics, ops: seq<Oracle.Op>,
                       query: Embedding, k: nat, admit: VectorId -> bool)
    requires config.Valid() && dimension > 0 && ValidOps(ops)
    requires |Run(New(config, dimension, num), ops).graph.nodes| <= 2 * config.m + 1
    requires |Oracle.Run(map[], dimension, ops)| <= Max(config.efSearch, k)
    ensures SearchFiltered(Run(New(config, dimension, num), ops), query, k, config.metric, admit)
         == Flat.Search(FlatRun(dimension, ops), dimension, query, k, num.scorer(config.metric), admit)
  {
    var ix, content, points := Run(New(config, dimension, num), ops), Oracle.Run(map[], dimension, ops), FlatRun(dimension, ops);
    RunRefines(config, dimension, num, ops);
    FlatRunHolds(dimension, ops);
    if |query| == dimension {
      LiveCountIsContent(ix);
      hide Good, SearchFiltered, Flat.Search, Run, Oracle.Run, FlatRun;
      SmallSearchExact(ix, query, k, admit);
      Flat.SearchIsTopK(points, content, dimension, query, k, num.scorer(config.metric), admit);
      TopKUnique(SearchFiltered(ix, query, k, config.metric, admit).value,
                 Flat.Search(points, dimension, query, k, num.scorer(config.metric), admit).value,
                 Oracle.Scores(content, query, num.scorer(config.metric), admit), k);
    }
  }

  lemma LiveCountIsContent(ix: Index)
    requires Good(ix)
    ensures ix.graph.liveCount == |Content(ix.graph)|
  {
    assert Content(ix.graph).Keys == ix.graph.live.Keys;
  }
}
