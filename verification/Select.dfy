/** select_neighbors_heuristic: keep candidates closer to the base than to any
    neighbour already kept. */
module Select {
  import opened Core
  import opened Graph
  import opened Descent
  import opened Beam
  import opened BeamFacts

  // A kept neighbour is closer to the candidate than the base is.
  predicate Crowded(g: Graph, score: Scorer, c: Candidate, kept: seq<nat>) {
    exists x :: x in kept && score(g.NodeEmbedding(c.node), g.NodeEmbedding(x)) > c.score
  }

  function SelectFrom(g: Graph, score: Scorer, candidates: seq<Candidate>, limit: nat, kept: seq<nat>): seq<nat> {
    if candidates == [] || |kept| >= limit then kept
    else SelectFrom(g, score, candidates[1..], limit,
                    if Crowded(g, score, candidates[0], kept) then kept else kept + [candidates[0].node])
  }

  function SelectNeighbors(g: Graph, score: Scorer, candidates: seq<Candidate>, limit: nat): seq<nat> {
    SelectFrom(g, score, candidates, limit, [])
  }

  // at[k] is the position of the k-th kept node among the candidates.
  ghost predicate Picks(candidates: seq<Candidate>, kept: seq<nat>, at: seq<nat>) {
    && |at| == |kept|
    && (forall k :: 0 <= k < |at| ==> at[k] < |candidates| && candidates[at[k]].node == kept[k])
    && (forall j, k :: 0 <= j < k < |at| ==> at[j] < at[k])
  }

  // No kept candidate is closer to an earlier kept one than to the base.
  ghost predicate Diverse(g: Graph, score: Scorer, candidates: seq<Candidate>, at: seq<nat>) {
    forall j, k :: 0 <= j < k < |at| && at[j] < |candidates| && at[k] < |candidates| ==>
      score(g.NodeEmbedding(candidates[at[k]].node), g.NodeEmbedding(candidates[at[j]].node)) <= candidates[at[k]].score
  }

  // A candidate passed over while there was room is closer to some kept one.
  ghost predicate Justified(g: Graph, score: Scorer, candidates: seq<Candidate>, done: nat, kept: seq<nat>, at: seq<nat>) {
    forall i :: 0 <= i < done && i < |candidates| && i !in at ==> Crowded(g, score, candidates[i], kept)
  }

  // The selection is a subsequence of at most limit candidates: diverse, and
  // complete up to the point where the limit was reached.
  ghost predicate Selection(g: Graph, score: Scorer, candidates: seq<Candidate>, limit: nat, kept: seq<nat>, at: seq<nat>,
                            done: nat)
  {
    && |kept| <= limit
    && done <= |candidates|
    && Picks(candidates, kept, at)
    && (forall k :: 0 <= k < |at| ==> at[k] < done)
    && Diverse(g, score, candidates, at)
    && Justified(g, score, candidates, done, kept, at)
  }

  lemma {:induction false} SelectExtends(g: Graph, score: Scorer, candidates: seq<Candidate>, limit: nat,
                                         kept: seq<nat>, at: seq<nat>, done: nat)
    returns (final: seq<nat>, end: nat)
    requires Selection(g, score, candidates, limit, kept, at, done)
    ensures var r := SelectFrom(g, score, candidates[done..], limit, kept);
            && Selection(g, score, candidates, limit, r, final, end)
            && (end == |candidates| || |r| == limit)
            && at <= final
    decreases |candidates| - done
  {
    if done == |candidates| || |kept| >= limit {
      final, end := at, done;
    } else {
      var c := candidates[done];
      assert candidates[done..][0] == c && candidates[done..][1..] == candidates[done + 1..];
      if Crowded(g, score, c, kept) {
        final, end := SelectExtends(g, score, candidates, limit, kept, at, done + 1);
      } else {
        KeepOne(g, score, candidates, limit, kept, at, done);
        final, end := SelectExtends(g, score, candidates, limit, kept + [c.node], at + [done], done + 1);
      }
    }
  }

  lemma KeepOne(g: Graph, score: Scorer, candidates: seq<Candidate>, limit: nat, kept: seq<nat>, at: seq<nat>, done: nat)
    requires Selection(g, score, candidates, limit, kept, at, done)
    requires done < |candidates| && |kept| < limit && !Crowded(g, score, candidates[done], kept)
    ensures Selection(g, score, candidates, limit, kept + [candidates[done].node], at + [done], done + 1)
  {
    var kept', at' := kept + [candidates[done].node], at + [done];
    forall i | 0 <= i < done + 1 && i !in at'
      ensures Crowded(g, score, candidates[i], kept')
    {
      assert at'[|at|] == done;
      assert i != done && forall k :: 0 <= k < |at| ==> at'[k] == at[k];
      assert i !in at;
      var x :| x in kept && score(g.NodeEmbedding(candidates[i].node), g.NodeEmbedding(x)) > candidates[i].score;
      assert x in kept';
    }
    forall j | 0 <= j < |at|
      ensures score(g.NodeEmbedding(candidates[done].node), g.NodeEmbedding(candidates[at[j]].node)) <= candidates[done].score
    {
      assert kept[j] in kept;
    }
  }

  // What the heuristic promises of its result, for any candidate list: the
  // closest candidate is kept whenever anything is.
  lemma SelectionOf(g: Graph, score: Scorer, candidates: seq<Candidate>, limit: nat) returns (at: seq<nat>, end: nat)
    ensures var r := SelectNeighbors(g, score, candidates, limit);
            && Selection(g, score, candidates, limit, r, at, end)
            && (end == |candidates| || |r| == limit)
            && (candidates != [] && limit > 0 ==> at != [] && at[0] == 0 && r != [] && r[0] == candidates[0].node)
  {
    if candidates == [] || limit == 0 {
      at, end := [], 0;
    } else {
      SelectionNone(g, score, candidates, limit);
      hide Selection, Crowded, SelectFrom, SelectNeighbors;
      KeepOne(g, score, candidates, limit, [], [], 0);
      FirstKept(g, score, candidates, limit);
      assert [] + [candidates[0].node] == [candidates[0].node] && [] + [0] == [0];
      at, end := SelectExtends(g, score, candidates, limit, [candidates[0].node], [0], 1);
      SelectionHead(g, score, candidates, limit, SelectNeighbors(g, score, candidates, limit), at, end);
    }
  }

  lemma SelectionNone(g: Graph, score: Scorer, candidates: seq<Candidate>, limit: nat)
    ensures Selection(g, score, candidates, limit, [], [], 0)
    ensures candidates != [] ==> !Crowded(g, score, candidates[0], [])
  {
  }

  lemma SelectionHead(g: Graph, score: Scorer, candidates: seq<Candidate>, limit: nat, kept: seq<nat>, at: seq<nat>, done: nat)
    requires Selection(g, score, candidates, limit, kept, at, done) && [0] <= at
    ensures candidates != [] && kept != [] && kept[0] == candidates[0].node
  {
  }

  lemma FirstKept(g: Graph, score: Scorer, candidates: seq<Candidate>, limit: nat)
    requires candidates != [] && limit > 0
    ensures SelectNeighbors(g, score, candidates, limit)
         == SelectFrom(g, score, candidates[1..], limit, [candidates[0].node])
  {
    assert [] + [candidates[0].node] == [candidates[0].node];
  }

  // Candidates without repeats give neighbours without repeats.
  lemma SelectDistinct(g: Graph, score: Scorer, candidates: seq<Candidate>, limit: nat)
    requires DistinctNodes(candidates)
    ensures var r := SelectNeighbors(g, score, candidates, limit);
            && NoDuplicates(r) && |r| <= limit
            && (forall x :: x in r ==> x in NodesOf(candidates))
            && (candidates != [] && limit > 0 ==> candidates[0].node in r)
  {
    var r := SelectNeighbors(g, score, candidates, limit);
    var at, end := SelectionOf(g, score, candidates, limit);
    forall x | x in r
      ensures x in NodesOf(candidates)
    {
      var k :| 0 <= k < |r| && r[k] == x;
      assert candidates[at[k]] in candidates;
    }
  }

  method IsCrowded(g: Graph, score: Scorer, c: Candidate, kept: seq<nat>) returns (crowded: bool)
    ensures crowded == Crowded(g, score, c, kept)
  {
    for j := 0 to |kept|
      invariant forall k :: 0 <= k < j ==> score(g.NodeEmbedding(c.node), g.NodeEmbedding(kept[k])) <= c.score
    {
      if score(g.NodeEmbedding(c.node), g.NodeEmbedding(kept[j])) > c.score {
        return true;
      }
    }
    return false;
  }

  method Choose(g: Graph, score: Scorer, candidates: seq<Candidate>, limit: nat) returns (kept: seq<nat>)
    ensures kept == SelectNeighbors(g, score, candidates, limit)
  {
    kept := [];
    for i := 0 to |candidates|
      invariant SelectFrom(g, score, candidates[i..], limit, kept) == SelectNeighbors(g, score, candidates, limit)
    {
      if |kept| >= limit {
        return;
      }
      assert candidates[i..][0] == candidates[i] && candidates[i..][1..] == candidates[i + 1..];
      var crowded := IsCrowded(g, score, candidates[i], kept);
      if !crowded {
        kept := kept + [candidates[i].node];
      }
    }
  }
}
