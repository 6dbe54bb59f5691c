/** beam_search: best-first exploration of one layer with a bounded result. */
module Beam {
  import opened Core
  import opened Ranking
  import opened Graph
  import opened Descent

  datatype Candidate = Candidate(score: Score, node: nat, id: VectorId)

  function Key(c: Candidate): Hit { Hit(c.id, c.score) }

  // A search over one layer of a graph.
  datatype Search = Search(probe: Probe, ef: nat, layer: nat, admit: VectorId -> bool) {
    function At(n: nat): Candidate { Candidate(probe.Key(n).score, n, probe.Key(n).id) }

    predicate Admissible(n: nat) { !probe.graph.IsTombstone(n) && admit(probe.graph.NodeId(n)) }
  }

  // What the loop holds: nodes seen, candidates still to expand, and the best
  // admissible candidates so far.
  datatype State = State(visited: set<nat>, frontier: seq<Candidate>, result: seq<Candidate>)

  // The heap's maximum: no candidate comes before it; the earliest pushed one
  // among equals.
  function BestIndex(s: seq<Candidate>): (i: nat)
    requires s != []
    ensures i < |s| && forall j :: 0 <= j < |s| ==> !Before(Key(s[j]), Key(s[i]))
  {
    if |s| == 1 then 0
    else
      var b := BestIndex(s[..|s| - 1]);
      if Before(Key(s[|s| - 1]), Key(s[b])) then |s| - 1 else b
  }

  // The heap's minimum: it comes before no other candidate.
  function WorstIndex(s: seq<Candidate>): (i: nat)
    requires s != []
    ensures i < |s| && forall j :: 0 <= j < |s| ==> !Before(Key(s[i]), Key(s[j]))
  {
    if |s| == 1 then 0
    else
      var w := WorstIndex(s[..|s| - 1]);
      if Before(Key(s[w]), Key(s[|s| - 1])) then |s| - 1 else w
  }

  function Drop<T>(s: seq<T>, i: nat): seq<T>
    requires i < |s|
  {
    s[..i] + s[i + 1..]
  }

  // An empty result counts as minus infinity.
  predicate AboveWorst(score: Score, result: seq<Candidate>) {
    result == [] || score > result[WorstIndex(result)].score
  }

  predicate BelowWorst(score: Score, result: seq<Candidate>) {
    result != [] && score < result[WorstIndex(result)].score
  }

  function Evict(result: seq<Candidate>, ef: nat): seq<Candidate> {
    if |result| > ef then Evict(Drop(result, WorstIndex(result)), ef) else result
  }

  function Admit(s: Search, result: seq<Candidate>, n: nat): seq<Candidate> {
    if s.Admissible(n) && (|result| < s.ef || AboveWorst(s.At(n).score, result))
    then Evict(result + [s.At(n)], s.ef)
    else result
  }

  function Visit(s: Search, st: State, n: nat): State {
    if n >= |s.probe.graph.nodes| || n in st.visited then st
    else State(st.visited + {n}, st.frontier + [s.At(n)], Admit(s, st.result, n))
  }

  function Expand(s: Search, st: State, list: seq<nat>): (r: State)
    ensures st.visited <= r.visited <= st.visited + Nodes(s.probe.graph)
    ensures r.visited == st.visited ==> r.frontier == st.frontier
    decreases |list|
  {
    if list == [] then st else Expand(s, Visit(s, st, list[0]), list[1..])
  }

  ghost function Nodes(g: Graph): set<nat> { set i: nat | i < |g.nodes| && g.Has(i) }

  function Start(s: Search, entry: nat): State {
    State({entry}, [s.At(entry)], if s.Admissible(entry) then [s.At(entry)] else [])
  }

  predicate Stops(s: Search, st: State) {
    st.frontier == []
    || (|st.result| >= s.ef && BelowWorst(st.frontier[BestIndex(st.frontier)].score, st.result))
  }

  function Step(s: Search, st: State): State
    requires st.frontier != []
  {
    var best := BestIndex(st.frontier);
    Expand(s, st.(frontier := Drop(st.frontier, best)),
           s.probe.graph.Neighbors(st.frontier[best].node, s.layer))
  }

  ghost function Unseen(s: Search, st: State): nat { |Nodes(s.probe.graph) - st.visited| }

  lemma StepShrinks(s: Search, st: State)
    requires st.frontier != []
    ensures Unseen(s, Step(s, st)) < Unseen(s, st)
            || (Unseen(s, Step(s, st)) == Unseen(s, st) && |Step(s, st).frontier| < |st.frontier|)
  {
    var before, after := Nodes(s.probe.graph) - st.visited, Nodes(s.probe.graph) - Step(s, st).visited;
    if Step(s, st).visited != st.visited {
      assert before == after + (Step(s, st).visited - st.visited);
      assert Step(s, st).visited - st.visited != {};
    }
  }

  function Loop(s: Search, st: State): State
    decreases Unseen(s, st), |st.frontier|
  {
    if Stops(s, st) then st else StepShrinks(s, st); Loop(s, Step(s, st))
  }

  function Finish(s: Search, entry: nat): State { Loop(s, Start(s, entry)) }

  function BeamSearch(s: Search, entry: nat): seq<Candidate> {
    Sort(Finish(s, entry).result, Key)
  }

  method Offer(s: Search, before: seq<Candidate>, n: nat) returns (result: seq<Candidate>)
    ensures result == Admit(s, before, n)
  {
    result := before;
    if s.Admissible(n) && (|result| < s.ef || AboveWorst(s.At(n).score, result)) {
      result := result + [s.At(n)];
      while |result| > s.ef
        invariant Evict(result, s.ef) == Admit(s, before, n)
      {
        result := Drop(result, WorstIndex(result));
      }
    }
  }

  ghost predicate Marks(visited: seq<bool>, nodes: set<nat>) {
    forall i :: 0 <= i < |visited| ==> (visited[i] <==> i in nodes)
  }

  // The inner loop of beam_search, over one node's neighbours.
  method ExpandInto(s: Search, ghost st: State, visited: array<bool>, frontier: seq<Candidate>, result: seq<Candidate>,
                    list: seq<nat>)
    returns (frontier': seq<Candidate>, result': seq<Candidate>)
    requires visited.Length == |s.probe.graph.nodes| && Marks(visited[..], st.visited)
    requires frontier == st.frontier && result == st.result
    modifies visited
    ensures var r := Expand(s, st, list);
            Marks(visited[..], r.visited) && frontier' == r.frontier && result' == r.result
  {
    frontier', result' := frontier, result;
    ghost var now := st;
    for i := 0 to |list|
      invariant Marks(visited[..], now.visited)
      invariant frontier' == now.frontier && result' == now.result
      invariant Expand(s, now, list[i..]) == Expand(s, st, list)
    {
      var n := list[i];
      assert list[i..][0] == n && list[i..][1..] == list[i + 1..];
      now := Visit(s, now, n);
      if n >= visited.Length || visited[n] {
        continue;
      }
      visited[n] := true;
      frontier' := frontier' + [s.At(n)];
      result' := Offer(s, result', n);
    }
  }

  method Explore(s: Search, entry: nat) returns (out: seq<Candidate>)
    requires entry < |s.probe.graph.nodes|
    ensures out == BeamSearch(s, entry)
  {
    var g := s.probe.graph;
    var visited := new bool[|g.nodes|](_ => false);
    visited[entry] := true;
    var frontier := [s.At(entry)];
    var result := if s.Admissible(entry) then [s.At(entry)] else [];
    ghost var st := Start(s, entry);
    ghost var end := Loop(s, st);
    while frontier != []
      invariant Marks(visited[..], st.visited)
      invariant frontier == st.frontier && result == st.result
      invariant Loop(s, st) == end
      decreases Unseen(s, st), |frontier|
    {
      StepShrinks(s, st);
      var best := BestIndex(frontier);
      var candidate := frontier[best];
      if |result| >= s.ef && BelowWorst(candidate.score, result) {
        break;
      }
      frontier := Drop(frontier, best);
      ghost var popped := st.(frontier := frontier);
      var list := g.Neighbors(candidate.node, s.layer);
      frontier, result := ExpandInto(s, popped, visited, frontier, result, list);
      st := Step(s, st);
    }
    assert Stops(s, st);
    out := Sort(result, Key);
  }
}
