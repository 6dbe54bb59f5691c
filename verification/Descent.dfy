/** greedy_descent: walk to ever closer nodes, layer by layer. */
module Descent {
  import opened Core
  import opened Graph

  // A query against a graph; Key(n) is how node n ranks.
  datatype Probe = Probe(graph: Graph, query: Embedding, score: Scorer) {
    function Key(n: nat): Hit { Hit(graph.NodeId(n), score(query, graph.NodeEmbedding(n))) }

    predicate Closer(a: nat, b: nat) { Before(Key(a), Key(b)) }

    ghost function CloserNodes(n: nat): set<nat> { set x | 0 <= x < |graph.nodes| && Closer(x, n) }
  }

  ghost predicate InRange(g: Graph) {
    forall i: nat, l: nat, x :: x in g.Neighbors(i, l) ==> x < |g.nodes|
  }

  // One pass over a neighbour list, moving to each node that is closer.
  function Sweep(p: Probe, list: seq<nat>, current: nat): (r: nat)
    ensures r == current || (r in list && p.Closer(r, current))
  {
    if list == [] then current
    else Sweep(p, list[1..], if p.Closer(list[0], current) then list[0] else current)
  }

  // Passes until none improves. A node out of range has no neighbours, so the
  // walk ends there.
  function DescendLayer(p: Probe, layer: nat, current: nat): nat
    decreases p.CloserNodes(current)
  {
    var next := Sweep(p, p.graph.Neighbors(current, layer), current);
    if next == current || next >= |p.graph.nodes| then next
    else
      assert next in p.CloserNodes(current) && next !in p.CloserNodes(next);
      DescendLayer(p, layer, next)
  }

  // The layers above - 1, above - 2, ..., to.
  function Descend(p: Probe, above: nat, to: nat, current: nat): nat
    decreases above
  {
    if above <= to then current
    else Descend(p, above - 1, to, DescendLayer(p, above - 1, current))
  }

  lemma {:induction false} SweepBest(p: Probe, list: seq<nat>, current: nat)
    ensures var r := Sweep(p, list, current);
            !p.Closer(current, r) && forall x :: x in list ==> !p.Closer(x, r)
  {
    if list != [] {
      var next := if p.Closer(list[0], current) then list[0] else current;
      SweepBest(p, list[1..], next);
      assert list == [list[0]] + list[1..];
    }
  }

  lemma {:induction false} DescendLayerBest(p: Probe, layer: nat, current: nat)
    ensures var r := DescendLayer(p, layer, current);
            (r == current || p.Closer(r, current)) && forall x :: x in p.graph.Neighbors(r, layer) ==> !p.Closer(x, r)
    decreases p.CloserNodes(current)
  {
    SweepBest(p, p.graph.Neighbors(current, layer), current);
    var next := Sweep(p, p.graph.Neighbors(current, layer), current);
    if next != current && next < |p.graph.nodes| {
      assert next in p.CloserNodes(current) && next !in p.CloserNodes(next);
      DescendLayerBest(p, layer, next);
    }
  }

  // The descent ends no worse than it started, at a node none of whose
  // neighbours on the last layer is closer to the query.
  lemma {:induction false} DescendLocalOptimum(p: Probe, above: nat, to: nat, current: nat)
    ensures var r := Descend(p, above, to, current);
            && (r == current || p.Closer(r, current))
            && (above > to ==> forall x :: x in p.graph.Neighbors(r, to) ==> !p.Closer(x, r))
    decreases above
  {
    if above > to {
      DescendLayerBest(p, above - 1, current);
      DescendLocalOptimum(p, above - 1, to, DescendLayer(p, above - 1, current));
    }
  }

  ghost predicate ClosedOn(g: Graph, s: set<nat>, layer: nat) {
    forall x, y :: x in s && y in g.Neighbors(x, layer) ==> y in s
  }

  lemma {:induction false} DescendLayerStays(p: Probe, layer: nat, current: nat, s: set<nat>)
    requires current in s && ClosedOn(p.graph, s, layer)
    ensures DescendLayer(p, layer, current) in s
    decreases p.CloserNodes(current)
  {
    var next := Sweep(p, p.graph.Neighbors(current, layer), current);
    if next != current && next < |p.graph.nodes| {
      assert next in p.CloserNodes(current) && next !in p.CloserNodes(next);
      DescendLayerStays(p, layer, next, s);
    }
  }

  // The descent only follows links of the layers it descends through.
  lemma {:induction false} DescendStays(p: Probe, above: nat, to: nat, current: nat, s: set<nat>)
    requires current in s && forall l: nat :: to <= l < above ==> ClosedOn(p.graph, s, l)
    ensures Descend(p, above, to, current) in s
    decreases above
  {
    if above > to {
      DescendLayerStays(p, above - 1, current, s);
      DescendStays(p, above - 1, to, DescendLayer(p, above - 1, current), s);
    }
  }

  method Pass(p: Probe, list: seq<nat>, start: nat) returns (current: nat, improved: bool)
    ensures current == Sweep(p, list, start)
    ensures improved == (current != start)
  {
    current, improved := start, false;
    for i := 0 to |list|
      invariant current == start || p.Closer(current, start)
      invariant improved == (current != start)
      invariant Sweep(p, list[i..], current) == Sweep(p, list, start)
    {
      assert list[i..][0] == list[i] && list[i..][1..] == list[i + 1..];
      if p.Closer(list[i], current) {
        current := list[i];
        improved := true;
      }
    }
  }

  method GreedyDescent(p: Probe, entry: nat, from: nat, to: nat) returns (current: nat)
    ensures current == Descend(p, from + 1, to, entry)
    ensures current == entry || p.Closer(current, entry)
  {
    current := entry;
    var layer: nat := from + 1;
    while layer > to
      invariant Descend(p, layer, to, current) == Descend(p, from + 1, to, entry)
    {
      layer := layer - 1;
      ghost var target := DescendLayer(p, layer, current);
      var improved := true;
      while improved
        invariant if improved then DescendLayer(p, layer, current) == target else current == target
        decreases p.CloserNodes(current), current < |p.graph.nodes|, improved
      {
        ghost var start := current;
        current, improved := Pass(p, p.graph.Neighbors(current, layer), current);
        if improved && current < |p.graph.nodes| {
          assert current in p.CloserNodes(start) && current !in p.CloserNodes(current);
        }
      }
    }
    DescendLocalOptimum(p, from + 1, to, entry);
  }
}
