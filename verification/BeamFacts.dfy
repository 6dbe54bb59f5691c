/** What beam_search returns. */
module BeamFacts {
  import opened Core
  import opened Ranking
  import opened Graph
  import opened Descent
  import opened Beam

  ghost function NodesOf(list: seq<Candidate>): set<nat> { set c | c in list :: c.node }

  ghost predicate DistinctNodes(list: seq<Candidate>) {
    forall i, j :: 0 <= i < j < |list| ==> list[i].node != list[j].node
  }

  ghost predicate GoodFrontier(s: Search, st: State) {
    forall c :: c in st.frontier ==> c == s.At(c.node) && c.node in st.visited
  }

  // At most ef distinct admissible nodes seen so far.
  ghost predicate GoodResult(s: Search, visited: set<nat>, result: seq<Candidate>) {
    && (forall c :: c in result ==> c == s.At(c.node) && c.node in visited && s.Admissible(c.node))
    && DistinctNodes(result)
    && |result| <= s.ef
  }

  // An admissible node seen and left out scores no higher than any kept one.
  ghost predicate NoneBetter(s: Search, visited: set<nat>, result: seq<Candidate>) {
    forall n :: n in visited && s.Admissible(n) && n !in NodesOf(result) ==>
      |result| == s.ef && forall c :: c in result ==> s.At(n).score <= c.score
  }

  // A node seen and no longer waiting has had all its neighbours seen.
  ghost predicate Covered(s: Search, st: State) {
    forall x, y :: x in st.visited && x !in NodesOf(st.frontier) && y in s.probe.graph.Neighbors(x, s.layer) ==>
      y in st.visited
  }

  ghost predicate Inv(s: Search, st: State) {
    && (forall n :: n in st.visited ==> n < |s.probe.graph.nodes|)
    && GoodFrontier(s, st)
    && GoodResult(s, st.visited, st.result)
    && NoneBetter(s, st.visited, st.result)
  }

  lemma WorstIsLowest(list: seq<Candidate>, c: Candidate)
    requires c in list
    ensures list[WorstIndex(list)].score <= c.score
  {
    var j :| 0 <= j < |list| && list[j] == c;
    assert !Before(Key(list[WorstIndex(list)]), Key(list[j]));
  }

  lemma DropDistinct(list: seq<Candidate>, i: nat)
    requires DistinctNodes(list) && i < |list|
    ensures DistinctNodes(Drop(list, i))
    ensures NodesOf(Drop(list, i)) == NodesOf(list) - {list[i].node}
    ensures forall c :: c in Drop(list, i) ==> c in list
  {
    var d := Drop(list, i);
    assert forall j :: 0 <= j < |d| ==> d[j] == list[if j < i then j else j + 1];
    forall n | n in NodesOf(list) - {list[i].node}
      ensures n in NodesOf(d)
    {
      var j :| 0 <= j < |list| && list[j].node == n;
      assert d[if j < i then j else j - 1] == list[j];
    }
  }

  lemma EvictOnce(s: Search, visited: set<nat>, grown: seq<Candidate>)
    requires s.ef >= 1 && |grown| == s.ef + 1
    requires DistinctNodes(grown)
    requires forall c :: c in grown ==> c == s.At(c.node) && c.node in visited && s.Admissible(c.node)
    requires forall n, c :: n in visited && s.Admissible(n) && n !in NodesOf(grown) && c in grown ==>
               s.At(n).score <= c.score
    ensures GoodResult(s, visited, Evict(grown, s.ef)) && NoneBetter(s, visited, Evict(grown, s.ef))
  {
    var w := WorstIndex(grown);
    var kept := Drop(grown, w);
    DropDistinct(grown, w);
    assert Evict(grown, s.ef) == kept;
    forall n, c | n in visited && s.Admissible(n) && n !in NodesOf(kept) && c in kept
      ensures s.At(n).score <= c.score
    {
      if n == grown[w].node {
        WorstIsLowest(grown, c);
        assert grown[w] in grown;
      }
    }
  }

  lemma AdmitKeeps(s: Search, visited: set<nat>, result: seq<Candidate>, n: nat)
    requires s.ef >= 1 && n !in visited
    requires GoodResult(s, visited, result) && NoneBetter(s, visited, result)
    ensures GoodResult(s, visited + {n}, Admit(s, result, n)) && NoneBetter(s, visited + {n}, Admit(s, result, n))
  {
    if s.Admissible(n) {
      var score := s.At(n).score;
      if |result| < s.ef {
        AdmitRoom(s, visited, result, n);
      } else if AboveWorst(score, result) {
        AdmitOver(s, visited, result, n);
      } else {
        forall c | c in result
          ensures score <= c.score
        {
          WorstIsLowest(result, c);
        }
      }
    }
  }

  lemma AdmitRoom(s: Search, visited: set<nat>, result: seq<Candidate>, n: nat)
    requires s.Admissible(n) && n !in visited && |result| < s.ef
    requires GoodResult(s, visited, result) && NoneBetter(s, visited, result)
    ensures GoodResult(s, visited + {n}, Admit(s, result, n)) && NoneBetter(s, visited + {n}, Admit(s, result, n))
  {
    var grown := result + [s.At(n)];
    assert Admit(s, result, n) == grown;
    assert grown[|result|].node == n;
    forall c | c in result
      ensures c.node in NodesOf(grown)
    {
      assert c in grown;
    }
    assert n in NodesOf(grown) by { assert s.At(n) in grown; }
  }

  lemma AdmitOver(s: Search, visited: set<nat>, result: seq<Candidate>, n: nat)
    requires s.ef >= 1 && s.Admissible(n) && n !in visited && |result| >= s.ef && AboveWorst(s.At(n).score, result)
    requires GoodResult(s, visited, result) && NoneBetter(s, visited, result)
    ensures GoodResult(s, visited + {n}, Admit(s, result, n)) && NoneBetter(s, visited + {n}, Admit(s, result, n))
  {
    var grown := result + [s.At(n)];
    assert s.At(n) in grown;
    forall c | c in result
      ensures c in grown && c.node in NodesOf(grown)
    {
    }
    forall m, c | m in visited + {n} && s.Admissible(m) && m !in NodesOf(grown) && c in grown
      ensures s.At(m).score <= c.score
    {
      assert m !in NodesOf(result);
      var worst := result[WorstIndex(result)];
      assert worst in result && s.At(m).score <= worst.score;
    }
    EvictOnce(s, visited + {n}, grown);
  }

  lemma VisitKeeps(s: Search, st: State, n: nat)
    requires s.ef >= 1 && Inv(s, st)
    ensures Inv(s, Visit(s, st, n))
  {
    if n < |s.probe.graph.nodes| && n !in st.visited {
      AdmitKeeps(s, st.visited, st.result, n);
    }
  }

  lemma {:induction false} ExpandKeeps(s: Search, st: State, list: seq<nat>)
    requires s.ef >= 1 && Inv(s, st)
    ensures Inv(s, Expand(s, st, list))
    decreases |list|
  {
    if list != [] {
      VisitKeeps(s, st, list[0]);
      ExpandKeeps(s, Visit(s, st, list[0]), list[1..]);
    }
  }

  // Every neighbour is seen, and what is newly seen waits in the frontier.
  lemma {:induction false} ExpandSees(s: Search, st: State, list: seq<nat>)
    requires forall x :: x in list ==> x < |s.probe.graph.nodes|
    ensures var r := Expand(s, st, list);
            && (forall x :: x in list ==> x in r.visited)
            && (forall x :: x in r.visited ==> x in st.visited || (x in list && x in NodesOf(r.frontier)))
            && NodesOf(st.frontier) <= NodesOf(r.frontier)
    decreases |list|
  {
    if list != [] {
      var next := Visit(s, st, list[0]);
      assert list[0] in list && forall x :: x in list[1..] ==> x in list;
      assert NodesOf(st.frontier) <= NodesOf(next.frontier);
      assert list[0] !in st.visited ==> s.At(list[0]) in next.frontier && list[0] in NodesOf(next.frontier);
      ExpandSees(s, next, list[1..]);
      assert list == [list[0]] + list[1..];
    }
  }

  lemma StepKeeps(s: Search, st: State)
    requires s.ef >= 1 && Inv(s, st) && Covered(s, st) && st.frontier != [] && InRange(s.probe.graph)
    ensures Inv(s, Step(s, st)) && Covered(s, Step(s, st))
  {
    var best := BestIndex(st.frontier);
    var popped := st.(frontier := Drop(st.frontier, best));
    assert forall c :: c in popped.frontier ==> c in st.frontier;
    ExpandKeeps(s, popped, s.probe.graph.Neighbors(st.frontier[best].node, s.layer));
    StepCovers(s, st);
  }

  lemma StepCovers(s: Search, st: State)
    requires Covered(s, st) && st.frontier != [] && InRange(s.probe.graph)
    ensures Covered(s, Step(s, st))
  {
    var best := BestIndex(st.frontier);
    var popped := st.(frontier := Drop(st.frontier, best));
    ExpandSees(s, popped, s.probe.graph.Neighbors(st.frontier[best].node, s.layer));
    DropKeepsOthers(st.frontier, best);
  }

  lemma DropKeepsOthers(list: seq<Candidate>, i: nat)
    requires i < |list|
    ensures forall x :: x in NodesOf(list) && x != list[i].node ==> x in NodesOf(Drop(list, i))
  {
    var d := Drop(list, i);
    forall x | x in NodesOf(list) && x != list[i].node
      ensures x in NodesOf(d)
    {
      var j :| 0 <= j < |list| && list[j].node == x;
      assert d[if j < i then j else j - 1] == list[j];
    }
  }

  lemma {:induction false} LoopKeeps(s: Search, st: State)
    requires s.ef >= 1 && Inv(s, st) && Covered(s, st) && InRange(s.probe.graph)
    ensures Inv(s, Loop(s, st)) && Covered(s, Loop(s, st)) && Stops(s, Loop(s, st))
    ensures st.visited <= Loop(s, st).visited
    decreases Unseen(s, st), |st.frontier|
  {
    if !Stops(s, st) {
      StepKeeps(s, st);
      StepShrinks(s, st);
      LoopKeeps(s, Step(s, st));
    }
  }

  lemma {:induction false} LoopStays(s: Search, st: State, closed: set<nat>)
    requires InRange(s.probe.graph) && ClosedOn(s.probe.graph, closed, s.layer)
    requires st.visited <= closed && GoodFrontier(s, st)
    ensures Loop(s, st).visited <= closed
    decreases Unseen(s, st), |st.frontier|
  {
    if !Stops(s, st) {
      StepStays(s, st, closed);
      StepShrinks(s, st);
      LoopStays(s, Step(s, st), closed);
    }
  }

  lemma StepStays(s: Search, st: State, closed: set<nat>)
    requires InRange(s.probe.graph) && ClosedOn(s.probe.graph, closed, s.layer)
    requires st.visited <= closed && GoodFrontier(s, st) && st.frontier != []
    ensures Step(s, st).visited <= closed && GoodFrontier(s, Step(s, st))
  {
    var best := BestIndex(st.frontier);
    var popped := st.(frontier := Drop(st.frontier, best));
    assert forall c :: c in popped.frontier ==> c in st.frontier;
    assert st.frontier[best] in st.frontier;
    var list := s.probe.graph.Neighbors(st.frontier[best].node, s.layer);
    ExpandSees(s, popped, list);
    ExpandFrontier(s, popped, list);
  }

  lemma {:induction false} ExpandFrontier(s: Search, st: State, list: seq<nat>)
    requires GoodFrontier(s, st)
    ensures GoodFrontier(s, Expand(s, st, list))
    decreases |list|
  {
    if list != [] {
      ExpandFrontier(s, Visit(s, st, list[0]), list[1..]);
    }
  }

  lemma StartInv(s: Search, entry: nat)
    requires s.ef >= 1 && entry < |s.probe.graph.nodes|
    ensures Inv(s, Start(s, entry)) && Covered(s, Start(s, entry))
  {
    var st := Start(s, entry);
    assert s.At(entry) in st.frontier && entry in NodesOf(st.frontier);
    if s.Admissible(entry) {
      assert s.At(entry) in st.result && entry in NodesOf(st.result);
    }
  }

  // b is in every set of nodes that contains a and is closed under the
  // layer's links.
  ghost predicate Reaches(g: Graph, layer: nat, a: nat, b: nat) {
    forall s: set<nat> :: a in s && ClosedOn(g, s, layer) ==> b in s
  }

  // The returned candidates: at most ef distinct live admissible nodes, all
  // reached over the layer's links, best first. Whatever admissible node was
  // seen but left out scores no higher than any returned one, and every node
  // still waiting when the search stopped scores strictly below them all.
  lemma BeamSound(s: Search, entry: nat)
    requires s.ef >= 1 && entry < |s.probe.graph.nodes| && InRange(s.probe.graph)
    ensures var out, fin := BeamSearch(s, entry), Finish(s, entry);
            && GoodResult(s, fin.visited, out)
            && Ordered(out, Key)
            && NoneBetter(s, fin.visited, out)
            && (forall n :: n in fin.visited ==> n < |s.probe.graph.nodes| && Reaches(s.probe.graph, s.layer, entry, n))
            && (forall c, d :: c in fin.frontier && d in out ==> |out| == s.ef && c.score < d.score)
  {
    var out, fin := BeamSearch(s, entry), Finish(s, entry);
    StartInv(s, entry);
    LoopKeeps(s, Start(s, entry));
    SortOrdered(fin.result, Key);
    SortedResult(s, fin.visited, fin.result);
    forall n, closed: set<nat> | n in fin.visited && entry in closed && ClosedOn(s.probe.graph, closed, s.layer)
      ensures n in closed
    {
      LoopStays(s, Start(s, entry), closed);
    }
    SortPermutes(fin.result, Key);
    SortMembers(fin.result, Key);
    forall c, d | c in fin.frontier && d in out
      ensures |out| == s.ef && c.score < d.score
    {
      StopsBelow(s, fin, c, d);
    }
  }

  lemma StopsBelow(s: Search, st: State, c: Candidate, d: Candidate)
    requires Stops(s, st) && c in st.frontier && d in st.result
    ensures |st.result| >= s.ef && c.score < d.score
  {
    var best := st.frontier[BestIndex(st.frontier)];
    var j :| 0 <= j < |st.frontier| && st.frontier[j] == c;
    assert !Before(Key(st.frontier[j]), Key(best));
    WorstIsLowest(st.result, d);
  }

  lemma SortedResult(s: Search, visited: set<nat>, result: seq<Candidate>)
    requires GoodResult(s, visited, result) && NoneBetter(s, visited, result)
    ensures GoodResult(s, visited, Sort(result, Key)) && NoneBetter(s, visited, Sort(result, Key))
    ensures NodesOf(Sort(result, Key)) == NodesOf(result)
  {
    var out := Sort(result, Key);
    SortPermutes(result, Key);
    SortMembers(result, Key);
    SortDistinct(result);
  }

  lemma SortDistinct(list: seq<Candidate>)
    requires DistinctNodes(list)
    ensures DistinctNodes(Sort(list, Key)) && NodesOf(Sort(list, Key)) == NodesOf(list)
  {
    var out := Sort(list, Key);
    SortPermutes(list, Key);
    SortMembers(list, Key);
    assert NodesOf(out) == NodesOf(list);
    DistinctCount(list);
    DistinctCount(out);
  }

  // A list names as many nodes as it is long exactly when it has no repeats.
  lemma {:induction false} DistinctCount(list: seq<Candidate>)
    ensures |NodesOf(list)| <= |list|
    ensures |NodesOf(list)| == |list| <==> DistinctNodes(list)
  {
    if list != [] {
      var n := |list| - 1;
      DistinctCount(list[..n]);
      NodesOfSplit(list);
      DistinctSplit(list);
      hide NodesOf, DistinctNodes;
      if list[n].node in NodesOf(list[..n]) {
        assert NodesOf(list) == NodesOf(list[..n]);
      }
    }
  }

  lemma DistinctSplit(list: seq<Candidate>)
    requires list != []
    ensures DistinctNodes(list) <==> DistinctNodes(list[..|list| - 1]) && list[|list| - 1].node !in NodesOf(list[..|list| - 1])
  {
    var n := |list| - 1;
    if i :| 0 <= i < n && list[i].node == list[n].node {
      assert list[..n][i] in list[..n];
    }
  }

  lemma NodesOfSplit(list: seq<Candidate>)
    requires list != []
    ensures NodesOf(list) == NodesOf(list[..|list| - 1]) + {list[|list| - 1].node}
  {
    var n := |list| - 1;
    assert list == list[..n] + [list[n]];
    assert list[n] in list;
    assert forall c :: c in list <==> c in list[..n] || c == list[n];
  }

  ghost function Targets(s: Search, entry: nat): set<nat> {
    set n: nat | n < |s.probe.graph.nodes| && s.Admissible(n) && Reaches(s.probe.graph, s.layer, entry, n)
  }

  // With a beam at least as wide as the set of live admissible nodes that can
  // be reached, the search returns exactly that set.
  lemma BeamExact(s: Search, entry: nat)
    requires s.ef >= 1 && entry < |s.probe.graph.nodes| && InRange(s.probe.graph)
    requires |Targets(s, entry)| <= s.ef
    ensures NodesOf(BeamSearch(s, entry)) == Targets(s, entry)
  {
    var out, fin, all := BeamSearch(s, entry), Finish(s, entry), Targets(s, entry);
    BeamSound(s, entry);
    assert NodesOf(out) <= all;
    DistinctCount(out);
    if n :| n in all && n !in NodesOf(out) {
      assert NodesOf(out) <= all - {n};
      CountSubset(NodesOf(out), all - {n});
      assert |out| < s.ef;
      FrontierExhausted(s, entry);
    }
  }

  lemma CountSubset(a: set<nat>, b: set<nat>)
    requires a <= b
    ensures |a| <= |b|
  {
    assert b == a + (b - a);
  }

  // A search that ends with room in its result has seen everything reachable.
  lemma FrontierExhausted(s: Search, entry: nat)
    requires s.ef >= 1 && entry < |s.probe.graph.nodes| && InRange(s.probe.graph)
    requires |BeamSearch(s, entry)| < s.ef
    ensures forall n :: Reaches(s.probe.graph, s.layer, entry, n) ==> n in Finish(s, entry).visited
  {
    var fin := Finish(s, entry);
    StartInv(s, entry);
    LoopKeeps(s, Start(s, entry));
    SortPermutes(fin.result, Key);
    assert fin.frontier == [];
    assert ClosedOn(s.probe.graph, fin.visited, s.layer);
  }

  // Something admissible being reachable, something is returned.
  lemma BeamNonempty(s: Search, entry: nat, n: nat)
    requires s.ef >= 1 && entry < |s.probe.graph.nodes| && InRange(s.probe.graph)
    requires n < |s.probe.graph.nodes| && s.Admissible(n) && Reaches(s.probe.graph, s.layer, entry, n)
    ensures BeamSearch(s, entry) != []
  {
    if BeamSearch(s, entry) == [] {
      FrontierExhausted(s, entry);
      BeamSound(s, entry);
    }
  }
}
