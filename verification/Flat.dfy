/** What an index is for, as operations on a map from ids to embeddings. */
module Oracle {
  import opened Core
  import opened Ranking

  type Content = map<VectorId, Embedding>

  datatype Op = Insert(id: VectorId, embedding: Embedding) | Remove(id: VectorId) | Compact

  datatype Outcome = Done | Present(present: bool) | Failed(error: IndexError)

  function Apply(content: Content, dimension: nat, op: Op): Content {
    match op
    case Insert(id, e) => if |e| == dimension && id !in content then content[id := e] else content
    case Remove(id) => content - {id}
    case Compact => content
  }

  function Answer(content: Content, dimension: nat, op: Op): Outcome {
    match op
    case Insert(id, e) =>
      if |e| != dimension then Failed(DimensionMismatch(dimension, |e|))
      else if id in content then Failed(DuplicateId(id))
      else Done
    case Remove(id) => Present(id in content)
    case Compact => Done
  }

  function Run(content: Content, dimension: nat, ops: seq<Op>): Content {
    if ops == [] then content
    else Apply(Run(content, dimension, ops[..|ops| - 1]), dimension, ops[|ops| - 1])
  }

  // The admissible ids and how they score against a query.
  function Scores(content: Content, query: Embedding, score: Scorer, admit: VectorId -> bool): map<VectorId, Score> {
    map id | id in content && admit(id) :: score(query, content[id])
  }
}

/** FlatIndex: compare the query with every stored vector. */
module Flat {
  import opened Core
  import opened Ranking
  import Oracle

  datatype Point = Point(id: VectorId, embedding: Embedding)

  function Position(points: seq<Point>, id: VectorId): Option<nat> {
    if points == [] then None
    else if points[0].id == id then Some(0)
    else match Position(points[1..], id)
         case None => None
         case Some(p) => Some(p + 1)
  }

  function Insert(points: seq<Point>, dimension: nat, id: VectorId, e: Embedding): Result<seq<Point>> {
    if |e| != dimension then Err(DimensionMismatch(dimension, |e|))
    else if Position(points, id).Some? then Err(DuplicateId(id))
    else Ok(points + [Point(id, e)])
  }

  function Remove(points: seq<Point>, id: VectorId): seq<Point> {
    match Position(points, id)
    case None => points
    case Some(p) => if p < |points| then points[..p] + points[p + 1..] else points
  }

  function Scored(points: seq<Point>, query: Embedding, score: Scorer, admit: VectorId -> bool): seq<Hit> {
    if points == [] then []
    else
      var n := |points| - 1;
      var rest := Scored(points[..n], query, score, admit);
      if admit(points[n].id) then rest + [Hit(points[n].id, score(query, points[n].embedding))] else rest
  }

  // FlatIndex::search_filtered
  function Search(points: seq<Point>, dimension: nat, query: Embedding, k: nat, score: Scorer,
                  admit: VectorId -> bool): Result<seq<Hit>>
  {
    if |query| != dimension then Err(DimensionMismatch(dimension, |query|))
    else Ok(Take(Sort(Scored(points, query, score, admit), HitKey), k))
  }

  // The points list each id of the content once, with its embedding.
  ghost predicate Holds(points: seq<Point>, content: Oracle.Content) {
    && (forall i, j :: 0 <= i < j < |points| ==> points[i].id != points[j].id)
    && (forall p :: p in points ==> p.id in content && content[p.id] == p.embedding)
    && (forall id :: id in content ==> Point(id, content[id]) in points)
  }

  lemma {:induction false} PositionFinds(points: seq<Point>, id: VectorId)
    ensures match Position(points, id)
            case None => forall p :: p in points ==> p.id != id
            case Some(p) => p < |points| && points[p].id == id
  {
    if points != [] && points[0].id != id {
      PositionFinds(points[1..], id);
    }
  }

  // A removal takes out the first point with the id and keeps the others in
  // their order.
  lemma {:induction false} RemoveMeans(points: seq<Point>, id: VectorId)
    ensures if forall p :: p in points ==> p.id != id then Remove(points, id) == points
            else exists at :: 0 <= at < |points| && points[at].id == id && (forall i :: 0 <= i < at ==> points[i].id != id)
                              && Remove(points, id) == points[..at] + points[at + 1..]
  {
    PositionFinds(points, id);
    PositionFirst(points, id);
  }

  lemma {:induction false} PositionFirst(points: seq<Point>, id: VectorId)
    ensures match Position(points, id)
            case None => true
            case Some(p) => forall i :: 0 <= i < p && i < |points| ==> points[i].id != id
  {
    if points != [] && points[0].id != id {
      PositionFirst(points[1..], id);
    }
  }

  lemma InsertRefines(points: seq<Point>, content: Oracle.Content, dimension: nat, id: VectorId, e: Embedding)
    requires Holds(points, content)
    ensures var op := Oracle.Insert(id, e);
            match Insert(points, dimension, id, e)
            case Ok(next) =>
              Oracle.Answer(content, dimension, op) == Oracle.Done
              && Holds(next, Oracle.Apply(content, dimension, op))
            case Err(error) =>
              Oracle.Answer(content, dimension, op) == Oracle.Failed(error)
              && Oracle.Apply(content, dimension, op) == content
  {
    PositionFinds(points, id);
    if id in content {
      assert Point(id, content[id]) in points;
    }
  }

  lemma RemoveRefines(points: seq<Point>, content: Oracle.Content, id: VectorId)
    requires Holds(points, content)
    ensures Position(points, id).Some? <==> id in content
    ensures Holds(Remove(points, id), content - {id})
  {
    PositionFinds(points, id);
    if id in content {
      assert Point(id, content[id]) in points;
    }
    var position := Position(points, id);
    if position.Some? {
      DropHolds(points, content, position.value);
    }
  }

  lemma DropAt<T>(s: seq<T>, p: nat)
    requires p < |s|
    ensures var next := s[..p] + s[p + 1..];
            && (forall i :: 0 <= i < |next| ==> next[i] == s[if i < p then i else i + 1])
            && (forall i :: 0 <= i < |s| && i != p ==> s[i] in next)
  {
    var next := s[..p] + s[p + 1..];
    forall i | 0 <= i < |s| && i != p
      ensures s[i] in next
    {
      assert next[if i < p then i else i - 1] == s[i];
    }
  }

  lemma DropHolds(points: seq<Point>, content: Oracle.Content, p: nat)
    requires Holds(points, content) && p < |points|
    ensures Holds(points[..p] + points[p + 1..], content - {points[p].id})
  {
    var next, rest := points[..p] + points[p + 1..], content - {points[p].id};
    DropMembers(points, p);
    forall x | x in rest
      ensures Point(x, rest[x]) in next
    {
      assert Point(x, content[x]) in points;
    }
  }

  lemma DropMembers(points: seq<Point>, p: nat)
    requires p < |points| && forall i, j :: 0 <= i < j < |points| ==> points[i].id != points[j].id
    ensures var next := points[..p] + points[p + 1..];
            && (forall i, j :: 0 <= i < j < |next| ==> next[i].id != next[j].id)
            && (forall q :: q in next <==> q in points && q.id != points[p].id)
  {
    var next := points[..p] + points[p + 1..];
    DropAt(points, p);
    forall q | q in next
      ensures q in points && q.id != points[p].id
    {
      var i :| 0 <= i < |next| && next[i] == q;
    }
  }

  lemma InitHolds(points: seq<Point>, content: Oracle.Content)
    requires Holds(points, content) && points != []
    ensures var last := points[|points| - 1];
            && last.id in content && content[last.id] == last.embedding
            && Holds(points[..|points| - 1], content - {last.id})
  {
    DropHolds(points, content, |points| - 1);
    assert points[..|points| - 1] + points[|points|..] == points[..|points| - 1];
    assert points[|points| - 1] in points;
  }

  lemma EmptyHolds(content: Oracle.Content)
    requires Holds([], content)
    ensures content == map[]
  {
    assert forall id :: id in content ==> Point(id, content[id]) in [];
    assert content.Keys == {};
  }

  lemma {:induction false} ScoredLists(points: seq<Point>, content: Oracle.Content, query: Embedding, score: Scorer,
                                       admit: VectorId -> bool)
    requires Holds(points, content)
    ensures DistinctIds(Scored(points, query, score, admit))
    ensures var scores := Oracle.Scores(content, query, score, admit);
            forall h :: h in Scored(points, query, score, admit) <==> h.id in scores && h.score == scores[h.id]
  {
    hide Holds;
    if points == [] {
      EmptyHolds(content);
    } else {
      var n := |points| - 1;
      InitHolds(points, content);
      ScoredLists(points[..n], content - {points[n].id}, query, score, admit);
    }
  }

  // A flat scan answers with the k best admissible ids.
  lemma SearchIsTopK(points: seq<Point>, content: Oracle.Content, dimension: nat, query: Embedding, k: nat,
                     score: Scorer, admit: VectorId -> bool)
    requires Holds(points, content)
    requires |query| == dimension
    ensures var r := Search(points, dimension, query, k, score, admit);
            r.Ok? && IsTopK(r.value, Oracle.Scores(content, query, score, admit), k)
  {
    ScoredLists(points, content, query, score, admit);
    SortedIsTopK(Scored(points, query, score, admit), Oracle.Scores(content, query, score, admit), k);
  }

  class FlatIndex {
    const metrics: Metric -> Scorer
    const metric: Metric
    const dimension: nat
    var points: seq<Point>

    constructor (metrics: Metric -> Scorer, metric: Metric, dimension: nat)
      ensures this.metrics == metrics && this.metric == metric && this.dimension == dimension
      ensures points == []
    {
      this.metrics, this.metric, this.dimension := metrics, metric, dimension;
      points := [];
    }

    method Find(id: VectorId) returns (position: Option<nat>)
      ensures position == Position(points, id)
    {
      var i := 0;
      while i < |points| && points[i].id != id
        invariant 0 <= i <= |points|
        invariant Position(points, id) ==
                  match Position(points[i..], id)
                  case None => None
                  case Some(p) => Some(p + i)
      {
        i := i + 1;
      }
      position := if i < |points| then Some(i) else None;
    }

    method InsertPoint(id: VectorId, e: Embedding) returns (r: Result<()>)
      modifies this
      ensures match Insert(old(points), dimension, id, e)
              case Ok(next) => r == Ok(()) && points == next
              case Err(error) => r == Err(error) && points == old(points)
    {
      if |e| != dimension {
        return Err(DimensionMismatch(dimension, |e|));
      }
      var existing := Find(id);
      if existing.Some? {
        return Err(DuplicateId(id));
      }
      points := points + [Point(id, e)];
      r := Ok(());
    }

    method RemovePoint(id: VectorId) returns (present: bool)
      modifies this
      ensures points == Remove(old(points), id)
      ensures present == Position(old(points), id).Some?
    {
      var position := Find(id);
      PositionFinds(points, id);
      match position
      case None => present := false;
      case Some(p) =>
        points := points[..p] + points[p + 1..];
        present := true;
    }

    method SearchFiltered(query: Embedding, k: nat, metric: Metric, admit: VectorId -> bool)
      returns (r: Result<seq<Hit>>)
      ensures r == Search(points, dimension, query, k, metrics(metric), admit)
    {
      if |query| != dimension {
        return Err(DimensionMismatch(dimension, |query|));
      }
      var scored: seq<Hit> := [];
      for i := 0 to |points|
        invariant scored == Scored(points[..i], query, metrics(metric), admit)
      {
        assert points[..i + 1][..i] == points[..i];
        if admit(points[i].id) {
          scored := scored + [Hit(points[i].id, metrics(metric)(query, points[i].embedding))];
        }
      }
      assert points[..|points|] == points;
      r := Ok(Take(Sort(scored, HitKey), k));
    }
  }
}
