/** What both text indexes hold: per-document statistics, scored by BM25. */
module Lexical {
  import opened Core
  import opened Ranking

  type Term = string

  // Token counts and the number of tokens of one document.
  datatype Stats = Stats(frequencies: map<Term, nat>, length: nat)

  type Docs = map<VectorId, Stats>

  // Tokenizer, idf, term_score, the average and f64 addition are parameters:
  // only the order in which contributions are added matters.
  datatype Bm25 = Bm25(tokenize: string -> seq<Term>, idf: (nat, nat) -> Score, termScore: (nat, nat, Score, Score) -> Score,
                       average: (nat, nat) -> Score, add: (Score, Score) -> Score)

  function Count(tokens: seq<Term>): map<Term, nat> {
    if tokens == [] then map[]
    else
      var before, t := Count(tokens[..|tokens| - 1]), tokens[|tokens| - 1];
      before[t := (if t in before then before[t] else 0) + 1]
  }

  function StatsOf(tokens: seq<Term>): Stats { Stats(Count(tokens), |tokens|) }

  // The documents containing a term.
  ghost function Having(docs: Docs, t: Term): set<VectorId> {
    set id | id in docs && t in docs[id].frequencies
  }

  ghost function TotalTokens(docs: Docs): nat {
    if docs == map[] then 0
    else
      var id :| id in docs;
      docs[id].length + TotalTokens(docs - {id})
  }

  lemma {:induction false} TotalWithout(docs: Docs, id: VectorId)
    requires id in docs
    ensures TotalTokens(docs) == docs[id].length + TotalTokens(docs - {id})
    decreases |docs|
  {
    var first :| first in docs && TotalTokens(docs) == docs[first].length + TotalTokens(docs - {first});
    if first != id {
      DropOne(docs, first);
      DropOne(docs, id);
      TotalWithout(docs - {first}, id);
      TotalWithout(docs - {id}, first);
      assert docs - {first} - {id} == docs - {id} - {first};
    }
  }

  lemma DropOne<V>(m: map<VectorId, V>, id: VectorId)
    requires id in m
    ensures |m - {id}| == |m| - 1
  {
    assert (m - {id}).Keys == m.Keys - {id};
  }

  lemma ReplaceOne<V>(m: map<VectorId, V>, id: VectorId, v: V)
    ensures (m - {id})[id := v] == m[id := v]
  {
  }

  // A document's score: the contributions of the query terms it contains,
  // added in query order.
  ghost function DocScore(b: Bm25, docs: Docs, stats: Stats, terms: seq<Term>): Score {
    if terms == [] then 0.0
    else
      var t := terms[|terms| - 1];
      var before := DocScore(b, docs, stats, terms[..|terms| - 1]);
      if t in stats.frequencies
      then b.add(before, Contribution(b, docs, stats, t))
      else before
  }

  ghost function Contribution(b: Bm25, docs: Docs, stats: Stats, t: Term): Score
    requires t in stats.frequencies
  {
    b.termScore(stats.frequencies[t], stats.length, b.average(TotalTokens(docs), |docs|), b.idf(|docs|, |Having(docs, t)|))
  }

  // The admissible documents with a positive score.
  ghost function Scores(b: Bm25, docs: Docs, terms: seq<Term>, admit: VectorId -> bool): map<VectorId, Score> {
    map id | id in docs && admit(id) && DocScore(b, docs, docs[id], terms) > 0.0 :: DocScore(b, docs, docs[id], terms)
  }

  // Every token and no other term is counted, as often as it occurs.
  lemma {:induction false} CountMeans(tokens: seq<Term>, t: Term)
    ensures t in Count(tokens) <==> t in tokens
    ensures t in tokens ==> Count(tokens)[t] == multiset(tokens)[t]
  {
    if tokens != [] {
      var n := |tokens| - 1;
      CountMeans(tokens[..n], t);
      assert tokens == tokens[..n] + [tokens[n]];
      assert t in tokens[..n] <==> t in multiset(tokens[..n]);
    }
  }

  // A document's score is a fold over the query terms in their order, repeats
  // included: each one the document contains adds one term score, from its
  // frequency there, the document's length, the average length and the inverse
  // document frequency.
  lemma ScoreOfQuery(b: Bm25, docs: Docs, stats: Stats, terms: seq<Term>, t: Term)
    ensures DocScore(b, docs, stats, []) == 0.0
    ensures t !in stats.frequencies ==> DocScore(b, docs, stats, terms + [t]) == DocScore(b, docs, stats, terms)
    ensures t in stats.frequencies ==>
              var documents := set id | id in docs && t in docs[id].frequencies;
              var added := b.termScore(stats.frequencies[t], stats.length, b.average(TotalTokens(docs), |docs|),
                                       b.idf(|docs|, |documents|));
              DocScore(b, docs, stats, terms + [t]) == b.add(DocScore(b, docs, stats, terms), added)
  {
    assert (terms + [t])[..|terms|] == terms;
    assert Having(docs, t) == set id | id in docs && t in docs[id].frequencies;
  }

  // A document that is found is admissible, contains some query term and
  // scores above zero.
  lemma {:induction false} ScoredMatches(b: Bm25, docs: Docs, stats: Stats, terms: seq<Term>)
    requires DocScore(b, docs, stats, terms) != 0.0
    ensures exists t :: t in terms && t in stats.frequencies
  {
    if terms != [] {
      var n := |terms| - 1;
      assert terms[n] in terms;
      if terms[n] !in stats.frequencies {
        ScoredMatches(b, docs, stats, terms[..n]);
      }
    }
  }

  lemma FoundMatches(b: Bm25, docs: Docs, terms: seq<Term>, admit: VectorId -> bool, id: VectorId)
    requires id in Scores(b, docs, terms, admit)
    ensures id in docs && admit(id) && Scores(b, docs, terms, admit)[id] > 0.0
    ensures exists t :: t in terms && t in docs[id].frequencies
  {
    ScoredMatches(b, docs, docs[id], terms);
  }

  // The token total is what the lengths add up to, in any order.
  lemma TotalMeans(docs: Docs, id: VectorId)
    ensures TotalTokens(map[]) == 0
    ensures id in docs ==> TotalTokens(docs) == docs[id].length + TotalTokens(docs - {id})
  {
    if id in docs {
      TotalWithout(docs, id);
    }
  }

  method CountTokens(tokens: seq<Term>) returns (stats: Stats)
    ensures stats == StatsOf(tokens) && stats.length == |tokens|
    ensures forall t :: t in stats.frequencies <==> t in tokens
    ensures forall t :: t in tokens ==> stats.frequencies[t] == multiset(tokens)[t]
  {
    var counts: map<Term, nat> := map[];
    var length: nat := 0;
    for i := 0 to |tokens|
      invariant counts == Count(tokens[..i]) && length == i
    {
      assert tokens[..i + 1][..i] == tokens[..i];
      counts := counts[tokens[i] := (if tokens[i] in counts then counts[tokens[i]] else 0) + 1];
      length := length + 1;
    }
    assert tokens[..|tokens|] == tokens;
    stats := Stats(counts, length);
    forall t
      ensures t in counts <==> t in tokens
      ensures t in tokens ==> counts[t] == multiset(tokens)[t]
    {
      CountMeans(tokens, t);
    }
  }

  lemma HavingInsert(docs: Docs, id: VectorId, stats: Stats, t: Term)
    requires id !in docs
    ensures Having(docs[id := stats], t) == Having(docs, t) + (if t in stats.frequencies then {id} else {})
    ensures |Having(docs[id := stats], t)| == |Having(docs, t)| + (if t in stats.frequencies then 1 else 0)
  {
    assert Having(docs[id := stats], t) == Having(docs, t) + (if t in stats.frequencies then {id} else {});
  }

  lemma HavingRemove(docs: Docs, id: VectorId, t: Term)
    requires id in docs
    ensures Having(docs - {id}, t) == Having(docs, t) - {id}
    ensures |Having(docs, t)| == |Having(docs - {id}, t)| + (if t in docs[id].frequencies then 1 else 0)
  {
    assert Having(docs - {id}, t) == Having(docs, t) - {id};
  }

  lemma {:induction false} TotalInsert(docs: Docs, id: VectorId, stats: Stats)
    requires id !in docs
    ensures TotalTokens(docs[id := stats]) == TotalTokens(docs) + stats.length
    ensures |docs[id := stats]| == |docs| + 1
  {
    assert docs[id := stats] - {id} == docs;
    assert docs[id := stats].Keys == docs.Keys + {id};
    TotalWithout(docs[id := stats], id);
    hide TotalTokens;
  }
}

/** InMemoryLexicalIndex: the forward index, with document frequencies and the
    token total kept beside it. */
module MemoryLexical {
  import opened Core
  import opened Ranking
  import opened Lexical

  datatype Memory = Memory(docs: Docs, frequencies: map<Term, nat>, total: nat)

  ghost predicate ExactFrequencies(docs: Docs, frequencies: map<Term, nat>) {
    && (forall t :: t in frequencies <==> |Having(docs, t)| != 0)
    && (forall t :: t in frequencies ==> frequencies[t] == |Having(docs, t)|)
  }

  // Document frequencies and total are exact.
  ghost predicate Exact(m: Memory) {
    ExactFrequencies(m.docs, m.frequencies) && m.total == TotalTokens(m.docs)
  }

  // One document less, and one more, for each of some terms; a count that
  // reaches zero leaves the map.
  function Lowered(frequencies: map<Term, nat>, terms: set<Term>): map<Term, nat> {
    map t | t in frequencies && !(t in terms && frequencies[t] <= 1) ::
      if t in terms then frequencies[t] - 1 else frequencies[t]
  }

  function Raised(frequencies: map<Term, nat>, terms: set<Term>): map<Term, nat> {
    map t | t in frequencies.Keys + terms ::
      (if t in frequencies then frequencies[t] else 0) + (if t in terms then 1 else 0)
  }

  lemma LoweredExact(docs: Docs, frequencies: map<Term, nat>, id: VectorId)
    requires ExactFrequencies(docs, frequencies) && id in docs
    ensures ExactFrequencies(docs - {id}, Lowered(frequencies, docs[id].frequencies.Keys))
  {
    forall t
      ensures |Having(docs, t)| == |Having(docs - {id}, t)| + (if t in docs[id].frequencies then 1 else 0)
    {
      HavingRemove(docs, id, t);
    }
    hide Having;
  }

  lemma RaisedExact(docs: Docs, frequencies: map<Term, nat>, id: VectorId, stats: Stats)
    requires ExactFrequencies(docs, frequencies) && id !in docs
    ensures ExactFrequencies(docs[id := stats], Raised(frequencies, stats.frequencies.Keys))
  {
    forall t
      ensures |Having(docs[id := stats], t)| == |Having(docs, t)| + (if t in stats.frequencies then 1 else 0)
    {
      HavingInsert(docs, id, stats, t);
    }
    hide Having;
  }

  class InMemoryLexicalIndex {
    const b: Bm25
    var docs: Docs
    var frequencies: map<Term, nat>
    var total: nat

    function State(): Memory
      reads this
    {
      Memory(docs, frequencies, total)
    }

    constructor (b: Bm25)
      ensures this.b == b && docs == map[] && Exact(State())
    {
      this.b := b;
      docs, frequencies, total := map[], map[], 0;
      new;
      assert forall t :: Having(docs, t) == {};
    }

    method LowerAll(terms: set<Term>)
      modifies this`frequencies
      ensures frequencies == Lowered(old(frequencies), terms)
    {
      var rest := terms;
      while rest != {}
        invariant rest <= terms
        invariant frequencies == Lowered(old(frequencies), terms - rest)
      {
        var t :| t in rest;
        if t in frequencies {
          if frequencies[t] <= 1 {
            frequencies := frequencies - {t};
          } else {
            frequencies := frequencies[t := frequencies[t] - 1];
          }
        }
        rest := rest - {t};
      }
      assert terms - {} == terms;
    }

    method RaiseAll(terms: set<Term>)
      modifies this`frequencies
      ensures frequencies == Raised(old(frequencies), terms)
    {
      var rest := terms;
      while rest != {}
        invariant rest <= terms
        invariant frequencies == Raised(old(frequencies), terms - rest)
      {
        var t :| t in rest;
        frequencies := frequencies[t := (if t in frequencies then frequencies[t] else 0) + 1];
        rest := rest - {t};
      }
      assert terms - {} == terms;
    }

    // Takes a document out of the counts.
    method Forget(id: VectorId)
      requires Exact(State())
      modifies this
      ensures Exact(State()) && docs == old(docs) - {id}
    {
      if id in docs {
        var stats := docs[id];
        LoweredExact(docs, frequencies, id);
        TotalWithout(docs, id);
        docs := docs - {id};
        LowerAll(stats.frequencies.Keys);
        total := total - stats.length;
      } else {
        assert docs == docs - {id};
      }
    }

    method Insert(id: VectorId, text: string)
      requires Exact(State())
      modifies this
      ensures Exact(State()) && docs == old(docs)[id := StatsOf(b.tokenize(text))]
    {
      hide Having, TotalTokens, ExactFrequencies, Raised, Count;
      Forget(id);
      var stats := CountTokens(b.tokenize(text));
      RaisedExact(docs, frequencies, id, stats);
      TotalInsert(docs, id, stats);
      RaiseAll(stats.frequencies.Keys);
      total := total + stats.length;
      docs := docs[id := stats];
      ReplaceOne(old(docs), id, stats);
    }

    method Remove(id: VectorId)
      requires Exact(State())
      modifies this
      ensures Exact(State()) && docs == old(docs) - {id}
    {
      Forget(id);
    }

    // One document's score.
    method ScoreOf(stats: Stats, terms: seq<Term>, average: Score) returns (score: Score)
      requires Exact(State()) && average == b.average(TotalTokens(docs), |docs|)
      ensures score == DocScore(b, docs, stats, terms)
    {
      score := 0.0;
      for i := 0 to |terms|
        invariant score == DocScore(b, docs, stats, terms[..i])
      {
        assert terms[..i + 1][..i] == terms[..i];
        var t := terms[i];
        if t in stats.frequencies {
          var df := if t in frequencies then frequencies[t] else 0;
          score := b.add(score, b.termScore(stats.frequencies[t], stats.length, average, b.idf(|docs|, df)));
        }
      }
      assert terms[..|terms|] == terms;
    }

    // search_text_filtered: the k best admissible documents.
    method SearchText(query: string, k: nat, admit: VectorId -> bool) returns (hits: seq<Hit>)
      requires Exact(State())
      ensures IsTopK(hits, Scores(b, docs, b.tokenize(query), admit), k)
    {
      var terms := b.tokenize(query);
      ghost var scores := Scores(b, docs, terms, admit);
      if |docs| == 0 {
        assert docs.Keys == {};
        assert scores == map[];
        assert IsRanking([], scores) && Take<Hit>([], k) == [];
        return [];
      }
      var average := b.average(total, |docs|);
      var scored: seq<Hit> := [];
      var rest := docs.Keys;
      while rest != {}
        invariant rest <= docs.Keys
        invariant DistinctIds(scored)
        invariant forall h :: h in scored <==> h.id in scores && h.id !in rest && h.score == scores[h.id]
      {
        var id :| id in rest;
        rest := rest - {id};
        if admit(id) {
          var score := ScoreOf(docs[id], terms, average);
          if score > 0.0 {
            scored := scored + [Hit(id, score)];
          }
        }
      }
      SortedIsTopK(scored, scores, k);
      hits := Take(Sort(scored, HitKey), k);
    }
  }
}
