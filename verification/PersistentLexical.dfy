/** PersistentLexicalIndex: posting lists, document lengths and term lists in
    three tables, with the corpus size and token total kept by deltas. */
module PersistentLexical {
  import opened Core
  import opened Ranking
  import opened Lexical

  datatype Posting = Posting(id: VectorId, frequency: nat)

  datatype Tables = Tables(postings: map<Term, seq<Posting>>, lengths: map<VectorId, nat>, terms: map<VectorId, seq<Term>>)

  function ListAt(postings: map<Term, seq<Posting>>, t: Term): seq<Posting> {
    if t in postings then postings[t] else []
  }

  // A posting list spells a map from document to frequency, each document once.
  ghost predicate Lists(list: seq<Posting>, row: map<VectorId, nat>) {
    && (forall i, j :: 0 <= i < j < |list| ==> list[i].id != list[j].id)
    && (forall p :: p in list <==> p.id in row && p.frequency == row[p.id])
  }

  // What the documents say about a term.
  ghost function Row(docs: Docs, t: Term): map<VectorId, nat> {
    map id | id in Having(docs, t) :: docs[id].frequencies[t]
  }

  ghost predicate NoEmptyList(postings: map<Term, seq<Posting>>) {
    forall t :: t in postings ==> postings[t] != []
  }

  // Every list holds what the documents say, and no list is empty.
  ghost predicate PostingsHold(postings: map<Term, seq<Posting>>, docs: Docs) {
    NoEmptyList(postings) && forall t :: Lists(ListAt(postings, t), Row(docs, t))
  }

  // One length and one term list per document.
  ghost predicate DocumentsHold(lengths: map<VectorId, nat>, terms: map<VectorId, seq<Term>>, docs: Docs) {
    && lengths.Keys == docs.Keys == terms.Keys
    && (forall id :: id in docs ==> lengths[id] == docs[id].length)
    && (forall id :: id in docs ==> Distinct(terms[id]))
    && (forall id, t :: id in docs ==> (t in terms[id] <==> t in docs[id].frequencies))
  }

  ghost predicate Mirrors(tables: Tables, docs: Docs) {
    PostingsHold(tables.postings, docs) && DocumentsHold(tables.lengths, tables.terms, docs)
  }

  // Nothing about the documents is lost in the tables.
  lemma TablesDetermine(tables: Tables, a: Docs, c: Docs)
    requires Mirrors(tables, a) && Mirrors(tables, c)
    ensures a == c
  {
    forall id | id in a
      ensures a[id] == c[id]
    {
      forall t | t in a[id].frequencies
        ensures t in c[id].frequencies && a[id].frequencies[t] == c[id].frequencies[t]
      {
        assert t in tables.terms[id];
        SameEntry(tables.postings, a, c, id, t);
      }
      hide PostingsHold, Having, Distinct;
      assert a[id].frequencies.Keys == c[id].frequencies.Keys by {
        assert forall t :: t in c[id].frequencies ==> t in tables.terms[id];
      }
    }
  }

  lemma SameEntry(postings: map<Term, seq<Posting>>, a: Docs, c: Docs, id: VectorId, t: Term)
    requires PostingsHold(postings, a) && PostingsHold(postings, c)
    requires id in a && t in a[id].frequencies && id in c && t in c[id].frequencies
    ensures a[id].frequencies[t] == c[id].frequencies[t]
  {
    var p := Posting(id, a[id].frequencies[t]);
    assert Lists(ListAt(postings, t), Row(a, t)) && Lists(ListAt(postings, t), Row(c, t));
    assert id in Row(a, t);
    assert p in ListAt(postings, t);
  }

  // apply_delta and apply_token_delta: subtraction stops at zero.
  function ApplyDelta(value: nat, delta: int): nat {
    if delta >= 0 then value + delta else if value >= -delta then value + delta else 0
  }

  // Whatever the counter, it moves by delta and stops at zero.
  lemma DeltaSaturates(value: nat, delta: int)
    ensures ApplyDelta(value, delta) == if value + delta < 0 then 0 else value + delta
  {}

  function Retain(list: seq<Posting>, id: VectorId): seq<Posting> {
    if list == [] then []
    else Retain(list[..|list| - 1], id) + (if list[|list| - 1].id == id then [] else [list[|list| - 1]])
  }

  lemma {:induction false} RetainMembers(list: seq<Posting>, id: VectorId)
    ensures forall p :: p in Retain(list, id) <==> p in list && p.id != id
  {
    if list != [] {
      RetainMembers(list[..|list| - 1], id);
      assert list == list[..|list| - 1] + [list[|list| - 1]];
    }
  }

  // Retaining takes exactly one document out of a list.
  lemma {:induction false} RetainLists(list: seq<Posting>, row: map<VectorId, nat>, id: VectorId)
    requires Lists(list, row)
    ensures Lists(Retain(list, id), row - {id})
    decreases |list|
  {
    if list != [] {
      var n := |list| - 1;
      assert list == list[..n] + [list[n]];
      assert list[n] in list;
      forall p
        ensures p in list[..n] <==> p.id in row - {list[n].id} && p.frequency == row[p.id]
      {
      }
      RetainLists(list[..n], row - {list[n].id}, id);
      RetainMembers(list, id);
      RetainMembers(list[..n], id);
    }
  }

  lemma PushLists(list: seq<Posting>, row: map<VectorId, nat>, id: VectorId, frequency: nat)
    requires Lists(list, row) && id !in row
    ensures Lists(list + [Posting(id, frequency)], row[id := frequency])
  {
    var pushed := list + [Posting(id, frequency)];
    forall i, j | 0 <= i < j < |pushed|
      ensures pushed[i].id != pushed[j].id
    {
      assert list != [] ==> pushed[i] in list;
    }
    forall p
      ensures p in pushed <==> p.id in row[id := frequency] && p.frequency == row[id := frequency][p.id]
    {
      assert p in list <==> p.id in row && p.frequency == row[p.id];
    }
  }

  // A list is as long as the row it spells.
  lemma {:induction false} ListLength(list: seq<Posting>, row: map<VectorId, nat>)
    requires Lists(list, row)
    ensures |list| == |row|
    decreases |list|
  {
    assert forall id :: id in row ==> Posting(id, row[id]) in list;
    if list == [] {
      assert row.Keys == {};
    } else {
      var n := |list| - 1;
      assert list == list[..n] + [list[n]];
      assert list[n] in list;
      forall p
        ensures p in list[..n] <==> p.id in row - {list[n].id} && p.frequency == row[p.id]
      {
      }
      ListLength(list[..n], row - {list[n].id});
      DropOne(row, list[n].id);
    }
  }

  lemma RowSize(docs: Docs, t: Term)
    ensures |Row(docs, t)| == |Having(docs, t)|
  {
    assert Row(docs, t).Keys == Having(docs, t);
  }

  lemma RowRemove(docs: Docs, id: VectorId, t: Term)
    ensures Row(docs - {id}, t) == Row(docs, t) - {id}
    ensures id in docs && t !in docs[id].frequencies ==> Row(docs - {id}, t) == Row(docs, t)
  {
  }

  lemma RowInsert(docs: Docs, id: VectorId, stats: Stats, t: Term)
    requires id !in docs
    ensures Row(docs[id := stats], t) == if t in stats.frequencies then Row(docs, t)[id := stats.frequencies[t]] else Row(docs, t)
  {
  }

  // Takes a document out of the list of each of its terms.
  method DropPostings(postings: map<Term, seq<Posting>>, prior: seq<Term>, id: VectorId, ghost docs: Docs)
    returns (after: map<Term, seq<Posting>>)
    requires PostingsHold(postings, docs) && id in docs
    requires forall t :: t in prior <==> t in docs[id].frequencies
    ensures PostingsHold(after, docs - {id})
  {
    hide Row, Lists;
    after := postings;
    for i := 0 to |prior|
      invariant NoEmptyList(after)
      invariant forall t :: Lists(ListAt(after, t), if t in prior[..i] then Row(docs, t) - {id} else Row(docs, t))
    {
      var t := prior[i];
      ghost var before := after;
      var list := Retain(ListAt(after, t), id);
      assert Lists(list, Row(docs, t) - {id}) by {
        RetainLists(ListAt(after, t), if t in prior[..i] then Row(docs, t) - {id} else Row(docs, t), id);
        assert Row(docs, t) - {id} - {id} == Row(docs, t) - {id};
      }
      after := if list == [] then after - {t} else after[t := list];
      forall u
        ensures Lists(ListAt(after, u), if u in prior[..i + 1] then Row(docs, u) - {id} else Row(docs, u))
      {
        assert u in prior[..i + 1] <==> u in prior[..i] || u == t;
        assert u != t ==> ListAt(after, u) == ListAt(before, u);
      }
    }
    forall t
      ensures Lists(ListAt(after, t), Row(docs - {id}, t))
    {
      RowRemove(docs, id, t);
      assert prior[..|prior|] == prior;
    }
  }

  // Appends a new document to the list of each of its terms, in any order.
  method PushPostings(postings: map<Term, seq<Posting>>, id: VectorId, stats: Stats, ghost docs: Docs)
    returns (after: map<Term, seq<Posting>>, distinct: seq<Term>)
    requires PostingsHold(postings, docs) && id !in docs
    ensures PostingsHold(after, docs[id := stats])
    ensures Distinct(distinct) && forall t :: t in distinct <==> t in stats.frequencies
  {
    hide Row, Lists;
    after, distinct := postings, [];
    var rest := stats.frequencies.Keys;
    while rest != {}
      invariant rest <= stats.frequencies.Keys
      invariant Distinct(distinct)
      invariant forall t :: t in distinct <==> t in stats.frequencies && t !in rest
      invariant NoEmptyList(after)
      invariant forall t :: Lists(ListAt(after, t),
                                  if t in distinct then Row(docs, t)[id := stats.frequencies[t]] else Row(docs, t))
    {
      var t :| t in rest;
      ghost var before := after;
      var list := ListAt(after, t) + [Posting(id, stats.frequencies[t])];
      NotListed(docs, id, t);
      PushLists(ListAt(after, t), Row(docs, t), id, stats.frequencies[t]);
      after := after[t := list];
      distinct := distinct + [t];
      rest := rest - {t};
      assert forall u :: u != t ==> ListAt(after, u) == ListAt(before, u);
    }
    forall t
      ensures Lists(ListAt(after, t), Row(docs[id := stats], t))
    {
      RowInsert(docs, id, stats, t);
    }
  }

  lemma NotListed(docs: Docs, id: VectorId, t: Term)
    requires id !in docs
    ensures id !in Row(docs, t)
  {
  }

  lemma RowsInsert(tables: Tables, docs: Docs, id: VectorId, stats: Stats, distinct: seq<Term>)
    requires DocumentsHold(tables.lengths, tables.terms, docs)
    requires Distinct(distinct) && forall t :: t in distinct <==> t in stats.frequencies
    ensures DocumentsHold(tables.lengths[id := stats.length], tables.terms[id := distinct], docs[id := stats])
  {
    hide Distinct;
  }

  lemma RowsRemove(tables: Tables, docs: Docs, id: VectorId)
    requires DocumentsHold(tables.lengths, tables.terms, docs)
    ensures DocumentsHold(tables.lengths - {id}, tables.terms - {id}, docs - {id})
  {
    hide Distinct;
  }

  // One transaction of insert and its two deltas.
  method InsertRows(tables: Tables, id: VectorId, stats: Stats, ghost docs: Docs)
    returns (after: Tables, sizeDelta: int, tokenDelta: int)
    requires Mirrors(tables, docs)
    ensures Mirrors(after, docs[id := stats])
    ensures sizeDelta == |docs[id := stats]| - |docs|
    ensures tokenDelta == TotalTokens(docs[id := stats]) - TotalTokens(docs)
  {
    hide PostingsHold, TotalTokens;
    var postings := tables.postings;
    sizeDelta, tokenDelta := 0, 0;
    ghost var cleared := docs - {id};
    if id in tables.terms {
      postings := DropPostings(postings, tables.terms[id], id, docs);
      if id in tables.lengths {
        tokenDelta := tokenDelta - tables.lengths[id];
      }
      sizeDelta := sizeDelta - 1;
      TotalWithout(docs, id);
      DropOne(docs, id);
    } else {
      assert cleared == docs;
    }
    var distinct;
    postings, distinct := PushPostings(postings, id, stats, cleared);
    RowsInsert(tables, docs, id, stats, distinct);
    hide DocumentsHold;
    after := Tables(postings, tables.lengths[id := stats.length], tables.terms[id := distinct]);
    tokenDelta := tokenDelta + stats.length;
    sizeDelta := sizeDelta + 1;
    TotalInsert(cleared, id, stats);
    ReplaceOne(docs, id, stats);
  }

  // One transaction of remove and its two deltas.
  method RemoveRows(tables: Tables, id: VectorId, ghost docs: Docs) returns (after: Tables, sizeDelta: int, tokenDelta: int)
    requires Mirrors(tables, docs)
    ensures Mirrors(after, docs - {id})
    ensures sizeDelta == |docs - {id}| - |docs|
    ensures tokenDelta == TotalTokens(docs - {id}) - TotalTokens(docs)
  {
    hide PostingsHold, TotalTokens;
    after := tables;
    sizeDelta, tokenDelta := 0, 0;
    if id in tables.terms {
      var postings := DropPostings(tables.postings, tables.terms[id], id, docs);
      if id in tables.lengths {
        tokenDelta := tokenDelta - tables.lengths[id];
      }
      after := Tables(postings, tables.lengths - {id}, tables.terms - {id});
      RowsRemove(tables, docs, id);
      sizeDelta := sizeDelta - 1;
      TotalWithout(docs, id);
      DropOne(docs, id);
      hide DocumentsHold;
    } else {
      assert docs - {id} == docs;
    }
  }

  // open: the counters are recounted from the lengths table.
  method Recount(lengths: map<VectorId, nat>, ghost docs: Docs) returns (count: nat, tokens: nat)
    requires lengths.Keys == docs.Keys && forall id :: id in docs ==> lengths[id] == docs[id].length
    ensures count == |docs| && tokens == TotalTokens(docs)
  {
    count, tokens := 0, 0;
    var rest := lengths.Keys;
    ghost var left := docs;
    while rest != {}
      invariant left.Keys == rest
      invariant forall id :: id in left ==> id in docs && left[id] == docs[id]
      invariant count + |left| == |docs| && tokens + TotalTokens(left) == TotalTokens(docs)
    {
      var id :| id in rest;
      TotalWithout(left, id);
      DropOne(left, id);
      left := left - {id};
      rest := rest - {id};
      count := count + 1;
      tokens := tokens + lengths[id];
    }
    assert left == map[];
  }

  // Some query term occurs in the document.
  ghost predicate Touched(stats: Stats, terms: seq<Term>) {
    exists t :: t in terms && t in stats.frequencies
  }

  lemma {:induction false} UntouchedScore(b: Bm25, docs: Docs, stats: Stats, terms: seq<Term>)
    requires !Touched(stats, terms)
    ensures DocScore(b, docs, stats, terms) == 0.0
  {
    if terms != [] {
      assert terms[|terms| - 1] in terms;
      UntouchedScore(b, docs, stats, terms[..|terms| - 1]);
    }
  }

  // Scores accumulated from the first terms of a query, and from the next term
  // for the documents in done.
  ghost predicate Accumulated(b: Bm25, docs: Docs, admit: VectorId -> bool, terms: seq<Term>, next: Term, done: set<VectorId>,
                              scores: map<VectorId, Score>) {
    && (forall id :: id in scores <==> id in docs && admit(id) && (Touched(docs[id], terms) || id in done))
    && (forall id :: id in scores ==> scores[id] == DocScore(b, docs, docs[id], if id in done then terms + [next] else terms))
  }

  lemma AddOne(b: Bm25, docs: Docs, admit: VectorId -> bool, terms: seq<Term>, next: Term, done: set<VectorId>,
               before: map<VectorId, Score>, id: VectorId)
    requires Accumulated(b, docs, admit, terms, next, done, before)
    requires id in docs && next in docs[id].frequencies && id !in done
    ensures var score := b.add(if id in before then before[id] else 0.0, Contribution(b, docs, docs[id], next));
            Accumulated(b, docs, admit, terms, next, done + {id}, if admit(id) then before[id := score] else before)
  {
    hide Contribution;
    assert (terms + [next])[..|terms|] == terms;
    assert id !in before && admit(id) ==> !Touched(docs[id], terms);
    if !Touched(docs[id], terms) {
      UntouchedScore(b, docs, docs[id], terms);
    }
    hide Touched;
  }

  // The contributions of one posting list.
  method AddList(b: Bm25, list: seq<Posting>, lengths: map<VectorId, nat>, average: Score, idf: Score, admit: VectorId -> bool,
                 before: map<VectorId, Score>, ghost docs: Docs, ghost terms: seq<Term>, ghost next: Term)
    returns (scores: map<VectorId, Score>)
    requires Lists(list, Row(docs, next))
    requires lengths.Keys == docs.Keys && forall id :: id in docs ==> lengths[id] == docs[id].length
    requires average == b.average(TotalTokens(docs), |docs|) && idf == b.idf(|docs|, |Having(docs, next)|)
    requires Accumulated(b, docs, admit, terms, next, {}, before)
    ensures Accumulated(b, docs, admit, terms, next, Having(docs, next), scores)
  {
    hide TotalTokens, Accumulated, Lists, Row;
    scores := before;
    ghost var done: set<VectorId> := {};
    for j := 0 to |list|
      invariant done == set p | p in list[..j] :: p.id
      invariant Accumulated(b, docs, admit, terms, next, done, scores)
    {
      var p := list[j];
      ListEntry(docs, next, list, j);
      AddOne(b, docs, admit, terms, next, done, scores, p.id);
      if admit(p.id) && p.id in lengths {
        var contribution := b.termScore(p.frequency, lengths[p.id], average, idf);
        scores := scores[p.id := b.add(if p.id in scores then scores[p.id] else 0.0, contribution)];
      }
      done := done + {p.id};
      assert list[..j + 1] == list[..j] + [p];
    }
    assert list[..|list|] == list;
    ListIds(docs, next, list);
  }

  lemma ListEntry(docs: Docs, t: Term, list: seq<Posting>, j: nat)
    requires Lists(list, Row(docs, t)) && j < |list|
    ensures list[j].id in docs && t in docs[list[j].id].frequencies && list[j].frequency == docs[list[j].id].frequencies[t]
    ensures forall i :: 0 <= i < j ==> list[i].id != list[j].id
  {
    assert list[j] in list;
  }

  lemma ListIds(docs: Docs, t: Term, list: seq<Posting>)
    requires Lists(list, Row(docs, t))
    ensures (set p | p in list :: p.id) == Having(docs, t)
  {
    forall id | id in Having(docs, t)
      ensures id in set p | p in list :: p.id
    {
      assert Posting(id, Row(docs, t)[id]) in list;
    }
  }

  // With a whole list added, the term counts among the first terms.
  lemma NextTerm(b: Bm25, docs: Docs, admit: VectorId -> bool, terms: seq<Term>, next: Term, after: Term,
                 scores: map<VectorId, Score>)
    requires Accumulated(b, docs, admit, terms, next, Having(docs, next), scores)
    ensures Accumulated(b, docs, admit, terms + [next], after, {}, scores)
  {
    assert (terms + [next])[..|terms|] == terms;
    forall id | id in docs
      ensures Touched(docs[id], terms + [next]) <==> Touched(docs[id], terms) || id in Having(docs, next)
    {
      if next in docs[id].frequencies {
        assert next in terms + [next];
      }
      forall t | t in terms && t in docs[id].frequencies
        ensures Touched(docs[id], terms + [next])
      {
        assert t in terms + [next];
      }
    }
  }

  class PersistentLexicalIndex {
    const b: Bm25
    var tables: Tables
    var corpusSize: nat
    var total: nat
    ghost var docs: Docs

    // The tables say what the documents say and the counters are exact.
    ghost predicate Valid()
      reads this
    {
      Mirrors(tables, docs) && corpusSize == |docs| && total == TotalTokens(docs)
    }

    // open, over whatever tables the last run committed.
    constructor (b: Bm25, tables: Tables, ghost docs: Docs)
      requires Mirrors(tables, docs)
      ensures Valid() && this.b == b && this.docs == docs && this.tables == tables
    {
      var count, tokens := Recount(tables.lengths, docs);
      this.b, this.tables, this.docs := b, tables, docs;
      corpusSize, total := count, tokens;
    }

    method Insert(id: VectorId, text: string)
      requires Valid()
      modifies this
      ensures Valid() && docs == old(docs)[id := StatsOf(b.tokenize(text))]
    {
      hide Mirrors, TotalTokens;
      var stats := CountTokens(b.tokenize(text));
      var after, sizeDelta, tokenDelta := InsertRows(tables, id, stats, docs);
      tables := after;
      docs := docs[id := stats];
      corpusSize := ApplyDelta(corpusSize, sizeDelta);
      total := ApplyDelta(total, tokenDelta);
    }

    method Remove(id: VectorId)
      requires Valid()
      modifies this
      ensures Valid() && docs == old(docs) - {id}
    {
      hide Mirrors, TotalTokens;
      var after, sizeDelta, tokenDelta := RemoveRows(tables, id, docs);
      tables := after;
      docs := docs - {id};
      corpusSize := ApplyDelta(corpusSize, sizeDelta);
      total := ApplyDelta(total, tokenDelta);
    }

    // The score of every admissible document some query term occurs in.
    method Accumulate(terms: seq<Term>, admit: VectorId -> bool) returns (scores: map<VectorId, Score>)
      requires Valid()
      ensures Accumulated(b, docs, admit, terms, "", {}, scores)
    {
      hide Accumulated, Lists, Row, TotalTokens;
      var average := b.average(total, corpusSize);
      scores := map[];
      NothingAccumulated(b, docs, admit, if terms == [] then "" else terms[0]);
      for i := 0 to |terms|
        invariant Accumulated(b, docs, admit, terms[..i], if i < |terms| then terms[i] else "", {}, scores)
      {
        var t := terms[i];
        assert Lists(ListAt(tables.postings, t), Row(docs, t));
        ListLength(ListAt(tables.postings, t), Row(docs, t));
        RowSize(docs, t);
        if t in tables.postings {
          var list := tables.postings[t];
          scores := AddList(b, list, tables.lengths, average, b.idf(corpusSize, |list|), admit, scores, docs, terms[..i], t);
        } else {
          assert Having(docs, t) == {};
        }
        NextTerm(b, docs, admit, terms[..i], t, if i + 1 < |terms| then terms[i + 1] else "", scores);
        assert terms[..i + 1] == terms[..i] + [t];
      }
      assert terms[..|terms|] == terms;
    }

    // search_text_filtered: the k best admissible documents.
    method SearchText(query: string, k: nat, admit: VectorId -> bool) returns (hits: seq<Hit>)
      requires Valid()
      ensures IsTopK(hits, Scores(b, docs, b.tokenize(query), admit), k)
    {
      hide Mirrors, TotalTokens, DocScore;
      var terms := b.tokenize(query);
      ghost var wanted := Scores(b, docs, terms, admit);
      if corpusSize == 0 {
        assert docs.Keys == {};
        assert wanted == map[];
        assert IsRanking([], wanted) && Take<Hit>([], k) == [];
        return [];
      }
      var scores := Accumulate(terms, admit);
      AccumulatedScores(b, docs, admit, terms, scores);
      var scored: seq<Hit> := [];
      var rest := scores.Keys;
      while rest != {}
        invariant rest <= scores.Keys
        invariant DistinctIds(scored)
        invariant forall h :: h in scored <==> h.id in scores && h.id !in rest && h.score == scores[h.id] && h.score > 0.0
      {
        var id :| id in rest;
        rest := rest - {id};
        if scores[id] > 0.0 {
          scored := scored + [Hit(id, scores[id])];
        }
      }
      SortedIsTopK(scored, wanted, k);
      hits := Take(Sort(scored, HitKey), k);
    }
  }

  lemma NothingAccumulated(b: Bm25, docs: Docs, admit: VectorId -> bool, next: Term)
    ensures Accumulated(b, docs, admit, [], next, {}, map[])
  {
  }

  // Untouched documents score zero, so the positive scores are all there.
  lemma AccumulatedScores(b: Bm25, docs: Docs, admit: VectorId -> bool, terms: seq<Term>, scores: map<VectorId, Score>)
    requires Accumulated(b, docs, admit, terms, "", {}, scores)
    ensures Scores(b, docs, terms, admit) == map id | id in scores && scores[id] > 0.0 :: scores[id]
  {
    forall id | id in docs && admit(id) && id !in scores
      ensures DocScore(b, docs, docs[id], terms) == 0.0
    {
      UntouchedScore(b, docs, docs[id], terms);
    }
    hide DocScore;
  }
}

/** Both text indexes driven through the same run. */
module LexicalParity {
  import opened Core
  import opened Ranking
  import opened Lexical
  import opened MemoryLexical
  import opened PersistentLexical

  datatype LexicalOp = InsertText(id: VectorId, text: string) | RemoveText(id: VectorId) | Restart

  // The documents after a run.
  ghost function DocsAfter(b: Bm25, ops: seq<LexicalOp>): Docs {
    if ops == [] then map[]
    else
      var docs := DocsAfter(b, ops[..|ops| - 1]);
      match ops[|ops| - 1]
      case InsertText(id, text) => docs[id := StatsOf(b.tokenize(text))]
      case RemoveText(id) => docs - {id}
      case Restart => docs
  }

  // After any run of inserts, replacements, removals and reopens, both indexes
  // answer every query with the same hits.
  method Parity(b: Bm25, ops: seq<LexicalOp>, query: string, k: nat, admit: VectorId -> bool)
    returns (oracle: seq<Hit>, hits: seq<Hit>)
    ensures hits == oracle
    ensures IsTopK(hits, Scores(b, DocsAfter(b, ops), b.tokenize(query), admit), k)
  {
    hide Exact, Mirrors, Scores, TotalTokens, IsTopK;
    var memory := new InMemoryLexicalIndex(b);
    var empty := Tables(map[], map[], map[]);
    assert Mirrors(empty, map[]) by { EmptyMirrors(); }
    var stored := new PersistentLexicalIndex(b, empty, map[]);
    for i := 0 to |ops|
      invariant fresh(memory) && fresh(stored) && memory.b == b && stored.b == b
      invariant Exact(memory.State()) && stored.Valid()
      invariant memory.docs == stored.docs == DocsAfter(b, ops[..i])
    {
      assert ops[..i + 1][..i] == ops[..i];
      match ops[i] {
        case InsertText(id, text) => {
          memory.Insert(id, text);
          stored.Insert(id, text);
        }
        case RemoveText(id) => {
          memory.Remove(id);
          stored.Remove(id);
        }
        case Restart => {
          stored := new PersistentLexicalIndex(b, stored.tables, stored.docs);
        }
      }
    }
    assert ops[..|ops|] == ops;
    oracle := memory.SearchText(query, k, admit);
    hits := stored.SearchText(query, k, admit);
    TopKUnique(hits, oracle, Scores(b, DocsAfter(b, ops), b.tokenize(query), admit), k);
  }

  lemma EmptyMirrors()
    ensures Mirrors(Tables(map[], map[], map[]), map[])
  {
    forall t
      ensures Row(map[], t) == map[]
    {
    }
  }
}
