/** `RAGService`: the retrieval index over document chunks. Indexing stores a
    document's chunks and appends each chunk id to the posting list of every
    entity it mentions; entity-scored retrieval ranks chunk ids by how often
    the query entities' posting lists hold them and expands the query
    entities through the knowledge graph. */
module Rag {
  import opened Strings
  import opened Graphs
  import opened Dicts
  import GraphBuild
  import Chunker

  type Chunk = Chunker.Chunk

  /** A retrieved chunk with its relevance score and the id of the document
      it was found under. */
  datatype Hit = Hit(chunk: Chunk, score: real, docId: string)

  /** A chunk found under a document, without a score. */
  datatype Located = Located(chunk: Chunk, docId: string)

  /** A relationship record of an entity in the graph. */
  datatype Relation = Relation(source: string, target: string, relType: string, weight: real, evidence: seq<string>)

  /** The entity-scored part of a retrieval; `totalChunks` counts every
      stored chunk. */
  datatype Retrieval = Retrieval(chunks: seq<Hit>, entities: set<string>, relationships: seq<Relation>, totalChunks: nat)

  /** The context of one entity: the chunks that mention it, its neighbours
      and the edges to them. */
  datatype EntityContext = EntityContext(entity: string, chunks: seq<Located>, neighbors: seq<string>,
                                         relationships: seq<Relation>, metadata: map<string, string>)

  /** `entity_to_chunks.get(e, [])` */
  function Postings(index: map<string, seq<string>>, e: string): seq<string> {
    if e in index then index[e] else []
  }

  /** `[x] * n` */
  function Repeat(x: string, n: nat): (r: seq<string>)
    ensures |r| == n && (forall y :: y in r ==> y == x) && (n > 0 ==> x in r)
  {
    if n == 0 then [] else Repeat(x, n - 1) + [x]
  }

  /** The ids `chunks` add to the posting list of `e`: a chunk's id once for
      every mention of `e` in its entity list, chunk after chunk. */
  function Added(chunks: seq<Chunk>, e: string): seq<string> {
    if chunks == [] then []
    else
      var last := chunks[|chunks| - 1];
      Added(chunks[..|chunks| - 1], e) + Repeat(last.chunkId, Count(last.entities, e))
  }

  /** Every id that `chunks` add under `e` is the id of a chunk that
      mentions `e`, and every such chunk adds its id. */
  lemma {:induction false} AddedMembers(chunks: seq<Chunk>, e: string, id: string)
    ensures id in Added(chunks, e) <==> exists c :: c in chunks && e in c.entities && c.chunkId == id
  {
    if chunks != [] {
      var init, last := chunks[..|chunks| - 1], chunks[|chunks| - 1];
      AddedMembers(init, e, id);
      CountPositive(last.entities, e);
      assert chunks == init + [last];
      if id in Added(chunks, e) && id !in Added(init, e) {
        assert id in Repeat(last.chunkId, Count(last.entities, e));
      }
    }
  }

  lemma {:induction false} CountPositive(xs: seq<string>, x: string)
    ensures Count(xs, x) > 0 <==> x in xs
  {
    if xs != [] {
      CountPositive(xs[..|xs| - 1], x);
      assert xs == xs[..|xs| - 1] + [xs[|xs| - 1]];
    }
  }

  /** The score of chunk id `id` for the query entities: the number of its
      occurrences in their posting lists, counting an entity as often as the
      query names it. */
  function Tally(index: map<string, seq<string>>, entities: seq<string>, id: string): nat {
    if entities == [] then 0
    else Tally(index, entities[..|entities| - 1], id) + Count(Postings(index, entities[|entities| - 1]), id)
  }

  /** A chunk id scores above zero exactly when some query entity's posting
      list holds it. */
  lemma {:induction false} TallyPositive(index: map<string, seq<string>>, entities: seq<string>, id: string)
    ensures Tally(index, entities, id) > 0 <==> exists e :: e in entities && id in Postings(index, e)
  {
    if entities != [] {
      var init, last := entities[..|entities| - 1], entities[|entities| - 1];
      TallyPositive(index, init, id);
      CountPositive(Postings(index, last), id);
      assert entities == init + [last];
    }
  }

  /** `d.get(k, 0.0)` */
  function Get(d: Dict<string, real>, k: string): real {
    if k in d.m then d.m[k] else 0.0
  }

  /** `list(d.items())` */
  function Items(d: Dict<string, real>): (ps: seq<(string, real)>)
    requires d.Valid()
    ensures |ps| == |d.keys|
    ensures forall p :: p in ps ==> p.0 in d.m && p.1 == d.m[p.0]
  {
    seq(|d.keys|, i requires 0 <= i < |d.keys| => (d.keys[i], d.m[d.keys[i]]))
  }

  function Score(p: (string, real)): real { p.1 }

  function HitScore(h: Hit): real { h.score }

  /** `sum(len(chunks) for chunks in values)` over the keys `ks`. */
  function ChunkTotal(ks: seq<string>, m: map<string, seq<Chunk>>): nat
    requires forall k :: k in ks ==> k in m
  {
    if ks == [] then 0 else |m[ks[0]]| + ChunkTotal(ks[1..], m)
  }

  /** Replacing the chunks stored under one key changes the total by the
      difference of the two lengths. */
  lemma {:induction false} ChunkTotalPut(ks: seq<string>, m: map<string, seq<Chunk>>, k: string, v: seq<Chunk>)
    requires forall x :: x in ks ==> x in m
    requires forall i, j :: 0 <= i < j < |ks| ==> ks[i] != ks[j]
    ensures ChunkTotal(ks, m[k := v]) == ChunkTotal(ks, m) - (if k in ks then |m[k]| else 0) + (if k in ks then |v| else 0)
  {
    if ks != [] {
      assert forall i, j :: 0 <= i < j < |ks[1..]| ==> ks[1..][i] != ks[1..][j] by {
        forall i, j | 0 <= i < j < |ks[1..]| ensures ks[1..][i] != ks[1..][j] {
          assert ks[1..][i] == ks[i + 1] && ks[1..][j] == ks[j + 1];
        }
      }
      ChunkTotalPut(ks[1..], m, k, v);
      if ks[0] == k {
        assert k !in ks[1..];
      }
    }
  }

  lemma {:induction false} ChunkTotalSnoc(ks: seq<string>, m: map<string, seq<Chunk>>, k: string)
    requires forall x :: x in ks ==> x in m
    requires k in m
    ensures ChunkTotal(ks + [k], m) == ChunkTotal(ks, m) + |m[k]|
  {
    if ks != [] {
      assert (ks + [k])[1..] == ks[1..] + [k];
      ChunkTotalSnoc(ks[1..], m, k);
    }
  }

  /** The total stored chunk count after `d[k] = v`. */
  lemma TotalAfterPut(d: Dict<string, seq<Chunk>>, k: string, v: seq<Chunk>)
    requires d.Valid()
    ensures ChunkTotal(d.Put(k, v).keys, d.Put(k, v).m)
      == ChunkTotal(d.keys, d.m) - (if k in d.m then |d.m[k]| else 0) + |v|
  {
    ChunkTotalPut(d.keys, d.m, k, v);
    if k !in d.m {
      assert forall x :: x in d.keys ==> x in d.m[k := v];
      ChunkTotalSnoc(d.keys, d.m[k := v], k);
      assert ChunkTotal(d.keys, d.m[k := v]) == ChunkTotal(d.keys, d.m) by {
        ChunkTotalPut(d.keys, d.m, k, v);
      }
    }
  }

  /** The index after appending `id` to the posting list of every entity
      in `es`, in turn; a missing list starts empty. */
  function Linked(index: map<string, seq<string>>, id: string, es: seq<string>): map<string, seq<string>> {
    if es == [] then index
    else
      var prev := Linked(index, id, es[..|es| - 1]);
      var e := es[|es| - 1];
      prev[e := Postings(prev, e) + [id]]
  }

  /** Linking adds the id to an entity's list once per mention, after the
      ids already there, and touches no other list. */
  lemma {:induction false} LinkedPostings(index: map<string, seq<string>>, id: string, es: seq<string>, x: string)
    ensures Postings(Linked(index, id, es), x) == Postings(index, x) + Repeat(id, Count(es, x))
  {
    if es != [] {
      var init, e := es[..|es| - 1], es[|es| - 1];
      LinkedPostings(index, id, init, x);
      CountLast(es, x);
      LinkStep(Linked(index, id, init), e, id, x, Postings(index, x), Count(init, x));
    }
  }

  /** Linking one more mention adds the id to that entity's list only. */
  lemma LinkStep(prev: map<string, seq<string>>, e: string, id: string, x: string, base: seq<string>, c: nat)
    requires Postings(prev, x) == base + Repeat(id, c)
    ensures Postings(prev[e := Postings(prev, e) + [id]], x) == base + Repeat(id, if x == e then c + 1 else c)
  {
    if x == e {
      assert Repeat(id, c + 1) == Repeat(id, c) + [id];
      ConcatAssoc(base, Repeat(id, c), [id]);
    }
  }

  lemma {:induction false} LinkedKeys(index: map<string, seq<string>>, id: string, es: seq<string>, x: string)
    ensures x in Linked(index, id, es) <==> x in index || x in es
  {
    if es != [] {
      var init, e := es[..|es| - 1], es[|es| - 1];
      LinkedKeys(index, id, init, x);
      assert es == init + [e];
    }
  }

  lemma CountLast(xs: seq<string>, x: string)
    requires xs != []
    ensures Count(xs, x) == Count(xs[..|xs| - 1], x) + if x == xs[|xs| - 1] then 1 else 0
  {
    assert xs == xs[..|xs| - 1] + [xs[|xs| - 1]];
    CountSnoc(xs[..|xs| - 1], xs[|xs| - 1], x);
  }

  lemma CountSnoc(xs: seq<string>, y: string, x: string)
    ensures Count(xs + [y], x) == Count(xs, x) + if x == y then 1 else 0
  {
    assert multiset(xs + [y]) == multiset(xs) + multiset{y};
  }

  /** The index after linking every chunk of `chunks`, in turn. */
  function Indexed(index: map<string, seq<string>>, chunks: seq<Chunk>): map<string, seq<string>> {
    if chunks == [] then index
    else
      var last := chunks[|chunks| - 1];
      Linked(Indexed(index, chunks[..|chunks| - 1]), last.chunkId, last.entities)
  }

  /** Indexing appends, under each entity, the ids the chunks add for it,
      and creates a list exactly for the entities some chunk mentions. */
  lemma {:induction false} IndexedPostings(index: map<string, seq<string>>, chunks: seq<Chunk>, x: string)
    ensures Postings(Indexed(index, chunks), x) == Postings(index, x) + Added(chunks, x)
  {
    if chunks != [] {
      var init, last := chunks[..|chunks| - 1], chunks[|chunks| - 1];
      IndexedPostings(index, init, x);
      LinkedPostings(Indexed(index, init), last.chunkId, last.entities, x);
      ConcatAssoc(Postings(index, x), Added(init, x), Repeat(last.chunkId, Count(last.entities, x)));
    }
  }

  lemma {:induction false} IndexedKeys(index: map<string, seq<string>>, chunks: seq<Chunk>, x: string)
    ensures x in Indexed(index, chunks) <==> x in index || exists c :: c in chunks && x in c.entities
  {
    if chunks != [] {
      var init, last := chunks[..|chunks| - 1], chunks[|chunks| - 1];
      IndexedKeys(index, init, x);
      LinkedKeys(Indexed(index, init), last.chunkId, last.entities, x);
      assert chunks == init + [last];
    }
  }

  method LinkChunk(index: map<string, seq<string>>, id: string, entities: seq<string>)
    returns (index': map<string, seq<string>>)
    ensures index' == Linked(index, id, entities)
  {
    index' := index;
    var j := 0;
    while j < |entities|
      invariant 0 <= j <= |entities|
      invariant index' == Linked(index, id, entities[..j])
    {
      var e := entities[j];
      assert entities[..j + 1][..j] == entities[..j];
      index' := index'[e := Postings(index', e) + [id]];
      j := j + 1;
    }
    assert entities[..j] == entities;
  }

  /** `cur` is `scores` with one added to the entry of every id in `ids`,
      once per occurrence. */
  ghost predicate Bumped(cur: Dict<string, real>, scores: Dict<string, real>, ids: seq<string>) {
    && cur.Valid()
    && (forall k :: k in cur.m <==> k in scores.m || k in ids)
    && (forall k :: Get(cur, k) == Get(scores, k) + Count(ids, k) as real)
  }

  /** `scores` holds exactly the chunk ids with a positive tally for the
      entities `es`, each with its tally. */
  ghost predicate ScoresAre(scores: Dict<string, real>, index: map<string, seq<string>>, es: seq<string>) {
    scores.Valid()
    && (forall k :: k in scores.m <==> Tally(index, es, k) > 0)
    && (forall k :: Get(scores, k) == Tally(index, es, k) as real)
  }

  /** Adding the postings of the last query entity keeps the scores equal
      to the tallies. */
  lemma {:induction false} TallyLast(scores: Dict<string, real>, scores': Dict<string, real>, index: map<string, seq<string>>, es: seq<string>)
    requires es != [] && ScoresAre(scores, index, es[..|es| - 1]) && scores'.Valid()
    requires forall k :: k in scores'.m <==> k in scores.m || k in Postings(index, es[|es| - 1])
    requires forall k :: Get(scores', k) == Get(scores, k) + Count(Postings(index, es[|es| - 1]), k) as real
    ensures ScoresAre(scores', index, es)
  {
    forall k ensures k in scores'.m <==> Tally(index, es, k) > 0 {
      CountPositive(Postings(index, es[|es| - 1]), k);
    }
  }

  // ---------------------------------------------------------------------
  // The graph expansion of a query
  // ---------------------------------------------------------------------

  /** `self.graph and e in self.graph.nodes()`: a graph with at least one
      node is set, and `e` is one of its nodes. */
  predicate InGraph(graph: Option<Graph>, e: string) {
    graph.Some? && |graph.value.nodes| > 0 && e in graph.value.attrs
  }

  /** The neighbours retrieval looks at for `e`: none when `e` is not in
      the graph. */
  function Near(graph: Option<Graph>, e: string): seq<string> {
    if InGraph(graph, e) then Neighbors(graph.value, e) else []
  }

  /** The record of the edge from `e` to `n`, with the defaults of
      `get_edge_data(e, n, {})` when there is no such edge. */
  function RecordOf(graph: Option<Graph>, e: string, n: string): Relation {
    if graph.Some? && HasEdge(graph.value, e, n) then
      var data := EdgeData(graph.value, e, n).value;
      Relation(e, n, data.relType, data.weight, data.evidence)
    else Relation(e, n, "RELATED", 1.0, [])
  }

  /** The records of the edges from `e` to each of `ns`, in order. */
  function Records(graph: Option<Graph>, e: string, ns: seq<string>): (rs: seq<Relation>)
    ensures |rs| == |ns|
  {
    if ns == [] then [] else Records(graph, e, ns[..|ns| - 1]) + [RecordOf(graph, e, ns[|ns| - 1])]
  }

  /** The relationship records one query entity adds: the edges to its
      first three neighbours. */
  function Expansion(graph: Option<Graph>, e: string): seq<Relation> {
    Records(graph, e, Take(Near(graph, e), 3))
  }

  /** The relationship records of the query entities, entity by entity. */
  function Relations(graph: Option<Graph>, es: seq<string>): seq<Relation> {
    if es == [] then [] else Relations(graph, es[..|es| - 1]) + Expansion(graph, es[|es| - 1])
  }

  /** The related entities one query entity adds: its first five
      neighbours. */
  function NearSet(graph: Option<Graph>, e: string): set<string> {
    set x | x in Take(Near(graph, e), 5)
  }

  function NearUnion(graph: Option<Graph>, es: seq<string>): set<string> {
    if es == [] then {} else NearUnion(graph, es[..|es| - 1]) + NearSet(graph, es[|es| - 1])
  }

  /** `relevant_entities` after the loop over the query entities. */
  function RelatedSet(graph: Option<Graph>, es: seq<string>): set<string> {
    (set e | e in es) + NearUnion(graph, es)
  }

  /** `rel` carries the data of an edge of the graph from its source. */
  ghost predicate EdgeRecord(graph: Option<Graph>, rel: Relation) {
    graph.Some? && HasEdge(graph.value, rel.source, rel.target)
    && var data := EdgeData(graph.value, rel.source, rel.target).value;
    rel.relType == data.relType && rel.weight == data.weight && rel.evidence == data.evidence
  }

  /** Every record made for neighbours of `e` is the record of an edge from
      `e` to one of them. */
  lemma {:induction false} RecordsOfNeighbours(graph: Option<Graph>, e: string, ns: seq<string>)
    requires InGraph(graph, e) && forall x :: x in ns ==> x in Neighbors(graph.value, e)
    ensures forall rel :: rel in Records(graph, e, ns) ==> rel.source == e && rel.target in ns && EdgeRecord(graph, rel)
  {
    if ns != [] {
      var init, last := ns[..|ns| - 1], ns[|ns| - 1];
      RecordsOfNeighbours(graph, e, init);
      NeighborIffEdge(graph.value, e, last);
    }
  }

  /** One query entity adds the records of the edges to its first three
      neighbours, in neighbour order, and none when it is not in the graph. */
  lemma {:induction false} ExpansionFacts(graph: Option<Graph>, e: string)
    ensures !InGraph(graph, e) ==> Expansion(graph, e) == []
    ensures |Expansion(graph, e)| <= 3
    ensures forall k :: 0 <= k < |Expansion(graph, e)| ==>
      Expansion(graph, e)[k].source == e && Expansion(graph, e)[k].target == Near(graph, e)[k]
    ensures forall rel :: rel in Expansion(graph, e) ==> EdgeRecord(graph, rel)
  {
    if InGraph(graph, e) {
      var firsts := Take(Neighbors(graph.value, e), 3);
      RecordsOfNeighbours(graph, e, firsts);
      RecordsAt(graph, e, firsts);
    }
  }

  lemma {:induction false} RecordsAt(graph: Option<Graph>, e: string, ns: seq<string>)
    ensures forall k :: 0 <= k < |ns| ==> Records(graph, e, ns)[k].source == e && Records(graph, e, ns)[k].target == ns[k]
  {
    if ns != [] {
      RecordsAt(graph, e, ns[..|ns| - 1]);
    }
  }

  /** Every relationship record comes from a query entity in the graph and
      records an edge; each query entity adds at most three. */
  lemma {:induction false} RelationsFacts(graph: Option<Graph>, es: seq<string>)
    ensures |Relations(graph, es)| <= 3 * |es|
    ensures forall rel :: rel in Relations(graph, es) ==> rel.source in es && InGraph(graph, rel.source) && EdgeRecord(graph, rel)
  {
    if es != [] {
      var init, last := es[..|es| - 1], es[|es| - 1];
      RelationsFacts(graph, init);
      ExpansionFacts(graph, last);
      forall rel | rel in Relations(graph, es)
        ensures rel.source in es && InGraph(graph, rel.source) && EdgeRecord(graph, rel)
      {
        if rel in Relations(graph, init) {
          InPrefix(es, |init|, rel.source);
        }
      }
    }
  }

  lemma {:induction false} NearUnionMembers(graph: Option<Graph>, es: seq<string>, x: string)
    ensures x in NearUnion(graph, es) <==> exists e :: e in es && x in Take(Near(graph, e), 5)
  {
    if es != [] {
      var init, last := es[..|es| - 1], es[|es| - 1];
      NearUnionMembers(graph, init, x);
      assert es == init + [last];
    }
  }

  /** The related entities are exactly the query entities and the first
      five neighbours of every query entity in the graph. */
  lemma {:induction false} RelatedFacts(graph: Option<Graph>, es: seq<string>, x: string)
    ensures x in RelatedSet(graph, es) <==>
      x in es || exists e :: e in es && InGraph(graph, e) && x in Take(Neighbors(graph.value, e), 5)
  {
    NearUnionMembers(graph, es, x);
  }

  // ---------------------------------------------------------------------
  // Scoring
  // ---------------------------------------------------------------------

  /** `chunk_scores[id] += 1.0` */
  function Bump(scores: Dict<string, real>, id: string): (r: Dict<string, real>)
    requires scores.Valid()
    ensures r.Valid()
  {
    scores.Put(id, Get(scores, id) + 1.0)
  }

  /** `chunk_scores[id] += 1.0` for every id of `ids`, in turn. */
  function BumpAll(scores: Dict<string, real>, ids: seq<string>): (r: Dict<string, real>)
    requires scores.Valid()
    ensures r.Valid()
  {
    if ids == [] then scores else Bump(BumpAll(scores, ids[..|ids| - 1]), ids[|ids| - 1])
  }

  /** Bumping adds one to the score of every id per occurrence and enters
      exactly the new ids. */
  lemma {:induction false} BumpAllBumped(scores: Dict<string, real>, ids: seq<string>)
    requires scores.Valid()
    ensures Bumped(BumpAll(scores, ids), scores, ids)
  {
    if ids != [] {
      var init := ids[..|ids| - 1];
      BumpAllBumped(scores, init);
      BumpLast(scores, BumpAll(scores, init), ids);
    }
  }

  /** One more increment, for the last id of `ids`, keeps the bumped
      scores. */
  lemma BumpLast(scores: Dict<string, real>, cur: Dict<string, real>, ids: seq<string>)
    requires ids != [] && Bumped(cur, scores, ids[..|ids| - 1])
    ensures Bumped(Bump(cur, ids[|ids| - 1]), scores, ids)
  {
    var init, last := ids[..|ids| - 1], ids[|ids| - 1];
    forall k ensures Get(Bump(cur, last), k) == Get(scores, k) + Count(ids, k) as real {
      CountLast(ids, k);
    }
    forall k ensures k in Bump(cur, last).m <==> k in scores.m || k in ids {
      CountLast(ids, k);
      CountPositive(ids, k);
      CountPositive(init, k);
    }
  }

  /** `chunk_scores` after the loop over the query entities `es`. */
  function ScoreDict(index: map<string, seq<string>>, es: seq<string>): (d: Dict<string, real>)
    ensures d.Valid()
  {
    if es == [] then Empty() else BumpAll(ScoreDict(index, es[..|es| - 1]), Postings(index, es[|es| - 1]))
  }

  /** The score table holds exactly the ids with a positive tally, each
      with its tally. */
  lemma {:induction false} ScoreDictTallies(index: map<string, seq<string>>, es: seq<string>)
    ensures ScoresAre(ScoreDict(index, es), index, es)
  {
    if es != [] {
      var init, last := es[..|es| - 1], es[|es| - 1];
      ScoreDictTallies(index, init);
      BumpAllBumped(ScoreDict(index, init), Postings(index, last));
      TallyLast(ScoreDict(index, init), ScoreDict(index, es), index, es);
    }
  }

  /** `sorted(chunk_scores.items(), key=score, reverse=True)[:top_k]` */
  function Ranked(scores: Dict<string, real>, topK: int): seq<(string, real)>
    requires scores.Valid()
  {
    GraphBuild.Slice(SortDesc(Items(scores), Score), topK)
  }

  /** The ranked ids are the best scored: an id left out scores no higher
      than any ranked one. */
  lemma {:induction false} RankedTop(scores: Dict<string, real>, topK: int, p: (string, real), q: (string, real))
    requires scores.Valid() && p in Ranked(scores, topK) && q in Items(scores) && q !in Ranked(scores, topK)
    ensures p.1 >= q.1
  {
    var sorted := SortDesc(Items(scores), Score);
    var top := Ranked(scores, topK);
    assert q in multiset(sorted);
    var j :| 0 <= j < |sorted| && sorted[j] == q;
    var i :| 0 <= i < |top| && top[i] == p;
    assert sorted[i] == p;
  }

  // ---------------------------------------------------------------------
  // Looking ranked ids up in the documents
  // ---------------------------------------------------------------------

  /** The first chunk of `chunks` with id `id`. */
  function FirstId(chunks: seq<Chunk>, id: string): (r: Option<Chunk>)
    ensures r.Some? ==> r.value in chunks && r.value.chunkId == id
    ensures r.None? <==> forall c :: c in chunks ==> c.chunkId != id
  {
    if chunks == [] then None
    else if chunks[0].chunkId == id then Some(chunks[0])
    else FirstId(chunks[1..], id)
  }

  /** The chunk with the id that no earlier chunk has is the one found. */
  lemma {:induction false} FirstIdAt(chunks: seq<Chunk>, id: string, i: nat)
    requires i < |chunks| && chunks[i].chunkId == id
    requires forall k :: 0 <= k < i ==> chunks[k].chunkId != id
    ensures FirstId(chunks, id) == Some(chunks[i])
  {
    if i > 0 {
      assert chunks[0].chunkId != id;
      FirstIdAt(chunks[1..], id, i - 1);
    }
  }

  /** `not (target_doc_id and doc_id != target_doc_id)` */
  predicate Allowed(target: Option<string>, d: string) {
    !(target.Some? && target.value != "" && d != target.value)
  }

  /** The hit document `d` gives for a ranked id: its first chunk with the
      id, when the document is searched and has one. */
  function HitIn(m: map<string, seq<Chunk>>, d: string, id: string, score: real, target: Option<string>): seq<Hit> {
    if d in m && Allowed(target, d) && FirstId(m[d], id).Some? then [Hit(FirstId(m[d], id).value, score, d)] else []
  }

  /** The hits of one ranked id, document by document. */
  function HitsIn(docs: seq<string>, m: map<string, seq<Chunk>>, id: string, score: real, target: Option<string>): seq<Hit> {
    if docs == [] then []
    else HitsIn(docs[..|docs| - 1], m, id, score, target) + HitIn(m, docs[|docs| - 1], id, score, target)
  }

  /** `x` comes before `y` in `docs`. */
  ghost predicate Before(docs: seq<string>, x: string, y: string) {
    exists a, b :: 0 <= a < b < |docs| && docs[a] == x && docs[b] == y
  }

  /** A ranked id's hits are exactly the first chunk with the id of every
      searched document that has one, all with the id's score. */
  lemma {:induction false} HitsInMembers(docs: seq<string>, m: map<string, seq<Chunk>>, id: string, score: real, target: Option<string>, h: Hit)
    ensures h in HitsIn(docs, m, id, score, target) <==>
      h.docId in docs && h.docId in m && Allowed(target, h.docId) && FirstId(m[h.docId], id) == Some(h.chunk) && h.score == score
  {
    if docs != [] {
      var init, last := docs[..|docs| - 1], docs[|docs| - 1];
      HitsInMembers(init, m, id, score, target, h);
      assert docs == init + [last];
    }
  }

  /** The hits follow the document order, so a document gives at most one. */
  lemma {:induction false} HitsInOrder(docs: seq<string>, m: map<string, seq<Chunk>>, id: string, score: real, target: Option<string>)
    ensures forall i, j :: 0 <= i < j < |HitsIn(docs, m, id, score, target)| ==>
      Before(docs, HitsIn(docs, m, id, score, target)[i].docId, HitsIn(docs, m, id, score, target)[j].docId)
    ensures Distinct(docs) ==> forall i, j :: 0 <= i < j < |HitsIn(docs, m, id, score, target)| ==>
      HitsIn(docs, m, id, score, target)[i].docId != HitsIn(docs, m, id, score, target)[j].docId
  {
    var r := HitsIn(docs, m, id, score, target);
    if docs != [] {
      var init, last := docs[..|docs| - 1], docs[|docs| - 1];
      var r0 := HitsIn(init, m, id, score, target);
      HitsInOrder(init, m, id, score, target);
      forall i, j | 0 <= i < j < |r| ensures Before(docs, r[i].docId, r[j].docId) {
        if j < |r0| {
          assert r[i] == r0[i] && r[j] == r0[j];
          var a, b :| 0 <= a < b < |init| && init[a] == r0[i].docId && init[b] == r0[j].docId;
          assert docs[a] == init[a] && docs[b] == init[b];
        } else {
          assert r[i] == r0[i] && r[j].docId == last;
          HitsInMembers(init, m, id, score, target, r0[i]);
          var a :| 0 <= a < |init| && init[a] == r0[i].docId;
          assert docs[a] == init[a] && docs[|docs| - 1] == last;
        }
      }
    }
    if Distinct(docs) {
      forall i, j | 0 <= i < j < |r| ensures r[i].docId != r[j].docId {
        assert Before(docs, r[i].docId, r[j].docId);
        var a, b :| 0 <= a < b < |docs| && docs[a] == r[i].docId && docs[b] == r[j].docId;
      }
    }
  }

  /** The hits of the ranked ids, id by id. */
  function Collected(items: seq<(string, real)>, docs: seq<string>, m: map<string, seq<Chunk>>, target: Option<string>): seq<Hit> {
    if items == [] then []
    else
      var last := items[|items| - 1];
      Collected(items[..|items| - 1], docs, m, target) + HitsIn(docs, m, last.0, last.1, target)
  }

  lemma {:induction false} CollectedMembers(items: seq<(string, real)>, docs: seq<string>, m: map<string, seq<Chunk>>, target: Option<string>, h: Hit)
    ensures h in Collected(items, docs, m, target) <==>
      exists i :: 0 <= i < |items| && h in HitsIn(docs, m, items[i].0, items[i].1, target)
  {
    if items != [] {
      var init := items[..|items| - 1];
      CollectedMembers(init, docs, m, target, h);
      assert forall i :: 0 <= i < |init| ==> init[i] == items[i];
    }
  }

  /** Looking up ids ranked by score keeps the hits ranked by score. */
  lemma {:induction false} CollectedSorted(items: seq<(string, real)>, docs: seq<string>, m: map<string, seq<Chunk>>, target: Option<string>)
    requires SortedDesc(items, Score)
    ensures SortedDesc(Collected(items, docs, m, target), HitScore)
  {
    if items != [] {
      var init, last := items[..|items| - 1], items[|items| - 1];
      SortedPrefix(items, |init|, Score);
      CollectedSorted(init, docs, m, target);
      forall h | h in Collected(init, docs, m, target) ensures h.score >= last.1 {
        CollectedMembers(init, docs, m, target, h);
        var i :| 0 <= i < |init| && h in HitsIn(docs, m, init[i].0, init[i].1, target);
        HitsInMembers(docs, m, init[i].0, init[i].1, target, h);
        assert Score(items[i]) >= Score(items[|items| - 1]);
      }
      forall h | h in HitsIn(docs, m, last.0, last.1, target) ensures h.score == last.1 {
        HitsInMembers(docs, m, last.0, last.1, target, h);
      }
      SortedJoin(Collected(init, docs, m, target), HitsIn(docs, m, last.0, last.1, target), last.1);
    }
  }

  /** `x` in a prefix of `s` is in `s`. */
  lemma {:induction false} InPrefix<T>(s: seq<T>, n: nat, x: T)
    requires n <= |s| && x in s[..n]
    ensures x in s
  {
    var i :| 0 <= i < n && s[..n][i] == x;
    assert s[i] == x;
  }

  /** `relevant_chunks[:top_k]`: nothing without query entities; otherwise
      the hits of the `top_k` best scored ids, cut to `top_k`. */
  function Retrieved(docs: Dict<string, seq<Chunk>>, index: map<string, seq<string>>, entities: seq<string>,
                     topK: int, target: Option<string>): seq<Hit>
  {
    if entities == [] then []
    else GraphBuild.Slice(Collected(Ranked(ScoreDict(index, entities), topK), docs.keys, docs.m, target), topK)
  }

  /** Every hit of the best scored ids is the first chunk with its id of a
      searched document, scored with the id's tally of at least one. */
  lemma {:induction false} CollectedHit(docs: Dict<string, seq<Chunk>>, index: map<string, seq<string>>, entities: seq<string>,
                     topK: int, target: Option<string>, h: Hit)
    requires h in Collected(Ranked(ScoreDict(index, entities), topK), docs.keys, docs.m, target)
    ensures h.docId in docs.keys && h.docId in docs.m && Allowed(target, h.docId)
    ensures FirstId(docs.m[h.docId], h.chunk.chunkId) == Some(h.chunk)
    ensures h.score == Tally(index, entities, h.chunk.chunkId) as real && h.score >= 1.0
  {
    var scores := ScoreDict(index, entities);
    var top := Ranked(scores, topK);
    CollectedMembers(top, docs.keys, docs.m, target, h);
    var i :| 0 <= i < |top| && h in HitsIn(docs.keys, docs.m, top[i].0, top[i].1, target);
    HitsInMembers(docs.keys, docs.m, top[i].0, top[i].1, target, h);
    RankedScore(index, entities, topK, top[i]);
  }

  /** A ranked id carries its tally, which is at least one. */
  lemma {:induction false} RankedScore(index: map<string, seq<string>>, entities: seq<string>, topK: int, p: (string, real))
    requires p in Ranked(ScoreDict(index, entities), topK)
    ensures p.1 == Tally(index, entities, p.0) as real && p.1 >= 1.0
  {
    var scores := ScoreDict(index, entities);
    assert p in SortDesc(Items(scores), Score);
    assert p in multiset(Items(scores));
    ScoreDictTallies(index, entities);
  }

  /** The retrieved chunks: none without query entities, at most `top_k`,
      highest score first, each the first chunk with its id of a searched
      document, scored with the id's tally of at least one. */
  lemma {:induction false} RetrievedFacts(docs: Dict<string, seq<Chunk>>, index: map<string, seq<string>>, entities: seq<string>,
                       topK: int, target: Option<string>)
    ensures entities == [] ==> Retrieved(docs, index, entities, topK, target) == []
    ensures topK >= 0 ==> |Retrieved(docs, index, entities, topK, target)| <= topK
    ensures SortedDesc(Retrieved(docs, index, entities, topK, target), HitScore)
    ensures forall h :: h in Retrieved(docs, index, entities, topK, target) ==>
      && h.docId in docs.keys && h.docId in docs.m && Allowed(target, h.docId)
      && FirstId(docs.m[h.docId], h.chunk.chunkId) == Some(h.chunk)
      && h.score == Tally(index, entities, h.chunk.chunkId) as real && h.score >= 1.0
  {
    if entities != [] {
      var scores := ScoreDict(index, entities);
      var top := Ranked(scores, topK);
      var all := Collected(top, docs.keys, docs.m, target);
      var r := Retrieved(docs, index, entities, topK, target);
      SortedPrefix(SortDesc(Items(scores), Score), |top|, Score);
      CollectedSorted(top, docs.keys, docs.m, target);
      SortedPrefix(all, |r|, HitScore);
      forall h | h in r
        ensures h.docId in docs.keys && h.docId in docs.m && Allowed(target, h.docId)
          && FirstId(docs.m[h.docId], h.chunk.chunkId) == Some(h.chunk)
          && h.score == Tally(index, entities, h.chunk.chunkId) as real && h.score >= 1.0
      {
        assert h in all;
        CollectedHit(docs, index, entities, topK, target, h);
      }
    }
  }

  /** Before the final cut, every searched document holding a chunk with a
      ranked id gives its first such chunk, with the id's score. */
  lemma {:induction false} RetrievedComplete(docs: Dict<string, seq<Chunk>>, index: map<string, seq<string>>, entities: seq<string>,
                          topK: int, target: Option<string>, p: (string, real), d: string)
    requires docs.Valid() && p in Ranked(ScoreDict(index, entities), topK)
    requires d in docs.m && Allowed(target, d) && FirstId(docs.m[d], p.0).Some?
    ensures Hit(FirstId(docs.m[d], p.0).value, p.1, d)
      in Collected(Ranked(ScoreDict(index, entities), topK), docs.keys, docs.m, target)
  {
    var top := Ranked(ScoreDict(index, entities), topK);
    var h := Hit(FirstId(docs.m[d], p.0).value, p.1, d);
    var i :| 0 <= i < |top| && top[i] == p;
    HitsInMembers(docs.keys, docs.m, p.0, p.1, target, h);
    CollectedMembers(top, docs.keys, docs.m, target, h);
  }

  // ---------------------------------------------------------------------
  // Locating the chunks of an entity
  // ---------------------------------------------------------------------

  /** The chunks of document `d` with id `id`, in chunk order. */
  function Matching(chunks: seq<Chunk>, d: string, id: string): seq<Located> {
    if chunks == [] then []
    else
      var last := chunks[|chunks| - 1];
      Matching(chunks[..|chunks| - 1], d, id) + (if last.chunkId == id then [Located(last, d)] else [])
  }

  /** The chunks with id `id`, document by document. */
  function InDocs(docs: seq<string>, m: map<string, seq<Chunk>>, id: string): seq<Located> {
    if docs == [] then []
    else
      var d := docs[|docs| - 1];
      InDocs(docs[..|docs| - 1], m, id) + (if d in m then Matching(m[d], d, id) else [])
  }

  /** The chunks with the ids `ids`, id by id (an id listed twice gives its
      chunks twice), then document by document. */
  function Locations(ids: seq<string>, docs: seq<string>, m: map<string, seq<Chunk>>): seq<Located> {
    if ids == [] then []
    else Locations(ids[..|ids| - 1], docs, m) + InDocs(docs, m, ids[|ids| - 1])
  }

  lemma {:induction false} MatchingMembers(chunks: seq<Chunk>, d: string, id: string, l: Located)
    ensures l in Matching(chunks, d, id) <==> l.docId == d && l.chunk in chunks && l.chunk.chunkId == id
  {
    if chunks != [] {
      var init, last := chunks[..|chunks| - 1], chunks[|chunks| - 1];
      MatchingMembers(init, d, id, l);
      assert chunks == init + [last];
    }
  }

  lemma {:induction false} InDocsMembers(docs: seq<string>, m: map<string, seq<Chunk>>, id: string, l: Located)
    ensures l in InDocs(docs, m, id) <==>
      l.docId in docs && l.docId in m && l.chunk in m[l.docId] && l.chunk.chunkId == id
  {
    if docs != [] {
      var init, d := docs[..|docs| - 1], docs[|docs| - 1];
      InDocsMembers(init, m, id, l);
      if d in m {
        MatchingMembers(m[d], d, id, l);
      }
      assert docs == init + [d];
    }
  }

  /** The located chunks are exactly the stored chunks whose id is listed. */
  lemma {:induction false} LocationsMembers(ids: seq<string>, docs: seq<string>, m: map<string, seq<Chunk>>, l: Located)
    ensures l in Locations(ids, docs, m) <==>
      l.docId in docs && l.docId in m && l.chunk in m[l.docId] && l.chunk.chunkId in ids
  {
    if ids != [] {
      var init, id := ids[..|ids| - 1], ids[|ids| - 1];
      LocationsMembers(init, docs, m, l);
      InDocsMembers(docs, m, id, l);
      assert ids == init + [id];
    }
  }

  /** Listing an id once more appends its chunks once more. */
  lemma {:induction false} LocationsRepeat(ids: seq<string>, docs: seq<string>, m: map<string, seq<Chunk>>, id: string)
    requires id in ids
    ensures |Locations(ids + [id], docs, m)| == |Locations(ids, docs, m)| + |InDocs(docs, m, id)|
    ensures forall l :: l in InDocs(docs, m, id) ==> l in Locations(ids, docs, m)
  {
    assert (ids + [id])[..|ids|] == ids;
    forall l | l in InDocs(docs, m, id) ensures l in Locations(ids, docs, m) {
      InDocsMembers(docs, m, id, l);
      LocationsMembers(ids, docs, m, l);
    }
  }

  class RagService {
    var documentChunks: Dict<string, seq<Chunk>>
    var entityToChunks: map<string, seq<string>>
    var graph: Option<Graph>
    var entityMetadata: map<string, map<string, string>>

    ghost predicate Valid()
      reads this
    {
      documentChunks.Valid() && (graph.Some? ==> Graphs.Valid(graph.value))
    }

    constructor()
      ensures Valid()
      ensures documentChunks == Empty() && entityToChunks == map[] && graph == None && entityMetadata == map[]
    {
      documentChunks := Empty();
      entityToChunks := map[];
      graph := None;
      entityMetadata := map[];
    }

    /** `index_document`: the document's chunk list replaces any earlier one
        under the same id, and every chunk id is appended under each entity
        of the chunk, after the ids already there. */
    method IndexDocument(docId: string, chunks: seq<Chunk>)
      requires Valid()
      modifies this
      ensures Valid()
      ensures documentChunks == old(documentChunks).Put(docId, chunks)
      ensures graph == old(graph) && entityMetadata == old(entityMetadata)
      ensures forall e :: Postings(entityToChunks, e) == Postings(old(entityToChunks), e) + Added(chunks, e)
      ensures forall e :: e in entityToChunks <==> e in old(entityToChunks) || exists c :: c in chunks && e in c.entities
    {
      var index := entityToChunks;
      var i := 0;
      while i < |chunks|
        invariant 0 <= i <= |chunks|
        invariant unchanged(this)
        invariant index == Indexed(entityToChunks, chunks[..i])
      {
        assert chunks[..i + 1][..i] == chunks[..i];
        index := LinkChunk(index, chunks[i].chunkId, chunks[i].entities);
        i := i + 1;
      }
      assert chunks[..i] == chunks;
      forall e ensures Postings(index, e) == Postings(entityToChunks, e) + Added(chunks, e)
        && (e in index <==> e in entityToChunks || exists c :: c in chunks && e in c.entities)
      {
        IndexedPostings(entityToChunks, chunks, e);
        IndexedKeys(entityToChunks, chunks, e);
      }
      documentChunks := documentChunks.Put(docId, chunks);
      entityToChunks := index;
    }

    /** `set_graph_context` */
    method SetGraphContext(g: Graph, metadata: map<string, map<string, string>>)
      requires Valid() && Graphs.Valid(g)
      modifies this
      ensures Valid()
      ensures graph == Some(g) && entityMetadata == metadata
      ensures documentChunks == old(documentChunks) && entityToChunks == old(entityToChunks)
    {
      graph := Some(g);
      entityMetadata := metadata;
    }

    /** Adds one to the score of every id in `ids`, a new id entering the
        scores after the ones already there. */
    method AddScores(scores: Dict<string, real>, ids: seq<string>) returns (scores': Dict<string, real>)
      requires scores.Valid()
      ensures scores' == BumpAll(scores, ids)
    {
      scores' := scores;
      for j := 0 to |ids|
        invariant scores' == BumpAll(scores, ids[..j])
      {
        PrefixStep(ids, j);
        scores' := Bump(scores', ids[j]);
      }
      PrefixAll(ids);
    }

    /** The graph step for one query entity: its first five neighbours join
        the related entities, and the edges to its first three become
        relationship records. */
    method Expand(entity: string, related: set<string>, rels: seq<Relation>)
      returns (related': set<string>, rels': seq<Relation>)
      ensures related' == related + NearSet(graph, entity)
      ensures rels' == rels + Expansion(graph, entity)
    {
      var firsts := Take(Near(graph, entity), 3);
      var added: seq<Relation> := [];
      for j := 0 to |firsts|
        invariant added == Records(graph, entity, firsts[..j])
      {
        PrefixStep(firsts, j);
        added := added + [RecordOf(graph, entity, firsts[j])];
      }
      PrefixAll(firsts);
      related' := related + (set x | x in Take(Near(graph, entity), 5));
      rels' := rels + added;
    }

    /** The first chunk of `chunks` with id `id`. */
    method FirstWithId(chunks: seq<Chunk>, id: string) returns (found: Option<Chunk>)
      ensures found == FirstId(chunks, id)
    {
      var j := 0;
      while j < |chunks|
        invariant 0 <= j <= |chunks|
        invariant forall k :: 0 <= k < j ==> chunks[k].chunkId != id
      {
        if chunks[j].chunkId == id {
          FirstIdAt(chunks, id, j);
          return Some(chunks[j]);
        }
        j := j + 1;
      }
      return None;
    }

    /** For each ranked `(id, score)`, the first chunk with that id in every
        document (only the target document, when one is given). */
    method CollectHits(items: seq<(string, real)>, target: Option<string>) returns (hits: seq<Hit>)
      requires Valid()
      ensures hits == Collected(items, documentChunks.keys, documentChunks.m, target)
    {
      hits := [];
      for i := 0 to |items|
        invariant hits == Collected(items[..i], documentChunks.keys, documentChunks.m, target)
      {
        var more := HitsFor(items[i].0, items[i].1, target);
        PrefixStep(items, i);
        hits := hits + more;
      }
      PrefixAll(items);
    }

    /** The hits of one ranked id, document by document. */
    method HitsFor(id: string, score: real, target: Option<string>) returns (more: seq<Hit>)
      requires Valid()
      ensures more == HitsIn(documentChunks.keys, documentChunks.m, id, score, target)
    {
      more := [];
      var docs := documentChunks.keys;
      for j := 0 to |docs|
        invariant more == HitsIn(docs[..j], documentChunks.m, id, score, target)
      {
        var d := docs[j];
        var one: seq<Hit> := [];
        if Allowed(target, d) {
          var found := FirstWithId(documentChunks.m[d], id);
          if found.Some? {
            one := [Hit(found.value, score, d)];
          }
        }
        PrefixStep(docs, j);
        assert one == HitIn(documentChunks.m, d, id, score, target);
        more := more + one;
      }
      PrefixAll(docs);
    }

    /** The entity-scored part of `retrieve_context_for_query`: the chunks
        of the best scored ids, the query entities with the first five
        neighbours of those in the graph, the edges to the first three
        neighbours, query entity by query entity, and the stored chunk
        count. */
    method RetrieveContextForQuery(entities: seq<string>, topK: int, targetDocId: Option<string>) returns (r: Retrieval)
      requires Valid()
      ensures r == Retrieval(Retrieved(documentChunks, entityToChunks, entities, topK, targetDocId),
                             RelatedSet(graph, entities), Relations(graph, entities),
                             ChunkTotal(documentChunks.keys, documentChunks.m))
    {
      var related := set e | e in entities;
      var rels: seq<Relation> := [];
      var hits: seq<Hit> := [];
      if entities != [] {
        var scores;
        scores, related, rels := ScoreEntities(entities);
        hits := Rank(scores, topK, targetDocId);
      }
      var chunks := GraphBuild.Slice(hits, topK);
      r := Retrieval(chunks, related, rels, ChunkTotal(documentChunks.keys, documentChunks.m));
    }

    /** The loop over the query entities: the scores of the chunk ids on
        their posting lists, the related entities and the relationships. */
    method ScoreEntities(entities: seq<string>) returns (scores: Dict<string, real>, related: set<string>, rels: seq<Relation>)
      ensures scores == ScoreDict(entityToChunks, entities)
      ensures related == RelatedSet(graph, entities)
      ensures rels == Relations(graph, entities)
    {
      scores := Empty();
      var all := set e | e in entities;
      related := all;
      rels := [];
      for i := 0 to |entities|
        invariant scores == ScoreDict(entityToChunks, entities[..i])
        invariant related == all + NearUnion(graph, entities[..i])
        invariant rels == Relations(graph, entities[..i])
      {
        PrefixStep(entities, i);
        scores, related, rels := ScoreEntity(entities[i], scores, related, rels);
      }
      PrefixAll(entities);
    }

    /** The loop body for query entity `e`. */
    method ScoreEntity(e: string, scores: Dict<string, real>, related: set<string>, rels: seq<Relation>)
      returns (scores': Dict<string, real>, related': set<string>, rels': seq<Relation>)
      requires scores.Valid()
      ensures scores' == BumpAll(scores, Postings(entityToChunks, e))
      ensures related' == related + NearSet(graph, e)
      ensures rels' == rels + Expansion(graph, e)
    {
      scores' := AddScores(scores, Postings(entityToChunks, e));
      related', rels' := Expand(e, related, rels);
    }

    /** The ranked ids, highest score first, cut to `top_k`, looked up in
        the documents. */
    method Rank(scores: Dict<string, real>, topK: int, targetDocId: Option<string>) returns (hits: seq<Hit>)
      requires Valid() && scores.Valid()
      ensures hits == Collected(Ranked(scores, topK), documentChunks.keys, documentChunks.m, targetDocId)
    {
      var ranked := SortDesc(Items(scores), Score);
      var top := GraphBuild.Slice(ranked, topK);
      hits := CollectHits(top, targetDocId);
    }

    /** `get_entity_context`: every stored chunk whose id is on the entity's
        posting list, looked up in every document, and, when the entity is a
        graph node, all its neighbours with the data of the edges to them. */
    method GetEntityContext(entity: string) returns (c: EntityContext)
      requires Valid()
      ensures c == EntityContext(entity, Locations(Postings(entityToChunks, entity), documentChunks.keys, documentChunks.m),
                                 Near(graph, entity), Records(graph, entity, Near(graph, entity)),
                                 if entity in entityMetadata then entityMetadata[entity] else map[])
    {
      var located := LocateAll(Postings(entityToChunks, entity));
      var neighbors := Near(graph, entity);
      var rels: seq<Relation> := [];
      for j := 0 to |neighbors|
        invariant rels == Records(graph, entity, neighbors[..j])
      {
        PrefixStep(neighbors, j);
        rels := rels + [RecordOf(graph, entity, neighbors[j])];
      }
      PrefixAll(neighbors);
      var metadata := if entity in entityMetadata then entityMetadata[entity] else map[];
      c := EntityContext(entity, located, neighbors, rels, metadata);
    }

    /** Every chunk, in every document, whose id is one of `ids`, id by id. */
    method LocateAll(ids: seq<string>) returns (located: seq<Located>)
      requires Valid()
      ensures located == Locations(ids, documentChunks.keys, documentChunks.m)
    {
      located := [];
      for i := 0 to |ids|
        invariant located == Locations(ids[..i], documentChunks.keys, documentChunks.m)
      {
        var more := LocateId(ids[i]);
        PrefixStep(ids, i);
        located := located + more;
      }
      PrefixAll(ids);
    }

    /** Every chunk, in every document, with id `id`, document by document. */
    method LocateId(id: string) returns (more: seq<Located>)
      requires Valid()
      ensures more == InDocs(documentChunks.keys, documentChunks.m, id)
    {
      more := [];
      var docs := documentChunks.keys;
      for j := 0 to |docs|
        invariant more == InDocs(docs[..j], documentChunks.m, id)
      {
        var d := docs[j];
        var chunks := documentChunks.m[d];
        var found: seq<Located> := [];
        for t := 0 to |chunks|
          invariant found == Matching(chunks[..t], d, id)
        {
          PrefixStep(chunks, t);
          var one := if chunks[t].chunkId == id then [Located(chunks[t], d)] else [];
          found := found + one;
        }
        PrefixAll(chunks);
        PrefixStep(docs, j);
        more := more + found;
      }
      PrefixAll(docs);
    }
  }

  /** A prefix of a sorted list is sorted. */
  lemma SortedPrefix<T>(s: seq<T>, n: nat, key: T -> real)
    requires n <= |s| && SortedDesc(s, key)
    ensures SortedDesc(s[..n], key)
  {
    forall i, j | 0 <= i < j < n ensures key(s[..n][i]) >= key(s[..n][j]) {
      assert s[..n][i] == s[i] && s[..n][j] == s[j];
    }
  }

  /** Two sorted lists joined at a score that separates them stay sorted. */
  lemma SortedJoin(a: seq<Hit>, b: seq<Hit>, x: real)
    requires SortedDesc(a, HitScore) && (forall h :: h in a ==> h.score >= x)
    requires forall h :: h in b ==> h.score == x
    ensures SortedDesc(a + b, HitScore)
  {
    forall i, j | 0 <= i < j < |a + b| ensures HitScore((a + b)[i]) >= HitScore((a + b)[j]) {
      if j < |a| {
        assert (a + b)[i] == a[i] && (a + b)[j] == a[j];
      } else if i < |a| {
        assert (a + b)[i] in a && (a + b)[j] in b;
      } else {
        assert (a + b)[i] in b && (a + b)[j] in b;
      }
    }
  }
}
