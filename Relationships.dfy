/** Relationship extraction (`RelationshipExtractor`): pairs of entities
    counted per sentence, relations found by the regular-expression patterns
    (whose matcher is an oracle here), and the merge of the two lists. */
module Relationships {
  import opened Strings
  import opened Dicts
  import Ner

  /** A relationship record. The weight is a real: co-occurrence counts are
      integers and pattern relations weigh 2.0. */
  datatype Relationship = Relationship(source: string, target: string, weight: real, evidence: seq<string>, relType: string)

  /** The unordered pair of names, as the sorted tuple the source uses as key. */
  type Key = (string, string)

  /** The value accumulated per pair while counting co-occurrences. */
  datatype Tally = Tally(weight: nat, evidence: seq<string>)

  /** One co-occurrence: the pair's key and the sentence it was seen in. */
  datatype Hit = Hit(key: Key, sentence: string)

  /** `min_relationship_strength` */
  const MinRelationshipStrength: nat := 1

  /** At most this many evidence sentences are kept per co-occurring pair. */
  const EvidencePerPair: nat := 3

  const CoOccurrence: string := "CO_OCCURRENCE"

  /** A key as the counting emits it: sorted, with names that differ even
      ignoring case. */
  predicate Canonical(k: Key) {
    !LexLt(k.1, k.0) && !EqualIgnoringCase(k.0, k.1)
  }

  // ---------------------------------------------------------------------
  // Co-occurrence
  // ---------------------------------------------------------------------

  /** The co-occurrences of `ents[i]` with `ents[i+1..j]`, in loop order;
      pairs whose names are equal ignoring case are skipped. */
  function RowHits(ents: seq<Ner.Entity>, sentence: string, i: nat, j: nat): seq<Hit>
    requires i < j <= |ents|
    decreases j
  {
    if j == i + 1 then []
    else
      var a := ents[i].text;
      var b := ents[j - 1].text;
      RowHits(ents, sentence, i, j - 1) + (if EqualIgnoringCase(a, b) then [] else [Hit(SortPair(a, b), sentence)])
  }

  /** The co-occurrences of the first `i` entities with the entities after them. */
  function RowsHits(ents: seq<Ner.Entity>, sentence: string, i: nat): seq<Hit>
    requires i <= |ents|
  {
    if i == 0 then [] else RowsHits(ents, sentence, i - 1) + RowHits(ents, sentence, i - 1, |ents|)
  }

  /** The co-occurrences one sentence record contributes; fewer than two
      entities contribute none. */
  function SentenceHits(s: Ner.SentenceEntities): seq<Hit>
  {
    if |s.entities| >= 2 then RowsHits(s.entities, s.sentence, |s.entities|) else []
  }

  /** Every co-occurrence, in the order the loops meet them. */
  function Hits(sents: seq<Ner.SentenceEntities>): seq<Hit>
  {
    if sents == [] then [] else Hits(sents[..|sents| - 1]) + SentenceHits(sents[|sents| - 1])
  }

  /** One count: the weight goes up by one and the sentence is kept while
      fewer than three are. A new key goes to the end of the key order. */
  function Bump(d: Dict<Key, Tally>, h: Hit): (r: Dict<Key, Tally>)
    requires d.Valid()
    ensures r.Valid()
  {
    var t := if h.key in d.m then d.m[h.key] else Tally(0, []);
    d.Put(h.key, Tally(t.weight + 1, if |t.evidence| < EvidencePerPair then t.evidence + [h.sentence] else t.evidence))
  }

  /** The table after counting `hits`, starting from `d`. */
  function TallyFrom(d: Dict<Key, Tally>, hits: seq<Hit>): (r: Dict<Key, Tally>)
    requires d.Valid()
    ensures r.Valid()
  {
    if hits == [] then d else Bump(TallyFrom(d, hits[..|hits| - 1]), hits[|hits| - 1])
  }

  function TallyOf(hits: seq<Hit>): (d: Dict<Key, Tally>)
    ensures d.Valid()
  {
    TallyFrom(Empty(), hits)
  }

  /** The records for the first keys, those meeting the minimum strength. */
  function Records(keys: seq<Key>, m: map<Key, Tally>): (rs: seq<Relationship>)
    requires forall k :: k in keys ==> k in m
    ensures |rs| <= |keys|
  {
    if keys == [] then []
    else
      var k := keys[|keys| - 1];
      Records(keys[..|keys| - 1], m) +
        (if m[k].weight >= MinRelationshipStrength
         then [Relationship(k.0, k.1, m[k].weight as real, m[k].evidence, CoOccurrence)] else [])
  }

  /** What `extract_cooccurrence_relationships` returns. */
  function Cooccurrence(sents: seq<Ner.SentenceEntities>): seq<Relationship>
  {
    var d := TallyOf(Hits(sents));
    Records(d.keys, d.m)
  }

  lemma HitsStep(sents: seq<Ner.SentenceEntities>, s: nat)
    requires s < |sents|
    ensures Hits(sents[..s + 1]) == Hits(sents[..s]) + SentenceHits(sents[s])
  {
    PrefixStep(sents, s);
  }

  lemma TallyStep(d: Dict<Key, Tally>, hits: seq<Hit>, h: Hit)
    requires d.Valid()
    ensures TallyFrom(d, hits + [h]) == Bump(TallyFrom(d, hits), h)
  {
    assert (hits + [h])[..|hits|] == hits;
  }

  /** Counting two runs of hits is counting the first, then the second. */
  lemma {:induction false} TallyFromConcat(d: Dict<Key, Tally>, a: seq<Hit>, b: seq<Hit>)
    requires d.Valid()
    ensures TallyFrom(d, a + b) == TallyFrom(TallyFrom(d, a), b)
  {
    ConcatSnoc(a, b);
    if b != [] {
      var pre := b[..|b| - 1];
      TallyFromConcat(d, a, pre);
      TallyStep(d, a + pre, b[|b| - 1]);
    }
  }

  /** The update written out the way the loop performs it. */
  lemma BumpIs(d: Dict<Key, Tally>, h: Hit, current: Tally, evidence: seq<string>)
    requires d.Valid()
    requires current == if h.key in d.m then d.m[h.key] else Tally(0, [])
    requires evidence == if |current.evidence| < EvidencePerPair then current.evidence + [h.sentence] else current.evidence
    ensures Bump(d, h) == d.Put(h.key, Tally(current.weight + 1, evidence))
  {
  }

  lemma RowStep(ents: seq<Ner.Entity>, sentence: string, i: nat, j: nat)
    requires i < j < |ents|
    ensures RowHits(ents, sentence, i, j + 1) ==
      RowHits(ents, sentence, i, j) +
        (if EqualIgnoringCase(ents[i].text, ents[j].text) then [] else [Hit(SortPair(ents[i].text, ents[j].text), sentence)])
  {
  }

  lemma RecordsStep(keys: seq<Key>, m: map<Key, Tally>, k: nat)
    requires forall x :: x in keys ==> x in m
    requires k < |keys|
    ensures Records(keys[..k + 1], m) ==
      Records(keys[..k], m) +
        (if m[keys[k]].weight >= MinRelationshipStrength
         then [Relationship(keys[k].0, keys[k].1, m[keys[k]].weight as real, m[keys[k]].evidence, CoOccurrence)] else [])
  {
    PrefixStep(keys, k);
  }

  /** Counting the row of `ents[i]` after the rows before it. */
  lemma CountPairsStep(table: Dict<Key, Tally>, before: Dict<Key, Tally>, ents: seq<Ner.Entity>, sentence: string, i: nat)
    requires table.Valid() && i < |ents|
    requires before == TallyFrom(table, RowsHits(ents, sentence, i))
    ensures TallyFrom(before, RowHits(ents, sentence, i, |ents|)) == TallyFrom(table, RowsHits(ents, sentence, i + 1))
  {
    TallyFromConcat(table, RowsHits(ents, sentence, i), RowHits(ents, sentence, i, |ents|));
  }

  /** The body of the pair loops for `entity1` and `entity2`. */
  method CountPair(relationships: Dict<Key, Tally>, entity1: string, entity2: string, sentence: string)
    returns (r: Dict<Key, Tally>)
    requires relationships.Valid()
    ensures r == if EqualIgnoringCase(entity1, entity2) then relationships
                 else Bump(relationships, Hit(SortPair(entity1, entity2), sentence))
  {
    r := relationships;
    // `entity1.lower() != entity2.lower()`, see EqualIgnoringCaseIsLower
    if !EqualIgnoringCase(entity1, entity2) {
      var edgeKey := SortPair(entity1, entity2);
      var current := if edgeKey in r.m then r.m[edgeKey] else Tally(0, []);
      var evidence := current.evidence;
      if |evidence| < EvidencePerPair {
        evidence := evidence + [sentence];
      }
      BumpIs(r, Hit(edgeKey, sentence), current, evidence);
      r := r.Put(edgeKey, Tally(current.weight + 1, evidence));
    }
  }

  /** One more pair of the inner loop: counted under its sorted key unless
      the names are equal ignoring case. */
  lemma CountRowStep(table: Dict<Key, Tally>, before: Dict<Key, Tally>, after: Dict<Key, Tally>,
                     ents: seq<Ner.Entity>, sentence: string, i: nat, j: nat)
    requires table.Valid() && i < j < |ents|
    requires before == TallyFrom(table, RowHits(ents, sentence, i, j))
    requires after == if EqualIgnoringCase(ents[i].text, ents[j].text) then before
                      else Bump(before, Hit(SortPair(ents[i].text, ents[j].text), sentence))
    ensures after == TallyFrom(table, RowHits(ents, sentence, i, j + 1))
  {
    RowStep(ents, sentence, i, j);
    var hits := RowHits(ents, sentence, i, j);
    if EqualIgnoringCase(ents[i].text, ents[j].text) {
      assert hits + [] == hits;
    } else {
      TallyStep(table, hits, Hit(SortPair(ents[i].text, ents[j].text), sentence));
    }
  }

  /** The inner pair loop: `ents[i]` against each later entity. */
  method CountRow(table: Dict<Key, Tally>, entities: seq<Ner.Entity>, sentence: string, i: nat)
    returns (relationships: Dict<Key, Tally>)
    requires table.Valid() && i < |entities|
    ensures relationships == TallyFrom(table, RowHits(entities, sentence, i, |entities|))
  {
    relationships := table;
    for j := i + 1 to |entities|
      invariant relationships == TallyFrom(table, RowHits(entities, sentence, i, j))
    {
      relationships := CountNext(table, relationships, entities, sentence, i, j);
    }
  }

  /** One pass of the inner loop: the pair `ents[i]`, `ents[j]`. */
  method CountNext(table: Dict<Key, Tally>, relationships: Dict<Key, Tally>, ents: seq<Ner.Entity>, sentence: string, i: nat, j: nat)
    returns (r: Dict<Key, Tally>)
    requires table.Valid() && i < j < |ents|
    requires relationships == TallyFrom(table, RowHits(ents, sentence, i, j))
    ensures r == TallyFrom(table, RowHits(ents, sentence, i, j + 1))
  {
    r := CountPair(relationships, ents[i].text, ents[j].text, sentence);
    CountRowStep(table, relationships, r, ents, sentence, i, j);
  }

  /** The pair loops of `extract_cooccurrence_relationships` for one
      sentence: each entity with every later one, counted under the sorted
      key unless the two names are equal ignoring case. */
  method CountPairs(table: Dict<Key, Tally>, entities: seq<Ner.Entity>, sentence: string)
    returns (relationships: Dict<Key, Tally>)
    requires table.Valid()
    ensures relationships == TallyFrom(table, RowsHits(entities, sentence, |entities|))
  {
    relationships := table;
    var i := 0;
    while i < |entities|
      invariant 0 <= i <= |entities|
      invariant relationships == TallyFrom(table, RowsHits(entities, sentence, i))
    {
      ghost var before := relationships;
      relationships := CountRow(relationships, entities, sentence, i);
      CountPairsStep(table, before, entities, sentence, i);
      i := i + 1;
    }
  }

  /** `extract_cooccurrence_relationships`: pairs are counted sentence by
      sentence, then one record is emitted per key meeting the minimum. */
  method ExtractCooccurrence(sents: seq<Ner.SentenceEntities>) returns (result: seq<Relationship>)
    ensures result == Cooccurrence(sents)
  {
    var relationships: Dict<Key, Tally> := Empty();
    var s := 0;
    while s < |sents|
      invariant 0 <= s <= |sents|
      invariant relationships == TallyOf(Hits(sents[..s]))
    {
      var entities := sents[s].entities;
      var sentence := sents[s].sentence;
      ghost var before := relationships;
      if |entities| >= 2 {
        relationships := CountPairs(relationships, entities, sentence);
      }
      HitsStep(sents, s);
      TallyFromConcat(Empty(), Hits(sents[..s]), SentenceHits(sents[s]));
      s := s + 1;
    }
    PrefixAll(sents);

    result := [];
    var k := 0;
    while k < |relationships.keys|
      invariant 0 <= k <= |relationships.keys|
      invariant result == Records(relationships.keys[..k], relationships.m)
    {
      var key := relationships.keys[k];
      var data := relationships.m[key];
      RecordsStep(relationships.keys, relationships.m, k);
      if data.weight >= MinRelationshipStrength {
        result := result + [Relationship(key.0, key.1, data.weight as real, data.evidence, CoOccurrence)];
      }
      k := k + 1;
    }
    PrefixAll(relationships.keys);
  }

  // ---------------------------------------------------------------------
  // What the co-occurrence count promises
  // ---------------------------------------------------------------------

  /** The keys of the hits, in order. */
  function HitKeys(hits: seq<Hit>): (ks: seq<Key>)
    ensures |ks| == |hits|
    ensures forall i :: 0 <= i < |hits| ==> ks[i] == hits[i].key
  {
    if hits == [] then [] else HitKeys(hits[..|hits| - 1]) + [hits[|hits| - 1].key]
  }

  /** The sentences of the hits on `k`, in the order they were met. */
  function SentencesFor(hits: seq<Hit>, k: Key): (ss: seq<string>)
    ensures |ss| <= |hits|
  {
    if hits == [] then []
    else SentencesFor(hits[..|hits| - 1], k) + (if hits[|hits| - 1].key == k then [hits[|hits| - 1].sentence] else [])
  }

  /** The key the loops emit for two names: their sorted pair, never a pair
      of names equal ignoring case. */
  lemma PairCanonical(a: string, b: string)
    requires !EqualIgnoringCase(a, b)
    ensures Canonical(SortPair(a, b))
  {
    SortPairCanonical(a, b);
    EqualIgnoringCaseSymmetric(a, b);
  }

  /** `h` is the hit of positions `i` and `l`: their names differ ignoring
      case and `h` carries their sorted pair. */
  predicate PairHit(ents: seq<Ner.Entity>, sentence: string, i: nat, l: nat, h: Hit)
    requires i < |ents| && l < |ents|
  {
    !EqualIgnoringCase(ents[i].text, ents[l].text) && h == Hit(SortPair(ents[i].text, ents[l].text), sentence)
  }

  /** A row's hits are the later entities whose names differ from `ents[i]`
      ignoring case, keyed by the sorted pair. */
  lemma {:induction false} RowHitsMembers(ents: seq<Ner.Entity>, sentence: string, i: nat, j: nat, h: Hit)
    requires i < j <= |ents|
    ensures h in RowHits(ents, sentence, i, j) <==> exists l :: i < l < j && PairHit(ents, sentence, i, l, h)
  {
    if j > i + 1 {
      RowHitsMembers(ents, sentence, i, j - 1, h);
      RowHitsLast(ents, sentence, i, j, h);
      if PairHit(ents, sentence, i, j - 1, h) {
        assert h in RowHits(ents, sentence, i, j);
      }
      forall l | i < l < j - 1 && PairHit(ents, sentence, i, l, h)
        ensures h in RowHits(ents, sentence, i, j)
      {
      }
    }
  }

  /** The last pair of a row adds its hit after the others. */
  lemma RowHitsLast(ents: seq<Ner.Entity>, sentence: string, i: nat, j: nat, h: Hit)
    requires i + 1 < j <= |ents|
    ensures h in RowHits(ents, sentence, i, j) <==>
      h in RowHits(ents, sentence, i, j - 1) || PairHit(ents, sentence, i, j - 1, h)
  {
  }

  /** Some pair of positions `i < j` with `i < n` has the hit `h`. */
  ghost predicate SomePairHit(ents: seq<Ner.Entity>, sentence: string, n: nat, h: Hit)
    requires n <= |ents|
  {
    exists i, j :: 0 <= i < n && i < j < |ents| && PairHit(ents, sentence, i, j, h)
  }

  /** Some entity after position `i` pairs with `ents[i]` into the hit `h`. */
  ghost predicate RowHit(ents: seq<Ner.Entity>, sentence: string, i: nat, h: Hit)
    requires i < |ents|
  {
    exists l :: i < l < |ents| && PairHit(ents, sentence, i, l, h)
  }

  /** The pairs below `k + 1` are those below `k` and those of row `k`. */
  lemma SomePairHitStep(ents: seq<Ner.Entity>, sentence: string, k: nat, h: Hit)
    requires k < |ents|
    ensures SomePairHit(ents, sentence, k + 1, h) <==>
      SomePairHit(ents, sentence, k, h) || RowHit(ents, sentence, k, h)
  {
    if SomePairHit(ents, sentence, k + 1, h) {
      var i, j :| 0 <= i < k + 1 && i < j < |ents| && PairHit(ents, sentence, i, j, h);
      if i == k {
        assert k < j < |ents| && PairHit(ents, sentence, k, j, h);
      } else {
        assert 0 <= i < k && i < j < |ents| && PairHit(ents, sentence, i, j, h);
      }
    }
    if RowHit(ents, sentence, k, h) {
      var l :| k < l < |ents| && PairHit(ents, sentence, k, l, h);
      assert 0 <= k < k + 1 && k < l < |ents| && PairHit(ents, sentence, k, l, h);
    }
    if SomePairHit(ents, sentence, k, h) {
      var i, j :| 0 <= i < k && i < j < |ents| && PairHit(ents, sentence, i, j, h);
      assert 0 <= i < k + 1 && i < j < |ents| && PairHit(ents, sentence, i, j, h);
    }
  }

  /** The hits of a sentence are exactly its pairs of positions `i < j`
      whose names differ ignoring case. */
  lemma {:induction false} RowsHitsMembers(ents: seq<Ner.Entity>, sentence: string, n: nat, h: Hit)
    requires n <= |ents|
    ensures h in RowsHits(ents, sentence, n) <==> SomePairHit(ents, sentence, n, h)
  {
    if n > 0 {
      RowsHitsMembers(ents, sentence, n - 1, h);
      RowHitsMembers(ents, sentence, n - 1, |ents|, h);
      RowsHitsLast(ents, sentence, n, h);
      SomePairHitStep(ents, sentence, n - 1, h);
    }
  }

  /** The row of `ents[n-1]` comes after the rows before it. */
  lemma RowsHitsLast(ents: seq<Ner.Entity>, sentence: string, n: nat, h: Hit)
    requires 0 < n <= |ents|
    ensures h in RowsHits(ents, sentence, n) <==>
      h in RowsHits(ents, sentence, n - 1) || h in RowHits(ents, sentence, n - 1, |ents|)
  {
  }

  /** A sentence record contributes one hit per pair of positions whose
      names differ ignoring case, and none when it has fewer than two
      entities. */
  lemma SentenceHitsMembers(s: Ner.SentenceEntities, h: Hit)
    ensures h in SentenceHits(s) <==>
      exists i, j :: 0 <= i < j < |s.entities| && PairHit(s.entities, s.sentence, i, j, h)
    ensures |s.entities| < 2 ==> SentenceHits(s) == []
  {
    RowsHitsMembers(s.entities, s.sentence, |s.entities|, h);
  }

  lemma {:induction false} HitsConcat(a: seq<Ner.SentenceEntities>, b: seq<Ner.SentenceEntities>)
    ensures Hits(a + b) == Hits(a) + Hits(b)
  {
    ConcatSnoc(a, b);
    if b != [] {
      HitsConcat(a, b[..|b| - 1]);
      ConcatAssoc(Hits(a), Hits(b[..|b| - 1]), SentenceHits(b[|b| - 1]));
    } else {
      ConcatAssoc(Hits(a), [], []);
    }
  }

  /** A sentence record with fewer than two entities changes nothing. */
  lemma LoneEntityIgnored(a: seq<Ner.SentenceEntities>, s: Ner.SentenceEntities, b: seq<Ner.SentenceEntities>)
    requires |s.entities| < 2
    ensures Cooccurrence(a + [s] + b) == Cooccurrence(a + b)
  {
    HitsConcat(a + [s], b);
    HitsConcat(a, [s]);
    HitsConcat(a, b);
    assert Hits([s]) == Hits([]) + SentenceHits(s);
    ConcatAssoc(Hits(a), [], []);
  }

  /** Every hit carries a canonical key. */
  lemma {:induction false} HitsCanonical(sents: seq<Ner.SentenceEntities>, h: Hit)
    requires h in Hits(sents)
    ensures Canonical(h.key)
  {
    var n := |sents| - 1;
    if h in Hits(sents[..n]) {
      HitsCanonical(sents[..n], h);
    } else {
      var s := sents[n];
      SentenceHitsMembers(s, h);
      var i, j :| 0 <= i < j < |s.entities| && !EqualIgnoringCase(s.entities[i].text, s.entities[j].text) &&
        h == Hit(SortPair(s.entities[i].text, s.entities[j].text), s.sentence);
      PairCanonical(s.entities[i].text, s.entities[j].text);
    }
  }

  lemma TallyOfStep(hits: seq<Hit>)
    requires hits != []
    ensures var pre := hits[..|hits| - 1];
      TallyOf(hits) == Bump(TallyOf(pre), hits[|hits| - 1]) &&
      HitKeys(hits) == HitKeys(pre) + [hits[|hits| - 1].key]
  {
    var pre := hits[..|hits| - 1];
    assert hits == pre + [hits[|hits| - 1]];
    TallyStep(Empty(), pre, hits[|hits| - 1]);
  }

  /** The table lists the distinct keys in order of first hit. */
  lemma {:induction false} TallyKeys(hits: seq<Hit>)
    ensures TallyOf(hits).keys == Dedup(HitKeys(hits))
  {
    if hits != [] {
      var pre := hits[..|hits| - 1];
      TallyKeys(pre);
      TallyOfStep(hits);
    }
  }

  /** Each key's weight is its number of hits. */
  lemma {:induction false} TallyCounts(hits: seq<Hit>, k: Key)
    ensures k in TallyOf(hits).m <==> k in HitKeys(hits)
    ensures k in TallyOf(hits).m ==> TallyOf(hits).m[k].weight == Count(HitKeys(hits), k)
  {
    if hits != [] {
      var pre := hits[..|hits| - 1];
      TallyCounts(pre, k);
      TallyOfStep(hits);
    }
  }

  lemma {:induction false} SentencesForAbsent(hits: seq<Hit>, k: Key)
    requires k !in HitKeys(hits)
    ensures SentencesFor(hits, k) == []
  {
    if hits != [] {
      var pre := hits[..|hits| - 1];
      TallyOfStep(hits);
      SentencesForAbsent(pre, k);
    }
  }

  lemma TakeSnoc<T>(s: seq<T>, x: T, n: nat)
    ensures Take(s + [x], n) == if |s| < n then s + [x] else Take(s, n)
  {
    if |s| >= n {
      assert (s + [x])[..n] == s[..n];
    }
  }

  /** Each key keeps the first three sentences it was hit in, in order; a
      sentence that holds the pair twice is kept twice. */
  lemma TallyEvidence(hits: seq<Hit>, k: Key)
    requires k in TallyOf(hits).m
    ensures TallyOf(hits).m[k].evidence == Take(SentencesFor(hits, k), EvidencePerPair)
  {
    EvidenceOf(hits, k);
  }

  /** The evidence `d` keeps for `k` is the first sentences of `ss`, and a
      key `d` has not counted has no sentences yet. */
  ghost predicate EvidenceIs(d: Dict<Key, Tally>, k: Key, ss: seq<string>) {
    (k in d.m ==> d.m[k].evidence == Take(ss, EvidencePerPair)) && (k !in d.m ==> ss == [])
  }

  lemma {:induction false} EvidenceOf(hits: seq<Hit>, k: Key)
    ensures EvidenceIs(TallyOf(hits), k, SentencesFor(hits, k))
  {
    if hits != [] {
      var pre := hits[..|hits| - 1];
      TallyOfStep(hits);
      EvidenceOf(pre, k);
      BumpEvidence(TallyOf(pre), hits[|hits| - 1], k, SentencesFor(pre, k));
    }
  }

  /** One hit adds its sentence to its key's evidence while fewer than
      three are kept. */
  lemma BumpEvidence(d: Dict<Key, Tally>, h: Hit, k: Key, ss: seq<string>)
    requires d.Valid() && EvidenceIs(d, k, ss)
    ensures EvidenceIs(Bump(d, h), k, ss + (if h.key == k then [h.sentence] else []))
  {
    if h.key == k {
      TakeSnoc(ss, h.sentence, EvidencePerPair);
    } else {
      assert ss + [] == ss;
    }
  }

  /** With every weight at least the minimum, one record per key, in key order. */
  lemma {:induction false} RecordsAll(keys: seq<Key>, m: map<Key, Tally>)
    requires forall k :: k in keys ==> k in m && m[k].weight >= MinRelationshipStrength
    ensures |Records(keys, m)| == |keys|
    ensures forall i :: 0 <= i < |keys| ==>
      Records(keys, m)[i] == Relationship(keys[i].0, keys[i].1, m[keys[i]].weight as real, m[keys[i]].evidence, CoOccurrence)
  {
    if keys != [] {
      RecordsAll(keys[..|keys| - 1], m);
    }
  }

  /** Every counted pair meets the minimum strength, so each key gives a record. */
  lemma CooccurrenceRecords(sents: seq<Ner.SentenceEntities>)
    ensures var d := TallyOf(Hits(sents));
      |Cooccurrence(sents)| == |d.keys| &&
      forall i :: 0 <= i < |d.keys| ==>
        Cooccurrence(sents)[i] == Relationship(d.keys[i].0, d.keys[i].1, d.m[d.keys[i]].weight as real, d.m[d.keys[i]].evidence, CoOccurrence)
  {
    var hits := Hits(sents);
    var d := TallyOf(hits);
    forall k | k in d.keys
      ensures k in d.m && d.m[k].weight >= MinRelationshipStrength
    {
      TallyCounts(hits, k);
    }
    RecordsAll(d.keys, d.m);
  }

  /** `extract_cooccurrence_relationships` emits one record per distinct
      pair, in order of first hit: sorted, with names that differ ignoring
      case, weighing the pair's number of hits (at least one), with the
      first three sentences of those hits as evidence. */
  lemma CooccurrenceFacts(sents: seq<Ner.SentenceEntities>, i: nat)
    requires i < |Cooccurrence(sents)|
    ensures var hits := Hits(sents);
      var keys := Dedup(HitKeys(hits));
      var r := Cooccurrence(sents)[i];
      |Cooccurrence(sents)| == |keys| &&
      (r.source, r.target) == keys[i] && Canonical(keys[i]) && !LexLt(r.target, r.source) &&
      r.weight == Count(HitKeys(hits), keys[i]) as real && r.weight >= 1.0 &&
      r.evidence == Take(SentencesFor(hits, keys[i]), EvidencePerPair) &&
      r.relType == CoOccurrence
  {
    var hits := Hits(sents);
    var d := TallyOf(hits);
    TallyKeys(hits);
    CooccurrenceRecords(sents);
    var k := d.keys[i];
    assert k in HitKeys(hits);
    TallyCounts(hits, k);
    TallyEvidence(hits, k);
    var idx := FirstIndex(HitKeys(hits), k);
    HitsCanonical(sents, hits[idx]);
  }

  // ---------------------------------------------------------------------
  // Pattern relations
  // ---------------------------------------------------------------------

  /** The regular expressions and the relation type each one yields. */
  const RelationPatterns: seq<(string, string)> := [
    ("(\\w+)\\s+(causes?|induces?|triggers?|leads to|results in)\\s+(\\w+)", "CAUSES"),
    ("(\\w+)\\s+(is caused by|is induced by|is triggered by)\\s+(\\w+)", "CAUSED_BY"),
    ("(\\w+)\\s+(inhibits?|blocks?|suppresses?|prevents?)\\s+(\\w+)", "INHIBITS"),
    ("(\\w+)\\s+(is inhibited by|is blocked by|is suppressed by)\\s+(\\w+)", "INHIBITED_BY"),
    ("(\\w+)\\s+(associates? with|interacts? with|binds? to)\\s+(\\w+)", "INTERACTS_WITH"),
    ("(\\w+)\\s+(treats?|ameliorates?|reduces?)\\s+(\\w+)", "TREATS"),
    ("(\\w+)\\s+(expresses?|activates?|upregulates?|downregulates?)\\s+(\\w+)", "REGULATES")
  ]

  /** One match of a pattern: its first group, and its third group when the
      match has one. */
  datatype Match = Match(source: string, target: Option<string>)

  /** The matcher: all matches of a pattern in a sentence, ignoring case,
      left to right (`re.finditer(pattern, sentence, re.IGNORECASE)`). */
  type Finder = (string, string) -> seq<Match>

  /** `{ent["text"]: ent for ent in entities}`, of which only the keys are used. */
  function Texts(ents: seq<Ner.Entity>): set<string> {
    set e | e in ents :: e.text
  }

  /** A match yields a relation when it has a non-empty target and one of
      its two terms is an entity of the sentence. */
  predicate Emits(m: Match, texts: set<string>) {
    m.target.Some? && m.target.value != [] && (m.source in texts || m.target.value in texts)
  }

  function PatternRelation(m: Match, sentence: string, relType: string): Relationship
    requires m.target.Some?
  {
    Relationship(m.source, m.target.value, 2.0, [sentence], relType)
  }

  /** The relations from the first `n` matches of one pattern. */
  function MatchRels(ms: seq<Match>, texts: set<string>, sentence: string, relType: string, n: nat): seq<Relationship>
    requires n <= |ms|
  {
    if n == 0 then []
    else
      var tail := if Emits(ms[n - 1], texts) then [PatternRelation(ms[n - 1], sentence, relType)] else [];
      MatchRels(ms, texts, sentence, relType, n - 1) + tail
  }

  /** The relations of the first `n` patterns in one sentence. */
  function SentencePatternRels(sentence: string, texts: set<string>, find: Finder, n: nat): seq<Relationship>
    requires n <= |RelationPatterns|
  {
    if n == 0 then []
    else
      var ms := find(RelationPatterns[n - 1].0, sentence);
      SentencePatternRels(sentence, texts, find, n - 1) + MatchRels(ms, texts, sentence, RelationPatterns[n - 1].1, |ms|)
  }

  function PatternRelsOf(s: Ner.SentenceEntities, find: Finder): seq<Relationship> {
    SentencePatternRels(s.sentence, Texts(s.entities), find, |RelationPatterns|)
  }

  /** What `extract_pattern_relationships` returns. */
  function PatternRels(sents: seq<Ner.SentenceEntities>, find: Finder): seq<Relationship> {
    if sents == [] then [] else PatternRels(sents[..|sents| - 1], find) + PatternRelsOf(sents[|sents| - 1], find)
  }

  lemma MatchRelsStep(ms: seq<Match>, texts: set<string>, sentence: string, relType: string, n: nat)
    requires n < |ms|
    ensures MatchRels(ms, texts, sentence, relType, n + 1) ==
      MatchRels(ms, texts, sentence, relType, n) + (if Emits(ms[n], texts) then [PatternRelation(ms[n], sentence, relType)] else [])
  {
  }

  lemma PatternRelsStep(sents: seq<Ner.SentenceEntities>, find: Finder, k: nat)
    requires k < |sents|
    ensures PatternRels(sents[..k + 1], find) == PatternRels(sents[..k], find) + PatternRelsOf(sents[k], find)
  {
    PrefixStep(sents, k);
  }

  /** `extract_pattern_relationships`: every sentence, every pattern, every match. */
  method ExtractPatterns(sents: seq<Ner.SentenceEntities>, find: Finder) returns (relationships: seq<Relationship>)
    ensures relationships == PatternRels(sents, find)
  {
    relationships := [];
    var k := 0;
    while k < |sents|
      invariant 0 <= k <= |sents|
      invariant relationships == PatternRels(sents[..k], find)
    {
      var sentence := sents[k].sentence;
      var entities := Texts(sents[k].entities);
      ghost var before := relationships;
      var p := 0;
      while p < |RelationPatterns|
        invariant 0 <= p <= |RelationPatterns|
        invariant relationships == before + SentencePatternRels(sentence, entities, find, p)
      {
        var (pattern, relType) := RelationPatterns[p];
        var matches := find(pattern, sentence);
        ghost var mid := relationships;
        var n := 0;
        while n < |matches|
          invariant 0 <= n <= |matches|
          invariant relationships == mid + MatchRels(matches, entities, sentence, relType, n)
        {
          var m := matches[n];
          MatchRelsStep(matches, entities, sentence, relType, n);
          if m.target.Some? && m.target.value != [] && (m.source in entities || m.target.value in entities) {
            ConcatAssoc(mid, MatchRels(matches, entities, sentence, relType, n), [PatternRelation(m, sentence, relType)]);
            relationships := relationships + [Relationship(m.source, m.target.value, 2.0, [sentence], relType)];
          } else {
            ConcatAssoc(mid, MatchRels(matches, entities, sentence, relType, n), []);
          }
          n := n + 1;
        }
        ConcatAssoc(before, SentencePatternRels(sentence, entities, find, p), MatchRels(matches, entities, sentence, relType, n));
        p := p + 1;
      }
      PatternRelsStep(sents, find, k);
      k := k + 1;
    }
    PrefixAll(sents);
  }

  /** The relations of one pattern are its emitting matches, in order. */
  lemma {:induction false} MatchRelsMembers(ms: seq<Match>, texts: set<string>, sentence: string, relType: string, n: nat, r: Relationship)
    requires n <= |ms|
    ensures r in MatchRels(ms, texts, sentence, relType, n) <==>
      exists l :: 0 <= l < n && Emits(ms[l], texts) && r == PatternRelation(ms[l], sentence, relType)
  {
    if n > 0 {
      MatchRelsMembers(ms, texts, sentence, relType, n - 1, r);
    }
  }

  /** The relations found in one sentence come from its emitting matches. */
  lemma {:induction false} SentencePatternMembers(sentence: string, texts: set<string>, find: Finder, n: nat, r: Relationship)
    requires n <= |RelationPatterns|
    ensures r in SentencePatternRels(sentence, texts, find, n) <==>
      exists p, m :: 0 <= p < n && m in find(RelationPatterns[p].0, sentence) && Emits(m, texts) &&
        r == PatternRelation(m, sentence, RelationPatterns[p].1)
  {
    if n > 0 {
      SentencePatternMembers(sentence, texts, find, n - 1, r);
      var ms := find(RelationPatterns[n - 1].0, sentence);
      MatchRelsMembers(ms, texts, sentence, RelationPatterns[n - 1].1, |ms|, r);
      if r in MatchRels(ms, texts, sentence, RelationPatterns[n - 1].1, |ms|) {
        var l :| 0 <= l < |ms| && Emits(ms[l], texts) && r == PatternRelation(ms[l], sentence, RelationPatterns[n - 1].1);
        assert ms[l] in find(RelationPatterns[n - 1].0, sentence);
      }
    }
  }

  /** Each pattern relation is a match, in some sentence, of some pattern,
      that has a non-empty target and one term among the sentence's
      entities: it weighs 2.0, has that sentence as its only evidence, and
      has the pattern's type. */
  lemma {:induction false} PatternRelsSound(sents: seq<Ner.SentenceEntities>, find: Finder, r: Relationship)
    requires r in PatternRels(sents, find)
    ensures exists k, p, m ::
              0 <= k < |sents| && 0 <= p < |RelationPatterns| &&
              m in find(RelationPatterns[p].0, sents[k].sentence) && Emits(m, Texts(sents[k].entities)) &&
              r == PatternRelation(m, sents[k].sentence, RelationPatterns[p].1)
  {
    var n := |sents| - 1;
    if r in PatternRels(sents[..n], find) {
      PatternRelsSound(sents[..n], find, r);
      var k, p, m :| 0 <= k < n && 0 <= p < |RelationPatterns| &&
        m in find(RelationPatterns[p].0, sents[..n][k].sentence) && Emits(m, Texts(sents[..n][k].entities)) &&
        r == PatternRelation(m, sents[..n][k].sentence, RelationPatterns[p].1);
      assert sents[..n][k] == sents[k];
    } else {
      SentencePatternMembers(sents[n].sentence, Texts(sents[n].entities), find, |RelationPatterns|, r);
    }
  }

  /** Every emitting match of every pattern in every sentence gives a relation. */
  lemma {:induction false} PatternRelsComplete(sents: seq<Ner.SentenceEntities>, find: Finder, k: nat, p: nat, m: Match)
    requires k < |sents| && p < |RelationPatterns|
    requires m in find(RelationPatterns[p].0, sents[k].sentence) && Emits(m, Texts(sents[k].entities))
    ensures PatternRelation(m, sents[k].sentence, RelationPatterns[p].1) in PatternRels(sents, find)
  {
    var n := |sents| - 1;
    var r := PatternRelation(m, sents[k].sentence, RelationPatterns[p].1);
    if k < n {
      assert sents[..n][k] == sents[k];
      PatternRelsComplete(sents[..n], find, k, p, m);
    } else {
      SentencePatternHit(sents[n], find, p, m);
    }
  }

  /** An emitting match of a pattern in a sentence gives one of its relations. */
  lemma SentencePatternHit(s: Ner.SentenceEntities, find: Finder, p: nat, m: Match)
    requires p < |RelationPatterns|
    requires m in find(RelationPatterns[p].0, s.sentence) && Emits(m, Texts(s.entities))
    ensures PatternRelation(m, s.sentence, RelationPatterns[p].1) in PatternRelsOf(s, find)
  {
    var r := PatternRelation(m, s.sentence, RelationPatterns[p].1);
    SentencePatternMembers(s.sentence, Texts(s.entities), find, |RelationPatterns|, r);
    assert 0 <= p < |RelationPatterns| && m in find(RelationPatterns[p].0, s.sentence) && Emits(m, Texts(s.entities)) &&
      r == PatternRelation(m, s.sentence, RelationPatterns[p].1);
  }

  // ---------------------------------------------------------------------
  // Merge
  // ---------------------------------------------------------------------

  /** `tuple(sorted([rel["source"], rel["target"]]))` */
  function KeyOf(r: Relationship): Key {
    SortPair(r.source, r.target)
  }

  function KeysOf(rels: seq<Relationship>): (ks: seq<Key>)
    ensures |ks| == |rels|
    ensures forall i :: 0 <= i < |rels| ==> ks[i] == KeyOf(rels[i])
  {
    if rels == [] then [] else KeysOf(rels[..|rels| - 1]) + [KeyOf(rels[|rels| - 1])]
  }

  /** A pattern relation folded into the stored record of its key: weights
      add up, evidence is appended and the pattern's type replaces the old one. */
  function Absorb(stored: Relationship, r: Relationship): Relationship {
    Relationship(stored.source, stored.target, stored.weight + r.weight, stored.evidence + r.evidence, r.relType)
  }

  /** The first loop: the first co-occurrence record of each key is stored. */
  function AddCooc(d: Dict<Key, Relationship>, rels: seq<Relationship>): (r: Dict<Key, Relationship>)
    requires d.Valid()
    ensures r.Valid()
  {
    if rels == [] then d
    else
      var prev := AddCooc(d, rels[..|rels| - 1]);
      var rel := rels[|rels| - 1];
      if KeyOf(rel) in prev.m then prev else prev.Put(KeyOf(rel), rel)
  }

  /** The second loop: a pattern relation is absorbed into its key's record,
      or stored when the key is new. */
  function AddPattern(d: Dict<Key, Relationship>, rels: seq<Relationship>): (r: Dict<Key, Relationship>)
    requires d.Valid()
    ensures r.Valid()
  {
    if rels == [] then d
    else
      var prev := AddPattern(d, rels[..|rels| - 1]);
      var rel := rels[|rels| - 1];
      var k := KeyOf(rel);
      prev.Put(k, if k in prev.m then Absorb(prev.m[k], rel) else rel)
  }

  /** The record emitted for a key: the key's two names, unique evidence
      capped at three, and the stored weight and type. */
  function Emitted(k: Key, stored: Relationship): Relationship {
    Relationship(k.0, k.1, stored.weight, Take(Dedup(stored.evidence), EvidencePerPair), stored.relType)
  }

  /** The last loop, over the first keys. */
  function Finish(keys: seq<Key>, m: map<Key, Relationship>): (rs: seq<Relationship>)
    requires forall k :: k in keys ==> k in m
    ensures |rs| == |keys|
    ensures forall i :: 0 <= i < |keys| ==> rs[i] == Emitted(keys[i], m[keys[i]])
  {
    if keys == [] then [] else Finish(keys[..|keys| - 1], m) + [Emitted(keys[|keys| - 1], m[keys[|keys| - 1]])]
  }

  function Merged(cooc: seq<Relationship>, pats: seq<Relationship>): (d: Dict<Key, Relationship>)
    ensures d.Valid()
  {
    AddPattern(AddCooc(Empty(), cooc), pats)
  }

  /** What `merge_relationships` returns. */
  function Merge(cooc: seq<Relationship>, pats: seq<Relationship>): seq<Relationship> {
    var d := Merged(cooc, pats);
    Finish(d.keys, d.m)
  }

  lemma AddCoocStep(d: Dict<Key, Relationship>, rels: seq<Relationship>, i: nat)
    requires d.Valid() && i < |rels|
    ensures var prev := AddCooc(d, rels[..i]);
      AddCooc(d, rels[..i + 1]) == if KeyOf(rels[i]) in prev.m then prev else prev.Put(KeyOf(rels[i]), rels[i])
  {
    PrefixStep(rels, i);
  }

  lemma AddPatternStep(d: Dict<Key, Relationship>, rels: seq<Relationship>, i: nat)
    requires d.Valid() && i < |rels|
    ensures var prev := AddPattern(d, rels[..i]);
      var k := KeyOf(rels[i]);
      AddPattern(d, rels[..i + 1]) == prev.Put(k, if k in prev.m then Absorb(prev.m[k], rels[i]) else rels[i])
  {
    PrefixStep(rels, i);
  }

  lemma FinishStep(keys: seq<Key>, m: map<Key, Relationship>, i: nat)
    requires forall k :: k in keys ==> k in m
    requires i < |keys|
    ensures Finish(keys[..i + 1], m) == Finish(keys[..i], m) + [Emitted(keys[i], m[keys[i]])]
  {
    PrefixStep(keys, i);
  }

  /** The first loop of `merge_relationships`. */
  method StoreCooccurrences(cooc: seq<Relationship>) returns (merged: Dict<Key, Relationship>)
    ensures merged == AddCooc(Empty(), cooc)
  {
    merged := Empty();
    var i := 0;
    while i < |cooc|
      invariant 0 <= i <= |cooc|
      invariant merged == AddCooc(Empty(), cooc[..i])
    {
      var rel := cooc[i];
      var edgeKey := KeyOf(rel);
      AddCoocStep(Empty(), cooc, i);
      if edgeKey !in merged.m {
        merged := merged.Put(edgeKey, rel);
      }
      i := i + 1;
    }
    PrefixAll(cooc);
  }

  /** The second loop of `merge_relationships`. */
  method AbsorbPatterns(start: Dict<Key, Relationship>, pats: seq<Relationship>) returns (merged: Dict<Key, Relationship>)
    requires start.Valid()
    ensures merged == AddPattern(start, pats)
  {
    merged := start;
    var i := 0;
    while i < |pats|
      invariant 0 <= i <= |pats|
      invariant merged == AddPattern(start, pats[..i])
    {
      var rel := pats[i];
      var edgeKey := KeyOf(rel);
      AddPatternStep(start, pats, i);
      if edgeKey in merged.m {
        // weight `+=`, evidence `extend`, type overwritten
        merged := merged.Put(edgeKey, Absorb(merged.m[edgeKey], rel));
      } else {
        merged := merged.Put(edgeKey, rel);
      }
      i := i + 1;
    }
    PrefixAll(pats);
  }

  /** `merge_relationships`. The source stores and then updates the input
      dictionaries themselves; here the stored records are values. */
  method MergeRelationships(cooc: seq<Relationship>, pats: seq<Relationship>) returns (result: seq<Relationship>)
    ensures result == Merge(cooc, pats)
  {
    var merged := StoreCooccurrences(cooc);
    merged := AbsorbPatterns(merged, pats);
    result := [];
    var k := 0;
    while k < |merged.keys|
      invariant 0 <= k <= |merged.keys|
      invariant result == Finish(merged.keys[..k], merged.m)
    {
      var key := merged.keys[k];
      var data := merged.m[key];
      var uniqueEvidence := Take(Dedup(data.evidence), EvidencePerPair);
      FinishStep(merged.keys, merged.m, k);
      result := result + [Relationship(key.0, key.1, data.weight, uniqueEvidence, data.relType)];
      k := k + 1;
    }
    PrefixAll(merged.keys);
  }

  /** `extract_all_relationships` */
  method ExtractAll(sents: seq<Ner.SentenceEntities>, find: Finder) returns (result: seq<Relationship>)
    ensures result == Merge(Cooccurrence(sents), PatternRels(sents, find))
  {
    var cooccurrenceRels := ExtractCooccurrence(sents);
    var patternRels := ExtractPatterns(sents, find);
    result := MergeRelationships(cooccurrenceRels, patternRels);
  }

  // ---------------------------------------------------------------------
  // What the merge promises
  // ---------------------------------------------------------------------

  /** The relations on key `k`, in order. */
  function WithKey(rels: seq<Relationship>, k: Key): (rs: seq<Relationship>)
    ensures |rs| <= |rels|
  {
    if rels == [] then []
    else WithKey(rels[..|rels| - 1], k) + (if KeyOf(rels[|rels| - 1]) == k then [rels[|rels| - 1]] else [])
  }

  function SumWeights(rs: seq<Relationship>): real {
    if rs == [] then 0.0 else SumWeights(rs[..|rs| - 1]) + rs[|rs| - 1].weight
  }

  function AllEvidence(rs: seq<Relationship>): seq<string> {
    if rs == [] then [] else AllEvidence(rs[..|rs| - 1]) + rs[|rs| - 1].evidence
  }

  /** The relations that make up the merged record of `k`: the first
      co-occurrence record on `k`, then every pattern relation on `k`. */
  function Contributors(cooc: seq<Relationship>, pats: seq<Relationship>, k: Key): seq<Relationship> {
    Take(WithKey(cooc, k), 1) + WithKey(pats, k)
  }

  lemma {:induction false} AddCoocKeys(rels: seq<Relationship>)
    ensures AddCooc(Empty(), rels).keys == Dedup(KeysOf(rels))
  {
    if rels != [] {
      var pre := rels[..|rels| - 1];
      AddCoocKeys(pre);
      assert KeysOf(rels) == KeysOf(pre) + [KeyOf(rels[|rels| - 1])];
    }
  }

  lemma {:induction false} AddPatternKeys(d: Dict<Key, Relationship>, xs: seq<Key>, rels: seq<Relationship>)
    requires d.Valid() && d.keys == Dedup(xs)
    ensures AddPattern(d, rels).keys == Dedup(xs + KeysOf(rels))
  {
    if rels != [] {
      var pre := rels[..|rels| - 1];
      AddPatternKeys(d, xs, pre);
      assert KeysOf(rels) == KeysOf(pre) + [KeyOf(rels[|rels| - 1])];
      ConcatAssoc(xs, KeysOf(pre), [KeyOf(rels[|rels| - 1])]);
    } else {
      ConcatAssoc(xs, [], []);
    }
  }

  /** The merged keys are the distinct keys of both lists, in order of
      first appearance, co-occurrences first. */
  lemma MergeKeys(cooc: seq<Relationship>, pats: seq<Relationship>)
    ensures Merged(cooc, pats).keys == Dedup(KeysOf(cooc) + KeysOf(pats))
  {
    AddCoocKeys(cooc);
    AddPatternKeys(AddCooc(Empty(), cooc), KeysOf(cooc), pats);
  }

  /** The first loop stores, for each key, its first co-occurrence record. */
  lemma {:induction false} AddCoocValue(rels: seq<Relationship>, k: Key)
    ensures k in AddCooc(Empty(), rels).m <==> WithKey(rels, k) != []
    ensures k in AddCooc(Empty(), rels).m ==> AddCooc(Empty(), rels).m[k] == WithKey(rels, k)[0]
  {
    if rels != [] {
      AddCoocValue(rels[..|rels| - 1], k);
    }
  }

  /** The record left by storing `cs[0]` and absorbing the rest in order. */
  function Combine(cs: seq<Relationship>): Relationship
    requires cs != []
  {
    if |cs| == 1 then cs[0] else Absorb(Combine(cs[..|cs| - 1]), cs[|cs| - 1])
  }

  /** A combined record sums the weights, concatenates the evidence and
      takes the last type. */
  lemma {:induction false} CombineFacts(cs: seq<Relationship>)
    requires cs != []
    ensures Combine(cs).weight == SumWeights(cs)
    ensures Combine(cs).evidence == AllEvidence(cs)
    ensures Combine(cs).relType == cs[|cs| - 1].relType
  {
    var pre := cs[..|cs| - 1];
    if |cs| == 1 {
      assert pre == [];
      assert AllEvidence(cs) == [] + cs[0].evidence;
    } else {
      CombineFacts(pre);
    }
  }

  /** The second loop leaves on each key the combination of the stored
      record and the pattern relations on that key. */
  lemma {:induction false} AddPatternValue(d: Dict<Key, Relationship>, rels: seq<Relationship>, k: Key)
    requires d.Valid()
    ensures var cs := (if k in d.m then [d.m[k]] else []) + WithKey(rels, k);
      (k in AddPattern(d, rels).m <==> cs != []) &&
      (cs != [] ==> AddPattern(d, rels).m[k] == Combine(cs))
  {
    var prev := if k in d.m then [d.m[k]] else [];
    if rels == [] {
      ConcatAssoc(prev, [], []);
    } else {
      var pre := rels[..|rels| - 1];
      var rel := rels[|rels| - 1];
      AddPatternValue(d, pre, k);
      var cs0 := prev + WithKey(pre, k);
      if KeyOf(rel) == k {
        var cs := cs0 + [rel];
        ConcatAssoc(prev, WithKey(pre, k), [rel]);
        assert cs[..|cs| - 1] == cs0;
      } else {
        var before := AddPattern(d, pre);
        assert AddPattern(d, rels).m == before.m[KeyOf(rel) := if KeyOf(rel) in before.m then Absorb(before.m[KeyOf(rel)], rel) else rel];
        assert WithKey(rels, k) == WithKey(pre, k) + [];
        ConcatAssoc(prev, WithKey(pre, k), []);
        assert prev + WithKey(rels, k) == cs0;
        assert k in AddPattern(d, rels).m <==> k in before.m;
        if cs0 != [] {
          assert AddPattern(d, rels).m[k] == before.m[k];
          assert before.m[k] == Combine(cs0);
        }
      }
    }
  }

  lemma {:induction false} KeysOfSorted(rels: seq<Relationship>, k: Key)
    requires k in KeysOf(rels)
    ensures !LexLt(k.1, k.0)
  {
    var i :| 0 <= i < |rels| && KeysOf(rels)[i] == k;
    SortPairCanonical(rels[i].source, rels[i].target);
  }

  /** One emitted record per merged key, in key order. */
  lemma MergeRecords(cooc: seq<Relationship>, pats: seq<Relationship>)
    ensures var d := Merged(cooc, pats);
      |Merge(cooc, pats)| == |d.keys| &&
      forall i :: 0 <= i < |d.keys| ==> Merge(cooc, pats)[i] == Emitted(d.keys[i], d.m[d.keys[i]])
  {
  }

  /** The stored record of a merged key combines its contributors. */
  lemma MergedValue(cooc: seq<Relationship>, pats: seq<Relationship>, k: Key)
    requires k in Merged(cooc, pats).m
    ensures Contributors(cooc, pats, k) != []
    ensures Merged(cooc, pats).m[k] == Combine(Contributors(cooc, pats, k))
  {
    var d0 := AddCooc(Empty(), cooc);
    AddCoocValue(cooc, k);
    AddPatternValue(d0, pats, k);
    if k in d0.m {
      assert Take(WithKey(cooc, k), 1) == [d0.m[k]];
    } else {
      assert Take(WithKey(cooc, k), 1) == [];
    }
  }

  /** `merge_relationships` emits one record per distinct key of the two
      lists, named by the sorted key. Its weight is the sum of the weights
      of the first co-occurrence record and all pattern relations on that
      key, its type the last of theirs, and its evidence the distinct
      sentences of theirs, in order of first appearance, at most three. */
  lemma MergeFacts(cooc: seq<Relationship>, pats: seq<Relationship>, i: nat)
    requires i < |Dedup(KeysOf(cooc) + KeysOf(pats))|
    ensures var keys := Dedup(KeysOf(cooc) + KeysOf(pats));
      var cs := Contributors(cooc, pats, keys[i]);
      |Merge(cooc, pats)| == |keys| && cs != [] &&
      var r := Merge(cooc, pats)[i];
      (r.source, r.target) == keys[i] && !LexLt(r.target, r.source) &&
      r.weight == SumWeights(cs) &&
      r.evidence == Take(Dedup(AllEvidence(cs)), EvidencePerPair) &&
      r.relType == cs[|cs| - 1].relType
  {
    var keys := Dedup(KeysOf(cooc) + KeysOf(pats));
    MergeKeys(cooc, pats);
    MergeRecords(cooc, pats);
    var k := keys[i];
    MergedValue(cooc, pats, k);
    CombineFacts(Contributors(cooc, pats, k));
    if k in KeysOf(cooc) {
      KeysOfSorted(cooc, k);
    } else {
      KeysOfSorted(pats, k);
    }
  }

  /** Merged evidence has no repeated sentence, at most three, each one
      among the contributors' evidence. */
  lemma UniqueEvidence(xs: seq<string>)
    ensures var ev := Take(Dedup(xs), EvidencePerPair);
      Distinct(ev) && |ev| <= EvidencePerPair && forall i :: 0 <= i < |ev| ==> ev[i] in xs
  {
    var ev := Take(Dedup(xs), EvidencePerPair);
    assert forall i :: 0 <= i < |ev| ==> ev[i] == Dedup(xs)[i];
  }
}
