# Knowledge-graph backend of a biomedical literature assistant, in Dafny

The backend turns research PDFs into a knowledge graph of biomedical
entities and answers questions over that graph. This project models the
deterministic, sequential part of that backend and proves what it
promises. The parts it covers are:

- **Text extraction.** A PDF's text is split into sentences
  (`PDFProcessor`, module `PdfText`).
- **Entity recognition.** The entity tagger's spans are filtered,
  normalised, counted per sentence, thinned by frequency and collapsed into
  unique records (`NERService`, module `Ner`).
- **Relationship extraction.** Co-occurring pairs and pattern relations
  are found and merged (`RelationshipExtractor`, module `Relationships`).
- **Graph construction.** The knowledge graph is built from those entities
  and relationships, converted to the output schema, filtered and merged
  (`GraphBuilder`, module `GraphBuild`, over the graph value of `Graphs`).
- **Graph queries.** Neighbourhoods, paths, common neighbours and
  subgraphs (`GraphConversationalAgent`, module `GraphAgent`), and
  hypotheses read off the graph's shape (`HypothesisAgent`, module
  `Hypothesis`).
- **Retrieval.** Documents are chunked with overlap (`DocumentChunker`,
  module `Chunker`) and indexed for entity-scored retrieval (`RAGService`,
  module `Rag`).
- **Summaries.** Graph, node and document summaries and the key findings
  drawn from them (`ContentInsightAgent`, module `Insight`).
- **Search bookkeeping.**
  - Paper de-duplication and result caps (`AgenticAIService`, module
    `Papers`).
  - Title matching and result parsing for scholarly search
    (`GoogleScholarService`, module `Scholar`).
  - Clinical-trial search parameters and study flattening
    (`ClinicalTrialsService`, module `Trials`).
- **The HTTP layer's own logic** (`main.py`, module `Api`):
  - upload validation;
  - the processing-job table and the states a background run moves a job
    through;
  - the shape check of an imported project;
  - the conversion of clinical trials into a graph.

Python dictionaries are modelled as insertion-ordered key lists plus a map
(`Dicts`). String handling follows Python's behaviour on ASCII (`Strings`).

Objects whose methods update their fields are Dafny classes:
- `GraphBuild.GraphBuilder`
- `Chunker.DocumentChunker`
- `GraphAgent.GraphConversationalAgent`
- `Hypothesis.HypothesisAgent`
- `Rag.RagService`
- `Insight.ContentInsightAgent`
- `Api.JobStore` (the global `processing_jobs` table)

Loops in the source are methods with loop invariants. Each method is
proved against a specification function, and the properties the code
promises are proved as lemmas about those functions.

Some behaviour is not computed by the backend's own code:
- the entity tagger, regular-expression matching, networkx's community
  detection, betweenness centrality and `all_shortest_paths`;
- HTTP answers, PDF reading and language-model calls.

All of these are inputs of the model, given as parameters or sequences of
results.

## Model

| member | source | states |
|---|---|---|
| Ner.NormalizeIdempotent | backend/app/services/ner_service.py:237-241 | a normalised name has no surrounding whitespace and no whitespace run, and normalising it again changes nothing |
| Ner.LowerCollapseIsLowerOfCollapse | backend/app/services/ner_service.py:239-240 | the one-pass normaliser equals collapsing whitespace runs to one space and then lower-casing |
| Ner.CollapseSingleSpaced | backend/app/services/ner_service.py:239 | after `re.sub(r'\s+', ' ', …)` every whitespace character is a lone space, and a non-space first character is kept |
| Ner.AlphaRatio | backend/app/services/ner_service.py:113-115 | for a positive length, the alphabetic share is at least 0.4 exactly when `5 * alpha >= 2 * len`, so the integer test is the source's ratio test |
| Ner.LetterAndRatio | backend/app/services/ner_service.py:108-115 | an accepted text is non-empty, contains a letter and has an alphabetic share of at least 0.4 |
| Ner.ExtractEntities | backend/app/services/ner_service.py:128-155 | the entities returned are `Accepted(spans)`, the kept spans in order, with at most one entity per span |
| Ner.AcceptedFromSpans | backend/app/services/ner_service.py:134-152 | every entity comes from a span whose stripped text passes `_is_valid_biomedical_entity`; its text is that stripped text, its type is `entity_type_map[label]`, and its offsets are the span's |
| Ner.SpansToAccepted | backend/app/services/ner_service.py:134-152 | every span that passes the filter yields its entity |
| Ner.ExtractFromSentences | backend/app/services/ner_service.py:157-200 | the records are `Numbered(...)`: one per sentence with entities |
| Ner.NumberedRecords | backend/app/services/ner_service.py:168-186 | each record carries the index of its sentence, that sentence, and that sentence's non-empty entity list |
| Ner.NumberedIncreasing | backend/app/services/ner_service.py:168-186 | `sentence_id`s strictly increase along the output |
| Ner.NumberedComplete | backend/app/services/ner_service.py:168-186 | every sentence with entities gets a record |
| Ner.EntityCounts | backend/app/services/ner_service.py:202-215 | each name's count is the number of sentence records that mention it, once per sentence; only mentioned names are keys, and each count is between 1 and the number of records |
| Ner.AllNamesCount | backend/app/services/ner_service.py:206-213 | a name is mentioned somewhere exactly when its count is positive |
| Ner.FilterEntities | backend/app/services/ner_service.py:217-235 | the result is `Filtered(sents, minOcc)`, with the counts taken from the same records |
| Ner.FrequentMembers | backend/app/services/ner_service.py:223-226 | the entities kept in a record are exactly those whose normalised name has count ≥ `min_entity_occurrences` |
| Ner.FilterWithShape | backend/app/services/ner_service.py:222-233 | each output record is an input record with the same `sentence_id` and sentence, holding the non-empty list of its frequent entities in order |
| Ner.FilterKeepsCounts | backend/app/services/ner_service.py:217-235 | filtering keeps every mention of a frequent name, so a frequent name keeps its sentence count and a rare name drops to 0 |
| Ner.FilterIdempotent | backend/app/services/ner_service.py:217-235 | filtering twice gives the same records as filtering once |
| Ner.FilterAgain | backend/app/services/ner_service.py:222-233 | records whose entities all pass the threshold are kept unchanged |
| Ner.UniqueEntities | backend/app/services/ner_service.py:243-261 | the dictionary is `UniqueOf` of all mentions in order |
| Ner.UniqueOfSentencesMentions | backend/app/services/ner_service.py:247-249 | walking record by record and entity by entity is a fold over the flattened mentions |
| Ner.UniqueOfFacts | backend/app/services/ner_service.py:243-261 | keys are the distinct normalised names in order of first mention; each record counts every mention of its name and takes `original_name` and type from the first mention; the counts sum to the number of mentions |
| Ner.CollectKeys | backend/app/services/ner_service.py:253-258 | the keys are the distinct names in first-mention order |
| Ner.CollectCount | backend/app/services/ner_service.py:253-260 | a name is a key exactly when it is mentioned, and its count is the number of its mentions |
| Ner.CollectFirst | backend/app/services/ner_service.py:253-258 | a record keeps the text and type of the first mention of its name |
| Ner.CollectSum | backend/app/services/ner_service.py:260 | the counts add up to the number of mentions |
| Relationships.ExtractCooccurrence | backend/app/services/relationship_extractor.py:33-75 | the result is `Cooccurrence(sents)`: pairs are counted sentence by sentence, then one record per key meeting the minimum |
| Relationships.CountPairs | backend/app/services/relationship_extractor.py:45-61 | one sentence's pair loops leave the table as counting the hits of every position pair `i < j` would |
| Relationships.CountRow | backend/app/services/relationship_extractor.py:47-61 | the inner loop counts `ents[i]` against each later entity |
| Relationships.PairCanonical | backend/app/services/relationship_extractor.py:53-56 | the key of two names that differ ignoring case is sorted and canonical |
| Relationships.RowsHitsMembers | backend/app/services/relationship_extractor.py:46-56 | a sentence's hits are exactly its position pairs `i < j` whose names differ ignoring case, keyed by the sorted pair |
| Relationships.SentenceHitsMembers | backend/app/services/relationship_extractor.py:45-56 | a record contributes one hit per such position pair, and none when it has fewer than two entities |
| Relationships.LoneEntityIgnored | backend/app/services/relationship_extractor.py:45 | inserting a sentence record with fewer than two entities changes no output |
| Relationships.HitsCanonical | backend/app/services/relationship_extractor.py:53-56 | every counted key is sorted and its names differ ignoring case |
| Relationships.TallyKeys | backend/app/services/relationship_extractor.py:57-65 | the table lists the distinct keys in order of first hit |
| Relationships.TallyCounts | backend/app/services/relationship_extractor.py:57 | each key's weight is its number of hits |
| Relationships.TallyEvidence | backend/app/services/relationship_extractor.py:59-61 | each key keeps the first three sentences it was hit in, in order, with a sentence that holds the pair twice kept twice |
| Relationships.CooccurrenceRecords | backend/app/services/relationship_extractor.py:62-73 | every counted key meets the minimum strength 1, so each key gives a record in key order |
| Relationships.CooccurrenceFacts | backend/app/services/relationship_extractor.py:33-75 | one record per distinct pair, in order of first hit; `source <= target`, names differ ignoring case, weight = number of hits ≥ 1, evidence = first three sentences of those hits, type CO_OCCURRENCE |
| Relationships.ExtractPatterns | backend/app/services/relationship_extractor.py:77-106 | the result is `PatternRels(sents, find)`: every sentence, every pattern, every match, in order |
| Relationships.MatchRelsMembers | backend/app/services/relationship_extractor.py:92-104 | the relations of one pattern are its emitting matches, in order |
| Relationships.SentencePatternMembers | backend/app/services/relationship_extractor.py:89-104 | the relations of one sentence are the emitting matches of its patterns |
| Relationships.PatternRelsSound | backend/app/services/relationship_extractor.py:84-104 | each pattern relation is a match with a non-empty target and a term among its sentence's entities; it weighs 2.0, has that sentence as its only evidence and the pattern's type |
| Relationships.PatternRelsComplete | backend/app/services/relationship_extractor.py:84-104 | every emitting match of every pattern in every sentence gives a relation |
| Relationships.StoreCooccurrences | backend/app/services/relationship_extractor.py:116-120 | the first loop stores the first co-occurrence record of each key |
| Relationships.AbsorbPatterns | backend/app/services/relationship_extractor.py:122-131 | the second loop absorbs each pattern relation into its key's record, or stores it when the key is new |
| Relationships.MergeRelationships | backend/app/services/relationship_extractor.py:108-147 | the result is `Merge(cooc, pats)` |
| Relationships.MergeKeys | backend/app/services/relationship_extractor.py:114-131 | the merged keys are the distinct keys of both lists in order of first appearance, co-occurrences first |
| Relationships.AddCoocValue | backend/app/services/relationship_extractor.py:117-120 | a key is stored exactly when some co-occurrence record has it, and it holds the first such record |
| Relationships.CombineFacts | backend/app/services/relationship_extractor.py:125-129 | a combined record sums the weights, concatenates the evidence and takes the last type |
| Relationships.AddPatternValue | backend/app/services/relationship_extractor.py:123-131 | after the second loop each key holds the combination of its stored record and its pattern relations |
| Relationships.MergedValue | backend/app/services/relationship_extractor.py:114-131 | the stored record of a merged key combines its first co-occurrence record and all its pattern relations |
| Relationships.MergeRecords | backend/app/services/relationship_extractor.py:134-145 | one emitted record per merged key, in key order |
| Relationships.MergeFacts | backend/app/services/relationship_extractor.py:108-147 | one record per distinct key of the union, named by the sorted key; weight = sum over the contributors, type = the last contributor's, evidence = their distinct sentences in order, capped at 3 |
| Relationships.UniqueEvidence | backend/app/services/relationship_extractor.py:137 | merged evidence has no repeated sentence, at most three, each taken from the contributors' evidence |
| Relationships.ExtractAll | backend/app/services/relationship_extractor.py:149-157 | the result is the merge of the co-occurrence and the pattern relations of the same records |
| GraphBuild.BuiltFacts | backend/app/services/graph_builder.py:20-49 | the built graph's nodes are exactly the entities' original names; every edge links the two names of some relationship; every relationship whose two names are nodes has an edge |
| GraphBuild.EntityNodes | backend/app/services/graph_builder.py:24-30 | a name is a node iff some entity has it as its original name |
| GraphBuild.RelEdgesSound | backend/app/services/graph_builder.py:34-49 | no edge appears that does not join the names of a listed relationship |
| GraphBuild.RelEdgesComplete | backend/app/services/graph_builder.py:41-49 | a relationship is dropped only when one of its names is not a node |
| GraphBuild.NodesOfFacts | backend/app/services/graph_builder.py:65-83 | node conversion succeeds iff every type is an `EntityType`; then the nodes follow the graph's node order and each carries its entity type, count and degree (as value and as degree) |
| GraphBuild.NodesOfFails | backend/app/services/graph_builder.py:73-75 | once one node's type fails to convert, the whole conversion fails whatever follows |
| GraphBuild.DataFacts | backend/app/services/graph_builder.py:51-107 | `build_graph`'s output has one node per graph node and one edge per row of the edge view, totals equal to the list lengths, and each edge's title is its first evidence sentence or "<source> co-occurs with <target>" |
| GraphBuild.TypeCountsSum | backend/app/services/graph_builder.py:181-189 | the per-type counts add up to the number of nodes |
| GraphBuild.OfType | backend/app/services/graph_builder.py:181-189 | the number of listed nodes of a type is at most the number of nodes, and positive exactly when some listed node has that type |
| GraphBuild.TypeCountsOf | backend/app/services/graph_builder.py:181-189 | a type is a key of the counts exactly when some node has it, and then maps to the number of nodes of that type |
| GraphBuild.Slice | backend/app/services/graph_builder.py:177 | `s[:n]` is a prefix of `s`, of length `min(n, len(s))` for non-negative `n` |
| GraphBuild.FilterFacts | backend/app/services/graph_builder.py:197-221 | every node that survives filtering had at least `min_degree` edges, has the same attributes, has one of the requested types when types are given, and there are at most `top_n` of them when `top_n` is positive |
| GraphBuild.PrefilteredNodes | backend/app/services/graph_builder.py:199-213 | after the degree and type filters a node remains exactly when it had at least `min_degree` edges in the original graph and, when types are given, has one of them |
| GraphBuild.FilterKeepsPassing | backend/app/services/graph_builder.py:197-221 | without a `top_n` (None or 0) the filter keeps exactly the nodes that pass the degree and type filters |
| GraphBuild.ByDegreeAt | backend/app/services/graph_builder.py:217 | each entry of the degree ranking carries its node's degree |
| GraphBuild.ByDegreeHas | backend/app/services/graph_builder.py:216-217 | every node appears in the degree ranking |
| GraphBuild.ByDegreeRank | backend/app/services/graph_builder.py:217-218 | any node among the first `k` of the ranking has at least the degree of every node outside them |
| GraphBuild.FilterTopRanked | backend/app/services/graph_builder.py:214-220 | with a `top_n`, every node kept has at least the degree (counted after the first two filters) of every node that passed them but was dropped |
| GraphBuild.DistinctWithin | backend/app/services/graph_builder.py:216-221 | a repeat-free list drawn from another list is no longer than it (the bound behind `top_n`) |
| GraphBuild.MergeEntitiesFacts | backend/app/services/graph_builder.py:240-250 | merged entities keep the base keys first in their order; a key is present iff it is in either set; a shared key keeps the base name and type with the larger count; any other key keeps its single entry |
| GraphBuild.FoldFacts | backend/app/services/graph_builder.py:264-273 | aggregating records on one pair keeps the first record's names and type, sums all weights, takes evidence only from the inputs, and once two records meet holds at most five distinct sentences |
| GraphBuild.StoreBaseValue | backend/app/services/graph_builder.py:253-262 | after the base loop a pair is stored iff some base relationship has it, and it holds the last such relationship |
| GraphBuild.StoreBaseKeys | backend/app/services/graph_builder.py:253-262 | the stored pairs are the distinct base pairs in order of first appearance |
| GraphBuild.AddNewKeys | backend/app/services/graph_builder.py:264-281 | the new loop appends each unseen pair in order of first appearance |
| GraphBuild.AddNewValue | backend/app/services/graph_builder.py:264-281 | after the new loop each pair holds the aggregation of its stored record and every new relationship on it, and is present iff one of those exists |
| GraphBuild.MergedRelsFacts | backend/app/services/graph_builder.py:252-283 | `merge_graphs` passes one relationship per distinct pair, base pairs first; each has the names and type of the last base relationship on the pair (else the first new one), the summed weight, and evidence from those relationships only, distinct and at most five once two meet |
| GraphBuild.WithKeyAll | backend/app/services/graph_builder.py:265 | every relationship selected for a pair has that pair as its sorted key |
| GraphBuild.GraphBuilder.constructor | backend/app/services/graph_builder.py:11-12 | a new builder holds the empty graph |
| GraphBuild.GraphBuilder.BuildNodes | backend/app/services/graph_builder.py:65-83 | the loop's result is the node conversion of the graph in node order (properties in `NodesOfFacts`) |
| GraphBuild.GraphBuilder.BuildEdges | backend/app/services/graph_builder.py:85-107 | the loop's result is the conversion of every row of the edge view (properties in `DataFacts`) |
| GraphBuild.GraphBuilder.BuildGraph | backend/app/services/graph_builder.py:14-63 | the previous graph is discarded: the new graph depends only on the entities and relationships (`Built`, properties in `BuiltFacts`) and the result is its conversion |
| GraphBuild.GraphBuilder.CountEntityTypes | backend/app/services/graph_builder.py:181-189 | the loop computes the per-type counts: each type of some node is a key, mapped to the number of nodes of that type, no other key appears, and the counts add up to the number of nodes |
| GraphBuild.GraphBuilder.ComputeAnalytics | backend/app/services/graph_builder.py:109-145 | an empty graph gives zeros and empty collections; otherwise the totals, density, average degree (sum of degrees over node count), communities (singletons below two nodes or when Louvain raises), centrality and type counts, which add up to the node total |
| GraphBuild.GraphBuilder.FilterGraph | backend/app/services/graph_builder.py:191-233 | the result converts the filtered graph with metadata `filtered`; the original graph is restored when the conversion succeeds and the filtered copy stays in place when it raises |
| GraphBuild.GraphBuilder.MergeGraphs | backend/app/services/graph_builder.py:235-287 | the builder ends with the graph built from the merged entities and the merged relationships, and returns its conversion |
| Chunker.NextBoundary | backend/app/services/document_chunker.py:120 | the result is the first place at or after `i` where `(?<=[.!?])\s+(?=[A-Z])` matches (a `.`, `!` or `?` before it, then a whitespace run, taken whole, followed by a capital letter), with the end of that run; `None` exactly when the text has no such place from `i` on |
| Chunker.SplitRun | backend/app/services/document_chunker.py:120 | the whitespace run of a match lies inside the text, is all whitespace, and is followed by a capital letter |
| Chunker.SplitPiecesJoin | backend/app/services/document_chunker.py:120 | `re.split` loses nothing but the matched runs: putting the runs back between the pieces, in order, gives the text back |
| Chunker.GapsSpaces | backend/app/services/document_chunker.py:120 | every run the split removes is non-empty and all whitespace |
| Chunker.FirstPieceUnsplit | backend/app/services/document_chunker.py:120 | the text before the first match holds no match |
| Chunker.SplitPiecesUnsplit | backend/app/services/document_chunker.py:120 | no piece of the split holds a place where the pattern matches, so the pieces are exactly the segments between consecutive matches |
| Chunker.FirstPiece | backend/app/services/document_chunker.py:120 | the first piece of the split is a prefix of the text, non-empty when the text is |
| Chunker.SplitPiecesShape | backend/app/services/document_chunker.py:120 | every piece but the last ends in `.`, `!` or `?`, and every piece but the first starts with a capital letter |
| Chunker.StripNonBlankFacts | backend/app/services/document_chunker.py:121 | the kept sentences are non-empty and have no whitespace at either end |
| Chunker.OverlapFacts | backend/app/services/document_chunker.py:123-135 | the overlap is the shortest suffix of the chunk's sentences reaching `overlap` characters, or all of them when none does |
| Chunker.PageOf | backend/app/services/document_chunker.py:141-154 | page 1 without boundaries; otherwise a page within the boundaries, the first whose boundary lies after the position, or the last page |
| Chunker.Find | backend/app/services/document_chunker.py:61 | `str.find` returns the first index where the needle starts, and -1 exactly when it does not occur |
| Chunker.EntitiesIn | backend/app/services/document_chunker.py:156-170 | an entity is kept iff it is available and its lowercase form occurs in the lowercased chunk |
| Chunker.GroupsFacts | backend/app/services/document_chunker.py:44-114 | every chunk has sentences; each later chunk starts with the overlap of the previous one and then the sentence that would have taken the previous one past `chunk_size`; every sentence lands in some chunk; there are no chunks exactly when there are no sentences |
| Chunker.GroupsRejoin | backend/app/services/document_chunker.py:44-114 | dropping from each chunk after the first the overlap sentences it starts with and concatenating the chunks' sentences gives back the sentence list in order: every sentence is packed exactly once, apart from the overlap repeats |
| Chunker.ChunkFacts | backend/app/services/document_chunker.py:56-112 | chunks are numbered from 0 with ids `<doc_id>_chunk_<i>`; a chunk's text is its sentences joined by single spaces, its character count that text's length, its page within the boundaries, and its entities among those listed for its page |
| Chunker.DocumentChunker.constructor | backend/app/services/document_chunker.py:15-22 | the chunker keeps the chunk size and overlap it is given |
| Chunker.DocumentChunker.OverlapSentences | backend/app/services/document_chunker.py:123-135 | the backwards loop computes the overlap suffix (properties in `OverlapFacts`) |
| Chunker.DocumentChunker.PageNumber | backend/app/services/document_chunker.py:141-154 | the enumeration loop returns the page `PageOf` describes |
| Chunker.DocumentChunker.ExtractEntitiesFromChunk | backend/app/services/document_chunker.py:156-170 | the loop returns the available entities occurring case-insensitively in the chunk, in order |
| Chunker.DocumentChunker.ChunkDocument | backend/app/services/document_chunker.py:24-114 | the loop returns one chunk record per sentence group of the packing (properties in `GroupsFacts` and `ChunkFacts`) |
| Chunker.DocumentChunker.ListOf | backend/app/services/document_chunker.py:215 | `list(set)` holds each element of the set exactly once |
| Chunker.DocumentChunker.OverlappingEntities | backend/app/services/document_chunker.py:204-213 | the inner loop collects the texts of exactly the entities whose span meets the chunk's span |
| Chunker.DocumentChunker.ChunkWithEntities | backend/app/services/document_chunker.py:172-217 | the chunks are those of `chunk_document` without pages or page entities, each with its entities replaced by the distinct texts of the entities whose span meets the chunk's span |
| Chunker.DocumentChunker.TagAll | backend/app/services/document_chunker.py:199-215 | every chunk is tagged and nothing else in it changes |
| GraphAgent.LinkOf | backend/app/services/graph_agent.py:31-37 | an edge record keeps the endpoints, weight and type, and at most the first three evidence sentences |
| GraphAgent.AtLeastOne | backend/app/services/graph_agent.py:21 | `max(1, n)` is at least one and at least `n`, and is `n` when `n` is positive |
| GraphAgent.ShellStep | backend/app/services/graph_agent.py:21-41 | expanding only the outermost shell reaches the next ball of the hop distance, which is why the search keeps only the frontier |
| GraphAgent.ShellsDisjoint | backend/app/services/graph_agent.py:21-41 | the hop shells are pairwise disjoint |
| GraphAgent.LayersUnique | backend/app/services/graph_agent.py:18-42 | across all layers a node is the target of at most one record, and the start entity never is |
| GraphAgent.RoundStep | backend/app/services/graph_agent.py:22-39 | one round turns the ball and shell of radius `k` into those of radius `k + 1`, its records form layer `k`, and the layer is empty iff the next frontier is |
| GraphAgent.GraphConversationalAgent.constructor | backend/app/services/graph_agent.py:12-13 | the agent holds the graph it is given |
| GraphAgent.GraphConversationalAgent.VisitNode | backend/app/services/graph_agent.py:25-37 | the records for the unvisited neighbours of a node, each once and read from its edge; they become visited |
| GraphAgent.GraphConversationalAgent.NextLayer | backend/app/services/graph_agent.py:22-37 | the next frontier is the unvisited neighbours of the frontier, the layer holds one record per node of it, and each record leaves the frontier along an edge |
| GraphAgent.GraphConversationalAgent.Round | backend/app/services/graph_agent.py:22-41 | round `k` moves from the ball and shell of radius `k` to those of radius `k + 1` and produces layer `k` |
| GraphAgent.GraphConversationalAgent.GetNeighbors | backend/app/services/graph_agent.py:15-42 | an absent entity gives no neighbours; otherwise between one and `max(1, depth)` layers, layer `j` holding one record per node at `j + 1` hops reached from a node at `j` hops, stopping early only after an empty layer |
| GraphAgent.GraphConversationalAgent.ExpandPath | backend/app/services/graph_agent.py:55-64 | one edge record per consecutive pair of the path, read from that edge |
| GraphAgent.GraphConversationalAgent.ShortestPath | backend/app/services/graph_agent.py:44-66 | no paths when an end is missing or no path exists; otherwise the first `max(1, k_paths)` paths found, each a walk from source to target with its edge records |
| GraphAgent.GraphConversationalAgent.CommonConnections | backend/app/services/graph_agent.py:68-80 | fewer than two present entities give nothing; otherwise exactly the nodes linked to every present entity with degree at least `min_degree`, each once with its degree, highest degree first |
| GraphAgent.GraphConversationalAgent.GrowOnce | backend/app/services/graph_agent.py:88-92 | one pass adds the neighbours of every graph node in the set |
| GraphAgent.GraphConversationalAgent.GrowRounds | backend/app/services/graph_agent.py:87-92 | `depth` passes for one present centre |
| GraphAgent.GraphConversationalAgent.Subgraph | backend/app/services/graph_agent.py:82-96 | the nodes are the graph nodes reached by one expansion pass per present centre and depth, each once, including every present centre; the edges are exactly the graph's edges between them, each listed once and never also in reverse |
| GraphAgent.CommonIff | backend/app/services/graph_agent.py:72-73 | the intersection of the neighbour sets holds exactly the nodes linked to every present entity |
| GraphAgent.SortedConnections | backend/app/services/graph_agent.py:79 | sorting keeps the same entities, each once, with their degrees |
| GraphAgent.GrowNAdd | backend/app/services/graph_agent.py:84-92 | expansion passes compose: `m` passes then `n` passes are `m + n` passes, so the passes of later centres continue from the earlier ones |
| GraphAgent.InducedView | backend/app/services/graph_agent.py:93-95 | the induced subgraph's edge list holds exactly the graph's edges between kept nodes, each pair once and never also in reverse |
| GraphAgent.PairsOnceOf | backend/app/services/graph_agent.py:95 | an edge list with one entry per undirected edge gives `[u, v]` pairs with no repeat and no reversed repeat |
| Graphs.EdgeViewDistinct | backend/app/services/graph_agent.py:95 | networkx's edge view of an undirected graph lists each edge once: no two entries join the same two nodes |
| Hypothesis.IndirectConfidence | backend/app/services/hypothesis_agent.py:38-50 | the confidence of an indirect connection lies in [0.3, 0.9], and is at least 0.5 when neither endpoint is generic |
| Hypothesis.IndirectConfidenceMonotone | backend/app/services/hypothesis_agent.py:42-50 | stronger edges never lower the confidence and a generic endpoint never raises it |
| Hypothesis.Indirect | backend/app/services/hypothesis_agent.py:36-61 | the record names `a`, `b`, `c` and the two edges, holds at most two evidence sentences, each taken from one of the two edges, and carries the confidence bounds |
| Hypothesis.ProposeStep | backend/app/services/hypothesis_agent.py:32-61 | proposing an unvisited, unlinked pair keeps the scan state: no two records share an endpoint pair and every visited pair is linked or proposed |
| Hypothesis.VisitLinked | backend/app/services/hypothesis_agent.py:35-36 | visiting a linked pair keeps the scan state |
| Hypothesis.PairEdge | backend/app/services/hypothesis_agent.py:32-36 | sorting the pair for the visited set does not change whether the two entities are linked |
| Hypothesis.ScanNodes | backend/app/services/hypothesis_agent.py:24 | the scanned ids are graph nodes: the focus alone when it is a non-empty node, otherwise every node |
| Hypothesis.IndirectBudget | backend/app/services/hypothesis_agent.py:108 | `max(1, int(max_results * 0.8))` is at least one, at most `max_results` when that is positive, and the integer part of four fifths of it from five on |
| Hypothesis.Specific | backend/app/services/hypothesis_agent.py:82-85 | exactly the non-generic ids of the chosen items are kept |
| Hypothesis.ItemsInRange | backend/app/services/hypothesis_agent.py:74-80 | the first `top_k` sorted scores are graph nodes with scores between the lowest and the highest, so the normalised score lies in [0, 1] |
| Hypothesis.SliceAppend | backend/app/services/hypothesis_agent.py:110-116 | cutting a list keeps in front the cut of any prefix of it, so the final cut starts with the indirect connections |
| Hypothesis.SamplesFacts | backend/app/services/hypothesis_agent.py:90-94 | at most three samples; each is the first evidence sentence of the edge to one of the first three neighbours, and every such sentence is sampled |
| Hypothesis.NormalisedUnit | backend/app/services/hypothesis_agent.py:76-87 | with `span` the distance from the lowest to the highest score (1.0 when it is zero), a score between the two normalises into [0, 1] |
| Hypothesis.BridgeOfBridges | backend/app/services/hypothesis_agent.py:86-102 | the record of a non-generic node with a normalised score is a bridge record: that node, its title, at most two sentences sampled from its first neighbours, no edge pairs, confidence in [0.6, 0.95] |
| Hypothesis.BridgeListKept | backend/app/services/hypothesis_agent.py:82-102 | one record per non-generic item, in item order, the `k`-th made from the `k`-th such item's node and normalised score |
| Hypothesis.BridgeListFacts | backend/app/services/hypothesis_agent.py:82-102 | with every item a node scored between the lowest and highest score, the records are bridge records naming exactly the non-generic items, in order, and there are no more of them than items |
| Hypothesis.HighBetweennessFacts | backend/app/services/hypothesis_agent.py:66-103 | no bridges below three nodes or when the centrality computation fails; otherwise bridge records naming the non-generic nodes among the `top_k` most central, in that order, at most `top_k` of them |
| Hypothesis.RankedFacts | backend/app/services/hypothesis_agent.py:74-103 | the records made from the first `top_k` sorted scores are bridge records naming their non-generic nodes in order |
| Hypothesis.HighBetweennessRecords | backend/app/services/hypothesis_agent.py:74-102 | record `k` is the bridge record of the `k`-th non-generic node among the `top_k` most central, with confidence `0.6 + 0.35 * (score - min_c) / span` where `span = (max_c - min_c) or 1.0` |
| Hypothesis.ExtraBridges | backend/app/services/hypothesis_agent.py:111-115 | everything `generate` appends after the indirect records is a bridge record |
| Hypothesis.ExtraEmpty | backend/app/services/hypothesis_agent.py:111-115 | nothing is appended when the indirect records reach `max_results`, and a graph of fewer than three nodes gives no bridges |
| Hypothesis.Assembled | backend/app/services/hypothesis_agent.py:110-116 | the final cut keeps the indirect records in their places with only bridge records after them, starts with the cut of the indirect list, and equals it when that list alone reaches `max_results` |
| Hypothesis.HypothesisAgent.constructor | backend/app/services/hypothesis_agent.py:13-20 | the agent holds the graph it is given |
| Hypothesis.HypothesisAgent.ScanPair | backend/app/services/hypothesis_agent.py:29-63 | one pair step is exactly `PairStep`: equal or visited pairs are skipped, otherwise the sorted pair is visited and, when unlinked, `Indirect(g, a, b, c)` for this `b` and this orientation is appended, with `stop` once the cap is reached; the scan state is kept |
| Hypothesis.HypothesisAgent.ScanSecond | backend/app/services/hypothesis_agent.py:29-63 | the loop over `c` computes exactly `SecondsFrom` (pair steps over `b`'s neighbours in order, left at the cap); when it runs to its end every pair starting with `a` has been visited |
| Hypothesis.HypothesisAgent.ScanNode | backend/app/services/hypothesis_agent.py:28-63 | the loop over `a` computes exactly `FirstsFrom` (no first neighbours when `b` is not a node); when the loops run to their end every pair of distinct neighbours of `b` has been visited |
| Hypothesis.ScanResult | backend/app/services/hypothesis_agent.py:22-64 | a finished scan proposes only through scanned nodes (only the focus when there is one), and short of the cap it has proposed every unlinked pair of neighbours of a scanned node |
| Hypothesis.HypothesisAgent.ScanAll | backend/app/services/hypothesis_agent.py:25-64 | the loop over the scanned nodes computes the records `NodesFrom` describes, keeps the scan state, and, short of the cap, has visited every pair of neighbours of every scanned node |
| Hypothesis.HypothesisAgent.IndirectConnectionHypotheses | backend/app/services/hypothesis_agent.py:22-64 | the result is exactly `IndirectScan` over `ScanNodes`: nodes in list order, then `a` and `c` in neighbour order, each pair proposed through the first middle node and orientation met, returning at the cap; and so every record proposes two distinct unlinked endpoints both linked to a scanned middle node (the focus when one is given), no endpoint pair twice, at most `max(1, max_results)` records, and when fewer every unlinked pair of neighbours of a scanned node is proposed |
| Hypothesis.HypothesisAgent.SampleEvidence | backend/app/services/hypothesis_agent.py:90-94 | the loop computes `Samples`: the first evidence sentence of the edge to each of the first three neighbours that has one, in neighbour order |
| Hypothesis.HypothesisAgent.HighBetweennessBridges | backend/app/services/hypothesis_agent.py:66-103 | the method computes `HighBetweenness`, whose records `HighBetweennessFacts` and `HighBetweennessRecords` characterise |
| Hypothesis.HypothesisAgent.BridgeRecords | backend/app/services/hypothesis_agent.py:82-102 | the loop computes `BridgeList`: one record per non-generic item, in order (see `BridgeListKept`) |
| Hypothesis.HypothesisAgent.BridgeRecord | backend/app/services/hypothesis_agent.py:86-102 | the record is `BridgeOf`: the node, its title, two samples, no edge pairs and confidence `0.6 + 0.35 * norm` |
| Hypothesis.HypothesisAgent.Generate | backend/app/services/hypothesis_agent.py:105-116 | the result is the cut to `max_results` of the indirect records followed by exactly `Extra`: `high_betweenness_bridges(budget_bridge)` when they fall short, then `high_betweenness_bridges(min(3, max_results))` when nothing was found; the indirect records keep their places and budget, and with enough of them the result is just their cut; the indirect records are exactly `IndirectScan` with the budget `IndirectBudget(max_results)` |
| Hypothesis.HypothesisAgent.AddBridges | backend/app/services/hypothesis_agent.py:111-115 | the bridge calls of `generate` append exactly `Extra` |
| Rag.Repeat | backend/app/services/rag_service.py:56-57 | `[x] * n` has length `n` and holds only `x` |
| Rag.AddedMembers | backend/app/services/rag_service.py:52-57 | an id is added under an entity iff some chunk with that id mentions the entity |
| Rag.TallyPositive | backend/app/services/rag_service.py:95-101 | a chunk id scores above zero iff some query entity's posting list holds it |
| Rag.Items | backend/app/services/rag_service.py:120 | the items of the score table pair each id with its score |
| Rag.TotalAfterPut | backend/app/services/rag_service.py:148 | replacing a document's chunk list changes the stored chunk total by the difference of the two lengths |
| Rag.TallyLast | backend/app/services/rag_service.py:97-101 | adding the last query entity's postings to the scores of the earlier entities gives the scores of all of them: exactly the ids with a positive tally, each with its tally |
| Rag.BumpAllBumped | backend/app/services/rag_service.py:100-101 | `chunk_scores[id] += 1.0` over a list of ids adds one to an id's score per occurrence and enters exactly the ids not yet scored |
| Rag.BumpLast | backend/app/services/rag_service.py:100-101 | one more increment, for the last id, keeps the scores equal to the old scores plus the occurrence counts |
| Rag.ScoreDictTallies | backend/app/services/rag_service.py:94-101 | after the loop over the query entities, `chunk_scores` holds exactly the chunk ids with a positive tally (occurrences in the query entities' posting lists), each with its tally |
| Rag.RankedTop | backend/app/services/rag_service.py:120 | the `top_k` ranked ids are the best scored: any scored id left out scores no higher than every ranked one |
| Rag.RankedScore | backend/app/services/rag_service.py:95-120 | every ranked id carries its tally, which is at least one |
| Rag.FirstId | backend/app/services/rag_service.py:129-136 | the chunk found has the id and is in the list; nothing is found exactly when no chunk has the id |
| Rag.FirstIdAt | backend/app/services/rag_service.py:129-136 | the chunk found is the first with the id: a chunk with the id that no earlier chunk has is the one found |
| Rag.HitsInMembers | backend/app/services/rag_service.py:124-136 | a ranked id's hits are exactly, for every searched document (the target only, when given) with a chunk of that id, its first such chunk, with the id's score |
| Rag.HitsInOrder | backend/app/services/rag_service.py:124-136 | a ranked id's hits follow the document order, so with distinct document ids each document gives at most one |
| Rag.CollectedMembers | backend/app/services/rag_service.py:122-136 | the looked-up hits are exactly the hits of the ranked ids |
| Rag.CollectedSorted | backend/app/services/rag_service.py:120-136 | looking up ids ranked by score, highest first, keeps the hits ranked by score |
| Rag.CollectedHit | backend/app/services/rag_service.py:94-136 | every hit of the ranked ids is the first chunk with its id of a searched document, scored with the id's tally of at least one |
| Rag.RetrievedFacts | backend/app/services/rag_service.py:89-144 | no query entities retrieve no chunks; otherwise at most `top_k` chunks (for `top_k >= 0`), highest score first, each the first chunk with its id of a searched document, scored with its tally |
| Rag.RetrievedComplete | backend/app/services/rag_service.py:119-136 | before the final cut, every searched document holding a chunk with one of the `top_k` best scored ids contributes its first such chunk with that id's score |
| Rag.RecordsOfNeighbours | backend/app/services/rag_service.py:109-117 | the record made for a neighbour of an entity in the graph is the record of the edge between them |
| Rag.ExpansionFacts | backend/app/services/rag_service.py:104-117 | an entity outside the graph adds no records; one in it adds at most three, the `k`-th from the entity to its `k`-th neighbour with that edge's type, weight and evidence |
| Rag.RelationsFacts | backend/app/services/rag_service.py:97-117 | every relationship record comes from a query entity in the graph and carries an edge's data; at most three per query entity |
| Rag.NearUnionMembers | backend/app/services/rag_service.py:104-106 | the neighbours added are exactly the first five neighbours of the query entities |
| Rag.RelatedFacts | backend/app/services/rag_service.py:90-106 | the related entities are exactly the query entities and the first five neighbours of every query entity in the graph |
| Rag.MatchingMembers | backend/app/services/rag_service.py:291-293 | a document's matches are exactly its chunks with the id |
| Rag.InDocsMembers | backend/app/services/rag_service.py:290-293 | the chunks found for one id are exactly the stored chunks with that id, in any document |
| Rag.LocationsMembers | backend/app/services/rag_service.py:288-293 | the located chunks are exactly the stored chunks whose id is on the list |
| Rag.LocationsRepeat | backend/app/services/rag_service.py:288-293 | an id listed again appends all its chunks again, each already located once |
| Rag.LinkedPostings | backend/app/services/rag_service.py:56-57 | linking a chunk appends its id to an entity's list once per mention, after the ids already there, and touches no other list |
| Rag.LinkedKeys | backend/app/services/rag_service.py:56-57 | linking creates a list exactly for the entities mentioned |
| Rag.IndexedPostings | backend/app/services/rag_service.py:52-57 | indexing appends under each entity the ids of the chunks that mention it, once per mention, in chunk order |
| Rag.IndexedKeys | backend/app/services/rag_service.py:52-57 | indexing creates a list exactly for the entities some chunk mentions |
| Rag.SortedPrefix | backend/app/services/rag_service.py:120 | a prefix of a list sorted by score is sorted |
| Rag.SortedJoin | backend/app/services/rag_service.py:122-136 | hits appended at a score no higher than the earlier ones keep the list sorted |
| Rag.RagService.constructor | backend/app/services/rag_service.py:19-29 | a new service has no documents, no postings, no graph and no metadata |
| Rag.RagService.IndexDocument | backend/app/services/rag_service.py:31-57 | the document's chunk list replaces any earlier one; every chunk id is appended under each entity of the chunk, after the ids already there; a list is created exactly for newly mentioned entities; nothing else changes |
| Rag.RagService.SetGraphContext | backend/app/services/rag_service.py:62-65 | the graph and the metadata are replaced and the index is unchanged |
| Rag.RagService.AddScores | backend/app/services/rag_service.py:100-101 | the loop computes `BumpAll`: one increment per id, in order, a new id entering after those already scored (see `BumpAllBumped`) |
| Rag.RagService.Expand | backend/app/services/rag_service.py:104-117 | the related entities gain the first five neighbours and the records gain exactly `Expansion`: the edges to the first three, in neighbour order (see `ExpansionFacts`) |
| Rag.RagService.FirstWithId | backend/app/services/rag_service.py:129-136 | the loop finds `FirstId`, the first chunk with the id (see `FirstIdAt`) |
| Rag.RagService.CollectHits | backend/app/services/rag_service.py:122-136 | the loop computes `Collected`: the hits of every ranked id, id by id (see `CollectedMembers`, `CollectedSorted`) |
| Rag.RagService.HitsFor | backend/app/services/rag_service.py:124-136 | the loop computes `HitsIn`: document by document, the first chunk with the id of each searched document (see `HitsInMembers`, `HitsInOrder`) |
| Rag.RagService.RetrieveContextForQuery | backend/app/services/rag_service.py:67-149 | the result is exactly `Retrieved` (the hits of the `top_k` best scored ids, cut to `top_k`), `RelatedSet`, `Relations` (the records of each query entity in turn) and the stored chunk count; see `RetrievedFacts`, `RetrievedComplete`, `RelatedFacts`, `RelationsFacts` |
| Rag.RagService.ScoreEntities | backend/app/services/rag_service.py:94-117 | the loop computes the score table `ScoreDict`, the related entities `RelatedSet` and the records `Relations` (see `ScoreDictTallies`) |
| Rag.RagService.ScoreEntity | backend/app/services/rag_service.py:97-117 | one query entity bumps the scores of its postings and adds its first five neighbours and exactly its `Expansion` records |
| Rag.RagService.Rank | backend/app/services/rag_service.py:119-136 | the hits are `Collected` over `Ranked`, the `top_k` best scored ids (see `RankedTop`, `CollectedSorted`) |
| Rag.RagService.GetEntityContext | backend/app/services/rag_service.py:272-309 | the chunks are exactly `Locations` of the entity's posting list (per posting id, repeats included, then per document and chunk); the neighbours are all of them when the entity is in the graph, each with its edge record, in order; the metadata is the entity's or empty |
| Rag.RagService.LocateAll | backend/app/services/rag_service.py:288-293 | the loop computes `Locations`: id by id, the chunks with that id (see `LocationsMembers`, `LocationsRepeat`) |
| Rag.RagService.LocateId | backend/app/services/rag_service.py:289-293 | the loop computes `InDocs`: document by document, each document's chunks with the id in chunk order (see `InDocsMembers`) |
| Insight.TallyCounts | backend/app/services/content_insight_agent.py:57-60 | a `Counter` holds a key iff it occurs, with its number of occurrences |
| Insight.TallySum | backend/app/services/content_insight_agent.py:57-60 | the counts of a `Counter` add up to the number of keys counted |
| Insight.TopOfSorted | backend/app/services/content_insight_agent.py:34 | an element left out of the first `k` of a descending sort ranks no higher than any element kept |
| Insight.SortedHead | backend/app/services/content_insight_agent.py:127 | the head of a descending sort ranks at least as high as every element |
| Insight.FirstMax | backend/app/services/content_insight_agent.py:151 | `max(items, key=count)` returns an item of largest count, the first such |
| Insight.Items | backend/app/services/content_insight_agent.py:151 | `d.items()` lists every key with its value, in key order |
| Insight.Degrees | backend/app/services/content_insight_agent.py:32 | `dict(G.degree())` pairs every node, in node order, with its degree |
| Insight.MetadataLast | backend/app/services/content_insight_agent.py:38 | an id is a metadata key iff it is non-empty and some record has it, and it maps to the last such record |
| Insight.GroupedMembers | backend/app/services/content_insight_agent.py:37-50 | a type is a group iff some node has it, and its group lists exactly the nodes of that type, in node order, with degree and count |
| Insight.GroupedPartition | backend/app/services/content_insight_agent.py:41-50 | every node lies in the group of its type and in no other |
| Insight.DistributionKeysLength | backend/app/services/content_insight_agent.py:58-60 | one group is counted per record with a truthy id |
| Insight.TopEntitiesFacts | backend/app/services/content_insight_agent.py:32-34 | at most ten (node, degree) pairs, as many as the nodes up to ten, best connected first; the first has the highest degree and no node left out has a higher degree than one kept |
| Insight.DistributionFacts | backend/app/services/content_insight_agent.py:56-60 | the distribution counts the group of every record with a truthy id, sums to their number, and is empty exactly when there is none |
| Insight.RelKeys | backend/app/services/content_insight_agent.py:80-84 | the relationship type of every edge-view row, in order |
| Insight.RelationshipSummaryEmpty | backend/app/services/content_insight_agent.py:71-72 | there is no relationship summary exactly when the graph has no edges |
| Insight.RelationshipTypesFacts | backend/app/services/content_insight_agent.py:77-84 | the type counts hold exactly the types that occur, count the rows of each, and sum to the number of edges |
| Insight.StrongestFacts | backend/app/services/content_insight_agent.py:92-94 | at most ten strongest rows, heaviest first, each an edge of the graph with its data; the first is a heaviest row and no row left out outweighs one kept |
| Insight.DocNamesMember | backend/app/services/content_insight_agent.py:112 | the document names are exactly the non-empty names |
| Insight.DocumentSummaryFacts | backend/app/services/content_insight_agent.py:103-119 | no summary without documents; otherwise the total, the documents, type counts adding up to the total, and exactly the non-empty names |
| Insight.FirstFindingIsCentral | backend/app/services/content_insight_agent.py:126-134 | on a graph with nodes the first finding names a node of the highest degree |
| Insight.StrongestFinding | backend/app/services/content_insight_agent.py:136-146 | with edges the strongest-relationship finding names the endpoints of a heaviest row, with that row's evidence list when non-empty |
| Insight.LastFindingIsDominant | backend/app/services/content_insight_agent.py:148-158 | with a non-empty distribution the last finding names the first type of largest count and lists every type |
| Insight.KeyFindings | backend/app/services/content_insight_agent.py:121-160 | at most three findings |
| Insight.Candidates | backend/app/services/content_insight_agent.py:225-252 | the insights start with the key findings and add at most two patterns |
| Insight.SliceKeeps | backend/app/services/content_insight_agent.py:254 | `insights[:max_results]` is a prefix of at most `max_results` items that keeps a given prefix when the cap leaves room |
| Insight.ContentInsightAgent.constructor | backend/app/services/content_insight_agent.py:13-22 | a missing document or node list becomes an empty one, and the summaries and findings are those of the graph and records held |
| Insight.ContentInsightAgent.ExtractEntitySummary | backend/app/services/content_insight_agent.py:24-67 | the grouping and counting loops compute the entity summary (properties in `TopEntitiesFacts`, `GroupedMembers`, `DistributionFacts`) |
| Insight.ContentInsightAgent.ExtractRelationshipSummary | backend/app/services/content_insight_agent.py:69-101 | the loop over the edge view computes the relationship summary (properties in `RelationshipTypesFacts`, `StrongestFacts`) |
| Insight.ContentInsightAgent.GenerateInsightsFacts | backend/app/services/content_insight_agent.py:216-254 | the insights start with the key findings, hold at most `max_results` items and at most five in all, and keep every key finding when the cap leaves room |
| Papers.DeduplicatePapers | backend/app/services/agentic_ai_service.py:190-207 | the loop over the two seen-sets and the output list computes the de-duplication as written (`Deduplicated`) |
| Papers.DeduplicatedSubsequence | backend/app/services/agentic_ai_service.py:190-207 | the output is the input with some papers left out, in order |
| Papers.SeenPmids | backend/app/services/agentic_ai_service.py:200-202 | the recorded pmids are exactly the non-empty pmids met so far |
| Papers.TitlesGrow | backend/app/services/agentic_ai_service.py:203-205 | the recorded title keys only grow |
| Papers.KeepsFacts | backend/app/services/agentic_ai_service.py:197-205 | a pmid met for the first time is always kept; a paper without pmid is kept iff its title key is non-empty and not yet recorded; a paper with neither is never kept |
| Papers.TitleDeduplicated | backend/app/services/agentic_ai_service.py:203-205 | two kept papers without pmid have different title keys |
| Papers.RepeatedPmidKept | backend/app/services/agentic_ai_service.py:200-205 | as written, two records with the same pmid and different titles are both kept |
| Papers.UnrecordedTitleKept | backend/app/services/agentic_ai_service.py:200-205 | as written, a title kept through the pmid branch is not recorded, so a later pmid-less record with that title is kept too |
| Papers.DeduplicatedFixedFacts | backend/app/services/agentic_ai_service.py:190-207 | the corrected de-duplication keeps a subsequence holding every pmid of the input, no pmid twice, no pmid-less title repeating an earlier kept title, and no record with neither pmid nor title |
| Papers.RunFixedPmids | backend/app/services/agentic_ai_service.py:200-202 | every recorded pmid belongs to a kept paper |
| Papers.FixedDropsRepeatedPmid | backend/app/services/agentic_ai_service.py:200-205 | on the first counterexample the corrected version keeps only the first record |
| Papers.FixedDropsRepeatedTitle | backend/app/services/agentic_ai_service.py:200-205 | on the second counterexample the corrected version keeps only the first record |
| Papers.PerQueryBudget | backend/app/services/agentic_ai_service.py:69 | `max_papers // len(queries)` is the floor quotient; the expression fails exactly on no queries, which the loop it sits in never reaches |
| Papers.RelatedSearches | backend/app/services/agentic_ai_service.py:397-398 | at most the first five key terms are searched, each for at most an equal share of `max_new_papers` |
| Papers.CapsFacts | backend/app/services/agentic_ai_service.py:80 | the analysed and the related papers are at most the cap when it is non-negative, a prefix of the de-duplicated papers, and free of repeats |
| Scholar.Words | backend/app/services/google_scholar_service.py:202-203 | `split()` yields non-empty runs holding no whitespace |
| Scholar.WordsWeave | backend/app/services/google_scholar_service.py:202-203 | the text is its words woven with whitespace runs, every run between two words non-empty, so the words are exactly the maximal non-whitespace runs, in order |
| Scholar.BeforeFirst | backend/app/services/google_scholar_service.py:114-117 | `s.split(sep)[0]` is the prefix before the first occurrence of `sep`, or all of `s` |
| Scholar.RemoveTagsFacts | backend/app/services/google_scholar_service.py:102 | text without `[` is unchanged by the badge removal, and a leading badge is dropped |
| Scholar.CleanTitleFacts | backend/app/services/google_scholar_service.py:102 | a clean title has no whitespace at either end, is no longer than the raw title, equals the stripped title when there is no badge, and ignores a leading badge |
| Scholar.AuthorsFacts | backend/app/services/google_scholar_service.py:113-118 | no authors without author text; otherwise the first five comma-separated pieces of the author part, stripped, and with at most five pieces they join back to the author part |
| Scholar.FirstYearFrom | backend/app/services/google_scholar_service.py:121 | the search returns the first position where a year-shaped token starts, or none when there is none |
| Scholar.YearFacts | backend/app/services/google_scholar_service.py:120-123 | the year is the value of the first year-shaped token, between 1900 and 2099, and there is none exactly when no token is year-shaped |
| Scholar.PdfLinkFacts | backend/app/services/google_scholar_service.py:129-149 | the badge link wins, then the sidebar link; the title link is used only when neither is non-empty and it ends in ".pdf" in any case; a non-empty result is one of the three |
| Scholar.ExtractPaperInfo | backend/app/services/google_scholar_service.py:89-159 | no paper without a title heading; otherwise the clean title, the title link, at most five authors and a year between 1900 and 2099 when there is one |
| Scholar.Parsed | backend/app/services/google_scholar_service.py:75-79 | one paper per result block with a heading, each parsed from a block |
| Scholar.ParsedAppend | backend/app/services/google_scholar_service.py:75-79 | the parse is an in-order filter: the parse of two runs of blocks is the two parses in order, and one block gives its paper or nothing |
| Scholar.ParsedSplit | backend/app/services/google_scholar_service.py:75-79 | the parse of a prefix followed by the parse of the rest is the whole parse |
| Scholar.SearchResults | backend/app/services/google_scholar_service.py:67-87 | at most `max_results` papers and no more than there are blocks |
| Scholar.SearchResultsPrefix | backend/app/services/google_scholar_service.py:75 | the results are the parse of `results[:max_results]` as Python slices it, and the blocks after it give the rest of the full parse |
| Scholar.KeepWordsAndSpaces | backend/app/services/google_scholar_service.py:198-199 | after `re.sub(r'[^\w\s]', '', …)` only word and whitespace characters remain |
| Scholar.TitlesMatchIff | backend/app/services/google_scholar_service.py:195-212 | two titles match iff both have words and the shared words are at least seven tenths of the smaller word set |
| Scholar.RatioBound | backend/app/services/google_scholar_service.py:212 | the ratio test equals the whole-number test `10 * overlap >= 7 * min_words` |
| Scholar.TitlesMatchSymmetric | backend/app/services/google_scholar_service.py:195-212 | the comparison does not depend on the order of the titles |
| Scholar.TitlesMatchReflexive | backend/app/services/google_scholar_service.py:205-212 | a title with words matches itself, one without matches nothing |
| Scholar.PdfQuery | backend/app/services/google_scholar_service.py:176-179 | the query is the quoted title, followed by the first author when there is one |
| Scholar.UsableStep | backend/app/services/google_scholar_service.py:185-191 | each result examined is either the first usable one or extends the unusable prefix |
| Scholar.FindPdfForPaper | backend/app/services/google_scholar_service.py:165-193 | the PDF link of the first of the first three results that matches the title and has one; nothing exactly when none does |
| PdfText.Normalize | backend/app/services/pdf_processor.py:46 | after `re.sub(r'\s+', ' ', …)` every whitespace character is a lone space, the text is empty iff it was, it starts with whitespace iff it did (keeping a non-space first character), and it is no longer |
| PdfText.NormalizeIdempotent | backend/app/services/pdf_processor.py:46 | single-spaced text is left as it is, so normalising twice is normalising once |
| PdfText.FixPeriodsComplete | backend/app/services/pdf_processor.py:47 | after the substitution no full stop sits between a small and a capital letter |
| PdfText.FixPeriodsIdentity | backend/app/services/pdf_processor.py:47 | text without such a place is left as it is |
| PdfText.FixPeriodsSingleSpaced | backend/app/services/pdf_processor.py:46-47 | the substitution keeps normalised text single-spaced |
| PdfText.NextSplit | backend/app/services/pdf_processor.py:50 | a split point found is the first maximal whitespace run after `.`, `!` or `?` |
| PdfText.PiecesEndSentences | backend/app/services/pdf_processor.py:50 | every piece but the last ends with sentence punctuation |
| PdfText.PiecesUnsplit | backend/app/services/pdf_processor.py:50 | no piece holds a split point |
| PdfText.PiecesJoin | backend/app/services/pdf_processor.py:46-50 | on single-spaced text, joining the pieces with spaces gives the text back |
| PdfText.KeepSentences | backend/app/services/pdf_processor.py:53-56 | a sentence is kept iff its piece is 10 to 1000 characters long, and it is kept stripped |
| PdfText.KeepSentencesSnoc | backend/app/services/pdf_processor.py:53-56 | the kept sentences follow the order of the pieces |
| PdfText.StripSingleSpaced | backend/app/services/pdf_processor.py:54 | stripping single-spaced text removes at most one space at each end and keeps it single-spaced |
| PdfText.SentencesFacts | backend/app/services/pdf_processor.py:43-58 | every sentence is a stripped piece of 10 to 1000 characters of the prepared text, so it is 8 to 1000 characters long, single-spaced and free of newlines; every such piece gives a sentence |
| PdfText.FileName | backend/app/services/pdf_processor.py:71 | `Path(p).name` holds no separator |
| PdfText.AfterLastSlash | backend/app/services/pdf_processor.py:71 | the text after the last `/` is a suffix without `/`, preceded by `/` when shorter than the path |
| PdfText.RecordForFacts | backend/app/services/pdf_processor.py:64-82 | a record fails iff the file cannot be read, with the extraction error message; a processed record holds the text, its sentences, the metadata, and counts equal to the lengths of the sentence list and of the text |
| PdfText.ProcessPdf | backend/app/services/pdf_processor.py:65-82 | one path gives the record of its outcome |
| PdfText.ProcessPdfs | backend/app/services/pdf_processor.py:60-84 | one record per path, in order, each the record of that path's outcome |
| Trials.Lookup | backend/app/services/ctgov_service.py:51-61 | the value found under a key is the last member with that key, and none is found only when no member has it |
| Trials.Get | backend/app/services/ctgov_service.py:51-58 | `.get` succeeds exactly on an object |
| Trials.Elements | backend/app/services/ctgov_service.py:68 | the elements a loop visits are a list's items, or an object's keys, each once; only lists, strings and objects can be iterated |
| Trials.KeysOf | backend/app/services/ctgov_service.py:39 | the keys of a decoded object are its member names, each once |
| Trials.ObjectKeysOnce | backend/app/services/ctgov_service.py:42 | iterating an object visits exactly its member names, each once, even when a name is repeated in the text |
| Trials.RepeatedConditionKey | backend/app/services/ctgov_service.py:66-67 | conditions given as an object with one key twice join to that key once |
| Trials.RepeatedStudyKey | backend/app/services/ctgov_service.py:41-42 | a study list given as an object with one key twice yields one record, the error record of the key |
| Trials.AllStrings | backend/app/services/ctgov_service.py:68 | joining succeeds iff every element is a string, giving those strings in order |
| Trials.NameOf | backend/app/services/ctgov_service.py:74-76 | a name kept is non-empty |
| Trials.NamesFacts | backend/app/services/ctgov_service.py:71-76 | the names are read exactly when every intervention gives a name or none; each kept name is non-empty and comes from an intervention, and every non-empty name is kept |
| Trials.NamesMalformed | backend/app/services/ctgov_service.py:71-76 | an error in one intervention aborts the whole list |
| Trials.InterventionNames | backend/app/services/ctgov_service.py:71-76 | the loop computes the names `Names` describes |
| Trials.StudyFields | backend/app/services/ctgov_service.py:50-102 | a parsed record's link is the study page of its id and its interventions are non-empty names |
| Trials.ReadFields | backend/app/services/ctgov_service.py:60-101 | the fields read from the modules give a record whose link is the study page of its id and whose interventions are non-empty names |
| Trials.ReadAllDefaults | backend/app/services/ctgov_service.py:60-101 | modules lacking every field read give the default record |
| Trials.ParseStudyFacts | backend/app/services/ctgov_service.py:48-115 | a study gives the error record exactly when it is malformed; a parsed record's link is the study page of its id and never empty, and its interventions are non-empty |
| Trials.MissingFieldsDefault | backend/app/services/ctgov_service.py:51-101 | a study whose modules are objects lacking every field read gets empty defaults, phase "N/A" and the bare study link |
| Trials.EmptyStudyDefault | backend/app/services/ctgov_service.py:51-101 | the empty study, and one with an empty protocol section, get that default record |
| Trials.AbsentFieldDefaults | backend/app/services/ctgov_service.py:51-101 | in any study that parses, each field its module lacks takes its default: "" for id, title, status, sponsor, summary and condition, no interventions, phase "N/A", and the bare link for no id |
| Trials.NonObjectStudy | backend/app/services/ctgov_service.py:50-115 | a study that is not an object, or has a null protocol section, gets the error record |
| Trials.ConditionAndPhase | backend/app/services/ctgov_service.py:67-80 | condition names are joined with ", " and the phase is the first listed phase |
| Trials.Filter | backend/app/services/ctgov_service.py:30-35 | a filter is sent iff its list is given and non-empty, comma-joined |
| Trials.BuildSearchParams | backend/app/services/ctgov_service.py:23-35 | the request asks for the condition in JSON with page size `min(max_results, 100)` and the phase and status filters |
| Trials.FilterRoundTrip | backend/app/services/ctgov_service.py:31 | a filter whose values hold no comma splits back into them |
| Trials.SearchTrialsFacts | backend/app/services/ctgov_service.py:37-46 | one record per study of the answer, in order; nothing when the request fails or the answer has no studies |
| Api.ValidateUploads | backend/app/main.py:121-130 | the upload is accepted iff there is at least one file and every name ends in ".pdf"; no files give 400 "No files provided"; otherwise the first bad file is reported with 400 and its name |
| Api.StatusName | backend/app/main.py:146 | a job reports one of "pending", "processing", "completed", "failed" |
| Api.StageProgress | backend/app/main.py:186-215 | a stage that raises leaves the progress it had reached, between 0.4 and 0.9 |
| Api.Records | backend/app/main.py:175 | one record per uploaded path, each the record of that path's extraction outcome |
| Api.RecordsAgree | backend/app/main.py:175 | a record list that agrees with the extraction outcome at every position is that list |
| Api.AllSentencesFrom | backend/app/main.py:180-183 | every combined sentence is a sentence of some readable file |
| Api.AllSentencesComplete | backend/app/main.py:180-183 | every sentence of every readable file is combined |
| Api.Opening | backend/app/main.py:168-187 | the first three updates of a run |
| Api.RunTraceMonotone | backend/app/main.py:162-238 | a run never moves progress backwards, and the job is "processing" until its last update |
| Api.RunTraceCompleted | backend/app/main.py:168-227 | a run whose services all succeed shows progress 0.1, 0.3, 0.4, 0.6, 0.7, 0.8, 0.9, 1.0 and ends completed with "Processing complete!" and the graph |
| Api.RunTraceFailed | backend/app/main.py:236-238 | a stage that raises fails the job with "Error: " and its message, keeping that stage's progress and no result |
| Api.JobStore.constructor | backend/app/main.py:79 | the job table starts empty |
| Api.JobStore.Status | backend/app/main.py:242-248 | an unknown id gives 404 "Job not found"; a known one gives its job |
| Api.JobStore.Submit | backend/app/main.py:105-159 | a valid upload queues a pending job at progress 0 with "Queued for processing", visible to the status endpoint; a rejected upload gives 400 and leaves the table unchanged |
| Api.JobStore.RunBackground | backend/app/main.py:162-238 | the job ends as the last state of the run trace for the uploaded paths and the services' analysis of the combined sentences; no other job changes |
| Api.JobStore.Extract | backend/app/main.py:168-187 | the run's first three updates, returning the combined sentences of the readable files |
| Api.JobStore.Analyse | backend/app/main.py:189-238 | the remaining updates, ending failed at the stage that raised or completed with the graph |
| Api.CollectSentences | backend/app/main.py:180-183 | the loop gathers the combined sentences |
| Api.ImportProject | backend/app/main.py:553-581 | the selected graph comes back unchanged exactly when it is an object with "nodes" and "edges" members whose values have a length; a selection that is not an object fails |
| Api.ImportMissingArrays | backend/app/main.py:574-575 | a bare object lacking "nodes" or "edges" is refused with "Graph must have 'nodes' and 'edges' arrays" |
| Api.ImportWrapped | backend/app/main.py:559-567 | an importable graph is accepted sent bare, as {"graph": g} or as {"project_data": {"graph": g}} |
| Api.InterventionNodes | backend/app/main.py:726-732 | one "CHEMICAL" node of value 1 per intervention, in order |
| Api.TestsEdges | backend/app/main.py:726-742 | one "tests" edge from the trial node per intervention, in order |
| Api.Converted | backend/app/main.py:684 | exactly the trials with a non-empty id are converted, each as many times as it occurs in the search result |
| Api.ConvertedConcat | backend/app/main.py:684 | the comprehension keeps order: the trials converted from two lists in a row are those of the first followed by those of the second |
| Api.UniqueNodes | backend/app/main.py:745 | the dictionary has one entry per node id, keyed by that id |
| Api.UniqueNodesFrom | backend/app/main.py:745 | every id kept is the id of some node |
| Api.UniqueNodesLast | backend/app/main.py:745 | an id keeps the last node with that id |
| Api.AllStep | backend/app/main.py:690-742 | one more trial appends its nodes and edges |
| Api.InterventionStep | backend/app/main.py:726-742 | one more intervention appends its node and its edge |
| Api.AppendTrial | backend/app/main.py:691-742 | one trial appends its node, its condition's node and "studies" edge when it has a condition, and its intervention nodes and "tests" edges |
| Api.AppendInterventions | backend/app/main.py:726-742 | the inner loop appends one node and one edge per intervention |
| Api.BuildTrialGraph | backend/app/main.py:687-742 | the loops append the nodes and edges of every trial in turn |
| Api.DiscoverTrials | backend/app/main.py:674-755 | the trials with an id, and the graph of their deduplicated nodes and all their edges, sourced "clinicaltrials.gov" |
| Api.TrialGraphIdsDistinct | backend/app/main.py:745-747 | the answered node ids are distinct |
| Api.TrialGraphIdsKept | backend/app/main.py:745-747 | every appended node's id is answered |
| Api.TrialGraphNodeLast | backend/app/main.py:745-747 | each answered node is the last appended node with its id |
| Api.LastWithId | backend/app/main.py:745 | a present id has a last position |
| Api.TrialNodesAppended | backend/app/main.py:692-704 | every converted trial appends its node "TRIAL:<nct_id>" of value interventions + 1 |
| Api.TrialEdgesFrom | backend/app/main.py:714-742 | each edge leaves the node of a converted trial, carries the first 200 characters of its summary, and either studies its non-empty condition or tests one of its interventions |
| Api.TrialEdgeCount | backend/app/main.py:706-742 | a trial adds one edge for its condition when it has one and one per intervention |

## Left out

- The entity tagger (spaCy) is not part of this model. Its model loading and inference are left out, and its spans are inputs.
- The regular-expression patterns of pattern relations are kept as constants. Their matches are an input.
- GraphBuild.GraphBuilder.MergeGraphs: `merge_graphs` copies `base_entities` shallowly, so raising a shared entity's count to the larger one also writes that count into the caller's base entity record. The model builds new records and does not model that aliasing.
- `merge_relationships` updates the co-occurrence records in place, and so aliases its input dictionaries. The model builds new records and does not model that aliasing.
- networkx's Louvain communities and betweenness centrality are oracle inputs, given as an `Option` that is `None` when the call raises. Graph density is a real quotient with no further contract.
- `all_shortest_paths` is an oracle, given as an `Option` that is `None` for no path. Its paths are required to be walks of the graph.
- Edge attributes are always present in the graph model, so the `.get(..., default)` fallbacks for a missing weight, evidence or type are not modelled. A missing edge gives `get_edge_data`'s defaults in `Rag.RecordOf`, where the evidence default `""` is an empty list.
- The `entities_by_position` table in `chunk_with_entities` is computed but never used, so it is left out.
- GraphAgent.GraphConversationalAgent.Subgraph: lists the returned nodes and edges in the base graph's order. networkx's subgraph view may iterate in another order, and that order is not modelled.
- Iteration over Python sets (the breadth-first frontier, the visited set) has no fixed order. The model picks elements by choice and keeps its contracts independent of that order.
- `round(confidence, 2)` and the explanation strings of hypotheses are not modelled. Floating-point formatting is outside the model.
- RagService retrieval does not model the free-text `query` argument, and `include_graph_context` is not modelled either. Scoring uses only the query entities.
- `_build_graph_context_summary` and `build_rag_prompt` are left out (prompt templates). So are the embeddings and the pickle-based `save_index`/`load_index`.
- In ContentInsightAgent, the description strings of insights and the prompts (`generate_insight_prompt`, `get_llm_prompt`) are not modelled. They are text templates with float formatting.
- `focus_entity` of `generate_insights` is accepted and never read, so it is not modelled.
- Node records with keys whose value is null are modelled as records lacking those keys.
- The literature searches and language-model calls of `AgenticAIService` are not part of this model. Their results are inputs.
- Papers.CapsFacts: the result caps are stated over the corrected de-duplication (see Findings), not over the as-written one.
- The HTTP request and HTML parse of the scholarly search are not part of this model. The text and links found in one result are inputs.
- A result link without an `href` is treated like a missing link.
- The per-result exception handler of `search` and the rate-limit sleep are not modelled.
- Regex classes `\w`, `\d` and `\s` and the letter ranges are modelled on ASCII only.
- Strings.IsSpace, Strings.IsUpper, Strings.IsAlpha, Strings.LowerChar, Strings.Lower and Strings.Strip cover ASCII only. Python's `str.isspace`, `str.isalpha`, `str.lower` and `str.strip` also treat non-ASCII whitespace, letters and capitals. So the contracts of Ner.Normalize, Ner.IsValidEntity (its letter ratio, see Ner.AlphaRatio), Papers.TitleKey, Scholar.CleanTitle, Scholar.Words, Scholar.TitlesMatch, PdfText.Normalize and Hypothesis.IsGeneric (and through it the generic penalty of Hypothesis.IndirectConfidence and the skips of Hypothesis.Specific and Hypothesis.BridgeList) hold for that ASCII reading only, and text outside ASCII is not modelled.
- The title-overlap ratio is compared exactly, as 10·overlap ≥ 7·min, not in floating point.
- PyMuPDF's `extract_text` and `extract_metadata` are parameters, and a read failure is an input outcome.
- The file name of a processed PDF is only normalised for a trailing slash, not resolved as an OS path.
- In a study, a non-string value in a field read as a string is treated as a malformed study, which gives the parse-error record. Python would copy or format such a value instead.
- The HTTP request of `search_trials` is not part of this model. The decoded answer, or its absence, is an input.
- Saving uploaded files, `uuid` job ids (a parameter here), background scheduling, file clean-up and debug printing in `main.py` are left out.
- The entity, relationship, graph and analytics services a background run calls form one analysis input. It says which stage raised, with what message, or gives the finished graph.
- The "analytics" entry of the result metadata is not in the modelled graph data.
- `import_project`: an `ImportFailed` with no detail stands for the interpreter's own error message raised inside the handler. Every `ImportFailed` becomes a 500 response.
- `discover_trials` wraps its failures in a 500 response, and that wrapping is not modelled. The search parameters it sends are modelled by `Trials.BuildSearchParams`.
- Trial-graph node metadata is modelled as a node kind.
- Pydantic request validation is not modelled.
- Api.UniqueNodes: states one entry per node id, each the last node with that id. It does not state the key order, which is the order in which each id first occurs.
- The chat endpoint and `export_project` are not modelled. The first calls a method the agent does not have; the second reads columns the ORM models lack.
- The LLM, Lava and authentication clients, the PubMed service, the database and schema declarations and the serverless adapter are not part of this model.

## Findings

| source | as written | input that shows it | evidently intended | confidence | as-written member | corrected member |
|---|---|---|---|---|---|---|
| backend/app/services/agentic_ai_service.py:200-205 | a paper whose pmid was already seen falls through to the title check and is kept when its title is new | pmids/titles [("1","A"), ("1","B")]: both papers are kept | a paper with a pmid already seen is dropped | not executed | Papers.RepeatedPmidKept | Papers.FixedDropsRepeatedPmid |
| backend/app/services/agentic_ai_service.py:200-205 | the title of a paper kept through the pmid branch is never recorded, so a later paper without a pmid and with that title is kept | pmids/titles [("1","T"), ("","T")]: both papers are kept | every kept paper's lower-cased, stripped title is recorded | not executed | Papers.UnrecordedTitleKept | Papers.FixedDropsRepeatedTitle |
