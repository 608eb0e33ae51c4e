/** `ContentInsightAgent`: summaries of the knowledge graph, of the original
    node records and of the processed documents, the key findings drawn from
    them, and the capped list of insights built on those findings. The agent
    computes its four summaries once, when it is created. */
module Insight {
  import opened Strings
  import opened Dicts
  import opened Graphs
  import GraphBuild

  /** A node record as the frontend sent it. An `id` of "" stands for a
      missing or falsy id; `None` stands for a missing key. */
  datatype SourceNode = SourceNode(id: string, group: Option<string>, count: Option<int>)

  /** A processed-document record: its optional `type` and its `name`
      ("" when missing). */
  datatype Document = Document(docType: Option<string>, name: string)

  /** One entry of an `entity_types` group. */
  datatype EntityInfo = EntityInfo(name: string, degree: nat, connections: nat, count: int)

  datatype EntitySummary = EntitySummary(
    topEntities: seq<(string, real)>,
    entityTypes: Dict<string, seq<EntityInfo>>,
    totalEntities: nat,
    entityDistribution: Dict<string, int>)

  /** `strongest_relationships` rows are (source, target, weight, type,
      evidence), which is what an `Edge` holds. */
  datatype RelationshipSummary = RelationshipSummary(
    relationshipTypes: Dict<string, int>,
    strongest: seq<Edge>,
    totalRelationships: nat,
    avgWeight: real)

  datatype DocumentSummary = DocumentSummary(
    totalDocuments: nat,
    documentTypes: Dict<string, int>,
    documentNames: seq<string>,
    documentMetadata: seq<Document>)

  /** A finding or insight record, without its free-text description. */
  datatype Finding = Finding(kind: string, title: string, entities: seq<string>, evidence: seq<seq<string>>, confidence: real)

  // ---------------------------------------------------------------------
  // Counters and top-k selection
  // ---------------------------------------------------------------------

  /** `Counter(keys)`: keys in first-occurrence order with their counts. */
  function Tally(keys: seq<string>): (d: Dict<string, int>)
    ensures d.Valid()
  {
    if keys == [] then Empty()
    else GraphBuild.Tick(Tally(keys[..|keys| - 1]), keys[|keys| - 1])
  }

  /** A key is counted exactly when it occurs, and its count is its number
      of occurrences. */
  lemma {:induction false} TallyCounts(keys: seq<string>, t: string)
    ensures t in Tally(keys).m <==> t in keys
    ensures t in Tally(keys).m ==> Tally(keys).m[t] == Count(keys, t)
  {
    if keys != [] {
      var pre, last := keys[..|keys| - 1], keys[|keys| - 1];
      assert keys == pre + [last];
      TallyCounts(pre, t);
      CountSnoc(pre, last, t);
    }
  }

  lemma CountSnoc(xs: seq<string>, y: string, x: string)
    ensures Count(xs + [y], x) == Count(xs, x) + (if x == y then 1 else 0)
  {
    assert multiset(xs + [y]) == multiset(xs) + multiset{y};
  }

  /** The counts add up to the number of keys. */
  lemma {:induction false} TallySum(keys: seq<string>)
    ensures GraphBuild.SumOf(Tally(keys).keys, Tally(keys).m) == |keys|
  {
    if keys != [] {
      var pre, t := keys[..|keys| - 1], keys[|keys| - 1];
      var d := Tally(pre);
      var v := (if t in d.m then d.m[t] else 0) + 1;
      var d' := Tally(keys);
      assert d' == d.Put(t, v);
      TallySum(pre);
      if t in d.m {
        GraphBuild.SumOfUpdate(d.keys, d.m, t, v);
      } else {
        GraphBuild.SumOfOther(d.keys, d.m, t, v);
        assert d'.keys[..|d.keys|] == d.keys;
        assert GraphBuild.SumOf(d'.keys, d'.m) == GraphBuild.SumOf(d.keys, d'.m) + v;
      }
    }
  }

  /** An element left out of the first `k` of a descending sort ranks no
      higher than any element kept. */
  lemma TopOfSorted<T>(xs: seq<T>, key: T -> real, k: nat, x: T)
    requires x in xs && x !in Take(SortDesc(xs, key), k)
    ensures forall y :: y in Take(SortDesc(xs, key), k) ==> key(y) >= key(x)
  {
    var r := SortDesc(xs, key);
    assert x in multiset(xs);
    assert x in r;
    var i :| 0 <= i < |r| && r[i] == x;
    var top := Take(r, k);
    assert i >= |top|;
    forall y | y in top ensures key(y) >= key(x) {
      var j :| 0 <= j < |top| && top[j] == y;
      assert r[j] == y;
    }
  }

  /** The head of a descending sort ranks at least as high as every element. */
  lemma SortedHead<T>(xs: seq<T>, key: T -> real, x: T)
    requires x in xs
    ensures SortDesc(xs, key) != [] && key(SortDesc(xs, key)[0]) >= key(x)
  {
    var r := SortDesc(xs, key);
    assert x in multiset(xs);
    assert x in r;
    var i :| 0 <= i < |r| && r[i] == x;
  }

  /** `max(items, key=lambda x: x[1])`: the first entry with the largest count. */
  function FirstMax(items: seq<(string, int)>): (r: (string, int))
    requires items != []
    ensures r in items
    ensures forall i :: 0 <= i < |items| ==> items[i].1 <= r.1
    ensures exists i :: 0 <= i < |items| && items[i] == r && forall j :: 0 <= j < i ==> items[j].1 < r.1
  {
    if |items| == 1 then items[0]
    else
      var m := FirstMax(items[1..]);
      if m.1 > items[0].1 then
        var i :| 0 <= i < |items[1..]| && items[1..][i] == m && forall j :: 0 <= j < i ==> items[1..][j].1 < m.1;
        assert items[i + 1] == m;
        m
      else items[0]
  }

  /** `d.items()` */
  function Items(d: Dict<string, int>): (r: seq<(string, int)>)
    requires d.Valid()
    ensures |r| == |d.keys|
    ensures forall i :: 0 <= i < |r| ==> r[i] == (d.keys[i], d.m[d.keys[i]])
  {
    seq(|d.keys|, i requires 0 <= i < |d.keys| => (d.keys[i], d.m[d.keys[i]]))
  }

  // ---------------------------------------------------------------------
  // Entity summary
  // ---------------------------------------------------------------------

  /** `dict(G.degree())`, in node order. */
  function Degrees(g: Graph): (r: seq<(string, real)>)
    ensures |r| == |g.nodes|
    ensures forall i :: 0 <= i < |r| ==> r[i] == GraphBuild.DegreePair(g, g.nodes[i])
  {
    seq(|g.nodes|, i requires 0 <= i < |g.nodes| => GraphBuild.DegreePair(g, g.nodes[i]))
  }

  /** The twenty best-connected nodes, cut again to ten. */
  function TopEntities(g: Graph): seq<(string, real)> {
    Take(Take(SortDesc(Degrees(g), GraphBuild.Second), 20), 10)
  }

  /** `{node['id']: node for node in original_nodes if node.get('id')}`. */
  function Metadata(nodes: seq<SourceNode>): map<string, SourceNode> {
    if nodes == [] then map[]
    else
      var last := nodes[|nodes| - 1];
      var m := Metadata(nodes[..|nodes| - 1]);
      if last.id != "" then m[last.id := last] else m
  }

  /** An id is a metadata key exactly when a record has it, and it maps to
      the last such record. */
  lemma {:induction false} MetadataLast(nodes: seq<SourceNode>, id: string)
    ensures id in Metadata(nodes) <==> id != "" && exists i :: 0 <= i < |nodes| && nodes[i].id == id
    ensures id in Metadata(nodes) ==>
      exists i :: 0 <= i < |nodes| && nodes[i] == Metadata(nodes)[id] && nodes[i].id == id &&
        forall j :: i < j < |nodes| ==> nodes[j].id != id
  {
    if nodes != [] {
      var pre := nodes[..|nodes| - 1];
      var last := nodes[|nodes| - 1];
      MetadataLast(pre, id);
      if last.id == id && id != "" {
        assert nodes[|nodes| - 1] == Metadata(nodes)[id];
      } else if id in Metadata(nodes) {
        var i :| 0 <= i < |pre| && pre[i] == Metadata(pre)[id] && pre[i].id == id &&
          forall j :: i < j < |pre| ==> pre[j].id != id;
        assert nodes[i] == pre[i];
      } else if id != "" {
        forall i | 0 <= i < |nodes| ensures nodes[i].id != id {
          if i < |pre| { assert nodes[i] == pre[i]; }
        }
      }
    }
  }

  /** `node.get('group', 'UNKNOWN')` */
  function GroupOf(n: SourceNode): string {
    if n.group.Some? then n.group.value else "UNKNOWN"
  }

  function TypeIn(meta: map<string, SourceNode>, id: string): string {
    if id in meta then GroupOf(meta[id]) else "UNKNOWN"
  }

  /** `node_data.get('metadata', {}).get('count', 1)` */
  function CountIn(meta: map<string, SourceNode>, id: string): int {
    if id in meta && meta[id].count.Some? then meta[id].count.value else 1
  }

  function Info(g: Graph, meta: map<string, SourceNode>, id: string): EntityInfo {
    EntityInfo(id, Degree(g, id), Degree(g, id), CountIn(meta, id))
  }

  /** `entity_types` after the first `ids`: each node appended to the list
      of its type. */
  function Grouped(g: Graph, meta: map<string, SourceNode>, ids: seq<string>): (d: Dict<string, seq<EntityInfo>>)
    ensures d.Valid()
  {
    if ids == [] then Empty()
    else
      var d := Grouped(g, meta, ids[..|ids| - 1]);
      var id := ids[|ids| - 1];
      var t := TypeIn(meta, id);
      d.Put(t, (if t in d.m then d.m[t] else []) + [Info(g, meta, id)])
  }

  /** The entries of the nodes of type `t`, in node order. */
  function Members(g: Graph, meta: map<string, SourceNode>, ids: seq<string>, t: string): seq<EntityInfo> {
    if ids == [] then []
    else
      var id := ids[|ids| - 1];
      Members(g, meta, ids[..|ids| - 1], t) + (if TypeIn(meta, id) == t then [Info(g, meta, id)] else [])
  }

  lemma {:induction false} MembersMember(g: Graph, meta: map<string, SourceNode>, ids: seq<string>, t: string, x: EntityInfo)
    ensures x in Members(g, meta, ids, t) <==> exists id :: id in ids && TypeIn(meta, id) == t && x == Info(g, meta, id)
  {
    if ids != [] {
      var pre := ids[..|ids| - 1];
      assert ids == pre + [ids[|ids| - 1]];
      MembersMember(g, meta, pre, t, x);
    }
  }

  /** A type is a group exactly when some node has it, and its group lists
      exactly the nodes of that type, in order. */
  lemma {:induction false} GroupedMembers(g: Graph, meta: map<string, SourceNode>, ids: seq<string>, t: string)
    ensures t in Grouped(g, meta, ids).m <==> exists id :: id in ids && TypeIn(meta, id) == t
    ensures t in Grouped(g, meta, ids).m ==> Grouped(g, meta, ids).m[t] == Members(g, meta, ids, t)
  {
    if ids != [] {
      var pre := ids[..|ids| - 1];
      assert ids == pre + [ids[|ids| - 1]];
      GroupedMembers(g, meta, pre, t);
      if t !in Grouped(g, meta, pre).m {
        assert Members(g, meta, pre, t) == [] by {
          if Members(g, meta, pre, t) != [] {
            var x := Members(g, meta, pre, t)[0];
            MembersMember(g, meta, pre, t, x);
          }
        }
      }
    }
  }

  lemma GroupedStep(g: Graph, meta: map<string, SourceNode>, ids: seq<string>, i: nat)
    requires i < |ids|
    ensures var d := Grouped(g, meta, ids[..i]);
      var t := TypeIn(meta, ids[i]);
      Grouped(g, meta, ids[..i + 1]) == d.Put(t, (if t in d.m then d.m[t] else []) + [Info(g, meta, ids[i])])
  {
    PrefixStep(ids, i);
  }

  /** Every node lies in the group of its type and in no other group. */
  lemma GroupedPartition(g: Graph, meta: map<string, SourceNode>, ids: seq<string>, id: string, t: string)
    requires id in ids
    ensures TypeIn(meta, id) in Grouped(g, meta, ids).m
    ensures Info(g, meta, id) in Grouped(g, meta, ids).m[TypeIn(meta, id)]
    ensures t in Grouped(g, meta, ids).m && t != TypeIn(meta, id) ==>
      forall x :: x in Grouped(g, meta, ids).m[t] ==> x.name != id
  {
    var home := TypeIn(meta, id);
    GroupedMembers(g, meta, ids, home);
    MembersMember(g, meta, ids, home, Info(g, meta, id));
    GroupedMembers(g, meta, ids, t);
    if t in Grouped(g, meta, ids).m && t != home {
      forall x | x in Grouped(g, meta, ids).m[t] ensures x.name != id {
        MembersMember(g, meta, ids, t, x);
      }
    }
  }

  /** The group of every record with a truthy id, in record order. */
  function DistributionKeys(nodes: seq<SourceNode>): (r: seq<string>)
    ensures |r| <= |nodes|
  {
    if nodes == [] then []
    else
      var last := nodes[|nodes| - 1];
      DistributionKeys(nodes[..|nodes| - 1]) + (if last.id != "" then [GroupOf(last)] else [])
  }

  lemma DistributionStep(nodes: seq<SourceNode>, j: nat)
    requires j < |nodes|
    ensures Tally(DistributionKeys(nodes[..j + 1])) ==
      if nodes[j].id != "" then GraphBuild.Tick(Tally(DistributionKeys(nodes[..j])), GroupOf(nodes[j]))
      else Tally(DistributionKeys(nodes[..j]))
  {
    PrefixStep(nodes, j);
    var pre := nodes[..j + 1];
    assert pre[..|pre| - 1] == nodes[..j] && pre[|pre| - 1] == nodes[j];
    var keys := DistributionKeys(nodes[..j]);
    if nodes[j].id != "" {
      assert DistributionKeys(pre) == keys + [GroupOf(nodes[j])];
      assert (keys + [GroupOf(nodes[j])])[..|keys|] == keys;
    } else {
      assert DistributionKeys(pre) == keys + [];
      assert keys + [] == keys;
    }
  }

  /** The number of records with a truthy id. */
  function WithId(nodes: seq<SourceNode>): nat {
    if nodes == [] then 0
    else WithId(nodes[..|nodes| - 1]) + (if nodes[|nodes| - 1].id != "" then 1 else 0)
  }

  lemma {:induction false} DistributionKeysLength(nodes: seq<SourceNode>)
    ensures |DistributionKeys(nodes)| == WithId(nodes)
  {
    if nodes != [] {
      DistributionKeysLength(nodes[..|nodes| - 1]);
    }
  }

  /** `_extract_entity_summary`: nothing for a graph without nodes. */
  function EntitySummaryOf(g: Graph, nodes: seq<SourceNode>): (r: Option<EntitySummary>)
    ensures r.Some? <==> g.nodes != []
    ensures r.Some? ==> r.value.entityDistribution.Valid()
  {
    if g.nodes == [] then None
    else Some(EntitySummary(TopEntities(g), Grouped(g, Metadata(nodes), g.nodes), |g.nodes|,
                            Tally(DistributionKeys(nodes))))
  }

  /** At most ten (node, degree) pairs, as many as there are nodes up to
      ten, best connected first; the first is a node of the highest degree,
      and no node left out has a higher degree than any node kept. */
  lemma TopEntitiesFacts(g: Graph, n: string)
    ensures var top := TopEntities(g);
      && |top| == (if |g.nodes| < 10 then |g.nodes| else 10)
      && SortedDesc(top, GraphBuild.Second)
      && (forall p :: p in top ==> p.0 in g.nodes && p.1 == Degree(g, p.0) as real)
      && (n in g.nodes ==> top[0].1 >= Degree(g, n) as real)
      && (n in g.nodes && (forall p :: p in top ==> p.0 != n) ==>
            forall p :: p in top ==> p.1 >= Degree(g, n) as real)
  {
    TopEntitiesShape(g);
    TopEntitiesFromGraph(g);
    if n in g.nodes {
      TopEntitiesBound(g, n);
    }
  }

  /** The top entities are the first ten of the degrees sorted in
      descending order. */
  lemma TopEntitiesShape(g: Graph)
    ensures var top := TopEntities(g);
      && top == Take(SortDesc(Degrees(g), GraphBuild.Second), 10)
      && |top| == (if |g.nodes| < 10 then |g.nodes| else 10)
      && SortedDesc(top, GraphBuild.Second)
  {
    var r := SortDesc(Degrees(g), GraphBuild.Second);
    assert Take(Take(r, 20), 10) == Take(r, 10);
  }

  lemma TopEntitiesFromGraph(g: Graph)
    ensures forall p :: p in TopEntities(g) ==> p.0 in g.nodes && p.1 == Degree(g, p.0) as real
  {
    var ds := Degrees(g);
    var r := SortDesc(ds, GraphBuild.Second);
    var top := TopEntities(g);
    TopEntitiesShape(g);
    forall p | p in top ensures p.0 in g.nodes && p.1 == Degree(g, p.0) as real {
      assert p in r;
      assert p in multiset(ds);
      assert p in ds;
    }
  }

  lemma TopEntitiesBound(g: Graph, n: string)
    requires n in g.nodes
    ensures var top := TopEntities(g);
      && top[0].1 >= Degree(g, n) as real
      && ((forall p :: p in top ==> p.0 != n) ==> forall p :: p in top ==> p.1 >= Degree(g, n) as real)
  {
    var ds := Degrees(g);
    var top := TopEntities(g);
    TopEntitiesShape(g);
    var i :| 0 <= i < |g.nodes| && g.nodes[i] == n;
    assert ds[i] == GraphBuild.DegreePair(g, n);
    SortedHead(ds, GraphBuild.Second, ds[i]);
    if forall p :: p in top ==> p.0 != n {
      TopOfSorted(ds, GraphBuild.Second, 10, ds[i]);
    }
  }

  /** `entity_distribution` counts the group of every record with a truthy
      id, sums to their number, and is empty exactly when there is none. */
  lemma DistributionFacts(nodes: seq<SourceNode>, t: string)
    ensures var d := Tally(DistributionKeys(nodes));
      && (t in d.m <==> t in DistributionKeys(nodes))
      && (t in d.m ==> d.m[t] == Count(DistributionKeys(nodes), t))
      && GraphBuild.SumOf(d.keys, d.m) == WithId(nodes)
      && (d.keys == [] <==> WithId(nodes) == 0)
  {
    var keys := DistributionKeys(nodes);
    TallyCounts(keys, t);
    TallySum(keys);
    DistributionKeysLength(nodes);
    var d := Tally(keys);
    if keys != [] {
      TallyCounts(keys, keys[0]);
      assert keys[0] in d.m;
    }
  }

  // ---------------------------------------------------------------------
  // Relationship summary
  // ---------------------------------------------------------------------

  /** The relationship type of every row of the edge view. */
  function RelKeys(view: seq<Edge>): (r: seq<string>)
    ensures |r| == |view|
    ensures forall i :: 0 <= i < |r| ==> r[i] == view[i].attr.relType
  {
    seq(|view|, i requires 0 <= i < |view| => view[i].attr.relType)
  }

  function Weight(e: Edge): real { e.attr.weight }

  /** `sum(edge_weights)` */
  function SumReals(ws: seq<real>): real {
    if ws == [] then 0.0 else SumReals(ws[..|ws| - 1]) + ws[|ws| - 1]
  }

  function Weights(view: seq<Edge>): (r: seq<real>)
    ensures |r| == |view|
  {
    seq(|view|, i requires 0 <= i < |view| => view[i].attr.weight)
  }

  /** The relationship-type counts and the weights of the first `i` edges. */
  ghost predicate EdgesSummed(view: seq<Edge>, i: nat, types: Dict<string, int>, weights: seq<real>)
    requires i <= |view|
  {
    types == Tally(RelKeys(view[..i])) && weights == Weights(view[..i])
  }

  lemma EdgesSummedStep(view: seq<Edge>, i: nat, types: Dict<string, int>, weights: seq<real>)
    requires i < |view| && EdgesSummed(view, i, types, weights)
    ensures EdgesSummed(view, i + 1, GraphBuild.Tick(types, view[i].attr.relType), weights + [view[i].attr.weight])
  {
    PrefixStep(view, i);
    assert RelKeys(view[..i + 1]) == RelKeys(view[..i]) + [view[i].attr.relType];
    assert Weights(view[..i + 1]) == Weights(view[..i]) + [view[i].attr.weight];
  }

  /** `_extract_relationship_summary`: nothing when the edge view is empty. */
  function RelationshipSummaryOf(g: Graph): (r: Option<RelationshipSummary>)
    ensures r.Some? ==> r.value.relationshipTypes.Valid()
  {
    var view := EdgeView(g);
    if view == [] then None
    else
      var ws := Weights(view);
      Some(RelationshipSummary(Tally(RelKeys(view)), Take(SortDesc(view, Weight), 10), |view|,
                               SumReals(ws) / |ws| as real))
  }

  /** There is no relationship summary exactly when the graph has no edges. */
  lemma RelationshipSummaryEmpty(g: Graph)
    requires Graphs.Valid(g)
    ensures RelationshipSummaryOf(g).None? <==> g.edges == []
  {
    if g.edges != [] {
      EdgeViewComplete(g, g.edges[0]);
    } else if EdgeView(g) != [] {
      EdgeViewSound(g, EdgeView(g)[0]);
    }
  }

  /** `relationship_types` counts the edge-view rows of each type and sums
      to their number, `total_relationships`. */
  lemma RelationshipTypesFacts(view: seq<Edge>, t: string)
    ensures var d := Tally(RelKeys(view));
      && (t in d.m <==> exists i :: 0 <= i < |view| && view[i].attr.relType == t)
      && (t in d.m ==> d.m[t] == Count(RelKeys(view), t))
      && GraphBuild.SumOf(d.keys, d.m) == |view|
  {
    TallyCounts(RelKeys(view), t);
    TallySum(RelKeys(view));
  }

  /** At most ten strongest rows, heaviest first, each an edge of the graph
      with its data; the first is a heaviest row, and no row left out
      outweighs a row kept. */
  lemma StrongestFacts(g: Graph, f: Edge)
    ensures var top := Take(SortDesc(EdgeView(g), Weight), 10);
      && |top| <= 10
      && SortedDesc(top, Weight)
      && (f in top ==> exists e :: e in g.edges && Joins(e, f.u, f.v) && e.attr == f.attr)
      && (f in EdgeView(g) ==> top[0].attr.weight >= f.attr.weight)
      && (f in EdgeView(g) && f !in top ==> forall x :: x in top ==> x.attr.weight >= f.attr.weight)
  {
    var view := EdgeView(g);
    var top := Take(SortDesc(view, Weight), 10);
    if f in top {
      assert f in SortDesc(view, Weight);
      assert f in multiset(view);
      EdgeViewSound(g, f);
    }
    if f in view {
      SortedHead(view, Weight, f);
      if f !in top {
        TopOfSorted(view, Weight, 10, f);
      }
    }
  }

  // ---------------------------------------------------------------------
  // Document summary
  // ---------------------------------------------------------------------

  /** `doc.get('type', 'UNKNOWN')` for every document. */
  function DocTypes(docs: seq<Document>): (r: seq<string>)
    ensures |r| == |docs|
  {
    seq(|docs|, i requires 0 <= i < |docs| => if docs[i].docType.Some? then docs[i].docType.value else "UNKNOWN")
  }

  /** The truthy document names, in order. */
  function DocNames(docs: seq<Document>): (r: seq<string>)
    ensures |r| <= |docs|
  {
    if docs == [] then []
    else
      var last := docs[|docs| - 1];
      DocNames(docs[..|docs| - 1]) + (if last.name != "" then [last.name] else [])
  }

  lemma {:induction false} DocNamesMember(docs: seq<Document>, x: string)
    ensures x in DocNames(docs) <==> x != "" && exists i :: 0 <= i < |docs| && docs[i].name == x
  {
    if docs != [] {
      var pre := docs[..|docs| - 1];
      DocNamesMember(pre, x);
      if x != "" && x !in DocNames(pre) && x != docs[|docs| - 1].name {
        forall i | 0 <= i < |docs| ensures docs[i].name != x {
          if i < |pre| { assert docs[i] == pre[i]; }
        }
      }
      if x in DocNames(pre) {
        var i :| 0 <= i < |pre| && pre[i].name == x;
        assert docs[i] == pre[i];
      }
    }
  }

  /** `_extract_document_summary`: nothing without documents. */
  function DocumentSummaryOf(docs: seq<Document>): Option<DocumentSummary> {
    if docs == [] then None
    else Some(DocumentSummary(|docs|, Tally(DocTypes(docs)), DocNames(docs), docs))
  }

  /** The document summary's promises: type counts that add up to the
      number of documents, and exactly the non-empty names. */
  lemma DocumentSummaryFacts(docs: seq<Document>, t: string, x: string)
    ensures DocumentSummaryOf(docs).None? <==> docs == []
    ensures DocumentSummaryOf(docs).Some? ==>
      var s := DocumentSummaryOf(docs).value;
      && s.totalDocuments == |docs| && s.documentMetadata == docs
      && GraphBuild.SumOf(s.documentTypes.keys, s.documentTypes.m) == |docs|
      && (t in s.documentTypes.m ==> s.documentTypes.m[t] == Count(DocTypes(docs), t))
      && (x in s.documentNames <==> x != "" && exists i :: 0 <= i < |docs| && docs[i].name == x)
  {
    TallySum(DocTypes(docs));
    TallyCounts(DocTypes(docs), t);
    DocNamesMember(docs, x);
  }

  // ---------------------------------------------------------------------
  // Findings and insights
  // ---------------------------------------------------------------------

  /** The central-entity finding about node `name`. */
  function CentralEntity(name: string): Finding {
    Finding("central_entity", "Most Connected Entity: " + name, [name], [], 0.9)
  }

  /** The strongest-relationship finding about row `e`: its evidence list,
      as one item, when that list is non-empty. */
  function StrongRelationship(e: Edge): Finding {
    Finding("strong_relationship", "Strongest Relationship: " + e.u + " → " + e.v, [e.u, e.v],
            if e.attr.evidence != [] then [e.attr.evidence] else [], 0.8)
  }

  /** The dominant-type finding: the first type with the largest count,
      naming every type. */
  function EntityDominance(d: Dict<string, int>): Finding
    requires d.Valid() && d.keys != []
  {
    Finding("entity_dominance", "Dominant Entity Type: " + FirstMax(Items(d)).0, d.keys, [], 0.7)
  }

  /** `_extract_key_findings`: the best-connected entity, the strongest
      relationship and the dominant entity type, each when its data is
      there. */
  function KeyFindings(es: Option<EntitySummary>, rs: Option<RelationshipSummary>): (r: seq<Finding>)
    requires es.Some? ==> es.value.entityDistribution.Valid()
    ensures |r| <= 3
  {
    (if es.Some? && es.value.topEntities != [] then [CentralEntity(es.value.topEntities[0].0)] else []) +
    (if rs.Some? && rs.value.strongest != [] then [StrongRelationship(rs.value.strongest[0])] else []) +
    (if es.Some? && es.value.entityDistribution.keys != [] then [EntityDominance(es.value.entityDistribution)] else [])
  }

  /** On a graph with nodes the first finding is the central entity: a node
      of the highest degree. */
  lemma FirstFindingIsCentral(g: Graph, nodes: seq<SourceNode>, rs: Option<RelationshipSummary>, n: string)
    requires g.nodes != []
    ensures var f := KeyFindings(EntitySummaryOf(g, nodes), rs)[0];
      && f.kind == "central_entity" && |f.entities| == 1 && f.entities[0] in g.nodes
      && f.title == "Most Connected Entity: " + f.entities[0]
      && (n in g.nodes ==> Degree(g, f.entities[0]) >= Degree(g, n))
  {
    TopEntitiesFacts(g, n);
    var top := TopEntities(g);
    assert top[0] in top;
    var es := EntitySummaryOf(g, nodes);
    assert KeyFindings(es, rs)[0] == CentralEntity(top[0].0);
  }

  /** With a relationship summary the strongest-relationship finding comes
      right after the central entity's (if any) and names the endpoints of
      a heaviest edge-view row, with that row's evidence list. */
  lemma StrongestFinding(es: Option<EntitySummary>, g: Graph, f: Edge)
    requires es.Some? ==> es.value.entityDistribution.Valid()
    requires EdgeView(g) != []
    ensures var x := KeyFindings(es, RelationshipSummaryOf(g))[if es.Some? && es.value.topEntities != [] then 1 else 0];
      var e := SortDesc(EdgeView(g), Weight)[0];
      && e in EdgeView(g)
      && x.kind == "strong_relationship" && x.entities == [e.u, e.v]
      && x.evidence == (if e.attr.evidence != [] then [e.attr.evidence] else [])
      && (f in EdgeView(g) ==> e.attr.weight >= f.attr.weight)
  {
    var view := EdgeView(g);
    var rs := RelationshipSummaryOf(g);
    var e := SortDesc(view, Weight)[0];
    assert e in multiset(view);
    assert rs.value.strongest[0] == e;
    if f in view {
      SortedHead(view, Weight, f);
    }
    var k := if es.Some? && es.value.topEntities != [] then 1 else 0;
    assert KeyFindings(es, rs)[k] == StrongRelationship(e);
  }

  /** With a non-empty distribution the last finding is the dominant type:
      one with the largest count, first in key order among those, listing
      every type. */
  lemma LastFindingIsDominant(es: Option<EntitySummary>, rs: Option<RelationshipSummary>)
    requires es.Some? && es.value.entityDistribution.Valid() && es.value.entityDistribution.keys != []
    ensures var fs := KeyFindings(es, rs);
      var d := es.value.entityDistribution;
      && fs[|fs| - 1].kind == "entity_dominance" && fs[|fs| - 1].entities == d.keys
      && exists i :: 0 <= i < |d.keys| && fs[|fs| - 1].title == "Dominant Entity Type: " + d.keys[i] &&
           (forall u :: u in d.m ==> d.m[u] <= d.m[d.keys[i]]) &&
           (forall j :: 0 <= j < i ==> d.m[d.keys[j]] < d.m[d.keys[i]])
  {
    var d := es.value.entityDistribution;
    var fs := KeyFindings(es, rs);
    assert fs[|fs| - 1] == EntityDominance(d);
    DominantKey(d);
  }

  /** The first maximum of a distribution's items is a key with the largest
      count, and every key before it has a smaller one. */
  lemma DominantKey(d: Dict<string, int>)
    requires d.Valid() && d.keys != []
    ensures exists i :: 0 <= i < |d.keys| && FirstMax(Items(d)).0 == d.keys[i] && DominantAt(d, i)
  {
    var items := Items(d);
    var most := FirstMax(items);
    var i :| 0 <= i < |items| && items[i] == most && forall j :: 0 <= j < i ==> items[j].1 < most.1;
    forall u | u in d.m ensures d.m[u] <= most.1 {
      var h :| 0 <= h < |d.keys| && d.keys[h] == u;
      assert items[h].1 == d.m[u];
    }
    forall j | 0 <= j < i ensures d.m[d.keys[j]] < most.1 {
      assert items[j].1 == d.m[d.keys[j]];
    }
    assert most.0 == d.keys[i] && DominantAt(d, i);
  }

  /** `d.keys[i]` has the largest count, and every key before it a smaller one. */
  ghost predicate DominantAt(d: Dict<string, int>, i: nat)
    requires d.Valid() && i < |d.keys|
  {
    (forall u :: u in d.m ==> d.m[u] <= d.m[d.keys[i]]) &&
    (forall j :: 0 <= j < i ==> d.m[d.keys[j]] < d.m[d.keys[i]])
  }

  /** A Python slice of `c` is a prefix of it, no longer than a
      non-negative cap, that keeps a prefix `p` when the cap leaves room. */
  lemma SliceKeeps<T>(c: seq<T>, n: int, p: seq<T>)
    requires p <= c
    ensures var r := GraphBuild.Slice(c, n);
      && r == c[..|r|]
      && (n >= 0 ==> |r| <= n)
      && (forall i :: 0 <= i < |r| && i < |p| ==> r[i] == p[i])
      && (n >= |p| ==> p <= r)
  {
    var r := GraphBuild.Slice(c, n);
    if n >= |p| {
      assert |r| >= |p|;
      assert r[..|p|] == c[..|p|];
    }
  }

  /** The insight candidates: the key findings, then the research-focus
      pattern when at least two top entities exist, then the dominant
      relationship type when more than one type occurs. */
  function Candidates(es: Option<EntitySummary>, rs: Option<RelationshipSummary>, findings: seq<Finding>): (r: seq<Finding>)
    requires rs.Some? ==> rs.value.relationshipTypes.Valid()
    ensures findings <= r && |r| <= |findings| + 2
  {
    var focus :=
      if es.Some? && |Take(es.value.topEntities, 3)| >= 2 then
        var a, b := es.value.topEntities[0].0, es.value.topEntities[1].0;
        [Finding("pattern", "Research Focus: " + a + " and " + b, [a, b], [], 0.8)]
      else [];
    var dominant :=
      if rs.Some? && |rs.value.relationshipTypes.keys| > 1 then
        var most := FirstMax(Items(rs.value.relationshipTypes));
        [Finding("pattern", "Dominant Relationship Type: " + most.0, [], [], 0.7)]
      else [];
    findings + focus + dominant
  }

  // ---------------------------------------------------------------------
  // The agent
  // ---------------------------------------------------------------------

  /** The summaries and findings are those of graph `g`, the documents and
      the node records. */
  ghost predicate Summarised(g: Graph, docs: seq<Document>, nodes: seq<SourceNode>, es: Option<EntitySummary>,
                             rs: Option<RelationshipSummary>, ds: Option<DocumentSummary>, kf: seq<Finding>) {
    && Graphs.Valid(g)
    && es == EntitySummaryOf(g, nodes)
    && rs == RelationshipSummaryOf(g)
    && ds == DocumentSummaryOf(docs)
    && kf == KeyFindings(es, rs)
  }

  class ContentInsightAgent {
    const graph: Graph
    const documentsData: seq<Document>
    const originalNodes: seq<SourceNode>
    var entitySummary: Option<EntitySummary>
    var relationshipSummary: Option<RelationshipSummary>
    var documentSummary: Option<DocumentSummary>
    var keyFindings: seq<Finding>

    /** The summaries are those of the graph and records the agent holds. */
    ghost predicate Valid()
      reads this
    {
      Summarised(graph, documentsData, originalNodes, entitySummary, relationshipSummary, documentSummary, keyFindings)
    }

    /** The summaries' dictionaries are well formed, as `Valid` implies. */
    ghost predicate Formed()
      reads this
    {
      && (entitySummary.Some? ==> entitySummary.value.entityDistribution.Valid())
      && (relationshipSummary.Some? ==> relationshipSummary.value.relationshipTypes.Valid())
    }

    /** `__init__`: a missing document or node list is an empty one. */
    constructor(g: Graph, documents: Option<seq<Document>>, nodes: Option<seq<SourceNode>>)
      requires Graphs.Valid(g)
      ensures graph == g
      ensures documentsData == (if documents.Some? then documents.value else [])
      ensures originalNodes == (if nodes.Some? then nodes.value else [])
      ensures Valid()
    {
      graph := g;
      documentsData := if documents.Some? then documents.value else [];
      originalNodes := if nodes.Some? then nodes.value else [];
      new;
      var es := ExtractEntitySummary();
      var rs := ExtractRelationshipSummary();
      var ds := DocumentSummaryOf(documentsData);
      var kf := KeyFindings(es, rs);
      assert Summarised(graph, documentsData, originalNodes, es, rs, ds, kf);
      entitySummary := es;
      relationshipSummary := rs;
      documentSummary := ds;
      keyFindings := kf;
    }

    /** `_extract_entity_summary`, with its grouping and counting loops. */
    method ExtractEntitySummary() returns (s: Option<EntitySummary>)
      ensures s == EntitySummaryOf(graph, originalNodes)
    {
      if graph.nodes == [] {
        return None;
      }
      var meta := Metadata(originalNodes);
      var entityTypes: Dict<string, seq<EntityInfo>> := Empty();
      var i := 0;
      while i < |graph.nodes|
        invariant 0 <= i <= |graph.nodes|
        invariant entityTypes == Grouped(graph, meta, graph.nodes[..i])
      {
        GroupedStep(graph, meta, graph.nodes, i);
        var id := graph.nodes[i];
        var t := TypeIn(meta, id);
        var group := if t in entityTypes.m then entityTypes.m[t] else [];
        entityTypes := entityTypes.Put(t, group + [Info(graph, meta, id)]);
        i := i + 1;
      }
      PrefixAll(graph.nodes);
      var distribution: Dict<string, int> := Empty();
      var j := 0;
      while j < |originalNodes|
        invariant 0 <= j <= |originalNodes|
        invariant distribution == Tally(DistributionKeys(originalNodes[..j]))
      {
        DistributionStep(originalNodes, j);
        var node := originalNodes[j];
        if node.id != "" {
          distribution := GraphBuild.Tick(distribution, GroupOf(node));
        }
        j := j + 1;
      }
      PrefixAll(originalNodes);
      s := Some(EntitySummary(TopEntities(graph), entityTypes, |graph.nodes|, distribution));
    }

    /** `_extract_relationship_summary`, with its loop over the edge view. */
    method ExtractRelationshipSummary() returns (s: Option<RelationshipSummary>)
      ensures s == RelationshipSummaryOf(graph)
    {
      var view := EdgeView(graph);
      if view == [] {
        return None;
      }
      var relationshipTypes: Dict<string, int> := Empty();
      var edgeWeights: seq<real> := [];
      var i := 0;
      while i < |view|
        invariant 0 <= i <= |view|
        invariant EdgesSummed(view, i, relationshipTypes, edgeWeights)
      {
        EdgesSummedStep(view, i, relationshipTypes, edgeWeights);
        relationshipTypes := GraphBuild.Tick(relationshipTypes, view[i].attr.relType);
        edgeWeights := edgeWeights + [view[i].attr.weight];
        i := i + 1;
      }
      PrefixAll(view);
      s := Some(RelationshipSummary(relationshipTypes, Take(SortDesc(view, Weight), 10), |view|,
                                    SumReals(edgeWeights) / |edgeWeights| as real));
    }

    /** `generate_insights`: the candidates cut to `max_results` (a Python
        slice, so a negative cap drops from the end). The focus entity is
        not used. */
    function GenerateInsights(focusEntity: Option<string>, maxResults: int): (r: seq<Finding>)
      reads this
      requires Formed()
    {
      GraphBuild.Slice(Candidates(entitySummary, relationshipSummary, keyFindings), maxResults)
    }

    /** The insights start with the key findings, hold at most
        `max_results` items and at most five in all, and keep every key
        finding when the cap leaves room for them. */
    lemma GenerateInsightsFacts(focusEntity: Option<string>, maxResults: int)
      requires Valid()
      ensures var r := GenerateInsights(focusEntity, maxResults);
        && (maxResults >= 0 ==> |r| <= maxResults)
        && |r| <= 5
        && (forall i :: 0 <= i < |r| && i < |keyFindings| ==> r[i] == keyFindings[i])
        && (maxResults >= |keyFindings| ==> keyFindings <= r)
    {
      var c := Candidates(entitySummary, relationshipSummary, keyFindings);
      SliceKeeps(c, maxResults, keyFindings);
    }
  }
}
