/** `GraphBuilder`: the knowledge graph built from the unique entities and
    the merged relationships, its conversion to the output schema, the
    filtered view and the merge of two graphs. The builder owns one mutable
    networkx graph, modelled as a `Graphs.Graph` value in a field. */
module GraphBuild {
  import opened Strings
  import opened Dicts
  import opened Graphs
  import Ner
  import Rel = Relationships

  /** The values of the `EntityType` enumeration; converting any other
      string to it raises `ValueError`. */
  const EntityTypes: seq<string> := [
    "ENTITY", "GENE_OR_GENE_PRODUCT", "CHEMICAL", "DISEASE", "ORGANISM",
    "CELL_TYPE", "TISSUE", "ORGAN", "UNKNOWN"
  ]

  /** A `Node` of the output schema; `count` and `degree` are its metadata. */
  datatype Node = Node(id: string, group: string, value: int, count: int, degree: int)

  /** An `Edge` of the output schema; `allEvidence` and `relType` are its metadata. */
  datatype EdgeOut = EdgeOut(source: string, target: string, value: real, title: string,
                             allEvidence: seq<string>, relType: string)

  /** Graph-level metadata: the totals of `build_graph`, or the flag of `filter_graph`. */
  datatype Metadata = Totals(totalNodes: int, totalEdges: int, density: real) | Filtered

  datatype GraphData = GraphData(nodes: seq<Node>, edges: seq<EdgeOut>, metadata: Metadata)

  // ---------------------------------------------------------------------
  // Building
  // ---------------------------------------------------------------------

  /** The nodes of the first entities, in dictionary order, keyed by their
      original names with type and count as attributes. */
  function AddEntityNodes(g: Graph, keys: seq<string>, m: map<string, Ner.EntityInfo>): (h: Graph)
    requires Valid(g) && forall k :: k in keys ==> k in m
    ensures Valid(h) && h.edges == g.edges
  {
    if keys == [] then g
    else
      var info := m[keys[|keys| - 1]];
      AddNode(AddEntityNodes(g, keys[..|keys| - 1], m), info.originalName, NodeAttr(info.entityType, info.count))
  }

  /** The edges of the first relationships; one whose endpoints are not both
      nodes is skipped, and a repeated pair takes the later attributes. */
  function AddRelEdges(g: Graph, rels: seq<Rel.Relationship>): (h: Graph)
    requires Valid(g)
    ensures Valid(h) && h.nodes == g.nodes && h.attrs == g.attrs
  {
    if rels == [] then g
    else
      var h := AddRelEdges(g, rels[..|rels| - 1]);
      var r := rels[|rels| - 1];
      if r.source in h.attrs && r.target in h.attrs
      then AddEdge(h, r.source, r.target, EdgeAttr(r.weight, r.evidence, r.relType))
      else h
  }

  /** The graph `build_graph` leaves in `self.graph`: it depends on nothing
      the graph held before. */
  function Built(entities: Dict<string, Ner.EntityInfo>, rels: seq<Rel.Relationship>): (g: Graph)
    requires entities.Valid()
    ensures Valid(g)
  {
    AddRelEdges(AddEntityNodes(EmptyGraph(), entities.keys, entities.m), rels)
  }

  /** `nx.density`: twice the edges over the ordered node pairs; 0.0 for
      fewer than two nodes. */
  function Density(g: Graph): real {
    var n := |g.nodes|;
    if n <= 1 then 0.0 else (2 * |g.edges|) as real / ((n * (n - 1)) as real)
  }

  /** The output node of `id`, or `None` where the type is not an `EntityType`. */
  function ToNode(g: Graph, id: string): Option<Node>
    requires id in g.attrs
  {
    var a := g.attrs[id];
    if a.entityType in EntityTypes then Some(Node(id, a.entityType, Degree(g, id), a.count, Degree(g, id))) else None
  }

  /** `_build_nodes` over the first ids; `None` when a conversion raises. */
  function NodesOf(g: Graph, ids: seq<string>): Option<seq<Node>>
    requires forall id :: id in ids ==> id in g.attrs
  {
    if ids == [] then Some([])
    else
      match NodesOf(g, ids[..|ids| - 1])
      case None => None
      case Some(ns) =>
        match ToNode(g, ids[|ids| - 1])
        case None => None
        case Some(n) => Some(ns + [n])
  }

  /** An edge's title: its first evidence sentence, else a generated phrase. */
  function Title(e: Edge): string {
    if e.attr.evidence != [] then e.attr.evidence[0] else e.u + " co-occurs with " + e.v
  }

  function ToEdgeOut(e: Edge): EdgeOut {
    EdgeOut(e.u, e.v, e.attr.weight, Title(e), e.attr.evidence, e.attr.relType)
  }

  /** `_build_edges` over the first rows of the edge view. */
  function EdgesOf(view: seq<Edge>): (es: seq<EdgeOut>)
    ensures |es| == |view|
  {
    if view == [] then [] else EdgesOf(view[..|view| - 1]) + [ToEdgeOut(view[|view| - 1])]
  }

  /** What `build_graph` returns for the graph it built. */
  function DataOf(g: Graph): Option<GraphData>
    requires Valid(g)
  {
    match NodesOf(g, g.nodes)
    case None => None
    case Some(ns) =>
      var es := EdgesOf(EdgeView(g));
      Some(GraphData(ns, es, Totals(|ns|, |es|, Density(g))))
  }

  lemma AddEntityNodesStep(g: Graph, keys: seq<string>, m: map<string, Ner.EntityInfo>, i: nat)
    requires Valid(g) && i < |keys| && forall k :: k in keys ==> k in m
    ensures AddEntityNodes(g, keys[..i + 1], m) ==
      AddNode(AddEntityNodes(g, keys[..i], m), m[keys[i]].originalName, NodeAttr(m[keys[i]].entityType, m[keys[i]].count))
  {
    PrefixStep(keys, i);
  }

  lemma AddRelEdgesStep(g: Graph, rels: seq<Rel.Relationship>, i: nat)
    requires Valid(g) && i < |rels|
    ensures var h := AddRelEdges(g, rels[..i]);
      var r := rels[i];
      AddRelEdges(g, rels[..i + 1]) ==
        if r.source in h.attrs && r.target in h.attrs
        then AddEdge(h, r.source, r.target, EdgeAttr(r.weight, r.evidence, r.relType))
        else h
  {
    PrefixStep(rels, i);
  }

  lemma NodesOfStep(g: Graph, ids: seq<string>, i: nat)
    requires i < |ids| && forall id :: id in ids ==> id in g.attrs
    ensures NodesOf(g, ids[..i + 1]) ==
      match NodesOf(g, ids[..i])
      case None => None
      case Some(ns) =>
        match ToNode(g, ids[i])
        case None => None
        case Some(n) => Some(ns + [n])
  {
    PrefixStep(ids, i);
  }

  /** Once a conversion has raised, the rest of the ids do not matter. */
  lemma {:induction false} NodesOfFails(g: Graph, ids: seq<string>, i: nat)
    requires i <= |ids| && forall id :: id in ids ==> id in g.attrs
    requires NodesOf(g, ids[..i]) == None
    ensures NodesOf(g, ids) == None
    decreases |ids| - i
  {
    if i < |ids| {
      NodesOfStep(g, ids, i);
      NodesOfFails(g, ids, i + 1);
    } else {
      PrefixAll(ids);
    }
  }

  lemma EdgesOfStep(view: seq<Edge>, i: nat)
    requires i < |view|
    ensures EdgesOf(view[..i + 1]) == EdgesOf(view[..i]) + [ToEdgeOut(view[i])]
  {
    PrefixStep(view, i);
  }

  lemma EdgesOfAt(view: seq<Edge>, i: nat)
    requires i < |view|
    ensures EdgesOf(view)[i] == ToEdgeOut(view[i])
  {
    if i < |view| - 1 {
      EdgesOfAt(view[..|view| - 1], i);
    }
  }

  /** The nodes are exactly the original names of the entities. */
  lemma {:induction false} EntityNodes(keys: seq<string>, m: map<string, Ner.EntityInfo>, n: string)
    requires forall k :: k in keys ==> k in m
    ensures n in AddEntityNodes(EmptyGraph(), keys, m).attrs <==> exists k :: k in keys && m[k].originalName == n
  {
    if keys != [] {
      var pre, last := keys[..|keys| - 1], keys[|keys| - 1];
      EntityNodes(pre, m, n);
      assert forall k :: k in keys <==> k in pre || k == last;
    }
  }

  /** Every edge of `h` links the two names of one of `rels`. */
  ghost predicate EdgesFromRels(h: Graph, rels: seq<Rel.Relationship>) {
    forall i :: 0 <= i < |h.edges| ==> exists r :: r in rels && Joins(h.edges[i], r.source, r.target)
  }

  lemma EdgesFromMore(h: Graph, pre: seq<Rel.Relationship>, rels: seq<Rel.Relationship>, i: nat, e: Edge)
    requires EdgesFromRels(h, pre) && i < |h.edges| && forall r :: r in pre ==> r in rels
    requires e.u == h.edges[i].u && e.v == h.edges[i].v
    ensures exists r :: r in rels && Joins(e, r.source, r.target)
  {
    var x :| x in pre && Joins(h.edges[i], x.source, x.target);
    assert x in rels && Joins(e, x.source, x.target);
  }

  /** Every edge links the two names of some relationship. */
  lemma {:induction false} RelEdgesSound(g: Graph, rels: seq<Rel.Relationship>)
    requires Valid(g) && g.edges == []
    ensures EdgesFromRels(AddRelEdges(g, rels), rels)
  {
    if rels != [] {
      var pre := rels[..|rels| - 1];
      var r := rels[|rels| - 1];
      var h0 := AddRelEdges(g, pre);
      RelEdgesSound(g, pre);
      var h := AddRelEdges(g, rels);
      forall i | 0 <= i < |h.edges|
        ensures exists x :: x in rels && Joins(h.edges[i], x.source, x.target)
      {
        if r.source in h0.attrs && r.target in h0.attrs {
          AddEdgeShape(h0, r.source, r.target, EdgeAttr(r.weight, r.evidence, r.relType));
          if i < |h0.edges| {
            EdgesFromMore(h0, pre, rels, i, h.edges[i]);
          } else {
            assert Joins(h.edges[i], r.source, r.target);
          }
        } else {
          EdgesFromMore(h0, pre, rels, i, h.edges[i]);
        }
      }
    }
  }

  /** Every relationship whose two names are nodes gets an edge. */
  lemma {:induction false} RelEdgesComplete(g: Graph, rels: seq<Rel.Relationship>, r: Rel.Relationship)
    requires Valid(g) && r in rels && r.source in g.attrs && r.target in g.attrs
    ensures HasEdge(AddRelEdges(g, rels), r.source, r.target)
  {
    var pre := rels[..|rels| - 1];
    var last := rels[|rels| - 1];
    var h0 := AddRelEdges(g, pre);
    if r == last {
      assert HasEdge(AddRelEdges(g, rels), r.source, r.target);
    } else {
      assert rels == pre + [last];
      RelEdgesComplete(g, pre, r);
      if last.source in h0.attrs && last.target in h0.attrs {
        AddEdgeKeeps(h0, last.source, last.target, EdgeAttr(last.weight, last.evidence, last.relType), r.source, r.target);
      }
    }
  }

  /** `build_graph` keeps only relationships between two nodes: the nodes are
      the entities' original names, each edge links the names of some
      relationship, and every relationship between two nodes has an edge. */
  lemma BuiltFacts(entities: Dict<string, Ner.EntityInfo>, rels: seq<Rel.Relationship>)
    requires entities.Valid()
    ensures var g := Built(entities, rels);
      (forall n :: n in g.attrs <==> exists k :: k in entities.keys && entities.m[k].originalName == n) &&
      EdgesFromRels(g, rels) &&
      (forall r :: r in rels && r.source in g.attrs && r.target in g.attrs ==> HasEdge(g, r.source, r.target))
  {
    var g0 := AddEntityNodes(EmptyGraph(), entities.keys, entities.m);
    forall n ensures n in g0.attrs <==> exists k :: k in entities.keys && entities.m[k].originalName == n {
      EntityNodes(entities.keys, entities.m, n);
    }
    RelEdgesSound(g0, rels);
    forall r | r in rels && r.source in g0.attrs && r.target in g0.attrs
      ensures HasEdge(Built(entities, rels), r.source, r.target)
    {
      RelEdgesComplete(g0, rels, r);
    }
  }

  /** `_build_nodes` succeeds exactly when every type is an `EntityType`;
      then each node's value and degree are its degree in the graph. */
  lemma {:induction false} NodesOfFacts(g: Graph, ids: seq<string>)
    requires forall id :: id in ids ==> id in g.attrs
    ensures NodesOf(g, ids).Some? <==> forall id :: id in ids ==> g.attrs[id].entityType in EntityTypes
    ensures NodesOf(g, ids).Some? ==>
      var ns := NodesOf(g, ids).value;
      |ns| == |ids| &&
      forall i :: 0 <= i < |ids| ==>
        ns[i].id == ids[i] && ns[i].group == g.attrs[ids[i]].entityType &&
        ns[i].value == Degree(g, ids[i]) && ns[i].degree == Degree(g, ids[i]) && ns[i].count == g.attrs[ids[i]].count
  {
    if ids != [] {
      var pre := ids[..|ids| - 1];
      NodesOfFacts(g, pre);
      assert ids == pre + [ids[|ids| - 1]];
    }
  }

  /** The output lists every node and every row of the edge view; the totals
      are the lengths of the two lists, and an edge's title is its first
      evidence sentence, or "<source> co-occurs with <target>" without one. */
  lemma DataFacts(g: Graph)
    requires Valid(g) && DataOf(g).Some?
    ensures var d := DataOf(g).value;
      var view := EdgeView(g);
      |d.nodes| == |g.nodes| && |d.edges| == |view| &&
      d.metadata == Totals(|d.nodes|, |d.edges|, Density(g)) &&
      forall i :: 0 <= i < |view| ==>
        d.edges[i].source == view[i].u && d.edges[i].target == view[i].v &&
        d.edges[i].title == (if view[i].attr.evidence != [] then view[i].attr.evidence[0]
                             else view[i].u + " co-occurs with " + view[i].v)
  {
    NodesOfFacts(g, g.nodes);
    forall i | 0 <= i < |EdgeView(g)| ensures EdgesOf(EdgeView(g))[i] == ToEdgeOut(EdgeView(g)[i]) {
      EdgesOfAt(EdgeView(g), i);
    }
  }

  // ---------------------------------------------------------------------
  // Analytics
  // ---------------------------------------------------------------------

  datatype Analytics = Analytics(totalNodes: int, totalEdges: int, density: real, avgDegree: real,
                                 communities: seq<seq<string>>, centrality: seq<(string, real)>,
                                 entityCounts: Dict<string, int>)

  /** `counts[t] = counts.get(t, 0) + 1` */
  function Tick(d: Dict<string, int>, t: string): (r: Dict<string, int>)
    requires d.Valid()
    ensures r.Valid()
  {
    d.Put(t, (if t in d.m then d.m[t] else 0) + 1)
  }

  /** `_count_entity_types` over the first ids. */
  function TypeCounts(g: Graph, ids: seq<string>): (d: Dict<string, int>)
    requires forall id :: id in ids ==> id in g.attrs
    ensures d.Valid()
  {
    if ids == [] then Empty()
    else
      Tick(TypeCounts(g, ids[..|ids| - 1]), g.attrs[ids[|ids| - 1]].entityType)
  }

  function SumOf(keys: seq<string>, m: map<string, int>): int
    requires forall k :: k in keys ==> k in m
  {
    if keys == [] then 0 else SumOf(keys[..|keys| - 1], m) + m[keys[|keys| - 1]]
  }

  lemma {:induction false} SumOfOther(keys: seq<string>, m: map<string, int>, k: string, v: int)
    requires forall x :: x in keys ==> x in m
    requires k !in keys
    ensures SumOf(keys, m[k := v]) == SumOf(keys, m)
  {
    if keys != [] {
      SumOfOther(keys[..|keys| - 1], m, k, v);
    }
  }

  lemma {:induction false} SumOfUpdate(keys: seq<string>, m: map<string, int>, k: string, v: int)
    requires forall x :: x in keys ==> x in m
    requires Distinct(keys) && k in keys
    ensures SumOf(keys, m[k := v]) == SumOf(keys, m) - m[k] + v
  {
    var pre := keys[..|keys| - 1];
    var last := keys[|keys| - 1];
    assert keys == pre + [last];
    if last == k {
      assert k !in pre;
      SumOfOther(pre, m, k, v);
    } else {
      SumOfUpdate(pre, m, k, v);
    }
  }

  /** The type counts add up to the number of nodes counted. */
  lemma {:induction false} TypeCountsSum(g: Graph, ids: seq<string>)
    requires forall id :: id in ids ==> id in g.attrs
    ensures SumOf(TypeCounts(g, ids).keys, TypeCounts(g, ids).m) == |ids|
  {
    if ids != [] {
      var pre := ids[..|ids| - 1];
      var d := TypeCounts(g, pre);
      var t := g.attrs[ids[|ids| - 1]].entityType;
      var v := (if t in d.m then d.m[t] else 0) + 1;
      var d' := TypeCounts(g, ids);
      assert d' == Tick(d, t) == d.Put(t, v);
      TypeCountsSum(g, pre);
      if t in d.m {
        assert d'.keys == d.keys && d'.m == d.m[t := v];
        SumOfUpdate(d.keys, d.m, t, v);
      } else {
        assert d'.keys == d.keys + [t] && d'.m == d.m[t := v];
        SumOfOther(d.keys, d.m, t, v);
        assert d'.keys[..|d.keys|] == d.keys;
        assert SumOf(d'.keys, d'.m) == SumOf(d.keys, d'.m) + v;
      }
    }
  }

  /** How many of `ids` name a node of type `t`. */
  function OfType(g: Graph, ids: seq<string>, t: string): (n: nat)
    requires forall id :: id in ids ==> id in g.attrs
    ensures n <= |ids|
    ensures n > 0 <==> exists id :: id in ids && g.attrs[id].entityType == t
  {
    if ids == [] then 0
    else
      var last := ids[|ids| - 1];
      assert forall id :: id in ids <==> id in ids[..|ids| - 1] || id == last;
      OfType(g, ids[..|ids| - 1], t) + (if g.attrs[last].entityType == t then 1 else 0)
  }

  /** `t` is a key of `d` exactly when some of `ids` has type `t`, and then
      maps to how many do. */
  predicate CountsType(g: Graph, ids: seq<string>, d: Dict<string, int>, t: string)
    requires forall id :: id in ids ==> id in g.attrs
  {
    (t in d.m <==> OfType(g, ids, t) > 0) && (t in d.m ==> d.m[t] == OfType(g, ids, t))
  }

  /** A type is counted exactly when some node has it, and its count is the
      number of nodes of that type. */
  lemma {:induction false} TypeCountsOf(g: Graph, ids: seq<string>, t: string)
    requires forall id :: id in ids ==> id in g.attrs
    ensures CountsType(g, ids, TypeCounts(g, ids), t)
  {
    if ids != [] {
      TypeCountsOf(g, ids[..|ids| - 1], t);
    }
  }

  lemma TypeCountsStep(g: Graph, ids: seq<string>, i: nat)
    requires i < |ids| && forall id :: id in ids ==> id in g.attrs
    ensures TypeCounts(g, ids[..i + 1]) == Tick(TypeCounts(g, ids[..i]), g.attrs[ids[i]].entityType)
  {
    PrefixStep(ids, i);
  }

  function SumDegrees(g: Graph, ids: seq<string>): nat {
    if ids == [] then 0 else SumDegrees(g, ids[..|ids| - 1]) + Degree(g, ids[|ids| - 1])
  }

  /** One community per node, used below two nodes or when detection fails. */
  function Singletons(nodes: seq<string>): (cs: seq<seq<string>>)
    ensures |cs| == |nodes|
  {
    seq(|nodes|, i requires 0 <= i < |nodes| => [nodes[i]])
  }

  function Second(p: (string, real)): real { p.1 }

  /** `_compute_centrality` around the betweenness oracle: zero for every node
      below two nodes, nothing when it fails, else the twenty highest scores. */
  function Centrality(nodes: seq<string>, betweenness: Option<seq<(string, real)>>): (c: seq<(string, real)>)
  {
    if |nodes| < 2 then seq(|nodes|, i requires 0 <= i < |nodes| => (nodes[i], 0.0))
    else if betweenness.None? then []
    else Take(SortDesc(betweenness.value, Second), 20)
  }

  // ---------------------------------------------------------------------
  // Filtering
  // ---------------------------------------------------------------------

  /** `s[:n]`, where a negative `n` drops elements from the end. */
  function Slice<T>(s: seq<T>, n: int): (r: seq<T>)
    ensures |r| <= |s| && r == s[..|r|]
    ensures n >= 0 ==> |r| == if n < |s| then n else |s|
    ensures n < 0 ==> |r| == if |s| + n <= 0 then 0 else |s| + n
  {
    if n >= 0 then Take(s, n) else if |s| + n <= 0 then [] else s[..|s| + n]
  }

  function DegreePair(g: Graph, n: string): (string, real) {
    (n, Degree(g, n) as real)
  }

  /** `(node, degree)` for every node, in node order. */
  function DegreePairs(g: Graph): (r: seq<(string, real)>)
    ensures |r| == |g.nodes|
    ensures forall i :: 0 <= i < |r| ==> r[i] == DegreePair(g, g.nodes[i])
  {
    seq(|g.nodes|, i requires 0 <= i < |g.nodes| => DegreePair(g, g.nodes[i]))
  }

  /** The node ids sorted by degree, highest first, ties in node order. */
  function ByDegree(g: Graph): (r: seq<string>)
    ensures |r| == |g.nodes|
  {
    var sorted := SortDesc(DegreePairs(g), Second);
    seq(|sorted|, i requires 0 <= i < |sorted| => sorted[i].0)
  }

  /** Each id in the ranking carries its node's degree. */
  lemma ByDegreeAt(g: Graph, i: nat)
    requires i < |g.nodes|
    ensures var sorted := SortDesc(DegreePairs(g), Second);
      sorted[i].1 == Degree(g, sorted[i].0) as real
  {
    var sorted := SortDesc(DegreePairs(g), Second);
    assert sorted[i] in multiset(DegreePairs(g));
  }

  /** Every node is ranked somewhere. */
  lemma ByDegreeHas(g: Graph, m: string)
    requires Valid(g) && m in g.attrs
    ensures exists j :: 0 <= j < |g.nodes| && ByDegree(g)[j] == m
  {
    var pairs := DegreePairs(g);
    var sorted := SortDesc(pairs, Second);
    var a :| 0 <= a < |g.nodes| && g.nodes[a] == m;
    assert pairs[a] in multiset(sorted);
    var j :| 0 <= j < |sorted| && sorted[j] == pairs[a];
    assert ByDegree(g)[j] == m;
  }

  /** A node among the first `k` of the ranking has at least the degree of
      any node outside them. */
  lemma {:induction false} ByDegreeRank(g: Graph, k: nat, n: string, m: string)
    requires Valid(g) && k <= |g.nodes|
    requires n in ByDegree(g)[..k] && m in g.attrs && m !in ByDegree(g)[..k]
    ensures Degree(g, n) >= Degree(g, m)
  {
    var sorted := SortDesc(DegreePairs(g), Second);
    var ids := ByDegree(g);
    var i :| 0 <= i < k && ids[i] == n;
    ByDegreeHas(g, m);
    var j :| 0 <= j < |g.nodes| && ids[j] == m;
    assert j >= k;
    ByDegreeAt(g, i);
    ByDegreeAt(g, j);
    assert sorted[i].1 >= sorted[j].1;
  }

  function LowDegree(g: Graph, minDegree: int): set<string> {
    set n | n in g.attrs && Degree(g, n) < minDegree
  }

  function WrongType(g: Graph, types: seq<string>): set<string> {
    set n | n in g.attrs && g.attrs[n].entityType !in types
  }

  function NotKept(g: Graph, keep: seq<string>): set<string> {
    set n | n in g.attrs && n !in keep
  }

  /** The graph `filter_graph` converts: low-degree nodes removed, then
      nodes of other types when types are given, then all but the `top_n`
      best connected when `top_n` is given and non-zero. */
  function FilteredGraph(g: Graph, minDegree: int, types: seq<string>, topN: Option<int>): (h: Graph)
    requires Valid(g)
    ensures Valid(h)
  {
    var g2 := Prefiltered(g, minDegree, types);
    if topN.Some? && topN.value != 0 then RemoveNodes(g2, NotKept(g2, Slice(ByDegree(g2), topN.value))) else g2
  }

  /** The graph after the degree and type filters, before `top_n`. */
  function Prefiltered(g: Graph, minDegree: int, types: seq<string>): (h: Graph)
    requires Valid(g)
    ensures Valid(h)
  {
    var g1 := RemoveNodes(g, LowDegree(g, minDegree));
    if types != [] then RemoveNodes(g1, WrongType(g1, types)) else g1
  }

  /** A node passes the degree and type filters exactly when it had at
      least `min_degree` edges in the original graph and, when types are
      given, has one of them. */
  predicate Passes(g: Graph, n: string, minDegree: int, types: seq<string>)
    requires n in g.attrs
  {
    Degree(g, n) >= minDegree && (types != [] ==> g.attrs[n].entityType in types)
  }

  lemma PrefilteredNodes(g: Graph, minDegree: int, types: seq<string>)
    requires Valid(g)
    ensures var h := Prefiltered(g, minDegree, types);
      forall n :: n in h.attrs <==> n in g.attrs && Passes(g, n, minDegree, types)
  {
  }

  /** Without a `top_n`, the filter keeps exactly the nodes that pass. */
  lemma FilterKeepsPassing(g: Graph, minDegree: int, types: seq<string>, topN: Option<int>)
    requires Valid(g) && (topN.None? || topN.value == 0)
    ensures var h := FilteredGraph(g, minDegree, types, topN);
      forall n :: n in h.attrs <==> n in g.attrs && Passes(g, n, minDegree, types)
  {
    PrefilteredNodes(g, minDegree, types);
  }

  /** With a `top_n`, every node kept has at least the degree, counted after
      the first two filters, of every node that passed them but was dropped. */
  lemma FilterTopRanked(g: Graph, minDegree: int, types: seq<string>, topN: Option<int>, n: string, m: string)
    requires Valid(g) && topN.Some? && topN.value != 0
    requires var h := FilteredGraph(g, minDegree, types, topN);
      n in h.attrs && m in Prefiltered(g, minDegree, types).attrs && m !in h.attrs
    ensures var p := Prefiltered(g, minDegree, types);
      n in p.attrs && Degree(p, n) >= Degree(p, m)
  {
    var p := Prefiltered(g, minDegree, types);
    var keep := Slice(ByDegree(p), topN.value);
    assert keep == ByDegree(p)[..|keep|];
    ByDegreeRank(p, |keep|, n, m);
  }

  lemma {:induction false} DistinctCard<T>(s: seq<T>)
    requires Distinct(s)
    ensures |set x | x in s| == |s|
  {
    if s != [] {
      var pre := s[..|s| - 1];
      DistinctCard(pre);
      assert s == pre + [s[|s| - 1]];
      assert (set x | x in s) == (set x | x in pre) + {s[|s| - 1]};
    }
  }

  lemma {:induction false} SetCard<T>(s: seq<T>)
    ensures |set x | x in s| <= |s|
  {
    if s != [] {
      var pre := s[..|s| - 1];
      SetCard(pre);
      assert s == pre + [s[|s| - 1]];
      assert (set x | x in s) == (set x | x in pre) + {s[|s| - 1]};
    }
  }

  lemma {:induction false} SubsetCard<T>(a: set<T>, b: set<T>)
    requires a <= b
    ensures |a| <= |b|
  {
    if a != {} {
      var x :| x in a;
      SubsetCard(a - {x}, b - {x});
    }
  }

  /** A list without repeats drawn from `b` is no longer than `b`. */
  lemma DistinctWithin<T>(a: seq<T>, b: seq<T>)
    requires Distinct(a) && forall x :: x in a ==> x in b
    ensures |a| <= |b|
  {
    DistinctCard(a);
    SetCard(b);
    SubsetCard(set x | x in a, set x | x in b);
  }

  /** Every node left by `filter_graph` had at least `min_degree` edges in
      the original graph, has one of the requested types when any are given,
      and there are at most `top_n` of them when `top_n` is positive. */
  lemma FilterFacts(g: Graph, minDegree: int, types: seq<string>, topN: Option<int>)
    requires Valid(g)
    ensures var h := FilteredGraph(g, minDegree, types, topN);
      (forall n :: n in h.attrs ==>
        n in g.attrs && Degree(g, n) >= minDegree && h.attrs[n] == g.attrs[n] &&
        (types != [] ==> g.attrs[n].entityType in types)) &&
      (topN.Some? && topN.value > 0 ==> |h.nodes| <= topN.value)
  {
    var h := FilteredGraph(g, minDegree, types, topN);
    var g2 := Prefiltered(g, minDegree, types);
    if topN.Some? && topN.value > 0 {
      var keep := Slice(ByDegree(g2), topN.value);
      assert forall x :: x in h.nodes ==> x in keep;
      DistinctWithin(h.nodes, keep);
    }
  }

  // ---------------------------------------------------------------------
  // Merging two graphs
  // ---------------------------------------------------------------------

  /** Evidence sentences kept per merged edge. */
  const MergedEvidence: nat := 5

  function Max(a: int, b: int): (r: int)
    ensures r >= a && r >= b && (r == a || r == b)
  {
    if a >= b then a else b
  }

  /** A key present in both entity sets keeps the base name and type, with
      the larger count. */
  function KeepMax(stored: Ner.EntityInfo, e: Ner.EntityInfo): Ner.EntityInfo {
    Ner.EntityInfo(stored.originalName, stored.entityType, Max(stored.count, e.count))
  }

  /** The merged entities after the first new keys. */
  function MergeEntities(d: Dict<string, Ner.EntityInfo>, keys: seq<string>, m: map<string, Ner.EntityInfo>)
    : (r: Dict<string, Ner.EntityInfo>)
    requires d.Valid() && forall k :: k in keys ==> k in m
    ensures r.Valid()
  {
    if keys == [] then d
    else
      var prev := MergeEntities(d, keys[..|keys| - 1], m);
      var k := keys[|keys| - 1];
      prev.Put(k, if k in prev.m then KeepMax(prev.m[k], m[k]) else m[k])
  }

  lemma MergeEntitiesStep(d: Dict<string, Ner.EntityInfo>, keys: seq<string>, m: map<string, Ner.EntityInfo>, i: nat)
    requires d.Valid() && i < |keys| && forall k :: k in keys ==> k in m
    ensures var prev := MergeEntities(d, keys[..i], m);
      var k := keys[i];
      MergeEntities(d, keys[..i + 1], m) == prev.Put(k, if k in prev.m then KeepMax(prev.m[k], m[k]) else m[k])
  {
    PrefixStep(keys, i);
  }

  lemma {:induction false} MergeEntitiesHas(d: Dict<string, Ner.EntityInfo>, keys: seq<string>, m: map<string, Ner.EntityInfo>, k: string)
    requires d.Valid() && forall x :: x in keys ==> x in m
    ensures k in MergeEntities(d, keys, m).m <==> k in d.m || k in keys
  {
    if keys != [] {
      MergeEntitiesHas(d, keys[..|keys| - 1], m, k);
      assert keys == keys[..|keys| - 1] + [keys[|keys| - 1]];
    }
  }

  lemma {:induction false} MergeEntitiesOrder(d: Dict<string, Ner.EntityInfo>, keys: seq<string>, m: map<string, Ner.EntityInfo>)
    requires d.Valid() && forall x :: x in keys ==> x in m
    ensures var r := MergeEntities(d, keys, m);
      |d.keys| <= |r.keys| && r.keys[..|d.keys|] == d.keys
  {
    if keys != [] {
      MergeEntitiesOrder(d, keys[..|keys| - 1], m);
      var prev := MergeEntities(d, keys[..|keys| - 1], m);
      assert MergeEntities(d, keys, m).keys[..|d.keys|] == prev.keys[..|d.keys|];
    }
  }

  lemma {:induction false} MergeEntitiesValue(d: Dict<string, Ner.EntityInfo>, keys: seq<string>, m: map<string, Ner.EntityInfo>, k: string)
    requires d.Valid() && Distinct(keys) && forall x :: x in keys ==> x in m
    ensures var r := MergeEntities(d, keys, m);
      (k in d.m && k in keys ==> k in r.m && r.m[k] == KeepMax(d.m[k], m[k])) &&
      (k in d.m && k !in keys ==> k in r.m && r.m[k] == d.m[k]) &&
      (k !in d.m && k in keys ==> k in r.m && r.m[k] == m[k])
  {
    MergeEntitiesHas(d, keys, m, k);
    if keys != [] {
      var pre := keys[..|keys| - 1];
      var last := keys[|keys| - 1];
      assert keys == pre + [last];
      assert last !in pre;
      MergeEntitiesValue(d, pre, m, k);
      MergeEntitiesHas(d, pre, m, k);
      MergeEntitiesHas(d, pre, m, last);
    }
  }

  /** The base keys come first, in their order; a key is merged when it is
      in either set; a shared key keeps the base name and type and the
      larger count; any other key keeps its one entry. */
  lemma MergeEntitiesFacts(d: Dict<string, Ner.EntityInfo>, keys: seq<string>, m: map<string, Ner.EntityInfo>, k: string)
    requires d.Valid() && Distinct(keys) && forall x :: x in keys ==> x in m
    ensures var r := MergeEntities(d, keys, m);
      |d.keys| <= |r.keys| && r.keys[..|d.keys|] == d.keys &&
      (k in r.m <==> k in d.m || k in keys) &&
      (k in d.m && k in keys ==> r.m[k] == KeepMax(d.m[k], m[k])) &&
      (k in d.m && k !in keys ==> r.m[k] == d.m[k]) &&
      (k !in d.m && k in keys ==> r.m[k] == m[k])
  {
    MergeEntitiesOrder(d, keys, m);
    MergeEntitiesHas(d, keys, m, k);
    MergeEntitiesValue(d, keys, m, k);
  }

  /** A pair present in both lists: the weights add up, the evidence is the
      distinct sentences of both, at most five; names and type stay. */
  function Aggregate(stored: Rel.Relationship, r: Rel.Relationship): Rel.Relationship {
    Rel.Relationship(stored.source, stored.target, stored.weight + r.weight,
                     Take(Dedup(stored.evidence + r.evidence), MergedEvidence), stored.relType)
  }

  /** The loop over the base relationships: each one is stored under its
      pair, a later one replacing an earlier one in its place. */
  function StoreBase(rels: seq<Rel.Relationship>): (d: Dict<Rel.Key, Rel.Relationship>)
    ensures d.Valid()
  {
    if rels == [] then Empty()
    else
      var r := rels[|rels| - 1];
      StoreBase(rels[..|rels| - 1]).Put(Rel.KeyOf(r), r)
  }

  /** The loop over the new relationships. */
  function AddNew(d: Dict<Rel.Key, Rel.Relationship>, rels: seq<Rel.Relationship>): (r: Dict<Rel.Key, Rel.Relationship>)
    requires d.Valid()
    ensures r.Valid()
  {
    if rels == [] then d
    else
      var prev := AddNew(d, rels[..|rels| - 1]);
      var rel := rels[|rels| - 1];
      var k := Rel.KeyOf(rel);
      prev.Put(k, if k in prev.m then Aggregate(prev.m[k], rel) else rel)
  }

  lemma StoreBaseStep(rels: seq<Rel.Relationship>, i: nat)
    requires i < |rels|
    ensures StoreBase(rels[..i + 1]) == StoreBase(rels[..i]).Put(Rel.KeyOf(rels[i]), rels[i])
  {
    PrefixStep(rels, i);
  }

  lemma AddNewStep(d: Dict<Rel.Key, Rel.Relationship>, rels: seq<Rel.Relationship>, i: nat)
    requires d.Valid() && i < |rels|
    ensures var prev := AddNew(d, rels[..i]);
      var k := Rel.KeyOf(rels[i]);
      AddNew(d, rels[..i + 1]) == prev.Put(k, if k in prev.m then Aggregate(prev.m[k], rels[i]) else rels[i])
  {
    PrefixStep(rels, i);
  }

  /** The relationships `merge_graphs` passes to `build_graph`. */
  function MergedRels(base: seq<Rel.Relationship>, news: seq<Rel.Relationship>): seq<Rel.Relationship> {
    AddNew(StoreBase(base), news).Values()
  }

  /** The last base relationship on `k`, if any. */
  function LastWith(rels: seq<Rel.Relationship>, k: Rel.Key): (rs: seq<Rel.Relationship>)
    ensures |rs| <= 1
  {
    var ws := Rel.WithKey(rels, k);
    if ws == [] then [] else [ws[|ws| - 1]]
  }

  /** The record left by storing `cs[0]` and aggregating the rest in order. */
  function Fold(cs: seq<Rel.Relationship>): Rel.Relationship
    requires cs != []
  {
    if |cs| == 1 then cs[0] else Aggregate(Fold(cs[..|cs| - 1]), cs[|cs| - 1])
  }

  /** An aggregated record keeps the first record's names and type, sums the
      weights, and holds at most five distinct sentences of their evidence. */
  lemma {:induction false} FoldFacts(cs: seq<Rel.Relationship>)
    requires cs != []
    ensures var f := Fold(cs);
      f.source == cs[0].source && f.target == cs[0].target && f.relType == cs[0].relType &&
      f.weight == Rel.SumWeights(cs) &&
      (forall e :: e in f.evidence ==> e in Rel.AllEvidence(cs)) &&
      (|cs| >= 2 ==> Distinct(f.evidence) && |f.evidence| <= MergedEvidence)
  {
    var pre := cs[..|cs| - 1];
    if |cs| == 1 {
      assert pre == [];
      assert Rel.AllEvidence(cs) == [] + cs[0].evidence;
    } else {
      FoldFacts(pre);
      assert pre[0] == cs[0];
      var f := Fold(cs);
      var xs := Fold(pre).evidence + cs[|cs| - 1].evidence;
      assert f.evidence == Take(Dedup(xs), MergedEvidence);
      forall e | e in f.evidence ensures e in Rel.AllEvidence(cs) {
        assert e in Dedup(xs);
        assert e in xs;
      }
    }
  }

  lemma {:induction false} StoreBaseValue(rels: seq<Rel.Relationship>, k: Rel.Key)
    ensures k in StoreBase(rels).m <==> LastWith(rels, k) != []
    ensures k in StoreBase(rels).m ==> StoreBase(rels).m[k] == LastWith(rels, k)[0]
  {
    if rels != [] {
      var pre := rels[..|rels| - 1];
      var r := rels[|rels| - 1];
      StoreBaseValue(pre, k);
      assert Rel.WithKey(rels, k) == Rel.WithKey(pre, k) + (if Rel.KeyOf(r) == k then [r] else []);
      assert StoreBase(rels).m == StoreBase(pre).m[Rel.KeyOf(r) := r];
    }
  }

  lemma {:induction false} StoreBaseKeys(rels: seq<Rel.Relationship>)
    ensures StoreBase(rels).keys == Dedup(Rel.KeysOf(rels))
  {
    if rels != [] {
      var pre := rels[..|rels| - 1];
      StoreBaseKeys(pre);
      assert Rel.KeysOf(rels) == Rel.KeysOf(pre) + [Rel.KeyOf(rels[|rels| - 1])];
    }
  }

  lemma {:induction false} AddNewKeys(d: Dict<Rel.Key, Rel.Relationship>, xs: seq<Rel.Key>, rels: seq<Rel.Relationship>)
    requires d.Valid() && d.keys == Dedup(xs)
    ensures AddNew(d, rels).keys == Dedup(xs + Rel.KeysOf(rels))
  {
    if rels != [] {
      var pre := rels[..|rels| - 1];
      AddNewKeys(d, xs, pre);
      assert Rel.KeysOf(rels) == Rel.KeysOf(pre) + [Rel.KeyOf(rels[|rels| - 1])];
      ConcatAssoc(xs, Rel.KeysOf(pre), [Rel.KeyOf(rels[|rels| - 1])]);
    } else {
      ConcatAssoc(xs, [], []);
    }
  }

  /** The aggregation the new loop leaves on pair `k`, when there is one:
      the stored record, then the new relationships on that pair. */
  ghost predicate LeavesFold(d: Dict<Rel.Key, Rel.Relationship>, rels: seq<Rel.Relationship>, k: Rel.Key)
    requires d.Valid()
  {
    var cs := (if k in d.m then [d.m[k]] else []) + Rel.WithKey(rels, k);
    (k in AddNew(d, rels).m <==> cs != []) &&
    (cs != [] ==> AddNew(d, rels).m[k] == Fold(cs))
  }

  /** A new relationship on pair `k` aggregates into the record left there. */
  lemma AddNewValueHit(d: Dict<Rel.Key, Rel.Relationship>, rels: seq<Rel.Relationship>, k: Rel.Key)
    requires d.Valid() && rels != [] && Rel.KeyOf(rels[|rels| - 1]) == k
    requires LeavesFold(d, rels[..|rels| - 1], k)
    ensures LeavesFold(d, rels, k)
  {
    var prev := if k in d.m then [d.m[k]] else [];
    var pre := rels[..|rels| - 1];
    var rel := rels[|rels| - 1];
    var cs0 := prev + Rel.WithKey(pre, k);
    var cs := cs0 + [rel];
    ConcatAssoc(prev, Rel.WithKey(pre, k), [rel]);
    assert cs[..|cs| - 1] == cs0;
  }

  /** A new relationship on another pair leaves the record on `k` alone. */
  lemma AddNewValueMiss(d: Dict<Rel.Key, Rel.Relationship>, rels: seq<Rel.Relationship>, k: Rel.Key)
    requires d.Valid() && rels != [] && Rel.KeyOf(rels[|rels| - 1]) != k
    requires LeavesFold(d, rels[..|rels| - 1], k)
    ensures LeavesFold(d, rels, k)
  {
    var prev := if k in d.m then [d.m[k]] else [];
    var pre := rels[..|rels| - 1];
    var rel := rels[|rels| - 1];
    var cs0 := prev + Rel.WithKey(pre, k);
    var before := AddNew(d, pre);
    assert AddNew(d, rels).m == before.m[Rel.KeyOf(rel) := if Rel.KeyOf(rel) in before.m then Aggregate(before.m[Rel.KeyOf(rel)], rel) else rel];
    assert Rel.WithKey(rels, k) == Rel.WithKey(pre, k) + [];
    ConcatAssoc(prev, Rel.WithKey(pre, k), []);
    assert prev + Rel.WithKey(rels, k) == cs0;
  }

  /** The new loop leaves on each pair the aggregation of the stored record
      and the new relationships on that pair. */
  lemma {:induction false} AddNewValue(d: Dict<Rel.Key, Rel.Relationship>, rels: seq<Rel.Relationship>, k: Rel.Key)
    requires d.Valid()
    ensures var cs := (if k in d.m then [d.m[k]] else []) + Rel.WithKey(rels, k);
      (k in AddNew(d, rels).m <==> cs != []) &&
      (cs != [] ==> AddNew(d, rels).m[k] == Fold(cs))
  {
    if rels == [] {
      ConcatAssoc(if k in d.m then [d.m[k]] else [], [], []);
    } else {
      AddNewValue(d, rels[..|rels| - 1], k);
      if Rel.KeyOf(rels[|rels| - 1]) == k {
        AddNewValueHit(d, rels, k);
      } else {
        AddNewValueMiss(d, rels, k);
      }
    }
  }

  /** `merge_graphs` passes one relationship per distinct pair of the two
      lists, base pairs first. It keeps the names and type of the last base
      relationship on the pair, or else of the first new one; its weight is
      that base weight plus every new weight on the pair; and once two
      relationships meet, its evidence is at most five distinct sentences
      drawn from theirs. */
  lemma MergedRelsFacts(base: seq<Rel.Relationship>, news: seq<Rel.Relationship>, i: nat)
    requires i < |Dedup(Rel.KeysOf(base) + Rel.KeysOf(news))|
    ensures var keys := Dedup(Rel.KeysOf(base) + Rel.KeysOf(news));
      var cs := LastWith(base, keys[i]) + Rel.WithKey(news, keys[i]);
      |MergedRels(base, news)| == |keys| && cs != [] &&
      var r := MergedRels(base, news)[i];
      Rel.KeyOf(r) == keys[i] &&
      r.source == cs[0].source && r.target == cs[0].target && r.relType == cs[0].relType &&
      r.weight == Rel.SumWeights(cs) &&
      (forall e :: e in r.evidence ==> e in Rel.AllEvidence(cs)) &&
      (|cs| >= 2 ==> Distinct(r.evidence) && |r.evidence| <= MergedEvidence)
  {
    var keys := Dedup(Rel.KeysOf(base) + Rel.KeysOf(news));
    var d0 := StoreBase(base);
    StoreBaseKeys(base);
    AddNewKeys(d0, Rel.KeysOf(base), news);
    var d := AddNew(d0, news);
    var k := keys[i];
    StoreBaseValue(base, k);
    AddNewValue(d0, news, k);
    var cs := LastWith(base, k) + Rel.WithKey(news, k);
    if k in d0.m {
      assert LastWith(base, k) == [d0.m[k]];
    }
    assert d.m[k] == Fold(cs);
    FoldFacts(cs);
    assert Rel.KeyOf(cs[0]) == k by {
      if LastWith(base, k) != [] {
        WithKeyAll(base, k);
      } else {
        WithKeyAll(news, k);
      }
    }
  }

  /** Every relation on `k` has key `k`. */
  lemma {:induction false} WithKeyAll(rels: seq<Rel.Relationship>, k: Rel.Key)
    ensures forall r :: r in Rel.WithKey(rels, k) ==> Rel.KeyOf(r) == k
  {
    if rels != [] {
      WithKeyAll(rels[..|rels| - 1], k);
    }
  }

  // ---------------------------------------------------------------------
  // The builder
  // ---------------------------------------------------------------------

  class GraphBuilder {
    var graph: Graph

    ghost predicate Valid()
      reads this
    {
      Graphs.Valid(graph)
    }

    constructor()
      ensures Valid() && graph == EmptyGraph()
    {
      graph := EmptyGraph();
    }

    /** `_build_nodes`: one node per graph node, in node order, sized by its
        degree; `None` when a node's type is not an `EntityType`. */
    method BuildNodes() returns (nodes: Option<seq<Node>>)
      requires Valid()
      ensures nodes == NodesOf(graph, graph.nodes)
    {
      var ns: seq<Node> := [];
      var i := 0;
      while i < |graph.nodes|
        invariant 0 <= i <= |graph.nodes|
        invariant NodesOf(graph, graph.nodes[..i]) == Some(ns)
      {
        var nodeId := graph.nodes[i];
        var nodeData := graph.attrs[nodeId];
        var degree := Degree(graph, nodeId);
        NodesOfStep(graph, graph.nodes, i);
        if nodeData.entityType !in EntityTypes {
          NodesOfFails(graph, graph.nodes, i + 1);
          return None;
        }
        ns := ns + [Node(nodeId, nodeData.entityType, degree, nodeData.count, degree)];
        i := i + 1;
      }
      PrefixAll(graph.nodes);
      nodes := Some(ns);
    }

    /** `_build_edges`: one edge per row of the edge view. */
    method BuildEdges() returns (edges: seq<EdgeOut>)
      requires Valid()
      ensures edges == EdgesOf(EdgeView(graph))
    {
      var view := EdgeView(graph);
      edges := [];
      var i := 0;
      while i < |view|
        invariant 0 <= i <= |view|
        invariant edges == EdgesOf(view[..i])
      {
        var e := view[i];
        var evidence := e.attr.evidence;
        var title := if evidence != [] then evidence[0] else e.u + " co-occurs with " + e.v;
        EdgesOfStep(view, i);
        edges := edges + [EdgeOut(e.u, e.v, e.attr.weight, title, evidence, e.attr.relType)];
        i := i + 1;
      }
      PrefixAll(view);
    }

    /** `build_graph`: the graph is cleared, the entities become nodes, the
        relationships between two nodes become edges, and the graph is
        converted. */
    method BuildGraph(entities: Dict<string, Ner.EntityInfo>, relationships: seq<Rel.Relationship>)
      returns (data: Option<GraphData>)
      requires entities.Valid()
      modifies this
      ensures Valid() && graph == Built(entities, relationships)
      ensures data == DataOf(graph)
    {
      graph := EmptyGraph();
      var i := 0;
      while i < |entities.keys|
        invariant 0 <= i <= |entities.keys|
        invariant graph == AddEntityNodes(EmptyGraph(), entities.keys[..i], entities.m)
      {
        var entityData := entities.m[entities.keys[i]];
        AddEntityNodesStep(EmptyGraph(), entities.keys, entities.m, i);
        graph := AddNode(graph, entityData.originalName, NodeAttr(entityData.entityType, entityData.count));
        i := i + 1;
      }
      PrefixAll(entities.keys);
      ghost var withNodes := graph;
      i := 0;
      while i < |relationships|
        invariant 0 <= i <= |relationships|
        invariant graph == AddRelEdges(withNodes, relationships[..i])
      {
        var rel := relationships[i];
        AddRelEdgesStep(withNodes, relationships, i);
        ghost var next := AddRelEdges(withNodes, relationships[..i + 1]);
        if rel.source in graph.attrs && rel.target in graph.attrs {
          graph := AddEdge(graph, rel.source, rel.target, EdgeAttr(rel.weight, rel.evidence, rel.relType));
        }
        assert graph == next;
        i := i + 1;
      }
      PrefixAll(relationships);
      var nodes := BuildNodes();
      if nodes.None? {
        return None;
      }
      var edges := BuildEdges();
      data := Some(GraphData(nodes.value, edges, Totals(|nodes.value|, |edges|, Density(graph))));
    }

    /** `_count_entity_types`: nodes counted per type, types in order of
        first node. */
    method CountEntityTypes() returns (counts: Dict<string, int>)
      requires Valid()
      ensures counts == TypeCounts(graph, graph.nodes)
      ensures forall t :: CountsType(graph, graph.nodes, counts, t)
      ensures SumOf(counts.keys, counts.m) == |graph.nodes|
    {
      counts := Empty();
      var g := graph;
      assert forall id :: id in g.nodes ==> id in g.attrs;
      var i := 0;
      while i < |g.nodes|
        invariant 0 <= i <= |g.nodes|
        invariant counts == TypeCounts(g, g.nodes[..i])
      {
        assert forall id :: id in g.nodes[..i + 1] ==> id in g.attrs;
        var entityType := g.attrs[g.nodes[i]].entityType;
        TypeCountsStep(g, g.nodes, i);
        counts := Tick(counts, entityType);
        i := i + 1;
      }
      PrefixAll(graph.nodes);
      TypeCountsSum(graph, graph.nodes);
      forall t ensures CountsType(graph, graph.nodes, counts, t) {
        TypeCountsOf(graph, graph.nodes, t);
      }
    }

    /** `compute_analytics`, with Louvain's communities and the betweenness
        scores as oracle results (`None` when they raise). An empty graph
        gives zeros and empty collections. */
    method ComputeAnalytics(louvain: Option<seq<seq<string>>>, betweenness: Option<seq<(string, real)>>)
      returns (a: Analytics)
      requires Valid()
      ensures |graph.nodes| == 0 ==> a == Analytics(0, 0, 0.0, 0.0, [], [], Empty())
      ensures |graph.nodes| > 0 ==>
        a.totalNodes == |graph.nodes| && a.totalEdges == |graph.edges| && a.density == Density(graph) &&
        a.avgDegree == SumDegrees(graph, graph.nodes) as real / |graph.nodes| as real &&
        a.communities == (if |graph.nodes| < 2 || louvain.None? then Singletons(graph.nodes) else louvain.value) &&
        a.centrality == Centrality(graph.nodes, betweenness) &&
        a.entityCounts == TypeCounts(graph, graph.nodes) &&
        SumOf(a.entityCounts.keys, a.entityCounts.m) == a.totalNodes
    {
      if |graph.nodes| == 0 {
        return Analytics(0, 0, 0.0, 0.0, [], [], Empty());
      }
      var totalNodes := |graph.nodes|;
      var totalEdges := |graph.edges|;
      var avgDegree := SumDegrees(graph, graph.nodes) as real / totalNodes as real;
      var communities := if totalNodes < 2 || louvain.None? then Singletons(graph.nodes) else louvain.value;
      var entityCounts := CountEntityTypes();
      a := Analytics(totalNodes, totalEdges, Density(graph), avgDegree, communities,
                     Centrality(graph.nodes, betweenness), entityCounts);
    }

    /** `filter_graph`: the filtered copy is swapped in for the conversion and
        the original swapped back. When a conversion raises, the swap back
        never happens and the filtered copy stays in place. */
    method FilterGraph(minDegree: int, entityTypes: seq<string>, topN: Option<int>) returns (result: Option<GraphData>)
      requires Valid()
      modifies this
      ensures Valid()
      ensures var h := FilteredGraph(old(graph), minDegree, entityTypes, topN);
        (result.Some? ==> graph == old(graph)) &&
        (result.None? ==> graph == h) &&
        (NodesOf(h, h.nodes).None? <==> result.None?) &&
        (result.Some? ==> result.value == GraphData(NodesOf(h, h.nodes).value, EdgesOf(EdgeView(h)), Filtered))
    {
      var filteredGraph := graph;
      var nodesToRemove := set n | n in filteredGraph.attrs && Degree(filteredGraph, n) < minDegree;
      filteredGraph := RemoveNodes(filteredGraph, nodesToRemove);
      if entityTypes != [] {
        nodesToRemove := set n | n in filteredGraph.attrs && filteredGraph.attrs[n].entityType !in entityTypes;
        filteredGraph := RemoveNodes(filteredGraph, nodesToRemove);
      }
      if topN.Some? && topN.value != 0 {
        var nodesToKeep := Slice(ByDegree(filteredGraph), topN.value);
        nodesToRemove := set n | n in filteredGraph.attrs && n !in nodesToKeep;
        filteredGraph := RemoveNodes(filteredGraph, nodesToRemove);
      }
      var tempGraph := graph;
      graph := filteredGraph;
      var nodes := BuildNodes();
      if nodes.None? {
        return None;
      }
      var edges := BuildEdges();
      result := Some(GraphData(nodes.value, edges, Filtered));
      graph := tempGraph;
    }

    /** `merge_graphs`: entities united with the larger count on shared
        keys, relationships aggregated per pair, then `build_graph`. */
    method MergeGraphs(baseEntities: Dict<string, Ner.EntityInfo>, baseRelationships: seq<Rel.Relationship>,
                       newEntities: Dict<string, Ner.EntityInfo>, newRelationships: seq<Rel.Relationship>)
      returns (data: Option<GraphData>)
      requires baseEntities.Valid() && newEntities.Valid()
      modifies this
      ensures Valid()
      ensures graph == Built(MergeEntities(baseEntities, newEntities.keys, newEntities.m),
                             MergedRels(baseRelationships, newRelationships))
      ensures data == DataOf(graph)
    {
      var mergedEntities := baseEntities;
      var i := 0;
      while i < |newEntities.keys|
        invariant 0 <= i <= |newEntities.keys|
        invariant mergedEntities == MergeEntities(baseEntities, newEntities.keys[..i], newEntities.m)
      {
        var key := newEntities.keys[i];
        var entity := newEntities.m[key];
        MergeEntitiesStep(baseEntities, newEntities.keys, newEntities.m, i);
        if key in mergedEntities.m {
          mergedEntities := mergedEntities.Put(key, KeepMax(mergedEntities.m[key], entity));
        } else {
          mergedEntities := mergedEntities.Put(key, entity);
        }
        i := i + 1;
      }
      PrefixAll(newEntities.keys);
      var relMap := Empty();
      i := 0;
      while i < |baseRelationships|
        invariant 0 <= i <= |baseRelationships|
        invariant relMap == StoreBase(baseRelationships[..i])
      {
        var rel := baseRelationships[i];
        StoreBaseStep(baseRelationships, i);
        relMap := relMap.Put(Rel.KeyOf(rel), rel);
        i := i + 1;
      }
      PrefixAll(baseRelationships);
      ghost var stored := relMap;
      i := 0;
      while i < |newRelationships|
        invariant 0 <= i <= |newRelationships|
        invariant relMap == AddNew(stored, newRelationships[..i])
      {
        var rel := newRelationships[i];
        var key := Rel.KeyOf(rel);
        AddNewStep(stored, newRelationships, i);
        if key in relMap.m {
          relMap := relMap.Put(key, Aggregate(relMap.m[key], rel));
        } else {
          relMap := relMap.Put(key, rel);
        }
        i := i + 1;
      }
      PrefixAll(newRelationships);
      data := BuildGraph(mergedEntities, relMap.Values());
    }
  }
}
