/** The query tools of `GraphConversationalAgent` over the knowledge graph:
    breadth-first neighbourhoods, shortest paths expanded into edge records,
    common neighbours of several entities, and induced subgraphs around
    centre entities. */
module GraphAgent {
  import opened Strings
  import opened Graphs

  /** An edge record of a neighbourhood layer or a path: the endpoints in the
      direction of travel and the edge's data, its evidence cut to three. */
  datatype Link = Link(source: string, target: string, weight: real, relType: string, evidence: seq<string>)

  const LinkEvidence := 3

  function LinkOf(a: string, b: string, attr: EdgeAttr): (l: Link)
    ensures l.source == a && l.target == b && l.weight == attr.weight && l.relType == attr.relType
    ensures |l.evidence| <= LinkEvidence && l.evidence <= attr.evidence
    ensures |attr.evidence| <= LinkEvidence ==> l.evidence == attr.evidence
  {
    Link(a, b, attr.weight, attr.relType, Take(attr.evidence, LinkEvidence))
  }

  /** `l` is the record of an edge of `g`, read from `g.edges[source, target]`. */
  ghost predicate Records(g: Graph, l: Link) {
    HasEdge(g, l.source, l.target) && l == LinkOf(l.source, l.target, EdgeData(g, l.source, l.target).value)
  }

  function Targets(layer: seq<Link>): (ts: seq<string>)
    ensures |ts| == |layer|
    ensures forall i :: 0 <= i < |layer| ==> ts[i] == layer[i].target
  {
    seq(|layer|, i requires 0 <= i < |layer| => layer[i].target)
  }

  lemma TargetsConcat(a: seq<Link>, b: seq<Link>)
    ensures Targets(a + b) == Targets(a) + Targets(b)
  {
  }

  lemma DistinctConcat<T>(a: seq<T>, b: seq<T>)
    requires Distinct(a) && Distinct(b)
    requires forall x :: x in a ==> x !in b
    ensures Distinct(a + b)
  {
    forall i, j | 0 <= i < j < |a + b| ensures (a + b)[i] != (a + b)[j] {
      if i < |a| && j >= |a| {
        assert (a + b)[i] in a && (a + b)[j] == b[j - |a|];
      }
    }
  }

  /** `max(1, n)`: the number of rounds a count argument asks for. */
  function AtLeastOne(n: int): (r: nat)
    ensures r >= 1 && r >= n && (n >= 1 ==> r == n)
  {
    if n < 1 then 1 else n
  }

  // ---------------------------------------------------------------------
  // Hop distance, the reference for the breadth-first search

  /** The nodes adjacent to some graph node of `f`. */
  ghost function Expand(g: Graph, f: set<string>): set<string> {
    set x, y | x in f && x in g.attrs && y in Neighbors(g, x) :: y
  }

  /** The nodes within `k` hops of `s`. */
  ghost function Ball(g: Graph, s: string, k: nat): set<string> {
    if k == 0 then {s} else Ball(g, s, k - 1) + Expand(g, Ball(g, s, k - 1))
  }

  /** The nodes at exactly `k` hops from `s`. */
  ghost function Shell(g: Graph, s: string, k: nat): set<string> {
    if k == 0 then {s} else Ball(g, s, k) - Ball(g, s, k - 1)
  }

  lemma {:induction false} BallMono(g: Graph, s: string, i: nat, j: nat)
    requires i <= j
    ensures Ball(g, s, i) <= Ball(g, s, j)
    decreases j
  {
    if i < j {
      BallMono(g, s, i, j - 1);
    }
  }

  lemma {:induction false} BallNodes(g: Graph, s: string, k: nat)
    requires Valid(g) && s in g.attrs
    ensures Ball(g, s, k) <= g.attrs.Keys
  {
    if k > 0 {
      BallNodes(g, s, k - 1);
      forall y | y in Expand(g, Ball(g, s, k - 1)) ensures y in g.attrs {
        var x :| x in Ball(g, s, k - 1) && x in g.attrs && y in Neighbors(g, x);
        NeighborsAreNodes(g, x, y);
      }
    }
  }

  /** Expanding only the outermost shell reaches the next ball: a node one
      hop beyond the ball is adjacent to a node at exactly `k` hops. */
  lemma ShellStep(g: Graph, s: string, k: nat)
    ensures Shell(g, s, k) <= Ball(g, s, k)
    ensures Ball(g, s, k + 1) == Ball(g, s, k) + Expand(g, Shell(g, s, k))
  {
    var b := Ball(g, s, k);
    if k > 0 {
      assert forall x, y :: x in Ball(g, s, k - 1) && x in g.attrs && y in Neighbors(g, x) ==> y in b;
    }
    forall y | y in Ball(g, s, k + 1) && y !in b ensures y in Expand(g, Shell(g, s, k)) {
      var x :| x in b && x in g.attrs && y in Neighbors(g, x);
      assert x in Shell(g, s, k);
    }
  }

  /** The shells are pairwise disjoint, and only the first holds `s`. */
  lemma ShellsDisjoint(g: Graph, s: string, i: nat, j: nat, x: string)
    requires i < j && x in Shell(g, s, j)
    ensures x !in Shell(g, s, i)
  {
    BallMono(g, s, i, j - 1);
  }

  // ---------------------------------------------------------------------
  // Results

  datatype Neighborhood = Absent(entity: string) | Layers(entity: string, layers: seq<seq<Link>>)

  /** Layer `j` of the neighbourhood of `s`: one record per node at `j + 1`
      hops, each reached from a node at `j` hops. */
  ghost predicate LayerIs(g: Graph, s: string, j: nat, layer: seq<Link>) {
    Distinct(Targets(layer)) &&
    (forall t :: t in Targets(layer) <==> t in Shell(g, s, j + 1)) &&
    FromSet(g, Shell(g, s, j), layer)
  }

  lemma TargetInShell(g: Graph, s: string, j: nat, layer: seq<Link>, a: nat)
    requires LayerIs(g, s, j, layer) && a < |layer|
    ensures layer[a].target in Shell(g, s, j + 1)
  {
    assert Targets(layer)[a] in Targets(layer);
  }

  /** Every layer `j` of `layers` is layer `j` of the neighbourhood of `s`. */
  ghost predicate LayersAre(g: Graph, s: string, layers: seq<seq<Link>>) {
    forall j :: 0 <= j < |layers| ==> LayerIs(g, s, j, layers[j])
  }

  /** The state of `get_neighbors` after `|layers|` rounds: the visited set
      is the ball and the frontier the shell of that radius, the layers are
      right, only the last may be empty, and `done` says it is. */
  ghost predicate Searched(g: Graph, s: string, layers: seq<seq<Link>>, visited: set<string>, frontier: set<string>, done: bool) {
    visited == Ball(g, s, |layers|) && frontier == Shell(g, s, |layers|) &&
    LayersAre(g, s, layers) &&
    (forall j :: 0 <= j < |layers| - 1 ==> layers[j] != []) &&
    (done <==> |layers| > 0 && layers[|layers| - 1] == [])
  }

  lemma SearchStep(g: Graph, s: string, layers: seq<seq<Link>>, visited: set<string>, frontier: set<string>, done: bool,
                   visited': set<string>, layer: seq<Link>, next: set<string>)
    requires Searched(g, s, layers, visited, frontier, done) && !done
    requires visited' == Ball(g, s, |layers| + 1) && next == Shell(g, s, |layers| + 1)
    requires LayerIs(g, s, |layers|, layer) && (layer == [] <==> next == {})
    ensures Searched(g, s, layers + [layer], visited', next, next == {})
  {
    LayersSnoc(g, s, layers, layer);
    var ls := layers + [layer];
    forall j | 0 <= j < |ls| - 1 ensures ls[j] != [] {
      assert ls[j] == layers[j];
    }
  }

  lemma LayersSnoc(g: Graph, s: string, layers: seq<seq<Link>>, layer: seq<Link>)
    requires LayersAre(g, s, layers) && LayerIs(g, s, |layers|, layer)
    ensures LayersAre(g, s, layers + [layer])
  {
    forall j | 0 <= j < |layers| + 1 ensures LayerIs(g, s, j, (layers + [layer])[j]) {
      if j < |layers| {
        assert (layers + [layer])[j] == layers[j];
      }
    }
  }

  lemma TargetsDiffer(g: Graph, s: string, i: nat, li: seq<Link>, j: nat, lj: seq<Link>, a: nat, b: nat)
    requires LayerIs(g, s, i, li) && LayerIs(g, s, j, lj) && a < |li| && b < |lj|
    requires i != j || (li == lj && a != b)
    ensures li[a].target != lj[b].target
  {
    if i < j {
      TargetInShell(g, s, i, li, a);
      TargetInShell(g, s, j, lj, b);
      CrossLayers(g, s, i, j, li[a].target, lj[b].target);
    } else if j < i {
      TargetInShell(g, s, i, li, a);
      TargetInShell(g, s, j, lj, b);
      CrossLayers(g, s, j, i, lj[b].target, li[a].target);
    } else {
      WithinLayer(li, a, b);
    }
  }

  lemma CrossLayers(g: Graph, s: string, i: nat, j: nat, x: string, y: string)
    requires i < j && x in Shell(g, s, i + 1) && y in Shell(g, s, j + 1)
    ensures x != y
  {
    BallMono(g, s, i + 1, j);
    assert x in Ball(g, s, i + 1);
    assert y !in Ball(g, s, j);
  }

  lemma WithinLayer(layer: seq<Link>, a: nat, b: nat)
    requires Distinct(Targets(layer)) && a < |layer| && b < |layer| && a != b
    ensures layer[a].target != layer[b].target
  {
    assert Targets(layer)[a] == layer[a].target && Targets(layer)[b] == layer[b].target;
  }

  /** A node is the target of at most one record across all layers, and the
      start entity is never one. */
  lemma LayersUnique(g: Graph, s: string, layers: seq<seq<Link>>)
    requires LayersAre(g, s, layers)
    ensures forall i, a :: 0 <= i < |layers| && 0 <= a < |layers[i]| ==> layers[i][a].target != s
    ensures forall i, j, a, b ::
      (0 <= i < |layers| && 0 <= j < |layers| && 0 <= a < |layers[i]| && 0 <= b < |layers[j]| && (i != j || a != b))
      ==> layers[i][a].target != layers[j][b].target
  {
    forall i, a | 0 <= i < |layers| && 0 <= a < |layers[i]| ensures layers[i][a].target != s {
      TargetInShell(g, s, i, layers[i], a);
      ShellsDisjoint(g, s, 0, i + 1, layers[i][a].target);
    }
    forall i, j, a, b | 0 <= i < |layers| && 0 <= j < |layers| && 0 <= a < |layers[i]| && 0 <= b < |layers[j]| && (i != j || a != b)
      ensures layers[i][a].target != layers[j][b].target
    {
      TargetsDiffer(g, s, i, layers[i], j, layers[j], a, b);
    }
  }

  /** One round of the search turns the ball and shell of radius `k` into
      those of radius `k + 1`, and its records form layer `k`. */
  lemma RoundStep(g: Graph, s: string, k: nat, visited: set<string>, visited': set<string>, layer: seq<Link>, next: set<string>)
    requires visited == Ball(g, s, k)
    requires forall y :: y in next <==> y in Expand(g, Shell(g, s, k)) && y !in visited
    requires forall y :: y in visited' <==> y in visited || y in next
    requires Distinct(Targets(layer)) && forall t :: t in Targets(layer) <==> t in next
    requires FromSet(g, Shell(g, s, k), layer)
    ensures visited' == Ball(g, s, k + 1)
    ensures next == Shell(g, s, k + 1)
    ensures LayerIs(g, s, k, layer)
    ensures layer == [] <==> next == {}
  {
    ShellStep(g, s, k);
    assert forall y :: y in next <==> y in Shell(g, s, k + 1);
    if layer != [] {
      assert Targets(layer)[0] in next;
    }
  }

  class GraphConversationalAgent {
    const graph: Graph

    constructor (g: Graph)
      requires Valid(g)
      ensures graph == g
    {
      graph := g;
    }

    /** The records for the neighbours of `node` not yet visited, in
        adjacency order; they become visited. */
    method VisitNode(node: string, visited: set<string>) returns (visited': set<string>, added: seq<Link>)
      ensures forall y :: y in visited' <==> y in visited || y in Neighbors(graph, node)
      ensures Distinct(Targets(added))
      ensures forall t :: t in Targets(added) <==> t in Neighbors(graph, node) && t !in visited
      ensures FromNode(graph, node, added)
    {
      var ns := Neighbors(graph, node);
      visited', added := visited, [];
      var i := 0;
      while i < |ns|
        invariant 0 <= i <= |ns|
        invariant VisitedUpTo(graph, node, ns, i, visited, visited', added)
      {
        var neighbor := ns[i];
        ghost var visited0, added0 := visited', added;
        NeighborIffEdge(graph, node, neighbor);
        if neighbor !in visited' {
          var l := LinkOf(node, neighbor, EdgeData(graph, node, neighbor).value);
          added := added + [l];
          visited' := visited' + {neighbor};
        }
        VisitStep(graph, node, ns, i, visited, visited0, added0, visited', added);
        i := i + 1;
      }
      PrefixAll(ns);
    }

    /** One round of `get_neighbors`: every frontier node, in any order,
        contributes the records of its unvisited neighbours. */
    method NextLayer(visited: set<string>, frontier: set<string>) returns (visited': set<string>, layer: seq<Link>, next: set<string>)
      requires frontier <= graph.attrs.Keys
      ensures forall y :: y in next <==> y in Expand(graph, frontier) && y !in visited
      ensures forall y :: y in visited' <==> y in visited || y in next
      ensures Distinct(Targets(layer)) && forall t :: t in Targets(layer) <==> t in next
      ensures FromSet(graph, frontier, layer)
    {
      var todo := frontier;
      visited', layer, next := visited, [], {};
      while todo != {}
        invariant todo <= frontier
        invariant forall y :: y in next <==> y in Expand(graph, frontier - todo) && y !in visited
        invariant forall y :: y in visited' <==> y in visited || y in next
        invariant Distinct(Targets(layer)) && forall t :: t in Targets(layer) <==> t in next
        invariant FromSet(graph, frontier - todo, layer)
        decreases |todo|
      {
        var node :| node in todo;
        var added;
        var before := visited';
        visited', added := VisitNode(node, visited');
        TargetsConcat(layer, added);
        DistinctConcat(Targets(layer), Targets(added));
        ExpandInsert(graph, frontier - todo, node);
        assert frontier - (todo - {node}) == (frontier - todo) + {node};
        FromSetJoin(graph, frontier - todo, node, layer, added);
        layer := layer + added;
        next := next + (visited' - before);
        todo := todo - {node};
      }
    }

    /** Round `k` of `get_neighbors`, stated against the hop distance. */
    method Round(entity: string, k: nat, visited: set<string>, frontier: set<string>)
      returns (visited': set<string>, layer: seq<Link>, next: set<string>)
      requires Valid(graph) && entity in graph.attrs
      requires visited == Ball(graph, entity, k) && frontier == Shell(graph, entity, k)
      ensures visited' == Ball(graph, entity, k + 1) && next == Shell(graph, entity, k + 1)
      ensures LayerIs(graph, entity, k, layer)
      ensures layer == [] <==> next == {}
    {
      ShellStep(graph, entity, k);
      BallNodes(graph, entity, k);
      visited', layer, next := NextLayer(visited, frontier);
      RoundStep(graph, entity, k, visited, visited', layer, next);
    }

    /** `get_neighbors(entity, depth)` */
    method GetNeighbors(entity: string, depth: int) returns (r: Neighborhood)
      requires Valid(graph)
      ensures r.entity == entity
      ensures r.Absent? <==> entity !in graph.attrs
      ensures r.Layers? ==> 1 <= |r.layers| <= AtLeastOne(depth)
      ensures r.Layers? ==> LayersAre(graph, entity, r.layers)
      ensures r.Layers? ==> forall j :: 0 <= j < |r.layers| - 1 ==> r.layers[j] != []
      ensures r.Layers? && |r.layers| < AtLeastOne(depth) ==> r.layers[|r.layers| - 1] == []
    {
      if entity !in graph.attrs {
        return Absent(entity);
      }
      var visited := {entity};
      var frontier := {entity};
      var layers: seq<seq<Link>> := [];
      var done := false;
      while |layers| < AtLeastOne(depth) && !done
        invariant |layers| <= AtLeastOne(depth)
        invariant Searched(graph, entity, layers, visited, frontier, done)
        decreases AtLeastOne(depth) - |layers|, if done then 0 else 1
      {
        var visited', layer, next := Round(entity, |layers|, visited, frontier);
        SearchStep(graph, entity, layers, visited, frontier, done, visited', layer, next);
        layers := layers + [layer];
        visited := visited';
        frontier := next;
        done := next == {};
      }
      r := Layers(entity, layers);
    }

    /** The records of the edges along `p`, one per consecutive pair. */
    method ExpandPath(p: seq<string>) returns (edges: seq<Link>)
      requires forall i :: 0 <= i < |p| - 1 ==> HasEdge(graph, p[i], p[i + 1])
      ensures Expanded(graph, Path(p, edges))
    {
      edges := [];
      var i := 0;
      while i + 1 < |p|
        invariant i == 0 || i < |p|
        invariant |edges| == i
        invariant forall j :: 0 <= j < i ==> EdgeAt(graph, p, edges[j], j)
      {
        edges := edges + [LinkOf(p[i], p[i + 1], EdgeData(graph, p[i], p[i + 1]).value)];
        i := i + 1;
      }
    }

    /** `shortest_path(source, target, k_paths)`; `found` is what
        `all_shortest_paths` yields, `None` when it reports no path. */
    method ShortestPath(source: string, target: string, kPaths: int, found: Option<seq<seq<string>>>)
      returns (paths: seq<Path>)
      requires found.Some? ==> forall p :: p in found.value ==> IsWalk(graph, p, source, target)
      ensures source !in graph.attrs || target !in graph.attrs || found.None? ==> paths == []
      ensures source in graph.attrs && target in graph.attrs && found.Some? ==>
        |paths| == |Take(found.value, AtLeastOne(kPaths))| &&
        forall i :: 0 <= i < |paths| ==> paths[i].nodes == found.value[i]
      ensures |paths| <= AtLeastOne(kPaths)
      ensures forall path :: path in paths ==> IsWalk(graph, path.nodes, source, target) && Expanded(graph, path)
    {
      if source !in graph.attrs || target !in graph.attrs || found.None? {
        return [];
      }
      var chosen := Take(found.value, AtLeastOne(kPaths));
      paths := [];
      var i := 0;
      while i < |chosen|
        invariant 0 <= i <= |chosen| && |paths| == i
        invariant forall j :: 0 <= j < i ==> paths[j].nodes == chosen[j]
        invariant forall path :: path in paths ==> IsWalk(graph, path.nodes, source, target) && Expanded(graph, path)
      {
        assert chosen[i] in found.value;
        var edges := ExpandPath(chosen[i]);
        paths := paths + [Path(chosen[i], edges)];
        i := i + 1;
      }
    }

    /** `common_connections(entities, min_degree)` */
    method CommonConnections(entities: seq<string>, minDegree: int) returns (r: seq<Connection>)
      requires Valid(graph)
      ensures |Present(graph, entities)| < 2 ==> r == []
      ensures |Present(graph, entities)| >= 2 ==>
        forall x :: x in Names(r) <==> Shared(graph, entities, x) && Degree(graph, x) >= minDegree
      ensures Distinct(Names(r))
      ensures SortedDesc(r, DegreeOf)
      ensures forall c :: c in r ==> c.degree == Degree(graph, c.entity)
    {
      var present := Present(graph, entities);
      if |present| < 2 {
        return [];
      }
      var common := CommonNeighbors(graph, present);
      var todo := common;
      var found: seq<Connection> := [];
      while todo != {}
        invariant todo <= common
        invariant forall x :: x in Names(found) <==> x in common && x !in todo && Degree(graph, x) >= minDegree
        invariant Distinct(Names(found))
        invariant forall c :: c in found ==> c.degree == Degree(graph, c.entity)
        decreases |todo|
      {
        var n :| n in todo;
        var deg := Degree(graph, n);
        if deg >= minDegree {
          DistinctConcat(Names(found), [n]);
          assert Names(found + [Connection(n, deg)]) == Names(found) + [n];
          found := found + [Connection(n, deg)];
        }
        todo := todo - {n};
      }
      r := SortDesc(found, DegreeOf);
      SortedConnections(graph, found, r);
      forall x ensures x in common <==> Shared(graph, entities, x) {
        CommonIff(graph, entities, present, x);
      }
    }

    /** One expansion pass of `subgraph`: the set and every neighbour of
        its graph nodes. */
    method GrowOnce(kept: set<string>) returns (grown: set<string>)
      ensures grown == Grow(graph, kept)
    {
      var neighbors: set<string> := {};
      var todo := kept;
      while todo != {}
        invariant todo <= kept
        invariant forall y :: y in neighbors <==> y in Expand(graph, kept - todo)
        decreases |todo|
      {
        var n :| n in todo;
        if n in graph.attrs {
          neighbors := neighbors + (set y | y in Neighbors(graph, n));
        }
        ExpandInsert(graph, kept - todo, n);
        assert kept - (todo - {n}) == (kept - todo) + {n};
        todo := todo - {n};
      }
      grown := kept + neighbors;
      assert forall y :: y in grown <==> y in Grow(graph, kept);
    }

    /** The `depth` passes one present centre triggers. */
    method GrowRounds(kept: set<string>, depth: int) returns (grown: set<string>)
      ensures grown == GrowN(graph, kept, Steps(depth))
    {
      grown := kept;
      for k := 0 to Steps(depth)
        invariant grown == GrowN(graph, kept, k)
      {
        ghost var before := grown;
        grown := GrowOnce(grown);
        GrowNStep(graph, kept, k, before, grown);
      }
    }

    /** The passes of centre `centers[i]`, if it is in the graph. */
    method GrowCenter(ghost start: set<string>, centers: seq<string>, i: nat, depth: int, kept: set<string>)
      returns (grown: set<string>)
      requires i < |centers|
      requires kept == GrowN(graph, start, Passes(graph, centers[..i], depth))
      ensures grown == GrowN(graph, start, Passes(graph, centers[..i + 1], depth))
    {
      PassesSnoc(graph, centers, i, depth);
      grown := kept;
      if centers[i] in graph.attrs {
        grown := GrowRounds(kept, depth);
        GrowNAdd(graph, start, Passes(graph, centers[..i], depth), Steps(depth));
      }
    }

    /** `subgraph(center_entities, depth)` */
    method Subgraph(centers: seq<string>, depth: int) returns (r: SubgraphView)
      requires Valid(graph)
      ensures forall n :: n in r.nodes <==>
        n in graph.attrs && n in GrowN(graph, (set c | c in centers), Passes(graph, centers, depth))
      ensures Distinct(r.nodes)
      ensures forall c :: c in centers && c in graph.attrs ==> c in r.nodes
      ensures forall p :: p in r.edges ==> HasEdge(graph, p.0, p.1) && p.0 in r.nodes && p.1 in r.nodes
      ensures forall e :: e in graph.edges && e.u in r.nodes && e.v in r.nodes ==>
        (e.u, e.v) in r.edges || (e.v, e.u) in r.edges
      ensures PairsOnce(r.edges)
    {
      var kept := set c | c in centers;
      ghost var start := kept;
      for i := 0 to |centers|
        invariant kept == GrowN(graph, start, Passes(graph, centers[..i], depth))
      {
        kept := GrowCenter(start, centers, i, depth, kept);
      }
      assert centers[..|centers|] == centers;
      var h := Induced(graph, kept);
      r := SubgraphView(h.nodes, Pairs(EdgeView(h)));
      SubgraphFacts(graph, centers, depth, kept, r);
    }
  }

  /** Every record in `added` leaves `node` along an edge of `g`. */
  ghost predicate FromNode(g: Graph, node: string, added: seq<Link>) {
    forall l :: l in added ==> l.source == node && Records(g, l)
  }

  lemma FromNodeSnoc(g: Graph, node: string, added: seq<Link>, l: Link)
    requires FromNode(g, node, added)
    requires HasEdge(g, node, l.target) && l == LinkOf(node, l.target, EdgeData(g, node, l.target).value)
    ensures FromNode(g, node, added + [l])
  {
  }

  /** After the first `i` neighbours `ns` of `node`: the visited set has
      gained them, and `added` holds one record, leaving `node`, for each of
      them that was not visited before. */
  ghost predicate VisitedUpTo(g: Graph, node: string, ns: seq<string>, i: nat,
                              visited: set<string>, visited': set<string>, added: seq<Link>)
    requires i <= |ns|
  {
    (forall y :: y in visited' <==> y in visited || y in ns[..i]) &&
    Distinct(Targets(added)) &&
    (forall t :: t in Targets(added) <==> t in ns[..i] && t !in visited) &&
    FromNode(g, node, added)
  }

  lemma VisitStep(g: Graph, node: string, ns: seq<string>, i: nat, visited: set<string>,
                  v: set<string>, added: seq<Link>, v': set<string>, added': seq<Link>)
    requires i < |ns| && VisitedUpTo(g, node, ns, i, visited, v, added)
    requires ns[i] in v ==> v' == v && added' == added
    requires ns[i] !in v ==> (HasEdge(g, node, ns[i]) && v' == v + {ns[i]} &&
      added' == added + [LinkOf(node, ns[i], EdgeData(g, node, ns[i]).value)])
    ensures VisitedUpTo(g, node, ns, i + 1, visited, v', added')
  {
    PrefixStep(ns, i);
    if ns[i] !in v {
      var l := LinkOf(node, ns[i], EdgeData(g, node, ns[i]).value);
      FromNodeSnoc(g, node, added, l);
      TargetsConcat(added, [l]);
      DistinctConcat(Targets(added), [ns[i]]);
    }
  }

  /** Every record in `layer` leaves a node of `f` along an edge of `g`. */
  ghost predicate FromSet(g: Graph, f: set<string>, layer: seq<Link>) {
    forall l :: l in layer ==> l.source in f && Records(g, l)
  }

  lemma FromSetJoin(g: Graph, f: set<string>, node: string, layer: seq<Link>, added: seq<Link>)
    requires FromSet(g, f, layer) && FromNode(g, node, added)
    ensures FromSet(g, f + {node}, layer + added)
  {
  }

  lemma ExpandInsert(g: Graph, f: set<string>, x: string)
    ensures forall y :: y in Expand(g, f + {x}) <==> y in Expand(g, f) || (x in g.attrs && y in Neighbors(g, x))
  {
  }

  // ---------------------------------------------------------------------
  // Shortest paths

  datatype Path = Path(nodes: seq<string>, edges: seq<Link>)

  /** `p` walks from `a` to `b` along edges of `g`. */
  ghost predicate IsWalk(g: Graph, p: seq<string>, a: string, b: string) {
    |p| >= 1 && p[0] == a && p[|p| - 1] == b &&
    forall i :: 0 <= i < |p| - 1 ==> HasEdge(g, p[i], p[i + 1])
  }

  /** Record `j` is the record of the edge from `p[j]` to `p[j + 1]`. */
  ghost predicate EdgeAt(g: Graph, p: seq<string>, l: Link, j: nat)
    requires j + 1 < |p|
  {
    l.source == p[j] && l.target == p[j + 1] && Records(g, l)
  }

  /** The path's records follow its nodes: one per consecutive pair, each
      leaving where the previous one arrived. */
  ghost predicate Expanded(g: Graph, path: Path) {
    |path.edges| == (if path.nodes == [] then 0 else |path.nodes| - 1) &&
    forall j :: 0 <= j < |path.edges| ==> EdgeAt(g, path.nodes, path.edges[j], j)
  }

  // ---------------------------------------------------------------------
  // Common neighbours

  datatype Connection = Connection(entity: string, degree: nat)

  function DegreeOf(c: Connection): real {
    c.degree as real
  }

  function Names(cs: seq<Connection>): (ns: seq<string>)
    ensures |ns| == |cs|
    ensures forall i :: 0 <= i < |cs| ==> ns[i] == cs[i].entity
  {
    seq(|cs|, i requires 0 <= i < |cs| => cs[i].entity)
  }

  /** `[e for e in entities if e in G]` */
  function Present(g: Graph, es: seq<string>): (r: seq<string>)
    ensures forall x :: x in r <==> x in es && x in g.attrs
    ensures |r| <= |es|
  {
    if es == [] then []
    else
      var last := es[|es| - 1];
      assert es == es[..|es| - 1] + [last];
      Present(g, es[..|es| - 1]) + (if last in g.attrs then [last] else [])
  }

  /** The intersection of the neighbour sets of the present entities. */
  function CommonNeighbors(g: Graph, present: seq<string>): set<string>
    requires present != []
  {
    set x | x in Neighbors(g, present[0]) && forall e :: e in present ==> x in Neighbors(g, e)
  }

  /** `x` is linked by an edge to every entity of `es` that is in the graph. */
  ghost predicate Shared(g: Graph, es: seq<string>, x: string) {
    forall e :: e in es && e in g.attrs ==> HasEdge(g, e, x)
  }

  lemma CommonIff(g: Graph, es: seq<string>, present: seq<string>, x: string)
    requires present == Present(g, es) && present != []
    ensures x in CommonNeighbors(g, present) <==> Shared(g, es, x)
  {
    forall e | e in present ensures x in Neighbors(g, e) <==> HasEdge(g, e, x) {
      NeighborIffEdge(g, e, x);
    }
  }

  lemma {:induction false} DistinctCounts<T>(s: seq<T>)
    ensures Distinct(s) <==> forall x :: multiset(s)[x] <= 1
  {
    if s != [] {
      var t, y := s[..|s| - 1], s[|s| - 1];
      assert s == t + [y];
      DistinctCounts(t);
      if Distinct(s) {
        assert Distinct(t) by {
          forall i, j | 0 <= i < j < |t| ensures t[i] != t[j] { assert t[i] == s[i] && t[j] == s[j]; }
        }
        assert forall k :: 0 <= k < |t| ==> t[k] == s[k] && s[k] != s[|s| - 1];
        assert multiset(s) == multiset(t) + multiset{y};
      } else {
        assert multiset(s) == multiset(t) + multiset{y};
        var i, j :| 0 <= i < j < |s| && s[i] == s[j];
        if j < |s| - 1 {
          assert t[i] == t[j];
          var x :| multiset(t)[x] > 1;
          assert multiset(s)[x] > 1;
        } else {
          assert t[i] == y && y in t;
          assert multiset(s)[y] > 1;
        }
      }
    }
  }

  /** Sorting keeps the connection records: the same entities, each once,
      with their degrees. */
  lemma SortedConnections(g: Graph, found: seq<Connection>, r: seq<Connection>)
    requires multiset(r) == multiset(found) && Distinct(Names(found))
    requires forall c :: c in found ==> c.degree == Degree(g, c.entity)
    ensures forall c :: c in r ==> c.degree == Degree(g, c.entity)
    ensures forall x :: x in Names(r) <==> x in Names(found)
    ensures Distinct(Names(r))
  {
    assert forall c :: c in r <==> c in found by {
      forall c ensures c in r <==> c in found {
        assert c in r <==> c in multiset(r);
      }
    }
    forall x ensures x in Names(r) <==> x in Names(found) {
      if x in Names(r) {
        var i :| 0 <= i < |r| && Names(r)[i] == x;
        assert r[i] in found;
        var k :| 0 <= k < |found| && found[k] == r[i];
        assert Names(found)[k] == x;
      }
      if x in Names(found) {
        var i :| 0 <= i < |found| && Names(found)[i] == x;
        assert found[i] in r;
        var k :| 0 <= k < |r| && r[k] == found[i];
        assert Names(r)[k] == x;
      }
    }
    assert Distinct(found) by {
      forall i, j | 0 <= i < j < |found| ensures found[i] != found[j] {
        assert Names(found)[i] != Names(found)[j];
      }
    }
    DistinctCounts(found);
    DistinctCounts(r);
    forall i, j | 0 <= i < j < |r| ensures Names(r)[i] != Names(r)[j] {
      assert r[i] in found && r[j] in found;
    }
  }

  // ---------------------------------------------------------------------
  // Induced subgraphs

  datatype SubgraphView = SubgraphView(nodes: seq<string>, edges: seq<(string, string)>)

  /** The view of the subgraph induced by the grown set of centres. */
  lemma SubgraphFacts(g: Graph, centers: seq<string>, depth: int, kept: set<string>, r: SubgraphView)
    requires Valid(g) && kept == GrowN(g, (set c | c in centers), Passes(g, centers, depth))
    requires r == SubgraphView(Induced(g, kept).nodes, Pairs(EdgeView(Induced(g, kept))))
    ensures forall n :: n in r.nodes <==> n in g.attrs && n in kept
    ensures Distinct(r.nodes)
    ensures forall c :: c in centers && c in g.attrs ==> c in r.nodes
    ensures forall p :: p in r.edges ==> HasEdge(g, p.0, p.1) && p.0 in r.nodes && p.1 in r.nodes
    ensures forall e :: e in g.edges && e.u in r.nodes && e.v in r.nodes ==>
      (e.u, e.v) in r.edges || (e.v, e.u) in r.edges
    ensures PairsOnce(r.edges)
  {
    GrowNKeeps(g, (set c | c in centers), Passes(g, centers, depth));
    InducedView(g, kept);
  }

  /** `range(depth)` runs this many times. */
  function Steps(depth: int): nat {
    if depth < 0 then 0 else depth
  }

  /** The expansion passes `subgraph` makes: `depth` for each present
      centre, duplicates included. */
  function Passes(g: Graph, centers: seq<string>, depth: int): nat {
    |Present(g, centers)| * Steps(depth)
  }

  lemma PassesSnoc(g: Graph, centers: seq<string>, i: nat, depth: int)
    requires i < |centers|
    ensures Passes(g, centers[..i + 1], depth) ==
      Passes(g, centers[..i], depth) + (if centers[i] in g.attrs then Steps(depth) else 0)
  {
    assert centers[..i + 1][..i] == centers[..i];
    var a := |Present(g, centers[..i])|;
    if centers[i] in g.attrs {
      assert |Present(g, centers[..i + 1])| == a + 1;
      assert (a + 1) * Steps(depth) == a * Steps(depth) + Steps(depth);
    }
  }

  /** One pass: the set with the neighbours of its graph nodes. */
  ghost function Grow(g: Graph, s: set<string>): set<string> {
    s + Expand(g, s)
  }

  ghost function GrowN(g: Graph, s: set<string>, n: nat): set<string> {
    if n == 0 then s else Grow(g, GrowN(g, s, n - 1))
  }

  lemma GrowNStep(g: Graph, s: set<string>, k: nat, before: set<string>, after: set<string>)
    requires before == GrowN(g, s, k) && after == Grow(g, before)
    ensures after == GrowN(g, s, k + 1)
  {
  }

  lemma {:induction false} GrowNAdd(g: Graph, s: set<string>, m: nat, n: nat)
    ensures GrowN(g, GrowN(g, s, m), n) == GrowN(g, s, m + n)
  {
    if n > 0 {
      GrowNAdd(g, s, m, n - 1);
    }
  }

  lemma {:induction false} GrowNKeeps(g: Graph, s: set<string>, n: nat)
    ensures s <= GrowN(g, s, n)
  {
    if n > 0 {
      GrowNKeeps(g, s, n - 1);
    }
  }

  function Pairs(es: seq<Edge>): (ps: seq<(string, string)>)
    ensures |ps| == |es|
    ensures forall i :: 0 <= i < |es| ==> ps[i] == (es[i].u, es[i].v)
  {
    seq(|es|, i requires 0 <= i < |es| => (es[i].u, es[i].v))
  }

  lemma EdgeHas(g: Graph, e: Edge)
    requires e in g.edges
    ensures HasEdge(g, e.u, e.v)
  {
    var k :| 0 <= k < |g.edges| && g.edges[k] == e;
    assert Joins(g.edges[k], e.u, e.v);
  }

  /** The edge list of the induced subgraph holds exactly the graph's edges
      between kept nodes, each from one of its two ends. */
  lemma InducedView(g: Graph, keep: set<string>)
    requires Valid(g)
    ensures var h := Induced(g, keep);
      (forall p :: p in Pairs(EdgeView(h)) ==> HasEdge(g, p.0, p.1) && p.0 in h.nodes && p.1 in h.nodes) &&
      (forall e :: e in g.edges && e.u in h.nodes && e.v in h.nodes ==>
        (e.u, e.v) in Pairs(EdgeView(h)) || (e.v, e.u) in Pairs(EdgeView(h))) &&
      PairsOnce(Pairs(EdgeView(h)))
  {
    InducedViewSound(g, keep);
    InducedViewComplete(g, keep);
    var h := Induced(g, keep);
    EdgeViewDistinct(h);
    PairsOnceOf(EdgeView(h));
  }

  /** No pair is listed twice, in the same or the opposite direction. */
  ghost predicate PairsOnce(ps: seq<(string, string)>) {
    forall i, j :: 0 <= i < j < |ps| ==> ps[j] != ps[i] && ps[j] != (ps[i].1, ps[i].0)
  }

  /** The end pairs of edges that never join the same two nodes are listed
      once each. */
  lemma PairsOnceOf(es: seq<Edge>)
    requires DistinctKeys(es)
    ensures PairsOnce(Pairs(es))
  {
    var ps := Pairs(es);
    forall i, j | 0 <= i < j < |ps| ensures ps[j] != ps[i] && ps[j] != (ps[i].1, ps[i].0) {
      assert !Joins(es[j], es[i].u, es[i].v);
    }
  }

  lemma InducedViewSound(g: Graph, keep: set<string>)
    requires Valid(g)
    ensures var h := Induced(g, keep);
      forall p :: p in Pairs(EdgeView(h)) ==> HasEdge(g, p.0, p.1) && p.0 in h.nodes && p.1 in h.nodes
  {
    var h := Induced(g, keep);
    var ps := Pairs(EdgeView(h));
    forall p | p in ps ensures HasEdge(g, p.0, p.1) && p.0 in h.nodes && p.1 in h.nodes {
      var i :| 0 <= i < |ps| && ps[i] == p;
      InducedEdgeSound(g, keep, EdgeView(h)[i]);
    }
  }

  lemma InducedEdgeSound(g: Graph, keep: set<string>, f: Edge)
    requires Valid(g) && f in EdgeView(Induced(g, keep))
    ensures var h := Induced(g, keep);
      HasEdge(g, f.u, f.v) && f.u in h.nodes && f.v in h.nodes
  {
    var h := Induced(g, keep);
    EdgeViewSound(h, f);
    var e :| e in h.edges && Joins(e, f.u, f.v) && e.attr == f.attr;
    EdgeHas(g, e);
    HasEdgeSymmetric(g, e.u, e.v);
  }

  lemma InducedViewComplete(g: Graph, keep: set<string>)
    requires Valid(g)
    ensures var h := Induced(g, keep);
      forall e :: e in g.edges && e.u in h.nodes && e.v in h.nodes ==>
        (e.u, e.v) in Pairs(EdgeView(h)) || (e.v, e.u) in Pairs(EdgeView(h))
  {
    var h := Induced(g, keep);
    var ps := Pairs(EdgeView(h));
    forall e | e in g.edges && e.u in h.nodes && e.v in h.nodes
      ensures (e.u, e.v) in ps || (e.v, e.u) in ps
    {
      assert e in h.edges;
      EdgeViewComplete(h, e);
      var f :| f in EdgeView(h) && Joins(f, e.u, e.v) && f.attr == e.attr;
      var i :| 0 <= i < |EdgeView(h)| && EdgeView(h)[i] == f;
      assert ps[i] == (f.u, f.v);
    }
  }
}
