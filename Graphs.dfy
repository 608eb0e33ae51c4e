/** The undirected networkx `Graph` the services share: nodes in insertion
    order with their attributes, and edges in insertion order. networkx keeps
    each node's adjacency in the order in which its edges were added, so the
    neighbours of a node are the other endpoints of its edges, in edge order. */
module Graphs {
  import opened Strings

  datatype NodeAttr = NodeAttr(entityType: string, count: int)

  datatype EdgeAttr = EdgeAttr(weight: real, evidence: seq<string>, relType: string)

  datatype Edge = Edge(u: string, v: string, attr: EdgeAttr)

  datatype Graph = Graph(nodes: seq<string>, attrs: map<string, NodeAttr>, edges: seq<Edge>)

  /** Edge `e` links `a` and `b`, in either direction. */
  predicate Joins(e: Edge, a: string, b: string) {
    (e.u == a && e.v == b) || (e.u == b && e.v == a)
  }

  predicate Touches(e: Edge, n: string) {
    e.u == n || e.v == n
  }

  function Other(e: Edge, n: string): string {
    if e.u == n then e.v else e.u
  }

  /** Node ids are unique and carry attributes; edges link nodes and no two
      edges link the same unordered pair. */
  ghost predicate Valid(g: Graph) {
    Distinct(g.nodes) &&
    (forall n :: n in g.attrs <==> n in g.nodes) &&
    (forall i :: 0 <= i < |g.edges| ==> g.edges[i].u in g.attrs && g.edges[i].v in g.attrs) &&
    (forall i, j :: 0 <= i < j < |g.edges| ==> !Joins(g.edges[j], g.edges[i].u, g.edges[i].v))
  }

  function EmptyGraph(): (g: Graph)
    ensures Valid(g) && g.nodes == [] && g.edges == []
  {
    Graph([], map[], [])
  }

  /** `G.add_node(n, **attr)`: a present node keeps its place. */
  function AddNode(g: Graph, n: string, a: NodeAttr): (h: Graph)
    requires Valid(g)
    ensures Valid(h)
    ensures h.attrs == g.attrs[n := a] && h.edges == g.edges
    ensures h.nodes == if n in g.attrs then g.nodes else g.nodes + [n]
  {
    if n in g.attrs then g.(attrs := g.attrs[n := a])
    else Graph(g.nodes + [n], g.attrs[n := a], g.edges)
  }

  /** Position of the edge linking `a` and `b`. */
  function EdgeIndex(edges: seq<Edge>, a: string, b: string): (r: Option<nat>)
    ensures r.Some? ==> r.value < |edges| && Joins(edges[r.value], a, b)
    ensures r.None? ==> forall i :: 0 <= i < |edges| ==> !Joins(edges[i], a, b)
  {
    if edges == [] then None
    else if Joins(edges[0], a, b) then Some(0)
    else match EdgeIndex(edges[1..], a, b)
      case None => None
      case Some(i) => Some(i + 1)
  }

  /** `G.has_edge(a, b)` */
  predicate HasEdge(g: Graph, a: string, b: string) {
    EdgeIndex(g.edges, a, b).Some?
  }

  /** `G.edges[a, b]`, when the edge exists. */
  function EdgeData(g: Graph, a: string, b: string): (r: Option<EdgeAttr>)
    ensures r.Some? <==> HasEdge(g, a, b)
  {
    match EdgeIndex(g.edges, a, b)
    case None => None
    case Some(i) => Some(g.edges[i].attr)
  }

  lemma HasEdgeSymmetric(g: Graph, a: string, b: string)
    ensures HasEdge(g, a, b) == HasEdge(g, b, a)
    ensures EdgeData(g, a, b) == EdgeData(g, b, a)
  {
    EdgeIndexSymmetric(g.edges, a, b);
  }

  lemma {:induction false} EdgeIndexSymmetric(edges: seq<Edge>, a: string, b: string)
    ensures EdgeIndex(edges, a, b) == EdgeIndex(edges, b, a)
  {
    if edges != [] { EdgeIndexSymmetric(edges[1..], a, b); }
  }

  /** `G.add_edge(a, b, **attr)` between present nodes: an existing edge keeps
      its place and its orientation and takes the new attributes. */
  function AddEdge(g: Graph, a: string, b: string, attr: EdgeAttr): (h: Graph)
    requires Valid(g) && a in g.attrs && b in g.attrs
    ensures Valid(h)
    ensures h.nodes == g.nodes && h.attrs == g.attrs
    ensures EdgeData(h, a, b) == Some(attr)
  {
    match EdgeIndex(g.edges, a, b)
    case Some(i) =>
      var h := g.(edges := g.edges[i := Edge(g.edges[i].u, g.edges[i].v, attr)]);
      EdgeIndexUpdate(g.edges, i, attr, a, b);
      UpdateKeepsValid(g, i, attr);
      h
    case None =>
      var h := g.(edges := g.edges + [Edge(a, b, attr)]);
      EdgeIndexAppend(g.edges, Edge(a, b, attr), a, b);
      AppendKeepsValid(g, a, b, attr);
      h
  }

  /** Adding an edge keeps every existing edge's endpoints in place and
      can only append an edge linking `a` and `b`. */
  lemma AddEdgeShape(g: Graph, a: string, b: string, attr: EdgeAttr)
    requires Valid(g) && a in g.attrs && b in g.attrs
    ensures var h := AddEdge(g, a, b, attr);
      |g.edges| <= |h.edges| <= |g.edges| + 1 &&
      (forall i :: 0 <= i < |g.edges| ==> h.edges[i].u == g.edges[i].u && h.edges[i].v == g.edges[i].v) &&
      (forall i :: |g.edges| <= i < |h.edges| ==> Joins(h.edges[i], a, b))
  {
  }

  /** An edge, once present, stays present. */
  lemma AddEdgeKeeps(g: Graph, a: string, b: string, attr: EdgeAttr, x: string, y: string)
    requires Valid(g) && a in g.attrs && b in g.attrs && HasEdge(g, x, y)
    ensures HasEdge(AddEdge(g, a, b, attr), x, y)
  {
    var h := AddEdge(g, a, b, attr);
    AddEdgeShape(g, a, b, attr);
    var i := EdgeIndex(g.edges, x, y).value;
    assert Joins(h.edges[i], x, y);
  }

  lemma UpdateKeepsValid(g: Graph, i: nat, attr: EdgeAttr)
    requires Valid(g) && i < |g.edges|
    ensures Valid(g.(edges := g.edges[i := Edge(g.edges[i].u, g.edges[i].v, attr)]))
  {
    var es := g.edges[i := Edge(g.edges[i].u, g.edges[i].v, attr)];
    assert forall k :: 0 <= k < |es| ==> es[k].u == g.edges[k].u && es[k].v == g.edges[k].v;
    forall k, l | 0 <= k < l < |es| ensures !Joins(es[l], es[k].u, es[k].v) {
      assert !Joins(g.edges[l], g.edges[k].u, g.edges[k].v);
    }
  }

  lemma AppendKeepsValid(g: Graph, a: string, b: string, attr: EdgeAttr)
    requires Valid(g) && a in g.attrs && b in g.attrs && EdgeIndex(g.edges, a, b).None?
    ensures Valid(g.(edges := g.edges + [Edge(a, b, attr)]))
  {
    var es := g.edges + [Edge(a, b, attr)];
    forall k, l | 0 <= k < l < |es| ensures !Joins(es[l], es[k].u, es[k].v) {
      if l == |g.edges| {
        assert !Joins(g.edges[k], a, b);
      } else {
        assert !Joins(g.edges[l], g.edges[k].u, g.edges[k].v);
      }
    }
  }

  lemma {:induction false} EdgeIndexUpdate(edges: seq<Edge>, i: nat, attr: EdgeAttr, a: string, b: string)
    requires EdgeIndex(edges, a, b) == Some(i)
    ensures EdgeIndex(edges[i := Edge(edges[i].u, edges[i].v, attr)], a, b) == Some(i)
  {
    if i > 0 {
      assert edges[i := Edge(edges[i].u, edges[i].v, attr)][1..] == edges[1..][i - 1 := Edge(edges[i].u, edges[i].v, attr)];
      EdgeIndexUpdate(edges[1..], i - 1, attr, a, b);
    }
  }

  lemma {:induction false} EdgeIndexAppend(edges: seq<Edge>, e: Edge, a: string, b: string)
    requires EdgeIndex(edges, a, b).None? && Joins(e, a, b)
    ensures EdgeIndex(edges + [e], a, b) == Some(|edges|)
  {
    if edges != [] {
      assert (edges + [e])[1..] == edges[1..] + [e];
      EdgeIndexAppend(edges[1..], e, a, b);
    }
  }

  /** The adjacency of `n`: each neighbour with the attributes of the edge
      that leads to it, in edge order. */
  function Adjacency(edges: seq<Edge>, n: string): (adj: seq<(string, EdgeAttr)>)
    ensures |adj| <= |edges|
  {
    if edges == [] then []
    else (if Touches(edges[0], n) then [(Other(edges[0], n), edges[0].attr)] else [])
         + Adjacency(edges[1..], n)
  }

  function NeighborsOf(edges: seq<Edge>, n: string): (ns: seq<string>)
    ensures |ns| <= |edges|
  {
    if edges == [] then []
    else (if Touches(edges[0], n) then [Other(edges[0], n)] else []) + NeighborsOf(edges[1..], n)
  }

  /** `list(G.neighbors(n))` */
  function Neighbors(g: Graph, n: string): (ns: seq<string>)
  {
    NeighborsOf(g.edges, n)
  }

  /** `x` is a neighbour of `n` exactly when an edge links them. */
  lemma {:induction false} NeighborsOfMeansEdge(edges: seq<Edge>, n: string, x: string)
    ensures x in NeighborsOf(edges, n) <==> EdgeIndex(edges, n, x).Some?
  {
    if edges != [] {
      NeighborsOfMeansEdge(edges[1..], n, x);
    }
  }

  lemma NeighborIffEdge(g: Graph, n: string, x: string)
    ensures x in Neighbors(g, n) <==> HasEdge(g, n, x)
  {
    NeighborsOfMeansEdge(g.edges, n, x);
  }

  lemma NeighborsAreNodes(g: Graph, n: string, x: string)
    requires Valid(g) && x in Neighbors(g, n)
    ensures x in g.attrs && x in g.nodes
  {
    NeighborIffEdge(g, n, x);
  }

  /** `G.degree(n)`: a self-loop counts twice. */
  function Degree(g: Graph, n: string): nat
  {
    |Neighbors(g, n)| + (if HasEdge(g, n, n) then 1 else 0)
  }

  /** Nodes whose ids are not in `drop`, in order. */
  function KeepNodes(nodes: seq<string>, drop: set<string>): (r: seq<string>)
    ensures forall x :: x in r <==> x in nodes && x !in drop
    ensures Distinct(nodes) ==> Distinct(r)
  {
    if nodes == [] then []
    else
      var rest := KeepNodes(nodes[1..], drop);
      assert Distinct(nodes) ==> nodes[0] !in nodes[1..];
      if nodes[0] in drop then rest else [nodes[0]] + rest
  }

  function KeepEdges(edges: seq<Edge>, drop: set<string>): (r: seq<Edge>)
    ensures |r| <= |edges|
    ensures forall e :: e in r <==> e in edges && e.u !in drop && e.v !in drop
  {
    if edges == [] then []
    else
      var rest := KeepEdges(edges[1..], drop);
      if edges[0].u in drop || edges[0].v in drop then rest else [edges[0]] + rest
  }

  ghost predicate DistinctKeys(edges: seq<Edge>) {
    forall i, j :: 0 <= i < j < |edges| ==> !Joins(edges[j], edges[i].u, edges[i].v)
  }

  lemma {:induction false} KeepEdgesDistinctKeys(edges: seq<Edge>, drop: set<string>)
    requires DistinctKeys(edges)
    ensures DistinctKeys(KeepEdges(edges, drop))
  {
    if edges != [] {
      var rest := KeepEdges(edges[1..], drop);
      assert DistinctKeys(edges[1..]) by {
        forall i, j | 0 <= i < j < |edges[1..]|
          ensures !Joins(edges[1..][j], edges[1..][i].u, edges[1..][i].v)
        {
          assert edges[1..][j] == edges[j + 1] && edges[1..][i] == edges[i + 1];
        }
      }
      KeepEdgesDistinctKeys(edges[1..], drop);
      if !(edges[0].u in drop || edges[0].v in drop) {
        var r := [edges[0]] + rest;
        forall i, j | 0 <= i < j < |r| ensures !Joins(r[j], r[i].u, r[i].v) {
          if i == 0 {
            assert r[j] == rest[j - 1] && rest[j - 1] in edges[1..];
            var k :| 0 <= k < |edges[1..]| && edges[1..][k] == rest[j - 1];
            assert edges[k + 1] == r[j];
          } else {
            assert r[j] == rest[j - 1] && r[i] == rest[i - 1];
          }
        }
      }
    }
  }

  /** `G.remove_nodes_from(drop)`: the nodes go with their edges; the rest
      keeps its order. */
  function RemoveNodes(g: Graph, drop: set<string>): (h: Graph)
    requires Valid(g)
    ensures Valid(h)
    ensures forall n :: n in h.attrs <==> n in g.attrs && n !in drop
    ensures forall n :: n in h.attrs ==> h.attrs[n] == g.attrs[n]
    ensures forall e :: e in h.edges <==> e in g.edges && e.u !in drop && e.v !in drop
  {
    var es := KeepEdges(g.edges, drop);
    var ns := KeepNodes(g.nodes, drop);
    var kept := map n | n in g.attrs && n !in drop :: g.attrs[n];
    assert DistinctKeys(g.edges);
    KeepEdgesDistinctKeys(g.edges, drop);
    assert forall n :: n in kept <==> n in ns;
    assert forall i :: 0 <= i < |es| ==> es[i] in g.edges;
    Graph(ns, kept, es)
  }

  /** `G.subgraph(keep)`: the nodes in `keep` and every edge between two of them. */
  function Induced(g: Graph, keep: set<string>): (h: Graph)
    requires Valid(g)
    ensures Valid(h)
    ensures forall n :: n in h.attrs <==> n in g.attrs && n in keep
    ensures forall e :: e in h.edges <==> e in g.edges && e.u in keep && e.v in keep
  {
    RemoveNodes(g, set n | n in g.attrs && n !in keep)
  }

  /** One row of networkx's edge view: the edges of `u` to neighbours not
      listed before it. */
  function ViewRow(u: string, adj: seq<(string, EdgeAttr)>, seen: seq<string>): (row: seq<Edge>)
    ensures |row| <= |adj|
    ensures forall i :: 0 <= i < |row| ==> row[i].u == u
  {
    if adj == [] then []
    else (if adj[0].0 in seen then [] else [Edge(u, adj[0].0, adj[0].1)]) + ViewRow(u, adj[1..], seen)
  }

  /** `list(G.edges(data=True))`: node by node, each edge reported once, from
      its endpoint that comes first in the node order. */
  function EdgeView(g: Graph): seq<Edge>
  {
    EdgeViewFrom(g, 0)
  }

  function EdgeViewFrom(g: Graph, i: nat): seq<Edge>
    decreases |g.nodes| - i
  {
    if i >= |g.nodes| then []
    else ViewRow(g.nodes[i], Adjacency(g.edges, g.nodes[i]), g.nodes[..i]) + EdgeViewFrom(g, i + 1)
  }

  lemma {:induction false} AdjacencyMember(edges: seq<Edge>, n: string, w: string, a: EdgeAttr)
    ensures (w, a) in Adjacency(edges, n) <==> exists e :: e in edges && Touches(e, n) && Other(e, n) == w && e.attr == a
  {
    if edges != [] {
      AdjacencyMember(edges[1..], n, w, a);
      assert edges == [edges[0]] + edges[1..];
    }
  }

  lemma {:induction false} ViewRowMember(u: string, adj: seq<(string, EdgeAttr)>, seen: seq<string>, f: Edge)
    ensures f in ViewRow(u, adj, seen) <==> f.u == u && (f.v, f.attr) in adj && f.v !in seen
  {
    if adj != [] {
      ViewRowMember(u, adj[1..], seen, f);
      assert adj == [adj[0]] + adj[1..];
    }
  }

  lemma {:induction false} EdgeViewFromMember(g: Graph, i: nat, f: Edge)
    ensures f in EdgeViewFrom(g, i) <==>
      exists j :: i <= j < |g.nodes| && f in ViewRow(g.nodes[j], Adjacency(g.edges, g.nodes[j]), g.nodes[..j])
    decreases |g.nodes| - i
  {
    if i < |g.nodes| {
      EdgeViewFromMember(g, i + 1, f);
    }
  }

  /** Every row of `G.edges()` is an edge of the graph, with its data. */
  lemma EdgeViewSound(g: Graph, f: Edge)
    requires f in EdgeView(g)
    ensures exists e :: e in g.edges && Joins(e, f.u, f.v) && e.attr == f.attr
  {
    EdgeViewFromMember(g, 0, f);
    var j :| 0 <= j < |g.nodes| && f in ViewRow(g.nodes[j], Adjacency(g.edges, g.nodes[j]), g.nodes[..j]);
    ViewRowMember(g.nodes[j], Adjacency(g.edges, g.nodes[j]), g.nodes[..j], f);
    AdjacencyMember(g.edges, g.nodes[j], f.v, f.attr);
    var e :| e in g.edges && Touches(e, f.u) && Other(e, f.u) == f.v && e.attr == f.attr;
    assert Joins(e, f.u, f.v);
  }

  /** Every edge of the graph is a row of `G.edges()`, listed from the
      endpoint that comes first in node order. */
  lemma EdgeViewComplete(g: Graph, e: Edge)
    requires Valid(g) && e in g.edges
    ensures exists f :: f in EdgeView(g) && Joins(f, e.u, e.v) && f.attr == e.attr
  {
    var k :| 0 <= k < |g.edges| && g.edges[k] == e;
    assert e.u in g.nodes && e.v in g.nodes;
    var ia :| 0 <= ia < |g.nodes| && g.nodes[ia] == e.u;
    var ib :| 0 <= ib < |g.nodes| && g.nodes[ib] == e.v;
    var j := if ia <= ib then ia else ib;
    var u := g.nodes[j];
    var w := if ia <= ib then e.v else e.u;
    var iw := if ia <= ib then ib else ia;
    assert g.nodes[iw] == w && j <= iw;
    assert Touches(e, u) && Other(e, u) == w;
    AdjacencyMember(g.edges, u, w, e.attr);
    assert w !in g.nodes[..j];
    var f := Edge(u, w, e.attr);
    ViewRowMember(u, Adjacency(g.edges, u), g.nodes[..j], f);
    EdgeViewFromMember(g, 0, f);
    assert Joins(f, e.u, e.v);
  }

  /** The neighbours listed in one node's adjacency are distinct, since no
      two edges link the same pair. */
  lemma {:induction false} AdjacencyDistinct(edges: seq<Edge>, n: string)
    requires DistinctKeys(edges)
    ensures forall p, q :: 0 <= p < q < |Adjacency(edges, n)| ==> Adjacency(edges, n)[p].0 != Adjacency(edges, n)[q].0
  {
    if edges != [] {
      var rest := Adjacency(edges[1..], n);
      assert DistinctKeys(edges[1..]) by {
        forall i, j | 0 <= i < j < |edges[1..]|
          ensures !Joins(edges[1..][j], edges[1..][i].u, edges[1..][i].v)
        {
          assert edges[1..][j] == edges[j + 1] && edges[1..][i] == edges[i + 1];
        }
      }
      AdjacencyDistinct(edges[1..], n);
      if Touches(edges[0], n) {
        var w := Other(edges[0], n);
        forall q | 0 <= q < |rest| ensures rest[q].0 != w {
          AdjacencyMember(edges[1..], n, rest[q].0, rest[q].1);
          var e :| e in edges[1..] && Touches(e, n) && Other(e, n) == rest[q].0 && e.attr == rest[q].1;
          var k :| 0 <= k < |edges[1..]| && edges[1..][k] == e;
          assert edges[k + 1] == e;
          assert !Joins(e, edges[0].u, edges[0].v);
        }
      }
    }
  }

  /** One row of the edge view names each neighbour at most once. */
  lemma {:induction false} ViewRowDistinct(u: string, adj: seq<(string, EdgeAttr)>, seen: seq<string>)
    requires forall p, q :: 0 <= p < q < |adj| ==> adj[p].0 != adj[q].0
    ensures forall p, q :: 0 <= p < q < |ViewRow(u, adj, seen)| ==> ViewRow(u, adj, seen)[p].v != ViewRow(u, adj, seen)[q].v
  {
    if adj != [] {
      var rest := ViewRow(u, adj[1..], seen);
      assert forall p, q :: 0 <= p < q < |adj[1..]| ==> adj[1..][p].0 != adj[1..][q].0 by {
        forall p, q | 0 <= p < q < |adj[1..]| ensures adj[1..][p].0 != adj[1..][q].0 {
          assert adj[1..][p] == adj[p + 1] && adj[1..][q] == adj[q + 1];
        }
      }
      ViewRowDistinct(u, adj[1..], seen);
      forall q | 0 <= q < |rest| ensures rest[q].v != adj[0].0 {
        ViewRowMember(u, adj[1..], seen, rest[q]);
        var k :| 0 <= k < |adj[1..]| && adj[1..][k] == (rest[q].v, rest[q].attr);
        assert adj[k + 1] == adj[1..][k];
      }
    }
  }

  /** The rows of `G.edges()` from the `i`-th node on list every unordered
      pair at most once. */
  lemma {:induction false} EdgeViewFromDistinct(g: Graph, i: nat)
    requires Valid(g)
    ensures DistinctKeys(EdgeViewFrom(g, i))
    decreases |g.nodes| - i
  {
    if i < |g.nodes| {
      var u := g.nodes[i];
      var row := ViewRow(u, Adjacency(g.edges, u), g.nodes[..i]);
      var rest := EdgeViewFrom(g, i + 1);
      EdgeViewFromDistinct(g, i + 1);
      AdjacencyDistinct(g.edges, u);
      ViewRowDistinct(u, Adjacency(g.edges, u), g.nodes[..i]);
      var all := row + rest;
      forall p, q | 0 <= p < q < |all| ensures !Joins(all[q], all[p].u, all[p].v) {
        if q < |row| {
          assert all[p] == row[p] && all[q] == row[q];
        } else if p >= |row| {
          assert all[p] == rest[p - |row|] && all[q] == rest[q - |row|];
        } else {
          var f := rest[q - |row|];
          assert all[q] == f && all[p] == row[p] && row[p].u == u;
          EdgeViewFromMember(g, i + 1, f);
          var j :| i + 1 <= j < |g.nodes| && f in ViewRow(g.nodes[j], Adjacency(g.edges, g.nodes[j]), g.nodes[..j]);
          ViewRowMember(g.nodes[j], Adjacency(g.edges, g.nodes[j]), g.nodes[..j], f);
          assert u in g.nodes[..j];
          assert f.u != u;
        }
      }
    }
  }

  /** `G.edges()` lists each edge once, in one direction only. */
  lemma EdgeViewDistinct(g: Graph)
    requires Valid(g)
    ensures DistinctKeys(EdgeView(g))
  {
    EdgeViewFromDistinct(g, 0);
  }
}
