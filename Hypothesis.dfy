/** `HypothesisAgent`: hypotheses read off the shape of the knowledge graph.
    An indirect-connection hypothesis proposes that `a` and `c` are related
    because both are linked to `b` while no edge links them; a bridge
    hypothesis names a node of high betweenness. */
module Hypothesis {
  import opened Strings
  import opened Graphs
  import GraphAgent
  import GraphBuild

  /** Over-generic entity names, compared after lower-casing: they lower the
      confidence of an indirect connection and are never reported as
      bridges. */
  const GenericEntities: set<string> := {
    "cancer", "nsclc", "disease", "cell", "cells", "protein", "gene",
    "micrornas", "inflammation", "therapy", "treatment", "pathway",
    "field cancerization"
  }

  predicate IsGeneric(n: string) {
    Lower(n) in GenericEntities
  }

  /** One hypothesis record; `edgePairs` lists the supporting edges. */
  datatype Hypothesis = Hypothesis(
    title: string,
    entities: seq<string>,
    evidence: seq<string>,
    edgePairs: seq<(string, string)>,
    confidence: real)

  function RealMax(a: real, b: real): real { if a >= b then a else b }
  function RealMin(a: real, b: real): real { if a <= b then a else b }

  const GenericPenalty: real := 0.08

  /** The confidence of an indirect connection through `b`: the two edge
      weights over the local degree, mapped into [0.5, 0.9], less a penalty
      per generic endpoint, and never below 0.3. */
  function IndirectConfidence(wab: real, wbc: real, degree: nat, genericA: bool, genericC: bool): (conf: real)
    ensures 0.3 <= conf <= 0.9
    ensures !genericA && !genericC ==> 0.5 <= conf
  {
    var base := (wab + wbc) / RealMax(2.0, (if degree < 1 then 1 else degree) as real);
    var conf := 0.5 + RealMax(0.0, RealMin(0.4, base));
    var conf := if genericA then conf - GenericPenalty else conf;
    var conf := if genericC then conf - GenericPenalty else conf;
    RealMax(0.3, conf)
  }

  /** A generic endpoint never raises the confidence, and stronger edges
      never lower it. */
  lemma IndirectConfidenceMonotone(wab: real, wbc: real, wab': real, wbc': real, degree: nat, ga: bool, gc: bool, ga': bool, gc': bool)
    requires wab <= wab' && wbc <= wbc'
    requires (ga' ==> ga) && (gc' ==> gc)
    ensures IndirectConfidence(wab, wbc, degree, ga, gc) <= IndirectConfidence(wab', wbc', degree, ga', gc')
  {
    var d := RealMax(2.0, (if degree < 1 then 1 else degree) as real);
    assert d > 0.0;
    assert (wab + wbc) / d <= (wab' + wbc') / d by {
      assert (wab' + wbc') / d - (wab + wbc) / d == ((wab' + wbc') - (wab + wbc)) / d;
    }
  }

  /** The record proposing that `a` and `c` are related through `b`; the
      evidence is the first sentence of each of the two edges. */
  function Indirect(g: Graph, a: string, b: string, c: string): (h: Hypothesis)
    requires HasEdge(g, a, b) && HasEdge(g, b, c)
    ensures h.entities == [a, b, c] && h.edgePairs == [(a, b), (b, c)]
    ensures |h.evidence| <= 2
    ensures forall s :: s in h.evidence ==>
      s in EdgeData(g, a, b).value.evidence || s in EdgeData(g, b, c).value.evidence
    ensures 0.3 <= h.confidence <= 0.9
    ensures !IsGeneric(a) && !IsGeneric(c) ==> 0.5 <= h.confidence
  {
    var ab := EdgeData(g, a, b).value;
    var bc := EdgeData(g, b, c).value;
    Hypothesis(
      "Potential relationship between " + a + " and " + c + " via " + b,
      [a, b, c],
      Take(ab.evidence, 1) + Take(bc.evidence, 1),
      [(a, b), (b, c)],
      IndirectConfidence(ab.weight, bc.weight, Degree(g, b), IsGeneric(a), IsGeneric(c)))
  }

  /** `h` is an indirect-connection record of `g`: distinct endpoints both
      linked to the middle entity and not to each other. */
  ghost predicate Proposes(g: Graph, h: Hypothesis) {
    |h.entities| == 3
    && var a, b, c := h.entities[0], h.entities[1], h.entities[2];
    a != c && HasEdge(g, a, b) && HasEdge(g, b, c) && !HasEdge(g, a, c)
    && h == Indirect(g, a, b, c)
  }

  /** The unordered pair of endpoints of an indirect connection. */
  function Ends(h: Hypothesis): (string, string)
    requires |h.entities| == 3
  {
    SortPair(h.entities[0], h.entities[2])
  }

  /** Some record of `hyps` has the endpoints `p`. */
  ghost predicate Covered(hyps: seq<Hypothesis>, p: (string, string)) {
    exists i :: 0 <= i < |hyps| && |hyps[i].entities| == 3 && Ends(hyps[i]) == p
  }

  /** The state of the scan: every record is a proposal through a node of
      `scope` whose endpoint pair was visited, no two share a pair, and every
      visited pair is either linked or proposed. */
  ghost predicate Scanned(g: Graph, scope: set<string>, hyps: seq<Hypothesis>, visited: set<(string, string)>) {
    (forall i :: 0 <= i < |hyps| ==> Proposes(g, hyps[i]) && hyps[i].entities[1] in scope && Ends(hyps[i]) in visited)
    && PairsDistinct(hyps)
    && (forall p :: p in visited ==> HasEdge(g, p.0, p.1) || Covered(hyps, p))
  }

  /** Every pair of distinct neighbours of a node of `bs` has been visited. */
  ghost predicate AllVisited(g: Graph, bs: set<string>, visited: set<(string, string)>) {
    forall b, a, c :: b in bs && a in Neighbors(g, b) && c in Neighbors(g, b) && a != c ==> SortPair(a, c) in visited
  }

  /** The pair sorted for the visited set is linked exactly when the two
      entities are. */
  lemma PairEdge(g: Graph, a: string, c: string)
    ensures HasEdge(g, SortPair(a, c).0, SortPair(a, c).1) == HasEdge(g, a, c)
  {
    SortPairCanonical(a, c);
    HasEdgeSymmetric(g, a, c);
  }

  /** The first `i` nodes of the scan, as a set. */
  ghost function Seen(nodes: seq<string>, i: nat): set<string>
    requires i <= |nodes|
  {
    set k | 0 <= k < i :: nodes[k]
  }

  /** Scanning node `nodes[i]` extends the visited neighbourhoods by its own. */
  lemma AllVisitedStep(g: Graph, nodes: seq<string>, i: nat, visited: set<(string, string)>,
                       visited': set<(string, string)>)
    requires i < |nodes| && visited <= visited'
    requires AllVisited(g, Seen(nodes, i), visited) && AllVisited(g, {nodes[i]}, visited')
    ensures AllVisited(g, Seen(nodes, i + 1), visited')
  {
    assert Seen(nodes, i + 1) == Seen(nodes, i) + {nodes[i]};
  }

  /** What the finished scan promises: proposals through scanned nodes, only
      through the focus when there is one, no pair twice, and, short of the
      cap, every unlinked pair of neighbours proposed. */
  lemma ScanResult(g: Graph, focus: Option<string>, scope: set<string>, hyps: seq<Hypothesis>,
                   visited: set<(string, string)>, maxResults: int, i: nat, stop: bool)
    requires Valid(g) && scope == set n | n in ScanNodes(g, focus)
    requires i <= |ScanNodes(g, focus)| && (i == |ScanNodes(g, focus)| || stop)
    requires Scanned(g, scope, hyps, visited)
    requires stop <==> |hyps| == GraphAgent.AtLeastOne(maxResults)
    requires !stop ==> AllVisited(g, Seen(ScanNodes(g, focus), i), visited)
    ensures forall k :: 0 <= k < |hyps| ==> Proposes(g, hyps[k]) && hyps[k].entities[1] in ScanNodes(g, focus)
    ensures focus.Some? && focus.value != "" && focus.value in g.attrs ==>
      forall h :: h in hyps ==> |h.entities| == 3 && h.entities[1] == focus.value
    ensures |hyps| < GraphAgent.AtLeastOne(maxResults) ==>
      forall b, a, c :: (b in ScanNodes(g, focus) && a in Neighbors(g, b) && c in Neighbors(g, b)
        && a != c && !HasEdge(g, a, c)) ==> Covered(hyps, SortPair(a, c))
  {
    var nodes := ScanNodes(g, focus);
    if |hyps| < GraphAgent.AtLeastOne(maxResults) {
      assert scope == Seen(nodes, |nodes|);
      ScanComplete(g, scope, hyps, visited);
    }
  }

  /** A scan that visited every pair around the nodes of `scope` proposes
      every unlinked pair among them. */
  lemma ScanComplete(g: Graph, scope: set<string>, hyps: seq<Hypothesis>, visited: set<(string, string)>)
    requires Scanned(g, scope, hyps, visited) && AllVisited(g, scope, visited)
    ensures forall b, a, c :: (b in scope && a in Neighbors(g, b) && c in Neighbors(g, b)
      && a != c && !HasEdge(g, a, c)) ==> Covered(hyps, SortPair(a, c))
  {
    forall b, a, c | b in scope && a in Neighbors(g, b) && c in Neighbors(g, b)
        && a != c && !HasEdge(g, a, c)
      ensures Covered(hyps, SortPair(a, c))
    {
      PairEdge(g, a, c);
    }
  }

  /** Proposing a pair not yet visited keeps the scan state. */
  lemma ProposeStep(g: Graph, scope: set<string>, hyps: seq<Hypothesis>, visited: set<(string, string)>,
                    a: string, b: string, c: string)
    requires Scanned(g, scope, hyps, visited) && b in scope
    requires a != c && HasEdge(g, a, b) && HasEdge(g, b, c) && !HasEdge(g, a, c)
    requires SortPair(a, c) !in visited
    ensures Scanned(g, scope, hyps + [Indirect(g, a, b, c)], visited + {SortPair(a, c)})
  {
    var h := Indirect(g, a, b, c);
    var hyps', pair := hyps + [h], SortPair(a, c);
    assert Proposes(g, h);
    assert hyps'[|hyps|] == h;
    forall i | 0 <= i < |hyps'|
      ensures Proposes(g, hyps'[i]) && hyps'[i].entities[1] in scope && Ends(hyps'[i]) in visited + {pair}
    {
      if i < |hyps| { assert hyps'[i] == hyps[i]; }
    }
    forall i, j | 0 <= i < j < |hyps'| && |hyps'[i].entities| == 3 && |hyps'[j].entities| == 3
      ensures Ends(hyps'[i]) != Ends(hyps'[j])
    {
      assert hyps'[i] == hyps[i];
      if j < |hyps| { assert hyps'[j] == hyps[j]; }
    }
    forall p | p in visited + {pair}
      ensures HasEdge(g, p.0, p.1) || Covered(hyps', p)
    {
      if p == pair {
        PairEdge(g, a, c);
      } else if !HasEdge(g, p.0, p.1) {
        CoveredGrows(hyps, h, p);
      }
    }
  }

  /** Visiting a pair whose entities are linked keeps the scan state. */
  lemma VisitLinked(g: Graph, scope: set<string>, hyps: seq<Hypothesis>, visited: set<(string, string)>,
                    a: string, c: string)
    requires Scanned(g, scope, hyps, visited) && HasEdge(g, a, c)
    ensures Scanned(g, scope, hyps, visited + {SortPair(a, c)})
  {
    PairEdge(g, a, c);
  }

  /** When the pairs from every neighbour of `b` were visited, all pairs
      of neighbours of `b` were. */
  lemma AllPairsFrom(g: Graph, b: string, visited: set<(string, string)>)
    requires PairsFromFirst(g, b, Neighbors(g, b), |Neighbors(g, b)|, visited)
    ensures AllVisited(g, {b}, visited)
  {
    forall x, a, c | x in {b} && a in Neighbors(g, x) && c in Neighbors(g, x) && a != c
      ensures SortPair(a, c) in visited
    {
      var k :| 0 <= k < |Neighbors(g, b)| && Neighbors(g, b)[k] == a;
      assert PairsFrom(g, b, Neighbors(g, b)[k], visited);
    }
  }

  /** The pairs of `b` with each of the first `j` of `firsts` are visited. */
  ghost predicate PairsFromFirst(g: Graph, b: string, firsts: seq<string>, j: nat, visited: set<(string, string)>)
    requires j <= |firsts|
  {
    forall k :: 0 <= k < j ==> PairsFrom(g, b, firsts[k], visited)
  }

  /** Visited pairs stay visited as the set grows, and the pairs of one more
      first neighbour join them. */
  lemma PairsFromFirstStep(g: Graph, b: string, firsts: seq<string>, j: nat,
                           visited: set<(string, string)>, visited': set<(string, string)>)
    requires j < |firsts| && PairsFromFirst(g, b, firsts, j, visited) && visited <= visited'
    requires PairsFrom(g, b, firsts[j], visited')
    ensures PairsFromFirst(g, b, firsts, j + 1, visited')
  {
    forall k | 0 <= k < j + 1 ensures PairsFrom(g, b, firsts[k], visited') {
      if k < j {
        assert PairsFrom(g, b, firsts[k], visited);
      }
    }
  }

  lemma CoveredGrows(hyps: seq<Hypothesis>, h: Hypothesis, p: (string, string))
    requires Covered(hyps, p)
    ensures Covered(hyps + [h], p)
  {
    var i :| 0 <= i < |hyps| && |hyps[i].entities| == 3 && Ends(hyps[i]) == p;
    assert (hyps + [h])[i] == hyps[i];
  }

  /** The nodes the scan looks at: the focus alone when it is a non-empty
      node id, otherwise every node. */
  function ScanNodes(g: Graph, focus: Option<string>): (ns: seq<string>)
    ensures Valid(g) ==> forall n :: n in ns ==> n in g.attrs
  {
    if focus.Some? && focus.value != "" && focus.value in g.attrs then [focus.value] else g.nodes
  }

  /** The variables of the indirect scan: the records so far, the visited
      endpoint pairs, and whether the list has reached its cap. */
  datatype ScanState = ScanState(hyps: seq<Hypothesis>, visited: set<(string, string)>, stop: bool)

  /** One pass of the innermost loop body for the neighbours `a`, `c` of
      `b`: equal or visited pairs are skipped; otherwise the sorted pair is
      marked visited and, when `a` and `c` are not linked, `Indirect(g, a, b,
      c)` is appended, and the scan stops once `cap` records are held. */
  function PairStep(g: Graph, b: string, a: string, c: string, st: ScanState, cap: int): ScanState
    requires a in Neighbors(g, b) && c in Neighbors(g, b)
  {
    if a == c || SortPair(a, c) in st.visited then st
    else
      var visited := st.visited + {SortPair(a, c)};
      if HasEdge(g, a, c) then ScanState(st.hyps, visited, st.stop)
      else
        NeighborIffEdge(g, b, a);
        NeighborIffEdge(g, b, c);
        HasEdgeSymmetric(g, b, a);
        var hyps := st.hyps + [Indirect(g, a, b, c)];
        ScanState(hyps, visited, |hyps| >= cap)
  }

  /** The loop over the second neighbour `c`, from the `j`-th neighbour of
      `b` on, left as soon as the scan stops. */
  function SecondsFrom(g: Graph, b: string, a: string, j: nat, st: ScanState, cap: int): ScanState
    requires a in Neighbors(g, b)
    decreases |Neighbors(g, b)| - j
  {
    var ns := Neighbors(g, b);
    if j >= |ns| || st.stop then st
    else SecondsFrom(g, b, a, j + 1, PairStep(g, b, a, ns[j], st, cap), cap)
  }

  /** The first neighbours the scan takes for `b`: none when `b` is not a node. */
  function Firsts(g: Graph, b: string): seq<string> {
    if b in g.attrs then Neighbors(g, b) else []
  }

  /** The loop over the first neighbour `a`, from the `j`-th one on. */
  function FirstsFrom(g: Graph, b: string, j: nat, st: ScanState, cap: int): ScanState
    decreases |Firsts(g, b)| - j
  {
    var fs := Firsts(g, b);
    if j >= |fs| || st.stop then st
    else FirstsFrom(g, b, j + 1, SecondsFrom(g, b, fs[j], 0, st, cap), cap)
  }

  /** The outer loop over the scanned nodes, from the `i`-th one on. */
  function NodesFrom(g: Graph, nodes: seq<string>, i: nat, st: ScanState, cap: int): ScanState
    decreases |nodes| - i
  {
    if i >= |nodes| || st.stop then st
    else NodesFrom(g, nodes, i + 1, FirstsFrom(g, nodes[i], 0, st, cap), cap)
  }

  /** The records `indirect_connection_hypotheses` returns for the scanned
      `nodes` and the cap `max_results`: the three nested loops run from an
      empty list and an empty visited set. */
  function IndirectScan(g: Graph, nodes: seq<string>, cap: int): seq<Hypothesis> {
    NodesFrom(g, nodes, 0, ScanState([], {}, false), cap).hyps
  }

  /** `max(1, int(max_results * 0.8))`: for a non-negative count the
      product is at least 4n/5 before truncation, never an integer below. */
  function IndirectBudget(maxResults: int): (b: int)
    ensures b >= 1
    ensures maxResults >= 1 ==> b <= maxResults
    ensures maxResults >= 5 ==> 5 * b <= 4 * maxResults && 4 * maxResults < 5 * (b + 1)
  {
    if maxResults < 0 then 1
    else
      var t := (4 * maxResults) / 5;
      if t < 1 then 1 else t
  }

  function Score(p: (string, real)): real { p.1 }

  /** `h` is the record of a bridge node: a non-generic node, its evidence
      sampled from the edges to its first neighbours. */
  ghost predicate Bridges(g: Graph, h: Hypothesis) {
    |h.entities| == 1 && h.entities[0] in g.attrs && !IsGeneric(h.entities[0])
    && h.title == "Bridge node " + h.entities[0] + " with high betweenness"
    && h.edgePairs == [] && |h.evidence| <= 2
    && (forall s :: s in h.evidence ==> exists x :: SampledFrom(g, h.entities[0], x, s))
    && 0.6 <= h.confidence <= 0.95
  }

  /** Every record of `rs` is a bridge record of `g`. */
  ghost predicate AllBridges(g: Graph, rs: seq<Hypothesis>) {
    forall i :: 0 <= i < |rs| ==> Bridges(g, rs[i])
  }

  lemma AllBridgesAppend(g: Graph, a: seq<Hypothesis>, b: seq<Hypothesis>)
    requires AllBridges(g, a) && AllBridges(g, b)
    ensures AllBridges(g, a + b)
  {
    forall i | 0 <= i < |a + b|
      ensures Bridges(g, (a + b)[i])
    {
      if i >= |a| {
        assert (a + b)[i] == b[i - |a|];
      }
    }
  }

  /** `generate` cuts the indirect records followed by the bridge records
      to `maxResults`: the indirect ones keep their places, the rest are
      bridges, and when the indirect ones alone reach the cut nothing else
      is asked for. */
  lemma Assembled(g: Graph, found: seq<Hypothesis>, extra: seq<Hypothesis>, maxResults: int)
    requires AllBridges(g, extra)
    requires found != [] && |found| >= maxResults ==> extra == []
    ensures var r := GraphBuild.Slice(found + extra, maxResults);
      && (forall i :: 0 <= i < |r| ==> if i < |found| then r[i] == found[i] else Bridges(g, r[i]))
      && GraphBuild.Slice(found, maxResults) <= r
      && (found != [] && |found| >= maxResults ==> r == GraphBuild.Slice(found, maxResults))
  {
    SliceAppend(found, extra, maxResults);
    if found != [] && |found| >= maxResults {
      assert found + extra == found;
    }
  }

  /** The ids of `items`, generic ones left out. */
  function Specific(items: seq<(string, real)>): (ns: seq<string>)
    ensures |ns| <= |items|
    ensures forall n :: n in ns <==> exists p :: p in items && p.0 == n && !IsGeneric(n)
  {
    if items == [] then []
    else
      var last := items[|items| - 1];
      var rest := Specific(items[..|items| - 1]);
      assert items == items[..|items| - 1] + [last];
      if IsGeneric(last.0) then rest else rest + [last.0]
  }

  /** The entities the records name, one list after the other. */
  function Mentioned(hs: seq<Hypothesis>): (ns: seq<string>)
  {
    if hs == [] then [] else Mentioned(hs[..|hs| - 1]) + hs[|hs| - 1].entities
  }

  /** No two records of `hs` propose the same unordered pair. */
  ghost predicate PairsDistinct(hs: seq<Hypothesis>) {
    forall i, j :: 0 <= i < j < |hs| && |hs[i].entities| == 3 && |hs[j].entities| == 3 ==> Ends(hs[i]) != Ends(hs[j])
  }

  /** Every pair of distinct neighbours of `b` that starts with `a` was visited. */
  ghost predicate PairsFrom(g: Graph, b: string, a: string, visited: set<(string, string)>) {
    forall c :: c in Neighbors(g, b) && c != a ==> SortPair(a, c) in visited
  }

  lemma MentionedSnoc(hs: seq<Hypothesis>, h: Hypothesis)
    ensures Mentioned(hs + [h]) == Mentioned(hs) + h.entities
  {
    assert (hs + [h])[..|hs|] == hs;
  }

  lemma SpecificSnoc(items: seq<(string, real)>, j: nat)
    requires j < |items|
    ensures Specific(items[..j + 1]) == Specific(items[..j]) + (if IsGeneric(items[j].0) then [] else [items[j].0])
  {
    assert items[..j + 1][..j] == items[..j];
  }

  /** The first items of the sorted scores are nodes, with scores between
      the lowest and the highest. */
  lemma ItemsInRange(g: Graph, scores: seq<(string, real)>, sorted: seq<(string, real)>, items: seq<(string, real)>)
    requires forall p :: p in scores ==> p.0 in g.attrs
    requires sorted == SortDesc(scores, Score) && sorted != []
    requires |items| <= |sorted| && items == sorted[..|items|]
    ensures forall k :: 0 <= k < |items| ==>
      items[k].0 in g.attrs && sorted[|sorted| - 1].1 <= items[k].1 <= sorted[0].1
  {
    forall k | 0 <= k < |items|
      ensures items[k].0 in g.attrs && sorted[|sorted| - 1].1 <= items[k].1 <= sorted[0].1
    {
      assert items[k] == sorted[k];
      assert sorted[k] in multiset(scores);
      SortedRange(sorted, k);
    }
  }

  lemma SortedRange(s: seq<(string, real)>, k: nat)
    requires SortedDesc(s, Score) && k < |s|
    ensures s[|s| - 1].1 <= s[k].1 <= s[0].1
  {
    assert Score(s[0]) >= Score(s[k]);
    if k < |s| - 1 {
      assert Score(s[k]) >= Score(s[|s| - 1]);
    }
  }

  /** `s` is the first evidence sentence of the edge from `node` to `x`, one
      of its first three neighbours. */
  ghost predicate SampledFrom(g: Graph, node: string, x: string, s: string) {
    x in Take(Neighbors(g, node), 3) && HasEdge(g, node, x)
    && EdgeData(g, node, x).value.evidence != [] && s == EdgeData(g, node, x).value.evidence[0]
  }

  /** The first evidence sentence of the edge from `node` to each of `ns`
      that has an edge with evidence, in the order of `ns`. */
  function FirstEvidence(g: Graph, node: string, ns: seq<string>): (ss: seq<string>)
    ensures |ss| <= |ns|
  {
    if ns == [] then []
    else
      var rest := FirstEvidence(g, node, ns[..|ns| - 1]);
      var e := EdgeData(g, node, ns[|ns| - 1]);
      if e.Some? && e.value.evidence != [] then rest + [e.value.evidence[0]] else rest
  }

  /** The sentences sampled for bridge node `node`: from the edges to its
      first three neighbours. */
  function Samples(g: Graph, node: string): seq<string> {
    FirstEvidence(g, node, Take(Neighbors(g, node), 3))
  }

  /** `s` is the first evidence sentence of the edge from `node` to `x`. */
  ghost predicate HeadOf(g: Graph, node: string, x: string, s: string) {
    HasEdge(g, node, x) && EdgeData(g, node, x).value.evidence != [] && s == EdgeData(g, node, x).value.evidence[0]
  }

  lemma {:induction false} FirstEvidenceFrom(g: Graph, node: string, ns: seq<string>, s: string)
    requires s in FirstEvidence(g, node, ns)
    ensures exists x :: x in ns && HeadOf(g, node, x, s)
  {
    var pre := ns[..|ns| - 1];
    if s in FirstEvidence(g, node, pre) {
      FirstEvidenceFrom(g, node, pre, s);
      var x :| x in pre && HeadOf(g, node, x, s);
      assert x in ns;
    } else {
      assert ns[|ns| - 1] in ns;
    }
  }

  lemma {:induction false} FirstEvidenceHas(g: Graph, node: string, ns: seq<string>, x: string)
    requires x in ns && HasEdge(g, node, x) && EdgeData(g, node, x).value.evidence != []
    ensures EdgeData(g, node, x).value.evidence[0] in FirstEvidence(g, node, ns)
  {
    var pre := ns[..|ns| - 1];
    assert ns == pre + [ns[|ns| - 1]];
    if x in pre {
      FirstEvidenceHas(g, node, pre, x);
    }
  }

  /** At most three samples, each the first evidence sentence of the edge to
      one of the first three neighbours, and every such sentence sampled. */
  lemma SamplesFacts(g: Graph, node: string)
    ensures |Samples(g, node)| <= 3
    ensures forall s :: s in Samples(g, node) ==> exists x :: SampledFrom(g, node, x, s)
    ensures forall x :: (x in Take(Neighbors(g, node), 3) && HasEdge(g, node, x) &&
      EdgeData(g, node, x).value.evidence != []) ==> EdgeData(g, node, x).value.evidence[0] in Samples(g, node)
  {
    var ns := Take(Neighbors(g, node), 3);
    forall s | s in Samples(g, node)
      ensures exists x :: SampledFrom(g, node, x, s)
    {
      FirstEvidenceFrom(g, node, ns, s);
      var x :| x in ns && HeadOf(g, node, x, s);
      assert SampledFrom(g, node, x, s);
    }
    forall x | x in ns && HasEdge(g, node, x) && EdgeData(g, node, x).value.evidence != []
      ensures EdgeData(g, node, x).value.evidence[0] in Samples(g, node)
    {
      FirstEvidenceHas(g, node, ns, x);
    }
  }

  /** `(score - min_c) / span` */
  function Normalised(score: real, minC: real, span: real): real
    requires span != 0.0
  {
    (score - minC) / span
  }

  /** With `span` the distance from the lowest to the highest score (1 when
      they agree), a score between the two normalises into [0, 1]. */
  lemma NormalisedUnit(score: real, minC: real, maxC: real, span: real)
    requires span == if maxC - minC == 0.0 then 1.0 else maxC - minC
    requires minC <= score <= maxC
    ensures 0.0 <= Normalised(score, minC, span) <= 1.0
  {
    DivUnit(score - minC, span);
  }

  /** The record of bridge node `node` with normalised centrality `norm`:
      confidence `0.6 + 0.35 * norm` and up to two sampled sentences. */
  function BridgeOf(g: Graph, node: string, norm: real): Hypothesis {
    Hypothesis("Bridge node " + node + " with high betweenness", [node], Take(Samples(g, node), 2), [], 0.6 + 0.35 * norm)
  }

  /** The record of a non-generic node with a normalised score is a bridge
      record. */
  lemma BridgeOfBridges(g: Graph, node: string, norm: real)
    requires node in g.attrs && !IsGeneric(node) && 0.0 <= norm <= 1.0
    ensures Bridges(g, BridgeOf(g, node, norm))
  {
    SamplesFacts(g, node);
    assert forall s :: s in Take(Samples(g, node), 2) ==> s in Samples(g, node);
  }

  /** The items whose node is not generic, in order. */
  function Kept(items: seq<(string, real)>): (ks: seq<(string, real)>)
    ensures |ks| <= |items|
    ensures forall p :: p in ks <==> p in items && !IsGeneric(p.0)
  {
    if items == [] then []
    else
      var last := items[|items| - 1];
      var rest := Kept(items[..|items| - 1]);
      assert items == items[..|items| - 1] + [last];
      if IsGeneric(last.0) then rest else rest + [last]
  }

  /** The records the loop of `high_betweenness_bridges` builds from
      `items`, the scores normalised by `minC` and `span`. */
  function BridgeList(g: Graph, items: seq<(string, real)>, minC: real, span: real): seq<Hypothesis>
    requires span != 0.0
  {
    if items == [] then []
    else
      var last := items[|items| - 1];
      var rest := BridgeList(g, items[..|items| - 1], minC, span);
      if IsGeneric(last.0) then rest else rest + [BridgeOf(g, last.0, Normalised(last.1, minC, span))]
  }

  lemma BridgeListSnoc(g: Graph, items: seq<(string, real)>, j: nat, minC: real, span: real)
    requires span != 0.0 && j < |items|
    ensures BridgeList(g, items[..j + 1], minC, span) == BridgeList(g, items[..j], minC, span) +
      if IsGeneric(items[j].0) then [] else [BridgeOf(g, items[j].0, Normalised(items[j].1, minC, span))]
  {
    assert items[..j + 1][..j] == items[..j];
  }

  /** One record per non-generic item, in order, made from that item's node
      and normalised score. */
  lemma {:induction false} BridgeListKept(g: Graph, items: seq<(string, real)>, minC: real, span: real)
    requires span != 0.0
    ensures |BridgeList(g, items, minC, span)| == |Kept(items)|
    ensures forall k :: 0 <= k < |Kept(items)| ==>
      BridgeList(g, items, minC, span)[k] == BridgeOf(g, Kept(items)[k].0, Normalised(Kept(items)[k].1, minC, span))
  {
    if items != [] {
      BridgeListKept(g, items[..|items| - 1], minC, span);
    }
  }

  /** With every item a node scored between `minC` and `maxC`, the records
      are bridge records naming exactly the non-generic items, in order. */
  lemma {:induction false} BridgeListFacts(g: Graph, items: seq<(string, real)>, minC: real, maxC: real, span: real)
    requires span == if maxC - minC == 0.0 then 1.0 else maxC - minC
    requires forall k :: 0 <= k < |items| ==> items[k].0 in g.attrs && minC <= items[k].1 <= maxC
    ensures |BridgeList(g, items, minC, span)| <= |items|
    ensures AllBridges(g, BridgeList(g, items, minC, span))
    ensures Mentioned(BridgeList(g, items, minC, span)) == Specific(items)
  {
    if items != [] {
      var n := |items| - 1;
      var pre, last := items[..n], items[n];
      BridgeListFacts(g, pre, minC, maxC, span);
      SpecificSnoc(items, n);
      assert items[..n + 1] == items;
      var rest := BridgeList(g, pre, minC, span);
      if !IsGeneric(last.0) {
        var h := BridgeOf(g, last.0, Normalised(last.1, minC, span));
        NormalisedUnit(last.1, minC, maxC, span);
        BridgeOfBridges(g, last.0, Normalised(last.1, minC, span));
        MentionedSnoc(rest, h);
        AllBridgesAppend(g, rest, [h]);
      }
    }
  }

  /** `min_c`: the lowest of the sorted scores. */
  function Lowest(sorted: seq<(string, real)>): real
    requires sorted != []
  {
    sorted[|sorted| - 1].1
  }

  /** `span = (max_c - min_c) or 1.0` */
  function Span(sorted: seq<(string, real)>): (span: real)
    requires sorted != []
    ensures span != 0.0
  {
    var d := sorted[0].1 - Lowest(sorted);
    if d == 0.0 then 1.0 else d
  }

  /** `high_betweenness_bridges(top_k)`, with `centrality` the scores
      networkx computes, or `None` when that computation raises. */
  function HighBetweenness(g: Graph, topK: int, centrality: Option<seq<(string, real)>>): seq<Hypothesis> {
    if |g.nodes| < 3 || centrality.None? then []
    else
      var sorted := SortDesc(centrality.value, Score);
      if sorted == [] then [] else BridgeList(g, GraphBuild.Slice(sorted, topK), Lowest(sorted), Span(sorted))
  }

  /** No bridges below three nodes or when the centrality computation
      fails; otherwise bridge records naming the non-generic nodes among
      the `top_k` most central, in that order. */
  lemma HighBetweennessFacts(g: Graph, topK: int, centrality: Option<seq<(string, real)>>)
    requires Valid(g)
    requires centrality.Some? ==> forall p :: p in centrality.value ==> p.0 in g.attrs
    ensures |g.nodes| < 3 || centrality.None? ==> HighBetweenness(g, topK, centrality) == []
    ensures AllBridges(g, HighBetweenness(g, topK, centrality))
    ensures |g.nodes| >= 3 && centrality.Some? ==>
      Mentioned(HighBetweenness(g, topK, centrality)) == Specific(GraphBuild.Slice(SortDesc(centrality.value, Score), topK))
    ensures topK >= 0 ==> |HighBetweenness(g, topK, centrality)| <= topK
  {
    if |g.nodes| >= 3 && centrality.Some? {
      var sorted := SortDesc(centrality.value, Score);
      if sorted != [] {
        RankedFacts(g, centrality.value, sorted, topK);
      }
    }
  }

  /** The records made from the `top_k` first of the sorted scores. */
  lemma RankedFacts(g: Graph, scores: seq<(string, real)>, sorted: seq<(string, real)>, topK: int)
    requires forall p :: p in scores ==> p.0 in g.attrs
    requires sorted == SortDesc(scores, Score) && sorted != []
    ensures AllBridges(g, BridgeList(g, GraphBuild.Slice(sorted, topK), Lowest(sorted), Span(sorted)))
    ensures Mentioned(BridgeList(g, GraphBuild.Slice(sorted, topK), Lowest(sorted), Span(sorted)))
      == Specific(GraphBuild.Slice(sorted, topK))
    ensures topK >= 0 ==> |BridgeList(g, GraphBuild.Slice(sorted, topK), Lowest(sorted), Span(sorted))| <= topK
  {
    var items := GraphBuild.Slice(sorted, topK);
    ItemsInRange(g, scores, sorted, items);
    BridgeListFacts(g, items, Lowest(sorted), sorted[0].1, Span(sorted));
  }

  /** Record `k` is the bridge record of the `k`-th non-generic node among
      the `top_k` most central, with confidence
      `0.6 + 0.35 * (score - min_c) / span`. */
  lemma HighBetweennessRecords(g: Graph, topK: int, centrality: seq<(string, real)>)
    requires |g.nodes| >= 3 && SortDesc(centrality, Score) != []
    ensures var sorted := SortDesc(centrality, Score);
      var ks := Kept(GraphBuild.Slice(sorted, topK));
      var r := HighBetweenness(g, topK, Some(centrality));
      |r| == |ks| && forall k :: 0 <= k < |ks| ==> r[k] == BridgeOf(g, ks[k].0, Normalised(ks[k].1, Lowest(sorted), Span(sorted)))
  {
    var sorted := SortDesc(centrality, Score);
    BridgeListKept(g, GraphBuild.Slice(sorted, topK), Lowest(sorted), Span(sorted));
  }

  /** The bridge records `generate` asks for after the indirect records
      `found`: `top_k = budget_bridge` when those fall short of
      `max_results`. */
  function BudgetBridges(g: Graph, found: seq<Hypothesis>, maxResults: int, centrality: Option<seq<(string, real)>>): seq<Hypothesis> {
    if |found| < maxResults then HighBetweenness(g, maxResults - IndirectBudget(maxResults), centrality) else []
  }

  /** The fallback: `top_k = min(3, max_results)` when nothing at all was
      found. */
  function FallbackBridges(g: Graph, found: seq<Hypothesis>, maxResults: int, centrality: Option<seq<(string, real)>>): seq<Hypothesis> {
    if found + BudgetBridges(g, found, maxResults, centrality) == []
    then HighBetweenness(g, if 3 <= maxResults then 3 else maxResults, centrality)
    else []
  }

  /** Everything `generate` appends after the indirect records `found`. */
  function Extra(g: Graph, found: seq<Hypothesis>, maxResults: int, centrality: Option<seq<(string, real)>>): seq<Hypothesis> {
    BudgetBridges(g, found, maxResults, centrality) + FallbackBridges(g, found, maxResults, centrality)
  }

  /** The records of `high_betweenness_bridges` are bridge records. */
  lemma HighBetweennessAll(g: Graph, topK: int, centrality: Option<seq<(string, real)>>)
    requires Valid(g)
    requires centrality.Some? ==> forall p :: p in centrality.value ==> p.0 in g.attrs
    ensures AllBridges(g, HighBetweenness(g, topK, centrality))
  {
    HighBetweennessFacts(g, topK, centrality);
  }

  /** The appended records are bridge records. */
  lemma ExtraBridges(g: Graph, found: seq<Hypothesis>, maxResults: int, centrality: Option<seq<(string, real)>>)
    requires Valid(g)
    requires centrality.Some? ==> forall p :: p in centrality.value ==> p.0 in g.attrs
    ensures AllBridges(g, Extra(g, found, maxResults, centrality))
  {
    HighBetweennessAll(g, maxResults - IndirectBudget(maxResults), centrality);
    HighBetweennessAll(g, if 3 <= maxResults then 3 else maxResults, centrality);
    AllBridgesAppend(g, BudgetBridges(g, found, maxResults, centrality), FallbackBridges(g, found, maxResults, centrality));
  }

  /** Nothing is appended when the indirect records reach `max_results`,
      and a graph of fewer than three nodes gives no bridges at all. */
  lemma ExtraEmpty(g: Graph, found: seq<Hypothesis>, maxResults: int, centrality: Option<seq<(string, real)>>)
    ensures found != [] && |found| >= maxResults ==> Extra(g, found, maxResults, centrality) == []
    ensures |g.nodes| < 3 ==> Extra(g, found, maxResults, centrality) == []
  {
  }

  /** Cutting a list keeps, in front, the cut of any prefix of it. */
  lemma SliceAppend<T>(a: seq<T>, b: seq<T>, n: int)
    ensures GraphBuild.Slice(a, n) <= GraphBuild.Slice(a + b, n)
    ensures forall i :: 0 <= i < |GraphBuild.Slice(a + b, n)| ==>
      GraphBuild.Slice(a + b, n)[i] == if i < |a| then a[i] else b[i - |a|]
  {
  }

  lemma DivUnit(x: real, y: real)
    requires 0.0 <= x <= y && 0.0 < y
    ensures 0.0 <= x / y <= 1.0
  {
    assert x / y * y == x;
  }

  class HypothesisAgent {
    const graph: Graph

    constructor(g: Graph)
      requires Valid(g)
      ensures graph == g
    {
      graph := g;
    }

    /** One step of the innermost loop: the pair `a`, `c` of neighbours of
        `b` is skipped when equal or already visited; otherwise it is marked
        visited and, when `a` and `c` are not linked, proposed. `stop` says
        the list has reached its cap. */
    method ScanPair(b: string, a: string, c: string, ghost scope: set<string>, hyps: seq<Hypothesis>,
                    visited: set<(string, string)>, maxResults: int)
      returns (hyps': seq<Hypothesis>, visited': set<(string, string)>, stop: bool)
      requires b in scope && a in Neighbors(graph, b) && c in Neighbors(graph, b)
      requires Scanned(graph, scope, hyps, visited) && |hyps| < GraphAgent.AtLeastOne(maxResults)
      ensures Scanned(graph, scope, hyps', visited')
      ensures visited' == if a == c then visited else visited + {SortPair(a, c)}
      ensures hyps <= hyps'
      ensures stop <==> |hyps'| == GraphAgent.AtLeastOne(maxResults)
      ensures |hyps'| <= GraphAgent.AtLeastOne(maxResults)
      ensures ScanState(hyps', visited', stop) == PairStep(graph, b, a, c, ScanState(hyps, visited, false), maxResults)
    {
      hyps', visited', stop := hyps, visited, false;
      if a == c {
        return;
      }
      var pair := SortPair(a, c);
      if pair in visited {
        return;
      }
      visited' := visited + {pair};
      PairEdge(graph, a, c);
      if !HasEdge(graph, a, c) {
        NeighborIffEdge(graph, b, a);
        NeighborIffEdge(graph, b, c);
        HasEdgeSymmetric(graph, b, a);
        ProposeStep(graph, scope, hyps, visited, a, b, c);
        hyps' := hyps + [Indirect(graph, a, b, c)];
        if |hyps'| >= maxResults {
          stop := true;
        }
      } else {
        VisitLinked(graph, scope, hyps, visited, a, c);
      }
    }

    /** The loop over the second neighbour `c` of `b`. */
    method ScanSecond(b: string, a: string, ghost scope: set<string>, hyps: seq<Hypothesis>,
                      visited: set<(string, string)>, maxResults: int)
      returns (hyps': seq<Hypothesis>, visited': set<(string, string)>, stop: bool)
      requires b in scope && a in Neighbors(graph, b)
      requires Scanned(graph, scope, hyps, visited) && |hyps| < GraphAgent.AtLeastOne(maxResults)
      ensures Scanned(graph, scope, hyps', visited')
      ensures visited <= visited' && hyps <= hyps'
      ensures stop <==> |hyps'| == GraphAgent.AtLeastOne(maxResults)
      ensures |hyps'| <= GraphAgent.AtLeastOne(maxResults)
      ensures !stop ==> PairsFrom(graph, b, a, visited')
      ensures ScanState(hyps', visited', stop) == SecondsFrom(graph, b, a, 0, ScanState(hyps, visited, false), maxResults)
    {
      var ns := Neighbors(graph, b);
      hyps', visited', stop := hyps, visited, false;
      var j := 0;
      while j < |ns| && !stop
        invariant 0 <= j <= |ns|
        invariant SecondsFrom(graph, b, a, j, ScanState(hyps', visited', stop), maxResults)
          == SecondsFrom(graph, b, a, 0, ScanState(hyps, visited, false), maxResults)
        invariant Scanned(graph, scope, hyps', visited')
        invariant visited <= visited' && hyps <= hyps'
        invariant stop <==> |hyps'| == GraphAgent.AtLeastOne(maxResults)
        invariant |hyps'| <= GraphAgent.AtLeastOne(maxResults)
        invariant forall k :: 0 <= k < j && ns[k] != a ==> SortPair(a, ns[k]) in visited'
      {
        ghost var before := visited';
        var h2;
        h2, visited', stop := ScanPair(b, a, ns[j], scope, hyps', visited', maxResults);
        hyps' := h2;
        assert before <= visited';
        j := j + 1;
      }
    }

    /** The loop over the first neighbour `a` of `b`. */
    method ScanNode(b: string, ghost scope: set<string>, hyps: seq<Hypothesis>,
                    visited: set<(string, string)>, maxResults: int)
      returns (hyps': seq<Hypothesis>, visited': set<(string, string)>, stop: bool)
      requires b in scope
      requires Scanned(graph, scope, hyps, visited) && |hyps| < GraphAgent.AtLeastOne(maxResults)
      ensures Scanned(graph, scope, hyps', visited')
      ensures visited <= visited' && hyps <= hyps'
      ensures stop <==> |hyps'| == GraphAgent.AtLeastOne(maxResults)
      ensures |hyps'| <= GraphAgent.AtLeastOne(maxResults)
      ensures !stop && b in graph.attrs ==> AllVisited(graph, {b}, visited')
      ensures ScanState(hyps', visited', stop) == FirstsFrom(graph, b, 0, ScanState(hyps, visited, false), maxResults)
    {
      var firsts := Firsts(graph, b);
      hyps', visited', stop := hyps, visited, false;
      var j := 0;
      while j < |firsts| && !stop
        invariant 0 <= j <= |firsts|
        invariant FirstsFrom(graph, b, j, ScanState(hyps', visited', stop), maxResults)
          == FirstsFrom(graph, b, 0, ScanState(hyps, visited, false), maxResults)
        invariant Scanned(graph, scope, hyps', visited')
        invariant visited <= visited' && hyps <= hyps'
        invariant stop <==> |hyps'| == GraphAgent.AtLeastOne(maxResults)
        invariant |hyps'| <= GraphAgent.AtLeastOne(maxResults)
        invariant !stop ==> PairsFromFirst(graph, b, firsts, j, visited')
      {
        ghost var before := visited';
        var h2;
        h2, visited', stop := ScanSecond(b, firsts[j], scope, hyps', visited', maxResults);
        hyps' := h2;
        if !stop {
          PairsFromFirstStep(graph, b, firsts, j, before, visited');
        }
        j := j + 1;
      }
      if !stop && b in graph.attrs {
        AllPairsFrom(graph, b, visited');
      }
    }

    /** `indirect_connection_hypotheses`: for every scanned node `b` and every
        pair of distinct neighbours `a`, `c` of `b`, first time the unordered
        pair is met, propose it when `a` and `c` are not linked; stop as soon
        as the list holds `max_results` records (one, when that is below
        one). */
    method IndirectConnectionHypotheses(maxResults: int, focus: Option<string>) returns (r: seq<Hypothesis>)
      requires Valid(graph)
      ensures forall i :: 0 <= i < |r| ==> Proposes(graph, r[i]) && r[i].entities[1] in ScanNodes(graph, focus)
      ensures focus.Some? && focus.value != "" && focus.value in graph.attrs ==>
        forall h :: h in r ==> |h.entities| == 3 && h.entities[1] == focus.value
      ensures PairsDistinct(r)
      ensures |r| <= GraphAgent.AtLeastOne(maxResults)
      ensures |r| < GraphAgent.AtLeastOne(maxResults) ==>
        forall b, a, c :: (b in ScanNodes(graph, focus) && a in Neighbors(graph, b) && c in Neighbors(graph, b)
          && a != c && !HasEdge(graph, a, c)) ==> Covered(r, SortPair(a, c))
      ensures r == IndirectScan(graph, ScanNodes(graph, focus), maxResults)
    {
      var nodes := ScanNodes(graph, focus);
      ghost var scope := set n | n in nodes;
      var visited, stop;
      ghost var i;
      r, visited, stop, i := ScanAll(nodes, scope, maxResults);
      ScanResult(graph, focus, scope, r, visited, maxResults, i, stop);
    }

    /** The loop over the scanned nodes, stopping at the cap. */
    method ScanAll(nodes: seq<string>, ghost scope: set<string>, maxResults: int)
      returns (r: seq<Hypothesis>, visited: set<(string, string)>, stop: bool, ghost i: nat)
      requires Valid(graph) && forall n :: n in nodes ==> n in graph.attrs
      requires scope == set n | n in nodes
      ensures i <= |nodes| && (i == |nodes| || stop)
      ensures Scanned(graph, scope, r, visited)
      ensures stop <==> |r| == GraphAgent.AtLeastOne(maxResults)
      ensures |r| <= GraphAgent.AtLeastOne(maxResults)
      ensures !stop ==> AllVisited(graph, Seen(nodes, i), visited)
      ensures r == NodesFrom(graph, nodes, 0, ScanState([], {}, false), maxResults).hyps
    {
      visited := {};
      r := [];
      stop := false;
      ghost var target := NodesFrom(graph, nodes, 0, ScanState(r, visited, stop), maxResults);
      var k := 0;
      while k < |nodes| && !stop
        invariant 0 <= k <= |nodes|
        invariant NodesFrom(graph, nodes, k, ScanState(r, visited, stop), maxResults) == target
        invariant Scanned(graph, scope, r, visited)
        invariant stop <==> |r| == GraphAgent.AtLeastOne(maxResults)
        invariant |r| <= GraphAgent.AtLeastOne(maxResults)
        invariant !stop ==> AllVisited(graph, Seen(nodes, k), visited)
      {
        var visited';
        ghost var before := visited;
        r, visited', stop := ScanNode(nodes[k], scope, r, visited, maxResults);
        if !stop {
          AllVisitedStep(graph, nodes, k, before, visited');
        }
        visited := visited';
        k := k + 1;
      }
      i := k;
    }

    /** Up to three neighbours of `node`, in order, each contribute the first
        evidence sentence of the edge to them, when it has one. */
    method SampleEvidence(node: string) returns (samples: seq<string>)
      ensures samples == Samples(graph, node)
    {
      var ns := Take(Neighbors(graph, node), 3);
      samples := [];
      for j := 0 to |ns|
        invariant samples == FirstEvidence(graph, node, ns[..j])
      {
        assert ns[..j + 1][..j] == ns[..j];
        NeighborIffEdge(graph, node, ns[j]);
        var ev := EdgeData(graph, node, ns[j]).value.evidence;
        if ev != [] {
          samples := samples + [ev[0]];
        }
      }
      assert ns[..|ns|] == ns;
    }

    /** `high_betweenness_bridges`: the centrality scores come from
        networkx and are a parameter here. */
    method HighBetweennessBridges(topK: int, centrality: Option<seq<(string, real)>>) returns (r: seq<Hypothesis>)
      ensures r == HighBetweenness(graph, topK, centrality)
    {
      r := [];
      if |graph.nodes| < 3 || centrality.None? {
        return;
      }
      var sorted := SortDesc(centrality.value, Score);
      if sorted != [] {
        var items := GraphBuild.Slice(sorted, topK);
        r := BridgeRecords(items, Lowest(sorted), Span(sorted));
      }
    }

    /** The loop of `high_betweenness_bridges` over the chosen items: skip
        generic ids, normalise each score by the lowest score and the span. */
    method BridgeRecords(items: seq<(string, real)>, minC: real, span: real) returns (r: seq<Hypothesis>)
      requires span != 0.0
      ensures r == BridgeList(graph, items, minC, span)
    {
      r := [];
      for j := 0 to |items|
        invariant r == BridgeList(graph, items[..j], minC, span)
      {
        var node, score := items[j].0, items[j].1;
        BridgeListSnoc(graph, items, j, minC, span);
        if !IsGeneric(node) {
          var h := BridgeRecord(node, Normalised(score, minC, span));
          r := r + [h];
        }
      }
      assert items[..|items|] == items;
    }

    /** The record of bridge node `node` with normalised centrality `norm`. */
    method BridgeRecord(node: string, norm: real) returns (h: Hypothesis)
      ensures h == BridgeOf(graph, node, norm)
    {
      var samples := SampleEvidence(node);
      h := Hypothesis("Bridge node " + node + " with high betweenness", [node], Take(samples, 2), [], 0.6 + 0.35 * norm);
    }

    /** `generate`: the indirect connections first, with a budget of four
        fifths of `max_results` (at least one); bridges are asked for only
        when those fall short, and once more when nothing was found; the
        result is cut to `max_results`. `indirect` is the list the indirect
        scan returned and `extra` the bridge records appended to it. */
    method Generate(focus: Option<string>, maxResults: int, centrality: Option<seq<(string, real)>>)
      returns (r: seq<Hypothesis>, ghost indirect: seq<Hypothesis>, ghost extra: seq<Hypothesis>)
      requires Valid(graph)
      requires centrality.Some? ==> forall p :: p in centrality.value ==> p.0 in graph.attrs
      ensures r == GraphBuild.Slice(indirect + extra, maxResults)
      ensures extra == Extra(graph, indirect, maxResults, centrality)
      ensures indirect == IndirectScan(graph, ScanNodes(graph, focus), IndirectBudget(maxResults))
      ensures maxResults >= 0 ==> |r| <= maxResults
      ensures |indirect| <= IndirectBudget(maxResults) && PairsDistinct(indirect)
      ensures forall h :: h in indirect ==> Proposes(graph, h)
      ensures focus.Some? && focus.value != "" && focus.value in graph.attrs ==>
        forall h :: h in indirect ==> |h.entities| == 3 && h.entities[1] == focus.value
      ensures forall i :: 0 <= i < |r| ==> if i < |indirect| then r[i] == indirect[i] else Bridges(graph, r[i])
      ensures GraphBuild.Slice(indirect, maxResults) <= r
      ensures indirect != [] && |indirect| >= maxResults ==> r == GraphBuild.Slice(indirect, maxResults)
    {
      var found := IndirectConnectionHypotheses(IndirectBudget(maxResults), focus);
      indirect := found;
      var bridges := AddBridges(found, maxResults, centrality);
      extra := bridges;
      r := GraphBuild.Slice(found + bridges, maxResults);
      ExtraBridges(graph, found, maxResults, centrality);
      ExtraEmpty(graph, found, maxResults, centrality);
      Assembled(graph, found, bridges, maxResults);
    }

    /** The bridge part of `generate`, after the indirect records `found`. */
    method AddBridges(found: seq<Hypothesis>, maxResults: int, centrality: Option<seq<(string, real)>>)
      returns (bridges: seq<Hypothesis>)
      ensures bridges == Extra(graph, found, maxResults, centrality)
    {
      var budgetBridge := maxResults - IndirectBudget(maxResults);
      bridges := [];
      if |found| < maxResults {
        bridges := HighBetweennessBridges(budgetBridge, centrality);
      }
      if found + bridges == [] {
        var more := HighBetweennessBridges(if 3 <= maxResults then 3 else maxResults, centrality);
        bridges := bridges + more;
      }
    }
  }
}
