/** The merge itself, and what its result keeps: closure, limits, order, and citations that name surviving nodes. */
module EvidenceMerge {
  import opened Wrappers
  import opened Evidence

  // ----- what is seen -----

  function NodeEntries(ns: seq<Node>): seq<Entry<Node>> {
    seq(|ns|, i requires 0 <= i < |ns| => Entry(ns[i].id, ns[i]))
  }

  function EdgeEntries(es: seq<Edge>): seq<Entry<Edge>> {
    seq(|es|, i requires 0 <= i < |es| => Entry(es[i].id, es[i]))
  }

  function PathEntries(ps: seq<Path>): seq<Entry<Path>> {
    seq(|ps|, i requires 0 <= i < |ps| => Entry(ps[i].id, ps[i]))
  }

  function CitationEntries(cs: seq<Citation>): seq<Entry<Citation>> {
    seq(|cs|, i requires 0 <= i < |cs| => Entry(cs[i].id, cs[i]))
  }

  /** Everything the results list, in order. */
  datatype Listing = Listing(
    nodes: seq<Entry<Node>>, edges: seq<Entry<Edge>>, paths: seq<Entry<Path>>, citations: seq<Entry<Citation>>,
    warnings: seq<string>, version: string)

  function Listed(results: seq<GraphResult>): Listing {
    if results == [] then Listing([], [], [], [], [], "")
    else
      var l, r := Listed(results[..|results| - 1]), results[|results| - 1];
      Listing(l.nodes + NodeEntries(r.nodes), l.edges + EdgeEntries(r.edges), l.paths + PathEntries(r.paths),
              l.citations + CitationEntries(r.citations), l.warnings + r.warnings,
              if l.version != "" then l.version else r.version)
  }

  /** Each key once, as it was first listed. */
  function Merged(l: Listing): Listing {
    l.(nodes := SetDefaults([], l.nodes), edges := SetDefaults([], l.edges), paths := SetDefaults([], l.paths),
       citations := SetDefaults([], l.citations))
  }

  method MergeResults(results: seq<GraphResult>) returns (m: Listing)
    ensures m == Merged(Listed(results))
  {
    var nodes, edges, paths, citations, warnings, version := [], [], [], [], [], "";
    for i := 0 to |results|
      invariant Listing(nodes, edges, paths, citations, warnings, version) == Merged(Listed(results[..i]))
    {
      var r := results[i];
      MergedNext(results, i);
      if version == "" {
        version := r.version;
      }
      nodes := Collect(nodes, NodeEntries(r.nodes));
      edges := Collect(edges, EdgeEntries(r.edges));
      paths := Collect(paths, PathEntries(r.paths));
      citations := Collect(citations, CitationEntries(r.citations));
      warnings := warnings + r.warnings;
    }
    assert results[..|results|] == results;
    m := Listing(nodes, edges, paths, citations, warnings, version);
  }

  lemma MergedNext(results: seq<GraphResult>, i: nat)
    requires i < |results|
    ensures
      var before, after, r := Merged(Listed(results[..i])), Merged(Listed(results[..i + 1])), results[i];
      after == Listing(
                 SetDefaults(before.nodes, NodeEntries(r.nodes)), SetDefaults(before.edges, EdgeEntries(r.edges)),
                 SetDefaults(before.paths, PathEntries(r.paths)),
                 SetDefaults(before.citations, CitationEntries(r.citations)),
                 before.warnings + r.warnings, if before.version != "" then before.version else r.version)
  {
    assert results[..i + 1][..i] == results[..i];
    var l, r := Listed(results[..i]), results[i];
    hide SetDefaults;
    SetDefaultsConcat([], l.nodes, NodeEntries(r.nodes));
    SetDefaultsConcat([], l.edges, EdgeEntries(r.edges));
    SetDefaultsConcat([], l.paths, PathEntries(r.paths));
    SetDefaultsConcat([], l.citations, CitationEntries(r.citations));
  }

  /** Entries are filed under their own ids. */
  ghost predicate OwnIds(l: Listing) {
    && (forall i :: 0 <= i < |l.nodes| ==> l.nodes[i].key == l.nodes[i].value.id)
    && (forall i :: 0 <= i < |l.edges| ==> l.edges[i].key == l.edges[i].value.id)
  }

  lemma {:induction false} ListedOwnIds(results: seq<GraphResult>)
    ensures OwnIds(Listed(results))
  {
    if results != [] {
      ListedOwnIds(results[..|results| - 1]);
    }
  }

  lemma MergedOwnIds(results: seq<GraphResult>)
    ensures OwnIds(Merged(Listed(results)))
    ensures DistinctKeys(Merged(Listed(results)).nodes) && DistinctKeys(Merged(Listed(results)).edges)
    ensures DistinctKeys(Merged(Listed(results)).citations)
  {
    var l := Listed(results);
    ListedOwnIds(results);
    var fromNodes := MergedIsFirstSeen(l.nodes);
    var fromEdges := MergedIsFirstSeen(l.edges);
    var fromCitations := MergedIsFirstSeen(l.citations);
    hide Listed, SetDefaults;
  }

  // ----- limits -----

  function Take<T>(xs: seq<T>, n: nat): seq<T> { if n < |xs| then xs[..n] else xs }

  /** Paths whose nodes and edges were all kept. */
  function PathsAllowed(ids: set<string>, edgeIds: set<string>, paths: seq<Path>): seq<Path> {
    if paths == [] then []
    else
      var p := paths[|paths| - 1];
      PathsAllowed(ids, edgeIds, paths[..|paths| - 1])
      + (if PathWithin(ids, p) && PathEdgesWithin(edgeIds, p) then [p] else [])
  }

  function Limited(m: Listing, limits: Limits): GraphEvidence {
    var nodes := Take(Values(m.nodes), limits.maxNodes);
    var edges := Take(EdgesWithin(Ids(nodes), Values(m.edges)), limits.maxEdges);
    GraphEvidence(nodes, edges, PathsAllowed(Ids(nodes), EdgeIds(edges), Values(m.paths)))
  }

  ghost predicate DistinctEdges(edges: seq<Edge>) { forall i, j :: 0 <= i < j < |edges| ==> edges[i].id != edges[j].id }

  /** Every edge a path lists is there. */
  ghost predicate EdgeClosed(ev: GraphEvidence) {
    forall i :: 0 <= i < |ev.paths| ==> PathEdgesWithin(EdgeIds(ev.edges), ev.paths[i])
  }

  lemma {:induction false} PathsAllowedAre(ids: set<string>, edgeIds: set<string>, paths: seq<Path>)
    ensures forall i :: 0 <= i < |PathsAllowed(ids, edgeIds, paths)| ==>
                          && PathWithin(ids, PathsAllowed(ids, edgeIds, paths)[i])
                          && PathEdgesWithin(edgeIds, PathsAllowed(ids, edgeIds, paths)[i])
                          && PathsAllowed(ids, edgeIds, paths)[i] in paths
    ensures forall p :: p in paths && PathWithin(ids, p) && PathEdgesWithin(edgeIds, p) ==>
                          p in PathsAllowed(ids, edgeIds, paths)
  {
    if paths != [] {
      hide PathWithin, PathEdgesWithin;
      PathsAllowedAre(ids, edgeIds, paths[..|paths| - 1]);
      assert paths == paths[..|paths| - 1] + [paths[|paths| - 1]];
    }
  }

  lemma {:induction false} EdgesWithinDistinct(ids: set<string>, edges: seq<Edge>)
    requires DistinctEdges(edges)
    ensures DistinctEdges(EdgesWithin(ids, edges))
  {
    if edges != [] {
      var init := edges[..|edges| - 1];
      EdgesWithinDistinct(ids, init);
      EdgesWithinAre(ids, init);
      hide EdgesWithin, EdgeWithin;
      EdgesWithinLast(ids, edges);
    }
  }

  lemma EdgesWithinLast(ids: set<string>, edges: seq<Edge>)
    requires edges != []
    ensures EdgesWithin(ids, edges) ==
            EdgesWithin(ids, edges[..|edges| - 1])
            + (if EdgeWithin(ids, edges[|edges| - 1]) then [edges[|edges| - 1]] else [])
  {
  }

  /** What the limits leave is closed, in every sense, and within the limits. */
  lemma LimitedClosed(results: seq<GraphResult>, limits: Limits)
    ensures
      var m := Merged(Listed(results));
      var ev := Limited(m, limits);
      && Closed(ev) && EdgeClosed(ev) && DistinctNodes(ev.nodes) && DistinctEdges(ev.edges)
      && |ev.nodes| <= limits.maxNodes && |ev.edges| <= limits.maxEdges
      && ev.nodes <= Values(m.nodes)
  {
    var m := Merged(Listed(results));
    MergedOwnIds(results);
    hide Listed, Merged, Closed, EdgeClosed, Limited;
    LimitedNodes(m, limits);
    LimitedEdges(m, limits);
    LimitedPaths(m, limits);
  }

  lemma LimitedNodes(m: Listing, limits: Limits)
    requires OwnIds(m) && DistinctKeys(m.nodes)
    ensures
      var ev := Limited(m, limits);
      DistinctNodes(ev.nodes) && |ev.nodes| <= limits.maxNodes && ev.nodes <= Values(m.nodes)
  {
    hide EdgesWithin, PathsAllowed, Ids, EdgeIds;
  }

  lemma LimitedEdges(m: Listing, limits: Limits)
    requires OwnIds(m) && DistinctKeys(m.edges)
    ensures
      var ev := Limited(m, limits);
      && DistinctEdges(ev.edges) && |ev.edges| <= limits.maxEdges
      && forall i :: 0 <= i < |ev.edges| ==> EdgeWithin(Ids(ev.nodes), ev.edges[i])
  {
    var ids := Ids(Take(Values(m.nodes), limits.maxNodes));
    EdgesWithinAre(ids, Values(m.edges));
    ValuesDistinct(m);
    EdgesWithinDistinct(ids, Values(m.edges));
    assert Limited(m, limits).edges == Take(EdgesWithin(ids, Values(m.edges)), limits.maxEdges);
    assert Limited(m, limits).nodes == Take(Values(m.nodes), limits.maxNodes);
    hide *;
    TakeEdges(EdgesWithin(ids, Values(m.edges)), limits.maxEdges, ids);
  }

  lemma TakeEdges(edges: seq<Edge>, n: nat, ids: set<string>)
    requires DistinctEdges(edges) && forall i :: 0 <= i < |edges| ==> EdgeWithin(ids, edges[i])
    ensures DistinctEdges(Take(edges, n)) && |Take(edges, n)| <= n
    ensures forall i :: 0 <= i < |Take(edges, n)| ==> EdgeWithin(ids, Take(edges, n)[i])
  {
    hide EdgeWithin;
  }

  lemma ValuesDistinct(m: Listing)
    requires OwnIds(m) && DistinctKeys(m.edges)
    ensures DistinctEdges(Values(m.edges))
  {
  }

  lemma LimitedPaths(m: Listing, limits: Limits)
    ensures
      var ev := Limited(m, limits);
      && EdgeClosed(ev)
      && ((forall i :: 0 <= i < |ev.edges| ==> EdgeWithin(Ids(ev.nodes), ev.edges[i])) ==> Closed(ev))
  {
    var ev := Limited(m, limits);
    PathsAllowedAre(Ids(ev.nodes), EdgeIds(ev.edges), Values(m.paths));
    hide EdgesWithin, PathsAllowed, Ids, EdgeIds, EdgeWithin, PathWithin, PathEdgesWithin;
  }

  // ----- which paths keep their edges -----

  /** The least number of leading nodes that has all these ids. */
  function Reach(nodes: seq<Node>, ids: seq<string>): nat {
    if ids == [] then 0
    else
      var before, at := Reach(nodes, ids[..|ids| - 1]), Position(nodes, ids[|ids| - 1]) + 1;
      if before < at then at else before
  }

  function Position(nodes: seq<Node>, id: string): nat {
    if nodes == [] then 0 else if nodes[0].id == id then 0 else 1 + Position(nodes[1..], id)
  }

  lemma {:induction false} PositionIs(nodes: seq<Node>, id: string, m: nat)
    requires m <= |nodes|
    ensures id in Ids(nodes[..m]) <==> Position(nodes, id) < m
    ensures Position(nodes, id) <= |nodes|
  {
    if nodes != [] {
      PositionIs(nodes[1..], id, if m > 0 then m - 1 else 0);
      if m > 0 {
        var tail := nodes[1..][..m - 1];
        assert nodes[..m] == [nodes[0]] + tail;
        IdsCons(nodes[0], tail);
      }
    }
  }

  lemma IdsCons(n: Node, nodes: seq<Node>)
    ensures Ids([n] + nodes) == {n.id} + Ids(nodes)
  {
    var all := [n] + nodes;
    assert forall i :: 0 <= i < |nodes| ==> all[i + 1] == nodes[i];
    forall id | id in {n.id} + Ids(nodes)
      ensures id in Ids(all)
    {
      if id == n.id {
        assert all[0].id == id;
      } else {
        var i :| 0 <= i < |nodes| && nodes[i].id == id;
        assert all[i + 1].id == id;
      }
    }
  }

  lemma {:induction false} ReachIs(nodes: seq<Node>, ids: seq<string>, m: nat)
    requires m <= |nodes|
    ensures (forall i :: 0 <= i < |ids| ==> ids[i] in Ids(nodes[..m])) <==> Reach(nodes, ids) <= m
  {
    if ids != [] {
      var init, id := ids[..|ids| - 1], ids[|ids| - 1];
      ReachIs(nodes, init, m);
      PositionIs(nodes, id, m);
      hide Ids, Position;
      assert forall i :: 0 <= i < |init| ==> init[i] == ids[i];
    }
  }

  function EdgeReach(nodes: seq<Node>, e: Edge): nat { Reach(nodes, [e.source, e.target]) }

  /** Each edge a path lists lies no further down the node list than the path's own nodes. */
  ghost predicate Covered(ev: GraphEvidence) {
    forall p, e :: p in ev.paths && e in ev.edges && e.id in p.edgeIds ==>
                     EdgeReach(ev.nodes, e) <= Reach(ev.nodes, p.nodeIds)
  }

  lemma EdgeReachIs(nodes: seq<Node>, e: Edge, m: nat)
    requires m <= |nodes|
    ensures EdgeWithin(Ids(nodes[..m]), e) <==> EdgeReach(nodes, e) <= m
  {
    var ends := [e.source, e.target];
    ReachIs(nodes, ends, m);
    assert ends[0] == e.source && ends[1] == e.target;
  }

  lemma PathReachIs(nodes: seq<Node>, p: Path, m: nat)
    requires m <= |nodes|
    ensures PathWithin(Ids(nodes[..m]), p) <==> Reach(nodes, p.nodeIds) <= m
  {
    ReachIs(nodes, p.nodeIds, m);
  }

  lemma {:induction false} ReachBound(nodes: seq<Node>, ids: seq<string>)
    requires forall i :: 0 <= i < |ids| ==> ids[i] in Ids(nodes)
    ensures Reach(nodes, ids) <= |nodes|
  {
    ReachIs(nodes, ids, |nodes|);
    assert nodes[..|nodes|] == nodes;
  }

  lemma InEdgeIds(edges: seq<Edge>, id: string)
    ensures id in EdgeIds(edges) <==> exists e :: e in edges && e.id == id
  {
    if e :| e in edges && e.id == id {
      var i :| 0 <= i < |edges| && edges[i] == e;
      assert edges[i].id == id;
    }
  }

  lemma KeptEdge(ev: GraphEvidence, m: nat, e: Edge)
    requires m <= |ev.nodes|
    ensures e in Restrict(ev, m).edges <==> e in ev.edges && EdgeReach(ev.nodes, e) <= m
  {
    EdgesWithinAre(Ids(ev.nodes[..m]), ev.edges);
    EdgeReachIs(ev.nodes, e, m);
    hide EdgesWithin, EdgeReach, EdgeWithin, PathsWithin, Ids;
  }

  lemma KeptEdgeId(ev: GraphEvidence, m: nat, id: string)
    requires m <= |ev.nodes|
    ensures id in EdgeIds(Restrict(ev, m).edges) <==>
            exists e :: e in ev.edges && e.id == id && EdgeReach(ev.nodes, e) <= m
  {
    hide Restrict, EdgeReach, EdgeIds;
    InEdgeIds(Restrict(ev, m).edges, id);
    forall e
      ensures e in Restrict(ev, m).edges <==> e in ev.edges && EdgeReach(ev.nodes, e) <= m
    {
      KeptEdge(ev, m, e);
    }
  }

  /** Covered evidence keeps every surviving path's edges, however many nodes are dropped. */
  lemma CoveredKeeps(ev: GraphEvidence, m: nat)
    requires m <= |ev.nodes| && EdgeClosed(ev) && Covered(ev)
    ensures EdgeClosed(Restrict(ev, m))
  {
    var t := Restrict(ev, m);
    PathsWithinAre(Ids(ev.nodes[..m]), ev.paths);
    hide EdgesWithin, PathsWithin, EdgeReach, Reach;
    forall i, j | 0 <= i < |t.paths| && 0 <= j < |t.paths[i].edgeIds|
      ensures t.paths[i].edgeIds[j] in EdgeIds(t.edges)
    {
      var p, id := t.paths[i], t.paths[i].edgeIds[j];
      var at :| 0 <= at < |ev.paths| && ev.paths[at] == p;
      assert PathEdgesWithin(EdgeIds(ev.edges), ev.paths[at]);
      assert id in EdgeIds(ev.edges);
      var k :| 0 <= k < |ev.edges| && ev.edges[k].id == id;
      assert ev.edges[k] in ev.edges && id in p.edgeIds;
      PathReachIs(ev.nodes, p, m);
      KeptEdgeId(ev, m, id);
    }
  }

  lemma PathStays(ev: GraphEvidence, p: Path, m: nat)
    requires m <= |ev.nodes| && p in ev.paths && Reach(ev.nodes, p.nodeIds) <= m
    ensures p in Restrict(ev, m).paths
  {
    PathReachIs(ev.nodes, p, m);
    PathsWithinAre(Ids(ev.nodes[..m]), ev.paths);
    hide EdgesWithin, PathsWithin, Reach;
  }

  /** A path without nodes is never dropped, not even with the last node. */
  lemma EmptyPathStays(ev: GraphEvidence, p: Path, m: nat)
    requires m <= |ev.nodes| && p in ev.paths && p.nodeIds == []
    ensures p in Restrict(ev, m).paths
  {
    PathStays(ev, p, m);
  }

  lemma EdgeGone(ev: GraphEvidence, e: Edge, m: nat)
    requires m <= |ev.nodes| && DistinctEdges(ev.edges) && e in ev.edges && EdgeReach(ev.nodes, e) > m
    ensures e.id !in EdgeIds(Restrict(ev, m).edges)
  {
    hide EdgeReach, Restrict, EdgeIds;
    KeptEdgeId(ev, m, e.id);
  }

  lemma ListsGone(ev: GraphEvidence, p: Path, id: string)
    requires p in ev.paths && id in p.edgeIds && id !in EdgeIds(ev.edges)
    ensures !EdgeClosed(ev)
  {
    hide EdgeIds;
    var i :| 0 <= i < |ev.paths| && ev.paths[i] == p;
    var j :| 0 <= j < |p.edgeIds| && p.edgeIds[j] == id;
    assert !PathEdgesWithin(EdgeIds(ev.edges), ev.paths[i]);
  }

  /** Uncovered evidence loses an edge of a surviving path when it is cut at some length. */
  lemma UncoveredLoses(ev: GraphEvidence) returns (m: nat)
    requires Closed(ev) && DistinctEdges(ev.edges) && !Covered(ev)
    ensures m <= |ev.nodes| && !EdgeClosed(Restrict(ev, m))
  {
    hide Closed, EdgeReach, Restrict, Reach, EdgeIds, Ids, DistinctEdges, EdgeClosed;
    var p, e :| p in ev.paths && e in ev.edges && e.id in p.edgeIds
                && EdgeReach(ev.nodes, e) > Reach(ev.nodes, p.nodeIds);
    m := Reach(ev.nodes, p.nodeIds);
    NodesOfPath(ev, p);
    ReachBound(ev.nodes, p.nodeIds);
    PathStays(ev, p, m);
    EdgeGone(ev, e, m);
    ListsGone(Restrict(ev, m), p, e.id);
  }

  lemma NodesOfPath(ev: GraphEvidence, p: Path)
    requires Closed(ev) && p in ev.paths
    ensures forall i :: 0 <= i < |p.nodeIds| ==> p.nodeIds[i] in Ids(ev.nodes)
  {
    var at :| 0 <= at < |ev.paths| && ev.paths[at] == p;
    assert PathWithin(Ids(ev.nodes), ev.paths[at]);
  }

  /** Dropping nodes can never strand a path's edge exactly when the evidence is covered. */
  lemma PathEdgesStayExactly(ev: GraphEvidence)
    requires Closed(ev) && EdgeClosed(ev) && DistinctEdges(ev.edges)
    ensures (forall m: nat :: m <= |ev.nodes| ==> EdgeClosed(Restrict(ev, m))) <==> Covered(ev)
  {
    hide Closed, EdgeClosed, Covered, Restrict;
    if Covered(ev) {
      forall m: nat | m <= |ev.nodes|
        ensures EdgeClosed(Restrict(ev, m))
      {
        CoveredKeeps(ev, m);
      }
    } else {
      var m := UncoveredLoses(ev);
    }
  }

  /** A path whose edges join its own nodes is covered. */
  lemma WellFormedCovered(ev: GraphEvidence)
    requires forall p, e :: p in ev.paths && e in ev.edges && e.id in p.edgeIds ==>
                              e.source in p.nodeIds && e.target in p.nodeIds
    ensures Covered(ev)
  {
    forall p, e | p in ev.paths && e in ev.edges && e.id in p.edgeIds
      ensures EdgeReach(ev.nodes, e) <= Reach(ev.nodes, p.nodeIds)
    {
      ReachMember(ev.nodes, p.nodeIds, e.source);
      ReachMember(ev.nodes, p.nodeIds, e.target);
      var ends := [e.source, e.target];
      assert ends[..1] == [e.source];
      assert Reach(ev.nodes, [e.source]) == Position(ev.nodes, e.source) + 1 by {
        assert [e.source][..0] == [];
      }
    }
  }

  lemma {:induction false} ReachMember(nodes: seq<Node>, ids: seq<string>, id: string)
    requires id in ids
    ensures Position(nodes, id) + 1 <= Reach(nodes, ids)
  {
    var init := ids[..|ids| - 1];
    if id != ids[|ids| - 1] {
      assert ids == init + [ids[|ids| - 1]];
      ReachMember(nodes, init, id);
    }
  }

  const FAR: GraphEvidence :=
    GraphEvidence(
      [Node("a", "A", None, None, "explicit"), Node("b", "B", None, None, "explicit")],
      [Edge("e", "a", "b", "calls", None, "explicit")],
      [Path("p", ["a"], ["e"])])

  /** A path that lists an edge to a node it does not visit: cut after its first node, it lists an edge that is gone. */
  lemma StrandedEdge()
    ensures Closed(FAR) && EdgeClosed(FAR) && !EdgeClosed(Restrict(FAR, 1))
  {
    var a, b, e, p := FAR.nodes[0], FAR.nodes[1], FAR.edges[0], FAR.paths[0];
    assert a.id == "a" && b.id == "b" && e.id == "e";
    assert Position(FAR.nodes, "a") == 0 && Position(FAR.nodes, "b") == 1;
    assert ["a", "b"][..1] == ["a"] && ["a"][..0] == [];
    assert Reach(FAR.nodes, ["a"]) == 1 && EdgeReach(FAR.nodes, e) == 2;
    assert e in FAR.edges && p in FAR.paths;
    hide Restrict, Reach, EdgeReach, Position;
    PathStays(FAR, p, 1);
    EdgeGone(FAR, e, 1);
    ListsGone(Restrict(FAR, 1), p, "e");
  }

  // ----- citations -----

  predicate Cites(c: Citation, ids: set<string>) { c.nodeId.Some? && c.nodeId.value in ids }

  /** Citations whose node is among these. */
  function CitesWithin(ids: set<string>, cs: seq<Entry<Citation>>): seq<Entry<Citation>> {
    if cs == [] then []
    else CitesWithin(ids, cs[..|cs| - 1]) + (if Cites(cs[|cs| - 1].value, ids) then [cs[|cs| - 1]] else [])
  }

  /** Citations whose node is not this one. */
  function CitesWithout(id: string, cs: seq<Entry<Citation>>): seq<Entry<Citation>> {
    if cs == [] then []
    else CitesWithout(id, cs[..|cs| - 1]) + (if cs[|cs| - 1].value.nodeId != Some(id) then [cs[|cs| - 1]] else [])
  }

  predicate Cited(cs: seq<Entry<Citation>>, id: string) { exists i :: 0 <= i < |cs| && cs[i].value.nodeId == Some(id) }

  const GRAPH := "Graphify knowledge graph"

  function NodeCitation(n: Node): Entry<Citation> {
    Entry("node:" + n.id,
          Citation("node:" + n.id, n.name, if n.source.Some? && n.source.value != "" then n.source.value else GRAPH,
                   Some(n.id), None, n.provenance, n.excerpt))
  }

  function CiteNode(cs: seq<Entry<Citation>>, n: Node): seq<Entry<Citation>> {
    if Cited(cs, n.id) then cs else SetDefault(cs, NodeCitation(n))
  }

  function CiteNodes(cs: seq<Entry<Citation>>, nodes: seq<Node>): seq<Entry<Citation>> {
    if nodes == [] then cs else CiteNode(CiteNodes(cs, nodes[..|nodes| - 1]), nodes[|nodes| - 1])
  }

  function NameOf(nodes: seq<Node>, id: string): string
    requires id in Ids(nodes)
  {
    if nodes[|nodes| - 1].id == id then nodes[|nodes| - 1].name
    else
      NamedEarlier(nodes, id);
      NameOf(nodes[..|nodes| - 1], id)
  }

  lemma NamedEarlier(nodes: seq<Node>, id: string)
    requires id in Ids(nodes)
    ensures nodes != [] && (nodes[|nodes| - 1].id != id ==> id in Ids(nodes[..|nodes| - 1]))
  {
    var i :| 0 <= i < |nodes| && nodes[i].id == id;
    if i < |nodes| - 1 {
      assert nodes[..|nodes| - 1][i].id == id;
    }
  }

  function EdgeCitation(nodes: seq<Node>, e: Edge): Entry<Citation>
    requires EdgeWithin(Ids(nodes), e)
  {
    Entry("edge:" + e.id,
          Citation("edge:" + e.id, NameOf(nodes, e.source) + " \U{2014}" + e.relationship + "\U{2192} "
                   + NameOf(nodes, e.target),
                   GRAPH, None, Some(e.relationship), e.provenance, e.context))
  }

  function NamesOf(nodes: seq<Node>, ids: seq<string>): seq<string>
    requires forall i :: 0 <= i < |ids| ==> ids[i] in Ids(nodes)
  {
    seq(|ids|, i requires 0 <= i < |ids| => NameOf(nodes, ids[i]))
  }

  function Joined(names: seq<string>): string {
    if names == [] then "" else if |names| == 1 then names[0] else names[0] + " \U{2192} " + Joined(names[1..])
  }

  function PathCitation(nodes: seq<Node>, p: Path): Entry<Citation>
    requires PathWithin(Ids(nodes), p)
  {
    var title := Joined(NamesOf(nodes, p.nodeIds));
    Entry("path:" + p.id, Citation("path:" + p.id, title, GRAPH, None, Some("graph_path"), "unknown", None))
  }

  function CiteEdges(cs: seq<Entry<Citation>>, nodes: seq<Node>, edges: seq<Edge>): seq<Entry<Citation>>
    requires forall i :: 0 <= i < |edges| ==> EdgeWithin(Ids(nodes), edges[i])
  {
    if edges == [] then cs
    else Assign(CiteEdges(cs, nodes, edges[..|edges| - 1]), EdgeCitation(nodes, edges[|edges| - 1]))
  }

  function CitePaths(cs: seq<Entry<Citation>>, nodes: seq<Node>, paths: seq<Path>): seq<Entry<Citation>>
    requires forall i :: 0 <= i < |paths| ==> PathWithin(Ids(nodes), paths[i])
  {
    if paths == [] then cs
    else Assign(CitePaths(cs, nodes, paths[..|paths| - 1]), PathCitation(nodes, paths[|paths| - 1]))
  }

  /** The citations of the limited evidence, before anything is dropped for size. */
  function NodeCitations(m: Listing, limits: Limits): seq<Entry<Citation>> {
    var nodes := Limited(m, limits).nodes;
    CiteNodes(CitesWithin(Ids(nodes), m.citations), nodes)
  }

  /** The citations that go with the evidence that is returned. */
  function AllCitations(ev: GraphEvidence, base: seq<Entry<Citation>>): seq<Entry<Citation>>
    requires Closed(ev)
  {
    CitePaths(CiteEdges(CitesWithin(Ids(ev.nodes), base), ev.nodes, ev.edges), ev.nodes, ev.paths)
  }

  // ----- what citations name -----

  ghost predicate AllNamed(cs: seq<Entry<Citation>>, ids: set<string>) {
    forall i :: 0 <= i < |cs| && cs[i].value.nodeId.Some? ==> cs[i].value.nodeId.value in ids
  }

  lemma {:induction false} CitesWithinMember(ids: set<string>, cs: seq<Entry<Citation>>, c: Entry<Citation>)
    ensures c in CitesWithin(ids, cs) <==> c in cs && Cites(c.value, ids)
  {
    if cs != [] {
      CitesWithinMember(ids, cs[..|cs| - 1], c);
      assert cs == cs[..|cs| - 1] + [cs[|cs| - 1]];
    }
  }

  /** Nothing is dropped where nothing has to be. */
  lemma {:induction false} CitesWithinAll(ids: set<string>, cs: seq<Entry<Citation>>)
    ensures |CitesWithin(ids, cs)| <= |cs|
    ensures (forall i :: 0 <= i < |cs| ==> Cites(cs[i].value, ids)) ==> CitesWithin(ids, cs) == cs
  {
    hide Cites;
    if cs != [] {
      CitesWithinAll(ids, cs[..|cs| - 1]);
      assert cs == cs[..|cs| - 1] + [cs[|cs| - 1]];
    }
  }

  lemma CitesWithinAre(ids: set<string>, cs: seq<Entry<Citation>>)
    ensures forall i :: 0 <= i < |CitesWithin(ids, cs)| ==>
                          Cites(CitesWithin(ids, cs)[i].value, ids) && CitesWithin(ids, cs)[i] in cs
    ensures forall c :: c in cs && Cites(c.value, ids) ==> c in CitesWithin(ids, cs)
    ensures (forall i :: 0 <= i < |cs| ==> Cites(cs[i].value, ids)) ==> CitesWithin(ids, cs) == cs
  {
    forall c
      ensures c in CitesWithin(ids, cs) <==> c in cs && Cites(c.value, ids)
    {
      CitesWithinMember(ids, cs, c);
    }
    CitesWithinAll(ids, cs);
    hide CitesWithin, Cites;
  }

  lemma {:induction false} AssignNamed(cs: seq<Entry<Citation>>, e: Entry<Citation>, ids: set<string>)
    requires AllNamed(cs, ids) && e.value.nodeId == None
    ensures AllNamed(Assign(cs, e), ids)
  {
    if cs != [] {
      var tail := cs[1..];
      assert forall i :: 0 <= i < |tail| ==> tail[i] == cs[i + 1];
      if cs[0].key != e.key {
        AssignNamed(tail, e, ids);
      }
    }
  }

  /** Every citation that names a node names one that survived. */
  lemma CitationsNameSurvivors(ev: GraphEvidence, base: seq<Entry<Citation>>)
    requires Closed(ev)
    ensures AllNamed(AllCitations(ev, base), Ids(ev.nodes))
  {
    var ids := Ids(ev.nodes);
    CitesWithinAre(ids, base);
    assert AllNamed(CitesWithin(ids, base), ids);
    hide Ids, CitesWithin, AllNamed;
    EdgesNamed(CitesWithin(ids, base), ev.nodes, ev.edges);
    PathsNamed(CiteEdges(CitesWithin(ids, base), ev.nodes, ev.edges), ev.nodes, ev.paths);
  }

  lemma {:induction false} EdgesNamed(cs: seq<Entry<Citation>>, nodes: seq<Node>, edges: seq<Edge>)
    requires AllNamed(cs, Ids(nodes)) && forall i :: 0 <= i < |edges| ==> EdgeWithin(Ids(nodes), edges[i])
    ensures AllNamed(CiteEdges(cs, nodes, edges), Ids(nodes))
  {
    if edges != [] {
      var init, e := edges[..|edges| - 1], edges[|edges| - 1];
      hide Ids, AllNamed, EdgeWithin, NameOf;
      EdgesNamed(cs, nodes, init);
      AssignNamed(CiteEdges(cs, nodes, init), EdgeCitation(nodes, e), Ids(nodes));
    }
  }

  lemma {:induction false} PathsNamed(cs: seq<Entry<Citation>>, nodes: seq<Node>, paths: seq<Path>)
    requires AllNamed(cs, Ids(nodes)) && forall i :: 0 <= i < |paths| ==> PathWithin(Ids(nodes), paths[i])
    ensures AllNamed(CitePaths(cs, nodes, paths), Ids(nodes))
  {
    if paths != [] {
      var init, p := paths[..|paths| - 1], paths[|paths| - 1];
      hide Ids, AllNamed, PathWithin, NamesOf;
      PathsNamed(cs, nodes, init);
      AssignNamed(CitePaths(cs, nodes, init), PathCitation(nodes, p), Ids(nodes));
    }
  }

  // ----- which nodes are cited -----

  lemma AppendCited(cs: seq<Entry<Citation>>, e: Entry<Citation>, id: string)
    ensures Cited(cs + [e], id) <==> Cited(cs, id) || e.value.nodeId == Some(id)
  {
    var all := cs + [e];
    assert forall i :: 0 <= i < |cs| ==> all[i] == cs[i];
    assert all[|cs|] == e;
  }

  /** The nodes cited and the keys taken, node by node. */
  lemma {:induction false} CiteNodesAre(cs: seq<Entry<Citation>>, nodes: seq<Node>, id: string)
    requires DistinctNodes(nodes)
    ensures Cited(CiteNodes(cs, nodes), id) <==> Cited(cs, id) || (id in Ids(nodes) && !Has(cs, "node:" + id))
    ensures id !in Ids(nodes) ==> (Has(CiteNodes(cs, nodes), "node:" + id) <==> Has(cs, "node:" + id))
  {
    if nodes != [] {
      var init, n := nodes[..|nodes| - 1], nodes[|nodes| - 1];
      assert nodes == init + [n];
      IdsNext(init, n);
      assert n.id !in Ids(init);
      hide Has, Cited, Ids, DistinctNodes;
      DistinctPrefix(nodes);
      CiteNodesAre(cs, init, id);
      CiteNodesAre(cs, init, n.id);
      var before := CiteNodes(cs, init);
      AppendCited(before, NodeCitation(n), id);
      AppendHas(before, NodeCitation(n), "node:" + id);
      SamePrefix("node:", id, n.id);
    }
  }

  lemma DistinctPrefix(nodes: seq<Node>)
    requires DistinctNodes(nodes) && nodes != []
    ensures DistinctNodes(nodes[..|nodes| - 1])
  {
  }

  lemma SamePrefix(prefix: string, a: string, b: string)
    ensures prefix + a == prefix + b <==> a == b
  {
    if prefix + a == prefix + b {
      assert (prefix + a)[|prefix|..] == a;
      assert (prefix + b)[|prefix|..] == b;
    }
  }

  /** Within the limits a node is cited exactly unless no citation names it and its own key is taken by another one. */
  lemma NodeCitedExactly(results: seq<GraphResult>, limits: Limits, id: string)
    requires id in Ids(Limited(Merged(Listed(results)), limits).nodes)
    ensures
      var m := Merged(Listed(results));
      var given := CitesWithin(Ids(Limited(m, limits).nodes), m.citations);
      Cited(NodeCitations(m, limits), id) <==> Cited(given, id) || !Has(given, "node:" + id)
  {
    var m := Merged(Listed(results));
    LimitedClosed(results, limits);
    hide Listed, Merged, Limited, CitesWithin, Has, Cited, Ids;
    CiteNodesAre(CitesWithin(Ids(Limited(m, limits).nodes), m.citations), Limited(m, limits).nodes, id);
  }

  // ----- the merge -----

  lemma {:induction false} CitesDrop(ids: set<string>, id: string, cs: seq<Entry<Citation>>)
    requires id !in ids
    ensures CitesWithout(id, CitesWithin(ids + {id}, cs)) == CitesWithin(ids, cs)
  {
    if cs != [] {
      var init, c := cs[..|cs| - 1], cs[|cs| - 1];
      CitesDrop(ids, id, init);
      var within := CitesWithin(ids + {id}, init);
      assert (within + [c])[..|within|] == within;
      assert within + [] == within;
    }
  }

  lemma {:induction false} CiteNodesWithin(cs: seq<Entry<Citation>>, nodes: seq<Node>, ids: set<string>)
    requires (forall i :: 0 <= i < |cs| ==> Cites(cs[i].value, ids)) && Ids(nodes) <= ids
    ensures forall i :: 0 <= i < |CiteNodes(cs, nodes)| ==> Cites(CiteNodes(cs, nodes)[i].value, ids)
  {
    if nodes != [] {
      var init, n := nodes[..|nodes| - 1], nodes[|nodes| - 1];
      assert nodes == init + [n];
      IdsNext(init, n);
      CiteNodesWithin(cs, init, ids);
    }
  }

  lemma NodeCitationsWithin(m: Listing, limits: Limits)
    ensures
      var ids := Ids(Limited(m, limits).nodes);
      CitesWithin(ids, NodeCitations(m, limits)) == NodeCitations(m, limits)
  {
    var nodes := Limited(m, limits).nodes;
    CitesWithinAre(Ids(nodes), m.citations);
    hide Limited, Ids, CitesWithin;
    CiteNodesWithin(CitesWithin(Ids(nodes), m.citations), nodes, Ids(nodes));
    CitesWithinAre(Ids(nodes), NodeCitations(m, limits));
  }

  /** The longest restriction that fits, or none of the nodes. */
  ghost predicate CutAt(ev: GraphEvidence, size: GraphEvidence -> nat, maxBytes: nat, m: nat) {
    && m <= |ev.nodes|
    && (forall k :: m < k <= |ev.nodes| ==> size(Restrict(ev, k)) > maxBytes)
    && (m > 0 ==> size(Restrict(ev, m)) <= maxBytes)
  }

  lemma CutUnique(ev: GraphEvidence, size: GraphEvidence -> nat, maxBytes: nat, m: nat, m': nat)
    requires CutAt(ev, size, maxBytes, m) && CutAt(ev, size, maxBytes, m')
    ensures m == m'
  {
  }

  /** How many nodes the dropping loop leaves. */
  function CutFrom(ev: GraphEvidence, size: GraphEvidence -> nat, maxBytes: nat, m: nat): (k: nat)
    requires m <= |ev.nodes|
    ensures k <= m
  {
    if m == 0 || size(Restrict(ev, m)) <= maxBytes then m else CutFrom(ev, size, maxBytes, m - 1)
  }

  function CutOf(ev: GraphEvidence, size: GraphEvidence -> nat, maxBytes: nat): (k: nat)
    ensures k <= |ev.nodes|
  {
    CutFrom(ev, size, maxBytes, |ev.nodes|)
  }

  lemma {:induction false} CutFromIs(ev: GraphEvidence, size: GraphEvidence -> nat, maxBytes: nat, m: nat)
    requires m <= |ev.nodes| && forall k :: m < k <= |ev.nodes| ==> size(Restrict(ev, k)) > maxBytes
    ensures CutAt(ev, size, maxBytes, CutFrom(ev, size, maxBytes, m))
  {
    hide Restrict;
    if m > 0 && size(Restrict(ev, m)) > maxBytes {
      CutFromIs(ev, size, maxBytes, m - 1);
    }
  }

  /** The evidence is cut to the longest restriction that fits. */
  lemma CutOfIs(ev: GraphEvidence, size: GraphEvidence -> nat, maxBytes: nat)
    ensures CutAt(ev, size, maxBytes, CutOf(ev, size, maxBytes))
  {
    CutFromIs(ev, size, maxBytes, |ev.nodes|);
  }

  function FirstOnly(ws: seq<string>): seq<string> {
    if ws == [] then []
    else
      var before := FirstOnly(ws[..|ws| - 1]);
      if ws[|ws| - 1] in before then before else before + [ws[|ws| - 1]]
  }

  const TRUNCATED := "Graph evidence was truncated to configured limits."

  function AllWarnings(m: Listing, ev: GraphEvidence): seq<string> {
    FirstOnly(m.warnings + if |m.nodes| > |ev.nodes| || |m.edges| > |ev.edges| then [TRUNCATED] else [])
  }

  method CiteAllNodes(before: seq<Entry<Citation>>, nodes: seq<Node>) returns (cs: seq<Entry<Citation>>)
    ensures cs == CiteNodes(before, nodes)
  {
    cs := before;
    for i := 0 to |nodes|
      invariant cs == CiteNodes(before, nodes[..i])
    {
      assert nodes[..i + 1][..i] == nodes[..i];
      if !Cited(cs, nodes[i].id) {
        cs := SetDefault(cs, NodeCitation(nodes[i]));
      }
    }
    assert nodes[..|nodes|] == nodes;
  }

  /** Nodes are popped, with whatever hangs on them, until the encoding fits or no node is left. */
  method Shrink(limited: GraphEvidence, base: seq<Entry<Citation>>, size: GraphEvidence -> nat, maxBytes: nat)
    returns (ev: GraphEvidence, cs: seq<Entry<Citation>>)
    requires Closed(limited) && DistinctNodes(limited.nodes) && CitesWithin(Ids(limited.nodes), base) == base
    ensures
      var m := CutOf(limited, size, maxBytes);
      ev == Restrict(limited, m) && cs == CitesWithin(Ids(limited.nodes[..m]), base)
  {
    ev, cs := limited, base;
    ghost var m: nat := |limited.nodes|;
    RestrictClosed(limited, m);
    assert limited.nodes[..m] == limited.nodes;
    assert TooLargeAbove(limited, size, maxBytes, m);
    hide *;
    while size(ev) > maxBytes && ev.nodes != []
      invariant m <= |limited.nodes| && ev == Restrict(limited, m) && |ev.nodes| == m && DistinctNodes(limited.nodes)
      invariant cs == CitesWithin(Ids(limited.nodes[..m]), base)
      invariant TooLargeAbove(limited, size, maxBytes, m)
      decreases |ev.nodes|
    {
      Popped(limited, base, m);
      TooLargeNext(limited, size, maxBytes, m);
      var removed := ev.nodes[|ev.nodes| - 1];
      var nodes := ev.nodes[..|ev.nodes| - 1];
      var edges := EdgesWithout(removed.id, ev.edges);
      var paths := PathsWithout(removed.id, ev.paths);
      ev := GraphEvidence(nodes, edges, paths);
      cs := CitesWithout(removed.id, cs);
      m := m - 1;
    }
    Stopped(limited, size, maxBytes, m);
    CutOfIs(limited, size, maxBytes);
    CutUnique(limited, size, maxBytes, m, CutOf(limited, size, maxBytes));
  }

  /** No restriction to more than `m` nodes fits. */
  ghost predicate TooLargeAbove(limited: GraphEvidence, size: GraphEvidence -> nat, maxBytes: nat, m: nat) {
    forall k :: m < k <= |limited.nodes| ==> size(Restrict(limited, k)) > maxBytes
  }

  lemma TooLargeNext(limited: GraphEvidence, size: GraphEvidence -> nat, maxBytes: nat, m: nat)
    requires 0 < m <= |limited.nodes| && TooLargeAbove(limited, size, maxBytes, m)
    requires size(Restrict(limited, m)) > maxBytes
    ensures TooLargeAbove(limited, size, maxBytes, m - 1)
  {
    hide Restrict;
  }

  lemma Stopped(limited: GraphEvidence, size: GraphEvidence -> nat, maxBytes: nat, m: nat)
    requires m <= |limited.nodes| && (size(Restrict(limited, m)) <= maxBytes || m == 0)
    requires TooLargeAbove(limited, size, maxBytes, m)
    ensures CutAt(limited, size, maxBytes, m)
  {
  }

  lemma Popped(limited: GraphEvidence, base: seq<Entry<Citation>>, m: nat)
    requires 0 < m <= |limited.nodes| && DistinctNodes(limited.nodes)
    ensures
      var now := Restrict(limited, m);
      && |now.nodes| == m && now.nodes[m - 1] == limited.nodes[m - 1]
      && GraphEvidence(now.nodes[..m - 1], EdgesWithout(now.nodes[m - 1].id, now.edges),
                       PathsWithout(now.nodes[m - 1].id, now.paths)) ==
         Restrict(limited, m - 1)
      && CitesWithout(now.nodes[m - 1].id, CitesWithin(Ids(limited.nodes[..m]), base)) ==
         CitesWithin(Ids(limited.nodes[..m - 1]), base)
  {
    PopRestricts(limited, m);
    var removed, init := limited.nodes[m - 1], limited.nodes[..m - 1];
    assert limited.nodes[..m] == init + [removed];
    IdsNext(init, removed);
    assert removed.id !in Ids(init);
    hide EdgesWithin, PathsWithin, EdgesWithout, PathsWithout, Ids;
    CitesDrop(Ids(init), removed.id, base);
  }

  /** The label of each node, by id. */
  method NodeLabels(nodes: seq<Node>) returns (labels: map<string, string>)
    ensures labels.Keys == Ids(nodes) && forall id :: id in Ids(nodes) ==> labels[id] == NameOf(nodes, id)
  {
    labels := map[];
    for i := 0 to |nodes|
      invariant labels.Keys == Ids(nodes[..i])
      invariant forall id :: id in Ids(nodes[..i]) ==> labels[id] == NameOf(nodes[..i], id)
    {
      assert nodes[..i + 1] == nodes[..i] + [nodes[i]];
      assert nodes[..i + 1][..i] == nodes[..i];
      IdsNext(nodes[..i], nodes[i]);
      labels := labels[nodes[i].id := nodes[i].name];
    }
    assert nodes[..|nodes|] == nodes;
  }

  /** Labels are looked up without a default: closure makes every lookup succeed. */
  method CiteGraph(before: seq<Entry<Citation>>, ev: GraphEvidence) returns (cs: seq<Entry<Citation>>)
    requires Closed(ev)
    ensures cs == CitePaths(CiteEdges(before, ev.nodes, ev.edges), ev.nodes, ev.paths)
  {
    var labels := NodeLabels(ev.nodes);
    hide NameOf, Ids, Joined, Assign;
    cs := before;
    for i := 0 to |ev.edges|
      invariant cs == CiteEdges(before, ev.nodes, ev.edges[..i])
    {
      var e := ev.edges[i];
      assert ev.edges[..i + 1][..i] == ev.edges[..i];
      assert EdgeWithin(Ids(ev.nodes), e);
      var title := labels[e.source] + " \U{2014}" + e.relationship + "\U{2192} " + labels[e.target];
      var citation := Citation("edge:" + e.id, title, GRAPH, None, Some(e.relationship), e.provenance, e.context);
      cs := Assign(cs, Entry("edge:" + e.id, citation));
    }
    assert ev.edges[..|ev.edges|] == ev.edges;
    ghost var cited := cs;
    for i := 0 to |ev.paths|
      invariant cs == CitePaths(cited, ev.nodes, ev.paths[..i])
    {
      var p := ev.paths[i];
      assert ev.paths[..i + 1][..i] == ev.paths[..i];
      assert PathWithin(Ids(ev.nodes), p);
      var names := seq(|p.nodeIds|, j requires 0 <= j < |p.nodeIds| && p.nodeIds[j] in labels => labels[p.nodeIds[j]]);
      assert names == NamesOf(ev.nodes, p.nodeIds);
      var citation := Citation("path:" + p.id, Joined(names), GRAPH, None, Some("graph_path"), "unknown", None);
      cs := Assign(cs, Entry("path:" + p.id, citation));
    }
    assert ev.paths[..|ev.paths|] == ev.paths;
  }

  /** What is returned: the longest restriction of the limited evidence that fits, or nothing at all. */
  function Outcome(limited: GraphEvidence, size: GraphEvidence -> nat, maxBytes: nat): GraphEvidence {
    var m := CutOf(limited, size, maxBytes);
    if size(Restrict(limited, m)) <= maxBytes then Restrict(limited, m) else NOTHING
  }

  // ----- what the whole merge can strand -----

  lemma OutcomeAt(ev: GraphEvidence, size: GraphEvidence -> nat, maxBytes: nat, m: nat)
    requires CutAt(ev, size, maxBytes, m) && size(Restrict(ev, m)) <= maxBytes
    ensures Outcome(ev, size, maxBytes) == Restrict(ev, m)
  {
    hide Restrict, CutAt;
    CutOfIs(ev, size, maxBytes);
    CutUnique(ev, size, maxBytes, m, CutOf(ev, size, maxBytes));
  }

  lemma SomeSizeCuts(ev: GraphEvidence, m: nat) returns (size: GraphEvidence -> nat)
    requires m <= |ev.nodes|
    ensures Outcome(ev, size, 0) == Restrict(ev, m)
  {
    size := (g: GraphEvidence) => if |g.nodes| <= m then 0 else 1;
    assert CutAt(ev, size, 0, m);
    OutcomeAt(ev, size, 0, m);
  }

  /**
    Whatever is counted as size and whatever its limit, no path of the outcome lists a gone edge: exactly if covered.
   */
  lemma OutcomeStaysExactly(ev: GraphEvidence)
    requires Closed(ev) && EdgeClosed(ev) && DistinctEdges(ev.edges)
    ensures (forall size, maxBytes :: EdgeClosed(Outcome(ev, size, maxBytes))) <==> Covered(ev)
  {
    hide Closed, EdgeClosed, Covered, Restrict, Outcome;
    if Covered(ev) {
      forall size, maxBytes
        ensures EdgeClosed(Outcome(ev, size, maxBytes))
      {
        CoveredOutcome(ev, size, maxBytes);
      }
    } else {
      var m := UncoveredLoses(ev);
      var size := SomeSizeCuts(ev, m);
      assert !EdgeClosed(Outcome(ev, size, 0));
    }
  }

  lemma CoveredOutcome(ev: GraphEvidence, size: GraphEvidence -> nat, maxBytes: nat)
    requires Closed(ev) && EdgeClosed(ev) && DistinctEdges(ev.edges) && Covered(ev)
    ensures EdgeClosed(Outcome(ev, size, maxBytes))
  {
    CoveredKeeps(ev, CutOf(ev, size, maxBytes));
    assert EdgeClosed(NOTHING);
    hide EdgeClosed, Restrict;
  }

  // ----- merging one result -----

  lemma {:induction false} SetDefaultsDistinct<T>(es: seq<Entry<T>>)
    requires DistinctKeys(es)
    ensures SetDefaults([], es) == es
  {
    if es != [] {
      var init, e := es[..|es| - 1], es[|es| - 1];
      SetDefaultsDistinct(init);
      assert es == init + [e];
      assert !Has(init, e.key);
    }
  }

  lemma {:induction false} PathsAllowedAll(ids: set<string>, edgeIds: set<string>, paths: seq<Path>)
    requires forall i :: 0 <= i < |paths| ==> PathWithin(ids, paths[i]) && PathEdgesWithin(edgeIds, paths[i])
    ensures PathsAllowed(ids, edgeIds, paths) == paths
  {
    hide PathWithin, PathEdgesWithin;
    if paths != [] {
      PathsAllowedAll(ids, edgeIds, paths[..|paths| - 1]);
      assert paths == paths[..|paths| - 1] + [paths[|paths| - 1]];
    }
  }

  ghost predicate DistinctPaths(paths: seq<Path>) { forall i, j :: 0 <= i < j < |paths| ==> paths[i].id != paths[j].id }

  lemma ListedAlone(r: GraphResult)
    ensures
      var l := Listed([r]);
      l.nodes == NodeEntries(r.nodes) && l.edges == EdgeEntries(r.edges) && l.paths == PathEntries(r.paths)
  {
    assert [r][..0] == [];
    assert Listed([r][..0]) == Listing([], [], [], [], [], "");
    hide NodeEntries, EdgeEntries, PathEntries, CitationEntries;
    assert [] + NodeEntries(r.nodes) == NodeEntries(r.nodes);
    assert [] + EdgeEntries(r.edges) == EdgeEntries(r.edges);
    assert [] + PathEntries(r.paths) == PathEntries(r.paths);
  }

  lemma ListedOne(r: GraphResult)
    requires DistinctNodes(r.nodes) && DistinctEdges(r.edges) && DistinctPaths(r.paths)
    ensures
      var m := Merged(Listed([r]));
      Values(m.nodes) == r.nodes && Values(m.edges) == r.edges && Values(m.paths) == r.paths
  {
    ListedAlone(r);
    hide Listed;
    SetDefaultsDistinct(NodeEntries(r.nodes));
    SetDefaultsDistinct(EdgeEntries(r.edges));
    SetDefaultsDistinct(PathEntries(r.paths));
    hide SetDefaults;
  }

  /** One result that is in order and within the limits is the evidence. */
  lemma OneResultStays(r: GraphResult, limits: Limits)
    requires DistinctNodes(r.nodes) && DistinctEdges(r.edges) && DistinctPaths(r.paths)
    requires Closed(GraphEvidence(r.nodes, r.edges, r.paths)) && EdgeClosed(GraphEvidence(r.nodes, r.edges, r.paths))
    requires |r.nodes| <= limits.maxNodes && |r.edges| <= limits.maxEdges
    ensures Limited(Merged(Listed([r])), limits) == GraphEvidence(r.nodes, r.edges, r.paths)
  {
    ListedOne(r);
    EdgesWithinAll(Ids(r.nodes), r.edges);
    PathsAllowedAll(Ids(r.nodes), EdgeIds(r.edges), r.paths);
    hide Listed, Merged, EdgesWithin, PathsAllowed, PathWithin, PathEdgesWithin, EdgeWithin, Ids, EdgeIds;
  }

  /**
    The merge of the one result `FAR`: where its two nodes do not fit and the first one does, the outcome has a path
    that lists an edge that is gone.
   */
  lemma StrandedOutcome(limits: Limits, size: GraphEvidence -> nat)
    requires limits.maxNodes >= 2 && limits.maxEdges >= 1
    requires size(FAR) > limits.maxBytes && size(Restrict(FAR, 1)) <= limits.maxBytes
    ensures
      var merged := Merged(Listed([GraphResult("v", FAR.nodes, FAR.edges, FAR.paths, [], [])]));
      !EdgeClosed(Outcome(Limited(merged, limits), size, limits.maxBytes))
  {
    FarDistinct();
    StrandedEdge();
    FarCut(size, limits.maxBytes);
    OneResultStays(GraphResult("v", FAR.nodes, FAR.edges, FAR.paths, [], []), limits);
    hide *;
  }

  lemma FarCut(size: GraphEvidence -> nat, maxBytes: nat)
    requires size(FAR) > maxBytes && size(Restrict(FAR, 1)) <= maxBytes
    ensures Outcome(FAR, size, maxBytes) == Restrict(FAR, 1)
  {
    StrandedEdge();
    RestrictClosed(FAR, 2);
    FarDistinct();
    hide *;
    CutAfterFirst(FAR, size, maxBytes);
  }

  lemma CutAfterFirst(ev: GraphEvidence, size: GraphEvidence -> nat, maxBytes: nat)
    requires |ev.nodes| == 2 && Restrict(ev, 2) == ev
    requires size(ev) > maxBytes && size(Restrict(ev, 1)) <= maxBytes
    ensures Outcome(ev, size, maxBytes) == Restrict(ev, 1)
  {
    hide Restrict, Outcome;
    assert CutAt(ev, size, maxBytes, 1);
    OutcomeAt(ev, size, maxBytes, 1);
  }

  lemma FarDistinct()
    ensures DistinctNodes(FAR.nodes) && DistinctEdges(FAR.edges) && DistinctPaths(FAR.paths)
    ensures |FAR.nodes| == 2 && |FAR.edges| == 1 && FAR == GraphEvidence(FAR.nodes, FAR.edges, FAR.paths)
  {
  }

  method MergeEvidence(results: seq<GraphResult>, limits: Limits, size: GraphEvidence -> nat)
    returns (ev: GraphEvidence, citations: seq<Citation>, version: string, warnings: seq<string>)
    ensures
      var merged := Merged(Listed(results));
      var limited := Limited(merged, limits);
      && ev == Outcome(limited, size, limits.maxBytes) && Closed(ev)
      && citations == Values(AllCitations(ev, NodeCitations(merged, limits)))
      && version == merged.version && warnings == AllWarnings(merged, limited)
  {
    var merged := MergeResults(results);
    LimitedClosed(results, limits);
    NodeCitationsWithin(merged, limits);
    var limited := Limited(merged, limits);
    warnings := merged.warnings;
    if |merged.nodes| > |limited.nodes| || |merged.edges| > |limited.edges| {
      warnings := warnings + [TRUNCATED];
    } else {
      assert warnings + [] == warnings;
    }
    var base := CiteAllNodes(CitesWithin(Ids(limited.nodes), merged.citations), limited.nodes);
    var cs;
    ev, cs := Shrink(limited, base, size, limits.maxBytes);
    ghost var m := CutOf(limited, size, limits.maxBytes);
    RestrictClosed(limited, m);
    NothingCited(base);
    hide Listed, Merged, Limited, CitesWithin, Restrict, CiteNodes, CitePaths, CiteEdges, FirstOnly, Values, Closed,
         CutOf;
    if size(ev) > limits.maxBytes {
      ev, cs := NOTHING, [];
    }
    RestrictNodes(limited, m);
    cs := CiteGraph(cs, ev);
    citations := Values(cs);
    version := merged.version;
    warnings := FirstOnly(warnings);
  }

  lemma {:induction false} NothingCited(base: seq<Entry<Citation>>)
    ensures Closed(NOTHING) && CitesWithin(Ids(NOTHING.nodes), base) == []
  {
    assert Ids(NOTHING.nodes) == {};
    if base != [] {
      NothingCited(base[..|base| - 1]);
    }
  }

  lemma RestrictNodes(ev: GraphEvidence, m: nat)
    requires m <= |ev.nodes|
    ensures Restrict(ev, m).nodes == ev.nodes[..m]
  {
  }

  lemma PrefixOfPrefix(a: seq<Node>, b: seq<Node>, c: seq<Node>)
    requires a <= b <= c
    ensures a <= c
  {
  }

  lemma OutcomeGood(limited: GraphEvidence, size: GraphEvidence -> nat, maxBytes: nat)
    requires EdgeClosed(limited)
    ensures
      var ev := Outcome(limited, size, maxBytes);
      && Closed(ev) && |ev.nodes| <= |limited.nodes| && |ev.edges| <= |limited.edges|
      && (size(ev) <= maxBytes || ev == NOTHING) && ev.nodes <= limited.nodes
      && (Covered(limited) ==> EdgeClosed(ev))
  {
    hide Closed, EdgeClosed, Restrict, Covered, CutOf;
    var m := CutOf(limited, size, maxBytes);
    RestrictClosed(limited, m);
    RestrictBounds(limited, m);
    NothingClosed();
    if Covered(limited) {
      CoveredKeeps(limited, m);
    }
  }

  lemma RestrictBounds(ev: GraphEvidence, m: nat)
    requires m <= |ev.nodes|
    ensures var t := Restrict(ev, m); t.nodes <= ev.nodes && |t.edges| <= |ev.edges|
  {
    EdgesWithinAre(Ids(ev.nodes[..m]), ev.edges);
    hide EdgesWithin, PathsWithin, Ids;
  }

  lemma NothingClosed()
    ensures Closed(NOTHING) && EdgeClosed(NOTHING)
  {
  }
}
