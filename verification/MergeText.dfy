/** What the merge returns, told on the results it is given. */
module MergeText {
  import opened Wrappers
  import opened Sublists
  import opened Evidence
  import opened EvidenceMerge

  // ----- what is seen -----

  ghost function AllNodes(results: seq<GraphResult>): seq<Node> {
    if results == [] then [] else AllNodes(results[..|results| - 1]) + results[|results| - 1].nodes
  }

  ghost function AllEdges(results: seq<GraphResult>): seq<Edge> {
    if results == [] then [] else AllEdges(results[..|results| - 1]) + results[|results| - 1].edges
  }

  ghost function AllPaths(results: seq<GraphResult>): seq<Path> {
    if results == [] then [] else AllPaths(results[..|results| - 1]) + results[|results| - 1].paths
  }

  ghost function GivenCitations(results: seq<GraphResult>): seq<Citation> {
    if results == [] then [] else GivenCitations(results[..|results| - 1]) + results[|results| - 1].citations
  }

  ghost function NodeId(): Node -> string { (n: Node) => n.id }

  ghost function EdgeIdOf(): Edge -> string { (e: Edge) => e.id }

  ghost function PathId(): Path -> string { (p: Path) => p.id }

  ghost function CitationId(): Citation -> string { (c: Citation) => c.id }

  /** Entries under the ids of their values. */
  ghost predicate Keyed<T>(es: seq<Entry<T>>, id: T -> string) {
    forall i :: 0 <= i < |es| ==> es[i].key == id(es[i].value)
  }

  lemma {:induction false} DefaultsKeyed<T>(es: seq<Entry<T>>, id: T -> string)
    requires Keyed(es, id)
    ensures Keyed(SetDefaults([], es), id)
    ensures Firsts(Values(es), id, Values(SetDefaults([], es)))
  {
    if es == [] {
      assert Values<T>([]) == [];
      FirstsNone(id);
    } else {
      var init, e := es[..|es| - 1], es[|es| - 1];
      DefaultsKeyed(init, id);
      var d := SetDefaults([], init);
      FirstsNext(Values(init), id, Values(d), e.value);
      FirstsMember(Values(init), id, Values(d), e.key);
      hide SetDefaults, Firsts;
      assert Has(d, e.key) <==> exists y :: y in Values(init) && id(y) == id(e.value) by {
        KeyHeld(d, id, e.key);
      }
      assert Values(es) == Values(init) + [e.value];
      assert Values(d + [e]) == Values(d) + [e.value] && Values(d) + [] == Values(d);
    }
  }

  lemma KeyHeld<T>(d: seq<Entry<T>>, id: T -> string, k: string)
    requires Keyed(d, id)
    ensures Has(d, k) <==> exists y :: y in Values(d) && id(y) == k
  {
    if i :| 0 <= i < |d| && d[i].key == k {
      assert Values(d)[i] in Values(d);
    }
    if y :| y in Values(d) && id(y) == k {
      var i :| 0 <= i < |d| && Values(d)[i] == y;
    }
  }

  lemma {:induction false} ListedTells(results: seq<GraphResult>)
    ensures
      var l := Listed(results);
      && Keyed(l.nodes, NodeId()) && Values(l.nodes) == AllNodes(results)
      && Keyed(l.edges, EdgeIdOf()) && Values(l.edges) == AllEdges(results)
      && Keyed(l.paths, PathId()) && Values(l.paths) == AllPaths(results)
      && Keyed(l.citations, CitationId()) && Values(l.citations) == GivenCitations(results)
  {
    if results != [] {
      var init, r := results[..|results| - 1], results[|results| - 1];
      ListedTells(init);
      var l := Listed(init);
      EntriesJoin(l.nodes, NodeEntries(r.nodes), NodeId());
      EntriesJoin(l.edges, EdgeEntries(r.edges), EdgeIdOf());
      EntriesJoin(l.paths, PathEntries(r.paths), PathId());
      EntriesJoin(l.citations, CitationEntries(r.citations), CitationId());
      assert Values(NodeEntries(r.nodes)) == r.nodes && Values(EdgeEntries(r.edges)) == r.edges;
      assert Values(PathEntries(r.paths)) == r.paths && Values(CitationEntries(r.citations)) == r.citations;
      hide Keyed, Values;
    }
  }

  lemma EntriesJoin<T>(d: seq<Entry<T>>, es: seq<Entry<T>>, id: T -> string)
    requires Keyed(d, id)
    ensures Values(d + es) == Values(d) + Values(es)
    ensures Keyed(es, id) ==> Keyed(d + es, id)
  {
  }

  /** Each id once, as it was first seen, in the order of first sight. */
  lemma SeenTells(results: seq<GraphResult>)
    ensures
      var m := Merged(Listed(results));
      && Firsts(AllNodes(results), NodeId(), Values(m.nodes))
      && Firsts(AllEdges(results), EdgeIdOf(), Values(m.edges))
      && Firsts(AllPaths(results), PathId(), Values(m.paths))
      && Firsts(GivenCitations(results), CitationId(), Values(m.citations))
      && Keyed(m.citations, CitationId())
  {
    ListedTells(results);
    var l := Listed(results);
    hide Listed, AllNodes, AllEdges, AllPaths, GivenCitations, SetDefaults, Firsts, Keyed;
    DefaultsKeyed(l.nodes, NodeId());
    DefaultsKeyed(l.edges, EdgeIdOf());
    DefaultsKeyed(l.paths, PathId());
    DefaultsKeyed(l.citations, CitationId());
  }

  // ----- the limits -----

  ghost predicate Names(nodes: seq<Node>, id: string) { exists i :: 0 <= i < |nodes| && nodes[i].id == id }

  ghost predicate NamesEdge(edges: seq<Edge>, id: string) { exists i :: 0 <= i < |edges| && edges[i].id == id }

  ghost function Joins(nodes: seq<Node>): Edge -> bool {
    (e: Edge) => Names(nodes, e.source) && Names(nodes, e.target)
  }

  ghost function Visits(nodes: seq<Node>): Path -> bool {
    (p: Path) => forall i :: 0 <= i < |p.nodeIds| ==> Names(nodes, p.nodeIds[i])
  }

  ghost function Runs(nodes: seq<Node>, edges: seq<Edge>): Path -> bool {
    (p: Path) =>
      && (forall i :: 0 <= i < |p.nodeIds| ==> Names(nodes, p.nodeIds[i]))
      && (forall i :: 0 <= i < |p.edgeIds| ==> NamesEdge(edges, p.edgeIds[i]))
  }

  /** As many as the limit allows, from the front. */
  ghost predicate UpTo<T>(xs: seq<T>, most: nat, ys: seq<T>) {
    |ys| == (if most < |xs| then most else |xs|) && forall i :: 0 <= i < |ys| ==> ys[i] == xs[i]
  }

  /** What the limits keep of the nodes, edges and paths seen. */
  ghost predicate LimitsKeep(
    nodes: seq<Node>, edges: seq<Edge>, paths: seq<Path>, maxNodes: nat, maxEdges: nat, ev: GraphEvidence)
  {
    && UpTo(nodes, maxNodes, ev.nodes)
    && (exists joined :: Filtered(edges, Joins(ev.nodes), joined) && UpTo(joined, maxEdges, ev.edges))
    && Filtered(paths, Runs(ev.nodes, ev.edges), ev.paths)
  }

  lemma {:induction false} EdgesFiltered(nodes: seq<Node>, edges: seq<Edge>)
    ensures Filtered(edges, Joins(nodes), EdgesWithin(Ids(nodes), edges))
  {
    if edges == [] {
      FilteredNone(Joins(nodes));
    } else {
      var init, e := edges[..|edges| - 1], edges[|edges| - 1];
      EdgesFiltered(nodes, init);
      FilteredNext(init, Joins(nodes), EdgesWithin(Ids(nodes), init), e);
      hide Filtered;
      assert edges == init + [e];
    }
  }

  lemma {:induction false} PathsFiltered(nodes: seq<Node>, paths: seq<Path>)
    ensures Filtered(paths, Visits(nodes), PathsWithin(Ids(nodes), paths))
  {
    if paths == [] {
      FilteredNone(Visits(nodes));
    } else {
      var init, p := paths[..|paths| - 1], paths[|paths| - 1];
      PathsFiltered(nodes, init);
      FilteredNext(init, Visits(nodes), PathsWithin(Ids(nodes), init), p);
      hide Filtered;
      assert paths == init + [p];
      assert forall i :: 0 <= i < |p.nodeIds| ==> (p.nodeIds[i] in Ids(nodes) <==> Names(nodes, p.nodeIds[i]));
    }
  }

  lemma {:induction false} AllowedFiltered(nodes: seq<Node>, edges: seq<Edge>, paths: seq<Path>)
    ensures Filtered(paths, Runs(nodes, edges), PathsAllowed(Ids(nodes), EdgeIds(edges), paths))
  {
    if paths == [] {
      FilteredNone(Runs(nodes, edges));
    } else {
      var init, p := paths[..|paths| - 1], paths[|paths| - 1];
      AllowedFiltered(nodes, edges, init);
      FilteredNext(init, Runs(nodes, edges), PathsAllowed(Ids(nodes), EdgeIds(edges), init), p);
      hide Filtered;
      assert paths == init + [p];
      assert forall i :: 0 <= i < |p.nodeIds| ==> (p.nodeIds[i] in Ids(nodes) <==> Names(nodes, p.nodeIds[i]));
      assert forall i :: 0 <= i < |p.edgeIds| ==> (p.edgeIds[i] in EdgeIds(edges) <==> NamesEdge(edges, p.edgeIds[i]));
    }
  }

  lemma TakeUpTo<T>(xs: seq<T>, n: nat)
    ensures UpTo(xs, n, Take(xs, n))
  {
  }

  /** What the limits keep: as many nodes as allowed, as many edges between them, and the paths that still run. */
  lemma LimitsTheorem(results: seq<GraphResult>, limits: Limits)
    ensures
      var m := Merged(Listed(results));
      LimitsKeep(
        Values(m.nodes), Values(m.edges), Values(m.paths), limits.maxNodes, limits.maxEdges, Limited(m, limits))
  {
    var m := Merged(Listed(results));
    var nodes := Take(Values(m.nodes), limits.maxNodes);
    var joined := EdgesWithin(Ids(nodes), Values(m.edges));
    var edges := Take(joined, limits.maxEdges);
    EdgesFiltered(nodes, Values(m.edges));
    AllowedFiltered(nodes, edges, Values(m.paths));
    hide Merged, Listed, EdgesWithin, PathsAllowed, Filtered, Take, UpTo;
    TakeUpTo(Values(m.nodes), limits.maxNodes);
    TakeUpTo(joined, limits.maxEdges);
  }

  // ----- dropping for size -----

  /** The first `m` nodes, the edges between them and the paths that visit no other node. */
  ghost predicate KeepsFirst(ev: GraphEvidence, m: nat, rest: GraphEvidence) {
    && UpTo(ev.nodes, m, rest.nodes) && m <= |ev.nodes|
    && Filtered(ev.edges, Joins(rest.nodes), rest.edges) && Filtered(ev.paths, Visits(rest.nodes), rest.paths)
  }

  lemma RestrictTheorem(ev: GraphEvidence, m: nat)
    requires m <= |ev.nodes|
    ensures KeepsFirst(ev, m, Restrict(ev, m))
  {
    EdgesFiltered(ev.nodes[..m], ev.edges);
    PathsFiltered(ev.nodes[..m], ev.paths);
    hide Filtered, EdgesWithin, PathsWithin, Joins, Visits;
  }

  /** As many nodes as fit with what hangs on them; where not even none of them fit, nothing at all. */
  ghost predicate FitsFirst(
    ev: GraphEvidence, size: GraphEvidence -> nat, maxBytes: nat, m: nat, rest: GraphEvidence)
  {
    && m <= |ev.nodes|
    && (forall k :: m < k <= |ev.nodes| ==> size(Restrict(ev, k)) > maxBytes)
    && (if size(Restrict(ev, m)) <= maxBytes then KeepsFirst(ev, m, rest)
        else m == 0 && rest == GraphEvidence([], [], []))
  }

  lemma OutcomeTheorem(ev: GraphEvidence, size: GraphEvidence -> nat, maxBytes: nat)
    ensures exists m :: FitsFirst(ev, size, maxBytes, m, Outcome(ev, size, maxBytes))
  {
    CutOfIs(ev, size, maxBytes);
    var m := CutOf(ev, size, maxBytes);
    RestrictTheorem(ev, m);
    hide CutOf, Restrict, KeepsFirst;
    assert FitsFirst(ev, size, maxBytes, m, Outcome(ev, size, maxBytes));
  }

  // ----- citations, as a dictionary -----

  ghost predicate Holds<T>(d: seq<Entry<T>>, k: string, x: T) { exists i :: 0 <= i < |d| && d[i] == Entry(k, x) }

  /** A known key keeps its place and takes the value; a new one comes last. */
  lemma {:induction false} AssignExactly<T(!new)>(d: seq<Entry<T>>, e: Entry<T>)
    requires DistinctKeys(d)
    ensures
      var r := Assign(d, e);
      && |r| == (if Has(d, e.key) then |d| else |d| + 1)
      && (forall i :: 0 <= i < |d| ==> r[i] == (if d[i].key == e.key then e else d[i]))
      && (!Has(d, e.key) ==> r[|d|] == e)
  {
    if d != [] {
      var tail := d[1..];
      assert forall i :: 0 <= i < |tail| ==> tail[i] == d[i + 1];
      AssignExactly(tail, e);
      assert Has(d, e.key) <==> d[0].key == e.key || Has(tail, e.key) by {
        if i :| 0 <= i < |d| && d[i].key == e.key {
          if i > 0 {
            assert tail[i - 1].key == e.key;
          }
        }
      }
    }
  }

  lemma AssignHolds<T(!new)>(d: seq<Entry<T>>, e: Entry<T>)
    requires DistinctKeys(d)
    ensures DistinctKeys(Assign(d, e))
    ensures forall k, x :: Holds(Assign(d, e), k, x) <==> if k == e.key then x == e.value else Holds(d, k, x)
  {
    AssignExactly(d, e);
    hide Assign;
    var r := Assign(d, e);
    if i :| 0 <= i < |d| && d[i].key == e.key {
      assert r[i] == e;
    }
    forall k, x
      ensures Holds(r, k, x) <==> if k == e.key then x == e.value else Holds(d, k, x)
    {
      if k == e.key {
        if x == e.value {
          var i := if j :| 0 <= j < |d| && d[j].key == k then j else |d|;
          assert r[i] == Entry(k, x);
        }
      } else if i :| 0 <= i < |d| && d[i] == Entry(k, x) {
        assert r[i] == Entry(k, x);
      }
    }
  }

  lemma {:induction false} WithinHolds(ids: set<string>, cs: seq<Entry<Citation>>)
    requires DistinctKeys(cs)
    ensures DistinctKeys(CitesWithin(ids, cs))
    ensures forall k, x :: Holds(CitesWithin(ids, cs), k, x) <==> Holds(cs, k, x) && Cites(x, ids)
  {
    hide Cites;
    if cs != [] {
      var init, e := cs[..|cs| - 1], cs[|cs| - 1];
      WithinHolds(ids, init);
      AppendHolds(init, e);
      assert cs == init + [e];
      AppendHolds(CitesWithin(ids, init), e);
      forall i | 0 <= i < |CitesWithin(ids, init)|
        ensures CitesWithin(ids, init)[i].key != e.key
      {
        var c := CitesWithin(ids, init)[i];
        assert Holds(CitesWithin(ids, init), c.key, c.value);
      }
      var own := if Cites(e.value, ids) then [e] else [];
      assert CitesWithin(ids, cs) == CitesWithin(ids, init) + own;
      assert CitesWithin(ids, init) + [] == CitesWithin(ids, init);
      forall k, x
        ensures Holds(CitesWithin(ids, cs), k, x) <==> Holds(cs, k, x) && Cites(x, ids)
      {
        assert Holds(cs, k, x) <==> Holds(init, k, x) || e == Entry(k, x);
      }
    }
  }

  lemma AppendHolds<T(!new)>(d: seq<Entry<T>>, e: Entry<T>)
    ensures forall k, x :: Holds(d + [e], k, x) <==> Holds(d, k, x) || e == Entry(k, x)
  {
    var all := d + [e];
    assert forall i :: 0 <= i < |d| ==> all[i] == d[i];
    assert all[|d|] == e;
  }

  ghost predicate CitedNode(cs: seq<Entry<Citation>>, nodes: seq<Node>, n: Node) {
    n in nodes && !Cited(cs, n.id) && !Has(cs, "node:" + n.id)
  }

  lemma {:induction false} NodesHold(cs: seq<Entry<Citation>>, nodes: seq<Node>)
    requires DistinctKeys(cs) && DistinctNodes(nodes)
    ensures DistinctKeys(CiteNodes(cs, nodes))
    ensures forall k, x :: Holds(CiteNodes(cs, nodes), k, x) <==>
                           Holds(cs, k, x) || exists n :: CitedNode(cs, nodes, n) && Entry(k, x) == NodeCitation(n)
  {
    if nodes != [] {
      var init, n := nodes[..|nodes| - 1], nodes[|nodes| - 1];
      assert nodes == init + [n];
      assert n.id !in Ids(init);
      hide NodeCitation, Cited, Has, Ids;
      NodesHold(cs, init);
      CiteNodesAre(cs, init, n.id);
      AppendHolds(CiteNodes(cs, init), NodeCitation(n));
      NodeKey(n);
      assert CitedNode(cs, nodes, n) <==> !Cited(cs, n.id) && !Has(cs, "node:" + n.id);
      assert forall x :: CitedNode(cs, nodes, x) <==> CitedNode(cs, init, x) || (x == n && CitedNode(cs, nodes, n));
      OneNodeCited(CiteNodes(cs, init), n);
    }
  }

  lemma NodeKey(n: Node)
    ensures NodeCitation(n).key == "node:" + n.id
  {
  }

  lemma OneNodeCited(cs: seq<Entry<Citation>>, n: Node)
    requires DistinctKeys(cs)
    ensures DistinctKeys(CiteNode(cs, n))
    ensures CiteNode(cs, n) ==
            if Cited(cs, n.id) || Has(cs, "node:" + n.id) then cs else cs + [NodeCitation(n)]
  {
    NodeKey(n);
    hide NodeCitation, Cited;
  }

  lemma {:induction false} EdgesHold(cs: seq<Entry<Citation>>, nodes: seq<Node>, edges: seq<Edge>)
    requires DistinctKeys(cs) && forall i :: 0 <= i < |edges| ==> EdgeWithin(Ids(nodes), edges[i])
    requires DistinctEdges(edges)
    ensures DistinctKeys(CiteEdges(cs, nodes, edges))
    ensures forall k, x :: Holds(CiteEdges(cs, nodes, edges), k, x) <==>
                           || (exists e :: e in edges && Entry(k, x) == EdgeCitation(nodes, e))
                           || ((forall e :: e in edges ==> k != "edge:" + e.id) && Holds(cs, k, x))
  {
    hide Ids, NameOf, Holds, DistinctKeys;
    if edges != [] {
      var init, e := edges[..|edges| - 1], edges[|edges| - 1];
      assert edges == init + [e];
      assert forall i :: 0 <= i < |init| ==> init[i] == edges[i];
      EdgesHold(cs, nodes, init);
      AssignHolds(CiteEdges(cs, nodes, init), EdgeCitation(nodes, e));
      forall x | x in init
        ensures "edge:" + x.id != "edge:" + e.id && EdgeCitation(nodes, x).key == "edge:" + x.id
      {
        SamePrefix("edge:", x.id, e.id);
      }
      assert EdgeCitation(nodes, e).key == "edge:" + e.id;
      assert forall x :: x in edges <==> x in init || x == e;
      hide EdgeCitation;
    }
  }

  /** Cited for one of the paths, or else held before. */
  ghost predicate PathOr(cs: seq<Entry<Citation>>, nodes: seq<Node>, paths: seq<Path>, k: string, x: Citation)
    requires forall i :: 0 <= i < |paths| ==> PathWithin(Ids(nodes), paths[i])
  {
    || (exists p :: p in paths && Entry(k, x) == PathCitation(nodes, p))
    || ((forall p :: p in paths ==> k != "path:" + p.id) && Holds(cs, k, x))
  }

  lemma PathOrNext(cs: seq<Entry<Citation>>, nodes: seq<Node>, paths: seq<Path>, p: Path, k: string, x: Citation)
    requires DistinctPaths(paths + [p]) && PathWithin(Ids(nodes), p)
    requires forall i :: 0 <= i < |paths| ==> PathWithin(Ids(nodes), paths[i])
    ensures PathCitation(nodes, p).key == "path:" + p.id
    ensures PathOr(cs, nodes, paths + [p], k, x) <==>
            if k == "path:" + p.id then Entry(k, x) == PathCitation(nodes, p) else PathOr(cs, nodes, paths, k, x)
  {
    var all := paths + [p];
    assert all[|paths|] == p;
    forall y | y in paths
      ensures "path:" + y.id != "path:" + p.id && PathCitation(nodes, y).key == "path:" + y.id
    {
      var i :| 0 <= i < |paths| && paths[i] == y;
      assert all[i] == y;
      SamePrefix("path:", y.id, p.id);
    }
    assert PathCitation(nodes, p).key == "path:" + p.id;
    assert forall y :: y in all <==> y in paths || y == p;
    hide PathCitation, Holds;
  }

  lemma {:induction false} PathsHold(cs: seq<Entry<Citation>>, nodes: seq<Node>, paths: seq<Path>)
    requires DistinctKeys(cs) && forall i :: 0 <= i < |paths| ==> PathWithin(Ids(nodes), paths[i])
    requires DistinctPaths(paths)
    ensures DistinctKeys(CitePaths(cs, nodes, paths))
    ensures forall k, x :: Holds(CitePaths(cs, nodes, paths), k, x) <==> PathOr(cs, nodes, paths, k, x)
  {
    hide Ids, PathCitation, Holds, DistinctKeys;
    if paths != [] {
      var init, p := paths[..|paths| - 1], paths[|paths| - 1];
      assert paths == init + [p];
      assert forall i :: 0 <= i < |init| ==> init[i] == paths[i];
      PathsHold(cs, nodes, init);
      AssignHolds(CitePaths(cs, nodes, init), PathCitation(nodes, p));
      hide PathOr;
      forall k, x
        ensures Holds(CitePaths(cs, nodes, paths), k, x) <==> PathOr(cs, nodes, paths, k, x)
      {
        PathOrNext(cs, nodes, init, p, k, x);
      }
    }
  }

  // ----- citations, written out -----

  ghost predicate Labels(nodes: seq<Node>, id: string, name: string) {
    exists i :: 0 <= i < |nodes| && nodes[i].id == id && nodes[i].name == name
  }

  /** An edge is cited by the labels of its ends and its relationship. */
  ghost predicate CitesEdge(nodes: seq<Node>, e: Edge, c: Citation) {
    exists source, target ::
      && Labels(nodes, e.source, source) && Labels(nodes, e.target, target)
      && c == Citation("edge:" + e.id, source + " \U{2014}" + e.relationship + "\U{2192} " + target,
                       "Graphify knowledge graph", None, Some(e.relationship), e.provenance, e.context)
  }

  /** Names with arrows between them. */
  ghost function Arrows(names: seq<string>): string {
    if names == [] then ""
    else if |names| == 1 then names[0]
    else Arrows(names[..|names| - 1]) + " \U{2192} " + names[|names| - 1]
  }

  /** A path is cited by the labels of its nodes in order. */
  ghost predicate CitesPath(nodes: seq<Node>, p: Path, c: Citation) {
    exists names: seq<string> :: NamedAlong(nodes, p, names) && c == Citation(
      "path:" + p.id, Arrows(names), "Graphify knowledge graph", None, Some("graph_path"), "unknown", None)
  }

  ghost predicate NamedAlong(nodes: seq<Node>, p: Path, names: seq<string>) {
    |names| == |p.nodeIds| && forall i :: 0 <= i < |names| ==> Labels(nodes, p.nodeIds[i], names[i])
  }

  ghost predicate CitesNode(n: Node, c: Citation) {
    c == Citation("node:" + n.id, n.name,
                  if n.source.Some? && n.source.value != "" then n.source.value else "Graphify knowledge graph",
                  Some(n.id), None, n.provenance, n.excerpt)
  }

  lemma {:induction false} NameLabels(nodes: seq<Node>, id: string)
    requires id in Ids(nodes)
    ensures Labels(nodes, id, NameOf(nodes, id))
  {
    NamedEarlier(nodes, id);
    var last := nodes[|nodes| - 1];
    if last.id != id {
      NameLabels(nodes[..|nodes| - 1], id);
    }
  }

  lemma LabelsOnce(nodes: seq<Node>, id: string, a: string, b: string)
    requires DistinctNodes(nodes) && Labels(nodes, id, a) && Labels(nodes, id, b)
    ensures a == b
  {
  }

  lemma EdgeCited(nodes: seq<Node>, e: Edge, k: string, x: Citation)
    requires DistinctNodes(nodes) && EdgeWithin(Ids(nodes), e)
    ensures Entry(k, x) == EdgeCitation(nodes, e) <==> k == x.id && CitesEdge(nodes, e, x)
  {
    NameLabels(nodes, e.source);
    NameLabels(nodes, e.target);
    hide Labels, DistinctNodes, NameOf, Ids;
    if CitesEdge(nodes, e, x) {
      var source, target :|
        && Labels(nodes, e.source, source) && Labels(nodes, e.target, target)
        && x == Citation("edge:" + e.id, source + " \U{2014}" + e.relationship + "\U{2192} " + target,
                         "Graphify knowledge graph", None, Some(e.relationship), e.provenance, e.context);
      LabelsOnce(nodes, e.source, source, NameOf(nodes, e.source));
      LabelsOnce(nodes, e.target, target, NameOf(nodes, e.target));
    }
  }

  lemma {:induction false} ArrowsJoin(names: seq<string>)
    ensures Arrows(names) == Joined(names)
  {
    if |names| > 1 {
      var init, last := names[..|names| - 1], names[|names| - 1];
      ArrowsJoin(init);
      assert names == init + [last];
      JoinedNext(init, last);
    }
  }

  lemma {:induction false} JoinedNext(names: seq<string>, last: string)
    requires names != []
    ensures Joined(names + [last]) == Joined(names) + " \U{2192} " + last
  {
    var all := names + [last];
    if |names| == 1 {
      assert all[1..] == [last];
    } else {
      JoinedNext(names[1..], last);
      assert all[1..] == names[1..] + [last];
      var arrow := " \U{2192} ";
      assert names[0] + arrow + (Joined(names[1..]) + arrow + last) ==
             (names[0] + arrow + Joined(names[1..])) + arrow + last;
    }
  }

  lemma PathCited(nodes: seq<Node>, p: Path, k: string, x: Citation)
    requires DistinctNodes(nodes) && PathWithin(Ids(nodes), p)
    ensures Entry(k, x) == PathCitation(nodes, p) <==> k == x.id && CitesPath(nodes, p, x)
  {
    var names := NamesOf(nodes, p.nodeIds);
    forall i | 0 <= i < |names|
      ensures Labels(nodes, p.nodeIds[i], names[i])
    {
      NameLabels(nodes, p.nodeIds[i]);
    }
    ArrowsJoin(names);
    hide Labels, DistinctNodes, NameOf, Ids, Joined, Arrows;
    assert NamedAlong(nodes, p, names);
    if CitesPath(nodes, p, x) {
      var others: seq<string> :| NamedAlong(nodes, p, others) && x == Citation(
        "path:" + p.id, Arrows(others), "Graphify knowledge graph", None, Some("graph_path"), "unknown", None);
      forall i | 0 <= i < |names|
        ensures names[i] == others[i]
      {
        LabelsOnce(nodes, p.nodeIds[i], names[i], others[i]);
      }
      assert names == others;
    }
  }

  // ----- which citations are returned -----

  /** The id is not that of a citation of an edge or a path that is returned. */
  ghost predicate NotOfGraph(ev: GraphEvidence, id: string) {
    (forall e :: e in ev.edges ==> id != "edge:" + e.id) && (forall p :: p in ev.paths ==> id != "path:" + p.id)
  }

  /** No given citation of a kept node is about `n` or has taken the id that a citation of it would have. */
  ghost predicate Uncited(given: seq<Citation>, kept: seq<Node>, n: Node) {
    forall g :: IsAbout(given, kept, g) ==> g.nodeId.value != n.id && g.id != "node:" + n.id
  }

  /** A given citation about one of these nodes. */
  ghost predicate IsAbout(given: seq<Citation>, nodes: seq<Node>, g: Citation) {
    g in given && g.nodeId.Some? && Names(nodes, g.nodeId.value)
  }

  /**
    A citation is returned exactly if it is that of a returned edge or path; or has no such id, and is a given one about
    a returned node, or that of a returned node on which none was given.
   */
  ghost predicate Returned(given: seq<Citation>, kept: seq<Node>, ev: GraphEvidence, c: Citation) {
    || (exists e :: e in ev.edges && CitesEdge(ev.nodes, e, c))
    || (exists p :: p in ev.paths && CitesPath(ev.nodes, p, c))
    || (NotOfGraph(ev, c.id) && GivenOrOwn(given, kept, ev, c))
  }

  ghost predicate GivenOrOwn(given: seq<Citation>, kept: seq<Node>, ev: GraphEvidence, c: Citation) {
    || IsAbout(given, ev.nodes, c)
    || (exists n :: n in ev.nodes && Uncited(given, kept, n) && CitesNode(n, c))
  }

  lemma GivenHolds(cs: seq<Entry<Citation>>, k: string, x: Citation)
    requires Keyed(cs, CitationId())
    ensures Holds(cs, k, x) <==> k == x.id && x in Values(cs)
  {
    if x in Values(cs) {
      var i :| 0 <= i < |cs| && Values(cs)[i] == x;
      assert cs[i] == Entry(x.id, x);
    }
    if i :| 0 <= i < |cs| && cs[i] == Entry(k, x) {
      assert Values(cs)[i] == x;
    }
  }

  lemma NamesIds(nodes: seq<Node>, id: string)
    ensures id in Ids(nodes) <==> Names(nodes, id)
  {
  }

  lemma HeldThere<T(!new)>(d: seq<Entry<T>>, k: string)
    ensures Has(d, k) <==> exists x :: Holds(d, k, x)
  {
    if i :| 0 <= i < |d| && d[i].key == k {
      assert Holds(d, k, d[i].value);
    }
  }

  lemma CitedHolds(cs: seq<Entry<Citation>>, id: string)
    ensures Cited(cs, id) <==> exists k, x :: Holds(cs, k, x) && x.nodeId == Some(id)
  {
    if i :| 0 <= i < |cs| && cs[i].value.nodeId == Some(id) {
      assert Holds(cs, cs[i].key, cs[i].value);
    }
  }

  /** The given citations of some nodes, in the dictionary. */
  lemma AboutHolds(cs: seq<Entry<Citation>>, nodes: seq<Node>, k: string, x: Citation)
    requires Keyed(cs, CitationId()) && DistinctKeys(cs)
    ensures Holds(CitesWithin(Ids(nodes), cs), k, x) <==> k == x.id && IsAbout(Values(cs), nodes, x)
  {
    WithinHolds(Ids(nodes), cs);
    GivenHolds(cs, k, x);
    hide CitesWithin, Keyed, DistinctKeys, Holds, Ids, Names, Values;
    if x.nodeId.Some? {
      NamesIds(nodes, x.nodeId.value);
    }
  }

  lemma UncitedExactly(cs: seq<Entry<Citation>>, kept: seq<Node>, n: Node)
    requires Keyed(cs, CitationId()) && DistinctKeys(cs) && n in kept
    ensures CitedNode(CitesWithin(Ids(kept), cs), kept, n) <==> Uncited(Values(cs), kept, n)
  {
    var within, given := CitesWithin(Ids(kept), cs), Values(cs);
    CitedHolds(within, n.id);
    HeldThere(within, "node:" + n.id);
    hide CitesWithin, Keyed, DistinctKeys, Holds, Cited, Has, Ids, Values, IsAbout;
    forall k, x
      ensures Holds(within, k, x) <==> k == x.id && IsAbout(given, kept, x)
    {
      AboutHolds(cs, kept, k, x);
    }
    forall g
      ensures IsAbout(given, kept, g) ==> g.nodeId.Some?
    {
      AboutSome(given, kept, g);
    }
    forall x | IsAbout(given, kept, x)
      ensures Holds(within, x.id, x)
    {
    }
  }

  lemma AboutSome(given: seq<Citation>, nodes: seq<Node>, g: Citation)
    ensures IsAbout(given, nodes, g) ==> g.nodeId.Some?
  {
  }

  lemma SameNode(kept: seq<Node>, first: seq<Node>, n: Node)
    requires DistinctNodes(kept) && first <= kept && n in kept
    ensures n in first <==> n.id in Ids(first)
  {
    var k :| 0 <= k < |kept| && kept[k] == n;
    if i :| 0 <= i < |first| && first[i].id == n.id {
      assert kept[i] == first[i];
      assert i == k;
    }
  }

  lemma OwnHolds(cs: seq<Entry<Citation>>, kept: seq<Node>, ev: GraphEvidence, k: string, x: Citation, n: Node)
    requires Keyed(cs, CitationId()) && DistinctKeys(cs) && DistinctNodes(kept) && ev.nodes <= kept
    ensures CitedNode(CitesWithin(Ids(kept), cs), kept, n) && Entry(k, x) == NodeCitation(n)
            && Cites(x, Ids(ev.nodes)) <==>
            k == x.id && n in ev.nodes && Uncited(Values(cs), kept, n) && CitesNode(n, x)
  {
    CitedKept(CitesWithin(Ids(kept), cs), kept);
    hide CitesWithin, Keyed, DistinctKeys, CitedNode, Ids, Values, Uncited;
    assert n in ev.nodes ==> n in kept;
    if n in kept {
      UncitedExactly(cs, kept, n);
      SameNode(kept, ev.nodes, n);
    }
    assert Entry(k, x) == NodeCitation(n) <==> k == x.id && CitesNode(n, x);
  }

  lemma AboutKept(given: seq<Citation>, kept: seq<Node>, first: seq<Node>, x: Citation)
    requires first <= kept
    ensures IsAbout(given, kept, x) && Cites(x, Ids(first)) <==> IsAbout(given, first, x)
  {
    if x.nodeId.Some? && x.nodeId.value in Ids(first) {
      FirstIds(first, kept, x.nodeId.value);
      NamesIds(kept, x.nodeId.value);
    }
    if x.nodeId.Some? {
      NamesIds(first, x.nodeId.value);
    }
  }

  lemma BaseHolds(cs: seq<Entry<Citation>>, kept: seq<Node>, ev: GraphEvidence, k: string, x: Citation)
    requires Keyed(cs, CitationId()) && DistinctKeys(cs) && DistinctNodes(kept) && ev.nodes <= kept
    ensures
      var base := CiteNodes(CitesWithin(Ids(kept), cs), kept);
      Holds(CitesWithin(Ids(ev.nodes), base), k, x) <==> k == x.id && GivenOrOwn(Values(cs), kept, ev, x)
  {
    var within := CitesWithin(Ids(kept), cs);
    var base := CiteNodes(within, kept);
    WithinHolds(Ids(kept), cs);
    NodesHold(within, kept);
    WithinHolds(Ids(ev.nodes), base);
    AboutHolds(cs, kept, k, x);
    AboutKept(Values(cs), kept, ev.nodes, x);
    hide CitesWithin, CiteNodes, Keyed, DistinctKeys, DistinctNodes, Holds, CitedNode, Ids, Values, Uncited, IsAbout;
    hide Cites, NodeCitation, CitesNode;
    forall n
      ensures CitedNode(within, kept, n) && Entry(k, x) == NodeCitation(n) && Cites(x, Ids(ev.nodes)) <==>
              k == x.id && n in ev.nodes && Uncited(Values(cs), kept, n) && CitesNode(n, x)
    {
      OwnHolds(cs, kept, ev, k, x, n);
    }
  }

  lemma CitedKept(cs: seq<Entry<Citation>>, kept: seq<Node>)
    ensures forall n :: CitedNode(cs, kept, n) ==> n in kept
  {
  }

  lemma FirstIds(first: seq<Node>, kept: seq<Node>, id: string)
    requires first <= kept && id in Ids(first)
    ensures id in Ids(kept)
  {
    var i :| 0 <= i < |first| && first[i].id == id;
    assert kept[i].id == id;
  }

  /** The dictionary of the citations returned, for any evidence on leading nodes. */
  lemma DictionaryHolds(cs: seq<Entry<Citation>>, kept: seq<Node>, ev: GraphEvidence, k: string, x: Citation)
    requires Keyed(cs, CitationId()) && DistinctKeys(cs) && DistinctNodes(kept) && ev.nodes <= kept
    requires Closed(ev) && DistinctNodes(ev.nodes) && DistinctEdges(ev.edges) && DistinctPaths(ev.paths)
    ensures
      var d := AllCitations(ev, CiteNodes(CitesWithin(Ids(kept), cs), kept));
      DistinctKeys(d) && (Holds(d, k, x) <==> k == x.id && Returned(Values(cs), kept, ev, x))
  {
    var base := CitesWithin(Ids(ev.nodes), CiteNodes(CitesWithin(Ids(kept), cs), kept));
    WithinHolds(Ids(kept), cs);
    NodesHold(CitesWithin(Ids(kept), cs), kept);
    WithinHolds(Ids(ev.nodes), CiteNodes(CitesWithin(Ids(kept), cs), kept));
    BaseHolds(cs, kept, ev, k, x);
    assert AllCitations(ev, CiteNodes(CitesWithin(Ids(kept), cs), kept)) ==
           CitePaths(CiteEdges(base, ev.nodes, ev.edges), ev.nodes, ev.paths);
    GraphHolds(base, ev, k, x);
    hide *;
    ReturnedFrom(Values(cs), kept, ev, k, x);
  }

  /** The citations of edges and paths take the place of any other one under their ids. */
  ghost predicate GraphOr(ev: GraphEvidence, k: string, x: Citation, other: bool) {
    || (exists p :: p in ev.paths && k == x.id && CitesPath(ev.nodes, p, x))
    || ((forall p :: p in ev.paths ==> k != "path:" + p.id)
        && ((exists e :: e in ev.edges && k == x.id && CitesEdge(ev.nodes, e, x))
            || ((forall e :: e in ev.edges ==> k != "edge:" + e.id) && other)))
  }

  lemma GraphHolds(base: seq<Entry<Citation>>, ev: GraphEvidence, k: string, x: Citation)
    requires DistinctKeys(base)
    requires Closed(ev) && DistinctNodes(ev.nodes) && DistinctEdges(ev.edges) && DistinctPaths(ev.paths)
    ensures
      var d := CitePaths(CiteEdges(base, ev.nodes, ev.edges), ev.nodes, ev.paths);
      DistinctKeys(d) && (Holds(d, k, x) <==> GraphOr(ev, k, x, Holds(base, k, x)))
  {
    EdgesHold(base, ev.nodes, ev.edges);
    PathsHold(CiteEdges(base, ev.nodes, ev.edges), ev.nodes, ev.paths);
    hide DistinctKeys, DistinctNodes, DistinctEdges, DistinctPaths, Holds, CiteEdges, CitePaths, Ids, NameOf, NamesOf;
    hide CitesEdge, CitesPath, EdgeCitation, PathCitation, EdgeWithin, PathWithin;
    forall e | e in ev.edges
      ensures Entry(k, x) == EdgeCitation(ev.nodes, e) <==> k == x.id && CitesEdge(ev.nodes, e, x)
    {
      EdgeCited(ev.nodes, e, k, x);
    }
    forall p | p in ev.paths
      ensures Entry(k, x) == PathCitation(ev.nodes, p) <==> k == x.id && CitesPath(ev.nodes, p, x)
    {
      PathCited(ev.nodes, p, k, x);
    }
  }

  lemma KindsApart(a: string, b: string)
    ensures "edge:" + a != "path:" + b
  {
    assert ("edge:" + a)[0] == 'e' && ("path:" + b)[0] == 'p';
  }

  lemma ReturnedFrom(given: seq<Citation>, kept: seq<Node>, ev: GraphEvidence, k: string, x: Citation)
    ensures GraphOr(ev, k, x, k == x.id && GivenOrOwn(given, kept, ev, x)) <==>
            k == x.id && Returned(given, kept, ev, x)
  {
    hide GivenOrOwn, Arrows, Labels, NamedAlong;
    forall e, p | e in ev.edges && p in ev.paths
      ensures "edge:" + e.id != "path:" + p.id
    {
      KindsApart(e.id, p.id);
    }
    assert forall e :: CitesEdge(ev.nodes, e, x) ==> x.id == "edge:" + e.id;
    assert forall p :: CitesPath(ev.nodes, p, x) ==> x.id == "path:" + p.id;
    hide CitesEdge, CitesPath;
  }

  /** The citations returned are distinct by id and exactly those described. */
  ghost predicate CitationsTell(given: seq<Citation>, kept: seq<Node>, ev: GraphEvidence, citations: seq<Citation>) {
    && DistinctBy(citations, CitationId())
    && forall c :: c in citations <==> Returned(given, kept, ev, c)
  }

  lemma ValuesTell(d: seq<Entry<Citation>>, given: seq<Citation>, kept: seq<Node>, ev: GraphEvidence)
    requires DistinctKeys(d) && forall k, x :: Holds(d, k, x) <==> k == x.id && Returned(given, kept, ev, x)
    ensures CitationsTell(given, kept, ev, Values(d))
  {
    hide Returned;
    var vs := Values(d);
    forall i | 0 <= i < |d|
      ensures d[i].key == vs[i].id && Returned(given, kept, ev, vs[i])
    {
      assert Holds(d, d[i].key, vs[i]);
    }
    forall c | Returned(given, kept, ev, c)
      ensures c in vs
    {
      assert Holds(d, c.id, c);
      var i :| 0 <= i < |d| && d[i] == Entry(c.id, c);
      assert vs[i] == c;
    }
  }

  // ----- version and warnings -----

  ghost function Same(): string -> string { (w: string) => w }

  ghost function AllWarned(results: seq<GraphResult>): seq<string> {
    if results == [] then [] else AllWarned(results[..|results| - 1]) + results[|results| - 1].warnings
  }

  /** The first version that is not empty. */
  ghost predicate FirstVersion(results: seq<GraphResult>, version: string) {
    if version == "" then forall i :: 0 <= i < |results| ==> results[i].version == ""
    else exists i ::
           && 0 <= i < |results| && results[i].version == version
           && forall j :: 0 <= j < i ==> results[j].version == ""
  }

  lemma {:induction false} VersionTells(results: seq<GraphResult>)
    ensures FirstVersion(results, Listed(results).version) && Listed(results).warnings == AllWarned(results)
  {
    if results != [] {
      var init, last := results[..|results| - 1], results[|results| - 1];
      VersionTells(init);
      assert forall i :: 0 <= i < |init| ==> results[i] == init[i];
      if Listed(init).version == "" && last.version != "" {
        assert results[|init|].version == last.version;
      }
    }
  }

  lemma {:induction false} FirstOnlyTells(ws: seq<string>)
    ensures Firsts(ws, Same(), FirstOnly(ws))
  {
    if ws == [] {
      FirstsNone(Same());
    } else {
      var init, w := ws[..|ws| - 1], ws[|ws| - 1];
      FirstOnlyTells(init);
      FirstsNext(init, Same(), FirstOnly(init), w);
      FirstsMember(init, Same(), FirstOnly(init), w);
      hide Firsts;
      assert ws == init + [w];
      assert FirstOnly(init) + [] == FirstOnly(init);
      assert (exists y :: y in init && Same()(y) == w) <==> w in FirstOnly(init) by {
        assert (exists y :: y in FirstOnly(init) && Same()(y) == w) <==> w in FirstOnly(init);
      }
    }
  }

  /** Each warning once, with one more where something was cut off. */
  ghost predicate WarningsTell(results: seq<GraphResult>, cut: bool, warnings: seq<string>) {
    Firsts(
      AllWarned(results) + if cut then ["Graph evidence was truncated to configured limits."] else [], Same(), warnings)
  }

  // ----- the whole merge -----

  /** Everything the merge returns, on the results: what is seen, what the limits keep, what fits, what is cited. */
  ghost predicate MergeTells(
    results: seq<GraphResult>, limits: Limits, size: GraphEvidence -> nat, kept: GraphEvidence, ev: GraphEvidence,
    citations: seq<Citation>)
  {
    exists nodes, edges, paths, given ::
      && Firsts(AllNodes(results), NodeId(), nodes) && Firsts(AllEdges(results), EdgeIdOf(), edges)
      && Firsts(AllPaths(results), PathId(), paths) && Firsts(GivenCitations(results), CitationId(), given)
      && LimitsKeep(nodes, edges, paths, limits.maxNodes, limits.maxEdges, kept)
      && (exists m :: FitsFirst(kept, size, limits.maxBytes, m, ev))
      && CitationsTell(given, kept.nodes, ev, citations)
  }

  lemma PathsDistinct(results: seq<GraphResult>, limits: Limits)
    ensures DistinctBy(Limited(Merged(Listed(results)), limits).paths, PathId())
  {
    var m := Merged(Listed(results));
    SeenTells(results);
    LimitsTheorem(results, limits);
    hide Merged, Listed, Limited, Firsts, Filtered, UpTo, DistinctBy;
    var ev := Limited(m, limits);
    FirstsDistinct(AllPaths(results), PathId(), Values(m.paths));
    FilteredDistinct(Values(m.paths), Runs(ev.nodes, ev.edges), ev.paths, PathId());
  }

  lemma OutcomeDistinct(kept: GraphEvidence, size: GraphEvidence -> nat, maxBytes: nat)
    requires DistinctNodes(kept.nodes) && DistinctEdges(kept.edges) && DistinctBy(kept.paths, PathId())
    ensures
      var ev := Outcome(kept, size, maxBytes);
      DistinctNodes(ev.nodes) && DistinctEdges(ev.edges) && DistinctPaths(ev.paths) && ev.nodes <= kept.nodes
  {
    var m := CutOf(kept, size, maxBytes);
    EdgesWithinDistinct(Ids(kept.nodes[..m]), kept.edges);
    PathsFiltered(kept.nodes[..m], kept.paths);
    FilteredDistinct(kept.paths, Visits(kept.nodes[..m]), PathsWithin(Ids(kept.nodes[..m]), kept.paths), PathId());
    hide EdgesWithin, PathsWithin, Filtered, Ids, Visits, CutOf;
  }

  lemma DictionaryDistinct(cs: seq<Entry<Citation>>, kept: seq<Node>, ev: GraphEvidence)
    requires DistinctKeys(cs) && DistinctNodes(kept)
    requires Closed(ev) && DistinctEdges(ev.edges) && DistinctPaths(ev.paths)
    ensures DistinctKeys(AllCitations(ev, CiteNodes(CitesWithin(Ids(kept), cs), kept)))
  {
    var base := CiteNodes(CitesWithin(Ids(kept), cs), kept);
    WithinHolds(Ids(kept), cs);
    NodesHold(CitesWithin(Ids(kept), cs), kept);
    WithinHolds(Ids(ev.nodes), base);
    hide CitesWithin, CiteNodes, DistinctKeys, CiteEdges, CitePaths, Holds;
    EdgesHold(CitesWithin(Ids(ev.nodes), base), ev.nodes, ev.edges);
    PathsHold(CiteEdges(CitesWithin(Ids(ev.nodes), base), ev.nodes, ev.edges), ev.nodes, ev.paths);
  }

  lemma CitationsOf(cs: seq<Entry<Citation>>, kept: seq<Node>, ev: GraphEvidence)
    requires Keyed(cs, CitationId()) && DistinctKeys(cs) && DistinctNodes(kept) && ev.nodes <= kept
    requires Closed(ev) && DistinctNodes(ev.nodes) && DistinctEdges(ev.edges) && DistinctPaths(ev.paths)
    ensures CitationsTell(
              Values(cs), kept, ev, Values(AllCitations(ev, CiteNodes(CitesWithin(Ids(kept), cs), kept))))
  {
    hide *;
    var d := AllCitations(ev, CiteNodes(CitesWithin(Ids(kept), cs), kept));
    DictionaryDistinct(cs, kept, ev);
    forall k, x
      ensures Holds(d, k, x) <==> k == x.id && Returned(Values(cs), kept, ev, x)
    {
      DictionaryHolds(cs, kept, ev, k, x);
    }
    ValuesTell(d, Values(cs), kept, ev);
  }

  lemma CitationsTheorem(results: seq<GraphResult>, limits: Limits, size: GraphEvidence -> nat)
    ensures
      var m := Merged(Listed(results));
      var kept := Limited(m, limits);
      var ev := Outcome(kept, size, limits.maxBytes);
      && Closed(ev)
      && CitationsTell(Values(m.citations), kept.nodes, ev, Values(AllCitations(ev, NodeCitations(m, limits))))
  {
    var m := Merged(Listed(results));
    var kept := Limited(m, limits);
    assert NodeCitations(m, limits) == CiteNodes(CitesWithin(Ids(kept.nodes), m.citations), kept.nodes) by {
      hide Listed, Merged, Limited, CiteNodes, CitesWithin;
    }
    hide *;
    LimitedClosed(results, limits);
    MergedOwnIds(results);
    SeenTells(results);
    PathsDistinct(results, limits);
    OutcomeDistinct(kept, size, limits.maxBytes);
    OutcomeGood(kept, size, limits.maxBytes);
    CitationsOf(m.citations, kept.nodes, Outcome(kept, size, limits.maxBytes));
  }

  /**
    The merge in one place: closed, within every limit, citing only what survives, and all of it told on the results.
   */
  lemma MergeTheorem(results: seq<GraphResult>, limits: Limits, size: GraphEvidence -> nat)
    ensures
      var merged := Merged(Listed(results));
      var limited := Limited(merged, limits);
      var ev := Outcome(limited, size, limits.maxBytes);
      && Closed(ev)
      && |ev.nodes| <= limits.maxNodes && |ev.edges| <= limits.maxEdges
      && (size(ev) <= limits.maxBytes || ev == NOTHING)
      && ev.nodes <= Values(merged.nodes)
      && (Covered(limited) ==> EdgeClosed(ev))
      && AllNamed(AllCitations(ev, NodeCitations(merged, limits)), Ids(ev.nodes))
      && MergeTells(results, limits, size, limited, ev, Values(AllCitations(ev, NodeCitations(merged, limits))))
      && FirstVersion(results, merged.version)
      && WarningsTell(
           results, |merged.nodes| > |limited.nodes| || |merged.edges| > |limited.edges|, AllWarnings(merged, limited))
  {
    var merged := Merged(Listed(results));
    var limited := Limited(merged, limits);
    LimitedClosed(results, limits);
    WarningsTold(results, limits);
    hide *;
    OutcomeGood(limited, size, limits.maxBytes);
    PrefixOfPrefix(Outcome(limited, size, limits.maxBytes).nodes, limited.nodes, Values(merged.nodes));
    CitationsNameSurvivors(Outcome(limited, size, limits.maxBytes), NodeCitations(merged, limits));
    MergeTold(results, limits, size);
  }

  lemma WarningsTold(results: seq<GraphResult>, limits: Limits)
    ensures
      var merged := Merged(Listed(results));
      var limited := Limited(merged, limits);
      && FirstVersion(results, merged.version)
      && WarningsTell(
           results, |merged.nodes| > |limited.nodes| || |merged.edges| > |limited.edges|, AllWarnings(merged, limited))
  {
    var merged := Merged(Listed(results));
    var limited := Limited(merged, limits);
    VersionTells(results);
    var cut := |merged.nodes| > |limited.nodes| || |merged.edges| > |limited.edges|;
    FirstOnlyTells(AllWarned(results) + if cut then [TRUNCATED] else []);
    hide Listed, Limited, Firsts, FirstOnly, AllWarned, FirstVersion;
  }

  lemma MergeTold(results: seq<GraphResult>, limits: Limits, size: GraphEvidence -> nat)
    ensures
      var merged := Merged(Listed(results));
      var limited := Limited(merged, limits);
      var ev := Outcome(limited, size, limits.maxBytes);
      && Closed(ev)
      && MergeTells(results, limits, size, limited, ev, Values(AllCitations(ev, NodeCitations(merged, limits))))
  {
    var merged := Merged(Listed(results));
    var limited := Limited(merged, limits);
    hide Listed, Merged, Limited, Outcome, Firsts, LimitsKeep, FitsFirst, CitationsTell, NodeCitations, AllCitations;
    hide Closed;
    SeenTells(results);
    LimitsTheorem(results, limits);
    OutcomeTheorem(limited, size, limits.maxBytes);
    CitationsTheorem(results, limits, size);
  }
}
