/** Merging graph results into evidence: first answers win, limits cut, and what stays is closed. */
module Evidence {
  import opened Wrappers

  // ----- dictionaries in insertion order -----

  datatype Entry<T> = Entry(key: string, value: T)

  predicate Has<T>(d: seq<Entry<T>>, k: string) { exists i :: 0 <= i < |d| && d[i].key == k }

  /** A key that is already there keeps its value. */
  function SetDefault<T>(d: seq<Entry<T>>, e: Entry<T>): seq<Entry<T>> { if Has(d, e.key) then d else d + [e] }

  function SetDefaults<T>(d: seq<Entry<T>>, es: seq<Entry<T>>): seq<Entry<T>> {
    if es == [] then d else SetDefault(SetDefaults(d, es[..|es| - 1]), es[|es| - 1])
  }

  /** The key takes the value; a known key keeps its place. */
  function Assign<T>(d: seq<Entry<T>>, e: Entry<T>): seq<Entry<T>> {
    if d == [] then [e] else if d[0].key == e.key then [e] + d[1..] else [d[0]] + Assign(d[1..], e)
  }

  function Values<T>(d: seq<Entry<T>>): (vs: seq<T>)
    ensures |vs| == |d| && forall i :: 0 <= i < |d| ==> vs[i] == d[i].value
  {
    seq(|d|, i requires 0 <= i < |d| => d[i].value)
  }

  ghost predicate DistinctKeys<T>(d: seq<Entry<T>>) { forall i, j :: 0 <= i < j < |d| ==> d[i].key != d[j].key }

  lemma AppendHas<T>(d: seq<Entry<T>>, e: Entry<T>, k: string)
    ensures Has(d + [e], k) <==> Has(d, k) || e.key == k
  {
    var all := d + [e];
    assert forall i :: 0 <= i < |d| ==> all[i] == d[i];
    assert all[|d|] == e;
  }

  /** Where each entry of a merged dictionary comes from: the first time its key was seen, in that order. */
  ghost predicate FirstSeen<T(!new)>(es: seq<Entry<T>>, d: seq<Entry<T>>, from: seq<nat>) {
    && |from| == |d| && DistinctKeys(d)
    && (forall i :: 0 <= i < |d| ==>
          && from[i] < |es| && es[from[i]] == d[i]
          && forall j :: 0 <= j < from[i] ==> es[j].key != d[i].key)
    && (forall i, j :: 0 <= i < j < |d| ==> from[i] < from[j])
    && (forall j :: 0 <= j < |es| ==> Has(d, es[j].key))
  }

  lemma SeenAgain<T(!new)>(es: seq<Entry<T>>, d: seq<Entry<T>>, from: seq<nat>, e: Entry<T>)
    requires FirstSeen(es, d, from) && Has(d, e.key)
    ensures FirstSeen(es + [e], d, from)
  {
    hide Has;
    var all := es + [e];
    assert forall i :: 0 <= i < |es| ==> all[i] == es[i];
    assert all[|es|] == e;
  }

  lemma SeenNew<T(!new)>(es: seq<Entry<T>>, d: seq<Entry<T>>, from: seq<nat>, e: Entry<T>)
    requires FirstSeen(es, d, from) && !Has(d, e.key)
    ensures FirstSeen(es + [e], d + [e], from + [|es|])
  {
    var all, more, from' := es + [e], d + [e], from + [|es|];
    assert forall i :: 0 <= i < |es| ==> all[i] == es[i];
    assert all[|es|] == e;
    assert forall i :: 0 <= i < |d| ==> more[i] == d[i] && from'[i] == from[i];
    NotSeen(es, d, from, e.key);
    AllSeen(es, d, from, e);
    hide Has;
  }

  lemma AllSeen<T(!new)>(es: seq<Entry<T>>, d: seq<Entry<T>>, from: seq<nat>, e: Entry<T>)
    requires FirstSeen(es, d, from)
    ensures forall j :: 0 <= j < |es + [e]| ==> Has(d + [e], (es + [e])[j].key)
  {
    hide Has;
    var all := es + [e];
    forall j | 0 <= j < |all|
      ensures Has(d + [e], all[j].key)
    {
      AppendHas(d, e, all[j].key);
      assert j < |es| ==> all[j] == es[j];
    }
  }

  lemma NotSeen<T(!new)>(es: seq<Entry<T>>, d: seq<Entry<T>>, from: seq<nat>, k: string)
    requires FirstSeen(es, d, from) && !Has(d, k)
    ensures forall j :: 0 <= j < |es| ==> es[j].key != k
    ensures forall i :: 0 <= i < |d| ==> d[i].key != k
  {
  }

  lemma {:induction false} MergedIsFirstSeen<T(!new)>(es: seq<Entry<T>>) returns (from: seq<nat>)
    ensures FirstSeen(es, SetDefaults([], es), from)
  {
    if es == [] {
      from := [];
    } else {
      hide FirstSeen, Has;
      var init, e := es[..|es| - 1], es[|es| - 1];
      from := MergedIsFirstSeen(init);
      var d := SetDefaults([], init);
      assert es == init + [e];
      if Has(d, e.key) {
        SeenAgain(init, d, from, e);
      } else {
        SeenNew(init, d, from, e);
        from := from + [|init|];
      }
    }
  }

  /** A loop of `setdefault` calls. */
  method Collect<T(==)>(before: seq<Entry<T>>, es: seq<Entry<T>>) returns (d: seq<Entry<T>>)
    ensures d == SetDefaults(before, es)
  {
    d := before;
    for i := 0 to |es|
      invariant d == SetDefaults(before, es[..i])
    {
      assert es[..i + 1][..i] == es[..i];
      if !Has(d, es[i].key) {
        d := d + [es[i]];
      }
    }
    assert es[..|es|] == es;
  }

  lemma {:induction false} SetDefaultsConcat<T>(d: seq<Entry<T>>, x: seq<Entry<T>>, y: seq<Entry<T>>)
    ensures SetDefaults(d, x + y) == SetDefaults(SetDefaults(d, x), y)
  {
    if y == [] {
      assert x + y == x;
    } else {
      assert (x + y)[..|x + y| - 1] == x + y[..|y| - 1];
      SetDefaultsConcat(d, x, y[..|y| - 1]);
    }
  }

  // ----- evidence -----

  datatype Node = Node(id: string, name: string, source: Option<string>, excerpt: Option<string>, provenance: string)

  datatype Edge = Edge(
    id: string, source: string, target: string, relationship: string, context: Option<string>, provenance: string)

  datatype Path = Path(id: string, nodeIds: seq<string>, edgeIds: seq<string>)

  datatype Citation = Citation(
    id: string, title: string, source: string, nodeId: Option<string>, relationship: Option<string>, provenance: string,
    excerpt: Option<string>)

  datatype GraphResult = GraphResult(
    version: string, nodes: seq<Node>, edges: seq<Edge>, paths: seq<Path>, citations: seq<Citation>,
    warnings: seq<string>)

  datatype Limits = Limits(maxNodes: nat, maxEdges: nat, maxBytes: nat)

  datatype GraphEvidence = GraphEvidence(nodes: seq<Node>, edges: seq<Edge>, paths: seq<Path>)

  const NOTHING := GraphEvidence([], [], [])

  function Ids(nodes: seq<Node>): set<string> { set i | 0 <= i < |nodes| :: nodes[i].id }

  function EdgeIds(edges: seq<Edge>): set<string> { set i | 0 <= i < |edges| :: edges[i].id }

  predicate EdgeWithin(ids: set<string>, e: Edge) { e.source in ids && e.target in ids }

  predicate PathWithin(ids: set<string>, p: Path) { forall i :: 0 <= i < |p.nodeIds| ==> p.nodeIds[i] in ids }

  predicate PathEdgesWithin(ids: set<string>, p: Path) { forall i :: 0 <= i < |p.edgeIds| ==> p.edgeIds[i] in ids }

  function EdgesWithin(ids: set<string>, edges: seq<Edge>): seq<Edge> {
    if edges == [] then []
    else EdgesWithin(ids, edges[..|edges| - 1])
         + (if EdgeWithin(ids, edges[|edges| - 1]) then [edges[|edges| - 1]] else [])
  }

  function PathsWithin(ids: set<string>, paths: seq<Path>): seq<Path> {
    if paths == [] then []
    else PathsWithin(ids, paths[..|paths| - 1])
         + (if PathWithin(ids, paths[|paths| - 1]) then [paths[|paths| - 1]] else [])
  }

  /** Surviving edges have both endpoints, and surviving paths all their nodes, among the surviving nodes. */
  ghost predicate Closed(ev: GraphEvidence) {
    && (forall i :: 0 <= i < |ev.edges| ==> EdgeWithin(Ids(ev.nodes), ev.edges[i]))
    && (forall i :: 0 <= i < |ev.paths| ==> PathWithin(Ids(ev.nodes), ev.paths[i]))
  }

  ghost predicate DistinctNodes(nodes: seq<Node>) { forall i, j :: 0 <= i < j < |nodes| ==> nodes[i].id != nodes[j].id }

  /** The evidence on the first `m` nodes. */
  function Restrict(ev: GraphEvidence, m: nat): GraphEvidence
    requires m <= |ev.nodes|
  {
    var ids := Ids(ev.nodes[..m]);
    GraphEvidence(ev.nodes[..m], EdgesWithin(ids, ev.edges), PathsWithin(ids, ev.paths))
  }

  lemma {:induction false} EdgesWithinMember(ids: set<string>, edges: seq<Edge>, e: Edge)
    ensures e in EdgesWithin(ids, edges) <==> e in edges && EdgeWithin(ids, e)
  {
    if edges != [] {
      EdgesWithinMember(ids, edges[..|edges| - 1], e);
      assert edges == edges[..|edges| - 1] + [edges[|edges| - 1]];
    }
  }

  /** Nothing is dropped where nothing has to be. */
  lemma {:induction false} EdgesWithinAll(ids: set<string>, edges: seq<Edge>)
    ensures |EdgesWithin(ids, edges)| <= |edges|
    ensures (forall i :: 0 <= i < |edges| ==> EdgeWithin(ids, edges[i])) ==> EdgesWithin(ids, edges) == edges
  {
    hide EdgeWithin;
    if edges != [] {
      EdgesWithinAll(ids, edges[..|edges| - 1]);
      assert edges == edges[..|edges| - 1] + [edges[|edges| - 1]];
    }
  }

  lemma EdgesWithinAre(ids: set<string>, edges: seq<Edge>)
    ensures forall i :: 0 <= i < |EdgesWithin(ids, edges)| ==>
                          EdgeWithin(ids, EdgesWithin(ids, edges)[i]) && EdgesWithin(ids, edges)[i] in edges
    ensures forall e :: e in edges && EdgeWithin(ids, e) ==> e in EdgesWithin(ids, edges)
    ensures (forall i :: 0 <= i < |edges| ==> EdgeWithin(ids, edges[i])) ==> EdgesWithin(ids, edges) == edges
    ensures |EdgesWithin(ids, edges)| <= |edges|
  {
    forall e
      ensures e in EdgesWithin(ids, edges) <==> e in edges && EdgeWithin(ids, e)
    {
      EdgesWithinMember(ids, edges, e);
    }
    EdgesWithinAll(ids, edges);
    hide EdgesWithin, EdgeWithin;
  }

  lemma {:induction false} PathsWithinMember(ids: set<string>, paths: seq<Path>, p: Path)
    ensures p in PathsWithin(ids, paths) <==> p in paths && PathWithin(ids, p)
  {
    if paths != [] {
      PathsWithinMember(ids, paths[..|paths| - 1], p);
      assert paths == paths[..|paths| - 1] + [paths[|paths| - 1]];
    }
  }

  /** Nothing is dropped where nothing has to be. */
  lemma {:induction false} PathsWithinAll(ids: set<string>, paths: seq<Path>)
    ensures |PathsWithin(ids, paths)| <= |paths|
    ensures (forall i :: 0 <= i < |paths| ==> PathWithin(ids, paths[i])) ==> PathsWithin(ids, paths) == paths
  {
    hide PathWithin;
    if paths != [] {
      PathsWithinAll(ids, paths[..|paths| - 1]);
      assert paths == paths[..|paths| - 1] + [paths[|paths| - 1]];
    }
  }

  lemma PathsWithinAre(ids: set<string>, paths: seq<Path>)
    ensures forall i :: 0 <= i < |PathsWithin(ids, paths)| ==>
                          PathWithin(ids, PathsWithin(ids, paths)[i]) && PathsWithin(ids, paths)[i] in paths
    ensures forall p :: p in paths && PathWithin(ids, p) ==> p in PathsWithin(ids, paths)
    ensures (forall i :: 0 <= i < |paths| ==> PathWithin(ids, paths[i])) ==> PathsWithin(ids, paths) == paths
  {
    forall p
      ensures p in PathsWithin(ids, paths) <==> p in paths && PathWithin(ids, p)
    {
      PathsWithinMember(ids, paths, p);
    }
    PathsWithinAll(ids, paths);
    hide PathsWithin, PathWithin;
  }

  /** Any restriction is closed; the full one changes nothing that was closed. */
  lemma RestrictClosed(ev: GraphEvidence, m: nat)
    requires m <= |ev.nodes|
    ensures Closed(Restrict(ev, m))
    ensures Closed(ev) ==> Restrict(ev, |ev.nodes|) == ev
  {
    EdgesWithinAre(Ids(ev.nodes[..m]), ev.edges);
    PathsWithinAre(Ids(ev.nodes[..m]), ev.paths);
    EdgesWithinAre(Ids(ev.nodes), ev.edges);
    PathsWithinAre(Ids(ev.nodes), ev.paths);
    hide EdgesWithin, PathsWithin;
    assert ev.nodes[..|ev.nodes|] == ev.nodes;
  }

  // ----- one node goes -----

  function EdgesWithout(id: string, edges: seq<Edge>): seq<Edge> {
    if edges == [] then []
    else
      var e := edges[|edges| - 1];
      EdgesWithout(id, edges[..|edges| - 1]) + (if e.source != id && e.target != id then [e] else [])
  }

  function PathsWithout(id: string, paths: seq<Path>): seq<Path> {
    if paths == [] then []
    else
      var p := paths[|paths| - 1];
      PathsWithout(id, paths[..|paths| - 1]) + (if id !in p.nodeIds then [p] else [])
  }

  lemma {:induction false} EdgesDrop(ids: set<string>, id: string, edges: seq<Edge>)
    requires id !in ids
    ensures EdgesWithout(id, EdgesWithin(ids + {id}, edges)) == EdgesWithin(ids, edges)
  {
    if edges != [] {
      var init, e := edges[..|edges| - 1], edges[|edges| - 1];
      EdgesDrop(ids, id, init);
      var within := EdgesWithin(ids + {id}, init);
      assert (within + [e])[..|within|] == within;
      assert within + [] == within;
    }
  }

  lemma {:induction false} PathsDrop(ids: set<string>, id: string, paths: seq<Path>)
    requires id !in ids
    ensures PathsWithout(id, PathsWithin(ids + {id}, paths)) == PathsWithin(ids, paths)
  {
    if paths != [] {
      var init, p := paths[..|paths| - 1], paths[|paths| - 1];
      PathsDrop(ids, id, init);
      var within := PathsWithin(ids + {id}, init);
      assert (within + [p])[..|within|] == within;
      assert within + [] == within;
      PathWithinDrop(ids, id, p);
    }
  }

  lemma PathWithinDrop(ids: set<string>, id: string, p: Path)
    requires id !in ids
    ensures PathWithin(ids, p) <==> PathWithin(ids + {id}, p) && id !in p.nodeIds
  {
    if PathWithin(ids + {id}, p) && id !in p.nodeIds {
      assert forall i :: 0 <= i < |p.nodeIds| ==> p.nodeIds[i] in p.nodeIds;
    }
  }

  /** Popping the last node with its edges and paths restricts to one node less. */
  lemma PopRestricts(ev: GraphEvidence, m: nat)
    requires 0 < m <= |ev.nodes| && DistinctNodes(ev.nodes)
    ensures
      var now, removed := Restrict(ev, m), ev.nodes[m - 1];
      GraphEvidence(now.nodes[..m - 1], EdgesWithout(removed.id, now.edges), PathsWithout(removed.id, now.paths)) ==
      Restrict(ev, m - 1)
  {
    var removed, ids := ev.nodes[m - 1], Ids(ev.nodes[..m - 1]);
    assert Ids(ev.nodes[..m]) == ids + {removed.id} by {
      assert ev.nodes[..m] == ev.nodes[..m - 1] + [removed];
      IdsNext(ev.nodes[..m - 1], removed);
    }
    assert removed.id !in ids;
    EdgesDrop(ids, removed.id, ev.edges);
    PathsDrop(ids, removed.id, ev.paths);
    assert ev.nodes[..m][..m - 1] == ev.nodes[..m - 1];
  }

  lemma IdsNext(nodes: seq<Node>, n: Node)
    ensures Ids(nodes + [n]) == Ids(nodes) + {n.id}
  {
    var all := nodes + [n];
    assert forall i :: 0 <= i < |nodes| ==> all[i] == nodes[i];
    assert all[|nodes|] == n;
    forall id | id in Ids(nodes) + {n.id}
      ensures id in Ids(all)
    {
      if id in Ids(nodes) {
        var i :| 0 <= i < |nodes| && nodes[i].id == id;
        assert all[i].id == id;
      }
    }
  }
}
