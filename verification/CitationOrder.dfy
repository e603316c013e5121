/** The order in which the merge returns its citations. */
module CitationOrder {
  import opened Wrappers
  import opened Sublists
  import opened Evidence
  import opened EvidenceMerge
  import opened MergeText

  ghost function KeysOf(d: seq<Entry<Citation>>): (ks: seq<string>)
    ensures |ks| == |d| && forall i :: 0 <= i < |d| ==> ks[i] == d[i].key
  {
    seq(|d|, i requires 0 <= i < |d| => d[i].key)
  }

  ghost function CitedIds(cs: seq<Citation>): (ks: seq<string>)
    ensures |ks| == |cs| && forall i :: 0 <= i < |cs| ==> ks[i] == cs[i].id
  {
    seq(|cs|, i requires 0 <= i < |cs| => cs[i].id)
  }

  ghost function NodeSlots(nodes: seq<Node>): seq<string> {
    seq(|nodes|, i requires 0 <= i < |nodes| => "node:" + nodes[i].id)
  }

  ghost function EdgeSlots(edges: seq<Edge>): seq<string> {
    seq(|edges|, i requires 0 <= i < |edges| => "edge:" + edges[i].id)
  }

  ghost function PathSlots(paths: seq<Path>): seq<string> {
    seq(|paths|, i requires 0 <= i < |paths| => "path:" + paths[i].id)
  }

  /** A citation about one of these nodes. */
  ghost function About(nodes: seq<Node>): Citation -> bool {
    (c: Citation) => c.nodeId.Some? && Names(nodes, c.nodeId.value)
  }

  /** A node for which a citation is made. */
  ghost function Own(given: seq<Citation>, kept: seq<Node>): Node -> bool {
    (n: Node) => Uncited(given, kept, n)
  }

  /**
    First the given citations about the nodes returned, in the order given; then those made for nodes, for edges and for
    paths, each in their order, except where an id has come before.
   */
  ghost predicate InOrder(given: seq<Citation>, kept: seq<Node>, ev: GraphEvidence, citations: seq<Citation>) {
    exists about, own ::
      && Filtered(given, About(ev.nodes), about) && Filtered(ev.nodes, Own(given, kept), own)
      && Firsts(
           CitedIds(about) + NodeSlots(own) + EdgeSlots(ev.edges) + PathSlots(ev.paths), Same(), CitedIds(citations))
  }

  // ----- edges and paths -----

  lemma KeysJoin(a: seq<Entry<Citation>>, b: seq<Entry<Citation>>)
    ensures KeysOf(a + b) == KeysOf(a) + KeysOf(b)
  {
  }

  lemma HasKey(d: seq<Entry<Citation>>, k: string)
    ensures Has(d, k) <==> k in KeysOf(d)
  {
    if i :| 0 <= i < |d| && d[i].key == k {
      assert KeysOf(d)[i] == k;
    }
    if k in KeysOf(d) {
      var i :| 0 <= i < |d| && KeysOf(d)[i] == k;
    }
  }

  lemma {:induction false} AssignKeys(d: seq<Entry<Citation>>, e: Entry<Citation>)
    ensures KeysOf(Assign(d, e)) == KeysOf(d) + if Has(d, e.key) then [] else [e.key]
  {
    if d == [] {
    } else if d[0].key == e.key {
      assert KeysOf([e] + d[1..]) == KeysOf(d) && KeysOf(d) + [] == KeysOf(d);
    } else {
      var tail := d[1..];
      AssignKeys(tail, e);
      assert d == [d[0]] + tail;
      HasFirst(d[0], tail, e.key);
      KeysJoin([d[0]], tail);
      KeysJoin([d[0]], Assign(tail, e));
      assert Assign(d, e) == [d[0]] + Assign(tail, e);
      hide Assign, Has, KeysOf;
      Associate(KeysOf([d[0]]), KeysOf(tail), if Has(tail, e.key) then [] else [e.key]);
    }
  }

  lemma HasFirst(first: Entry<Citation>, tail: seq<Entry<Citation>>, k: string)
    requires first.key != k
    ensures Has([first] + tail, k) <==> Has(tail, k)
  {
    var d := [first] + tail;
    assert forall i :: 0 <= i < |tail| ==> d[i + 1] == tail[i];
  }

  lemma Associate(a: seq<string>, b: seq<string>, c: seq<string>)
    ensures a + (b + c) == (a + b) + c
  {
  }

  lemma SlotNext(slots: seq<string>, d: seq<Entry<Citation>>, e: Entry<Citation>)
    requires Firsts(slots, Same(), KeysOf(d))
    ensures Firsts(slots + [e.key], Same(), KeysOf(Assign(d, e)))
  {
    FirstsNext(slots, Same(), KeysOf(d), e.key);
    FirstsMember(slots, Same(), KeysOf(d), e.key);
    AssignKeys(d, e);
    HasKey(d, e.key);
    hide Firsts, Assign, Has;
    assert (exists y :: y in KeysOf(d) && Same()(y) == e.key) <==> e.key in KeysOf(d) by {
      assert Same()(e.key) == e.key;
    }
    assert (exists y :: y in slots && Same()(y) == e.key) <==> (exists y :: y in slots && Same()(y) == Same()(e.key));
  }

  lemma {:induction false} EdgesInOrder(
    slots: seq<string>, cs: seq<Entry<Citation>>, nodes: seq<Node>, edges: seq<Edge>)
    requires Firsts(slots, Same(), KeysOf(cs)) && forall i :: 0 <= i < |edges| ==> EdgeWithin(Ids(nodes), edges[i])
    ensures Firsts(slots + EdgeSlots(edges), Same(), KeysOf(CiteEdges(cs, nodes, edges)))
  {
    hide Firsts, Ids, EdgeWithin;
    if edges == [] {
      assert slots + EdgeSlots([]) == slots;
    } else {
      var init, e := edges[..|edges| - 1], edges[|edges| - 1];
      EdgesInOrder(slots, cs, nodes, init);
      assert EdgeCitation(nodes, e).key == "edge:" + e.id;
      hide EdgeCitation;
      SlotNext(slots + EdgeSlots(init), CiteEdges(cs, nodes, init), EdgeCitation(nodes, e));
      assert slots + EdgeSlots(edges) == slots + EdgeSlots(init) + ["edge:" + e.id];
    }
  }

  lemma {:induction false} PathsInOrder(
    slots: seq<string>, cs: seq<Entry<Citation>>, nodes: seq<Node>, paths: seq<Path>)
    requires Firsts(slots, Same(), KeysOf(cs)) && forall i :: 0 <= i < |paths| ==> PathWithin(Ids(nodes), paths[i])
    ensures Firsts(slots + PathSlots(paths), Same(), KeysOf(CitePaths(cs, nodes, paths)))
  {
    hide Firsts, Ids, PathWithin;
    if paths == [] {
      assert slots + PathSlots([]) == slots;
    } else {
      var init, p := paths[..|paths| - 1], paths[|paths| - 1];
      PathsInOrder(slots, cs, nodes, init);
      assert PathCitation(nodes, p).key == "path:" + p.id;
      hide PathCitation;
      SlotNext(slots + PathSlots(init), CitePaths(cs, nodes, init), PathCitation(nodes, p));
      assert slots + PathSlots(paths) == slots + PathSlots(init) + ["path:" + p.id];
    }
  }

  // ----- given citations and those of nodes -----

  lemma {:induction false} WithinConcat(ids: set<string>, a: seq<Entry<Citation>>, b: seq<Entry<Citation>>)
    ensures CitesWithin(ids, a + b) == CitesWithin(ids, a) + CitesWithin(ids, b)
  {
    if b == [] {
      assert a + b == a;
    } else {
      var init, e := b[..|b| - 1], b[|b| - 1];
      assert (a + b)[..|a + b| - 1] == a + init;
      WithinConcat(ids, a, init);
    }
  }

  lemma {:induction false} WithinTwice(few: set<string>, many: set<string>, cs: seq<Entry<Citation>>)
    requires few <= many
    ensures CitesWithin(few, CitesWithin(many, cs)) == CitesWithin(few, cs)
  {
    if cs != [] {
      var init, e := cs[..|cs| - 1], cs[|cs| - 1];
      WithinTwice(few, many, init);
      var last := if Cites(e.value, many) then [e] else [];
      WithinConcat(few, CitesWithin(many, init), last);
      assert CitesWithin(few, [e]) == if Cites(e.value, few) then [e] else [] by {
        assert [e][..0] == [];
      }
    }
  }

  lemma {:induction false} WithinFiltered(nodes: seq<Node>, cs: seq<Entry<Citation>>)
    ensures Filtered(Values(cs), About(nodes), Values(CitesWithin(Ids(nodes), cs)))
  {
    if cs == [] {
      FilteredNone(About(nodes));
      assert Values<Citation>([]) == [];
    } else {
      var init, e := cs[..|cs| - 1], cs[|cs| - 1];
      WithinFiltered(nodes, init);
      FilteredNext(Values(init), About(nodes), Values(CitesWithin(Ids(nodes), init)), e.value);
      hide Filtered;
      if e.value.nodeId.Some? {
        NamesIds(nodes, e.value.nodeId.value);
      }
      assert Values(cs) == Values(init) + [e.value];
      assert Values(CitesWithin(Ids(nodes), cs)) ==
             Values(CitesWithin(Ids(nodes), init)) + if About(nodes)(e.value) then [e.value] else [];
    }
  }

  /** The entries made for nodes. */
  ghost function OwnEntries(cs: seq<Entry<Citation>>, nodes: seq<Node>): seq<Entry<Citation>> {
    if nodes == [] then []
    else
      var n := nodes[|nodes| - 1];
      OwnEntries(cs, nodes[..|nodes| - 1])
      + if Cited(cs, n.id) || Has(cs, "node:" + n.id) then [] else [NodeCitation(n)]
  }

  lemma {:induction false} CiteNodesAppends(cs: seq<Entry<Citation>>, nodes: seq<Node>)
    requires DistinctKeys(cs) && DistinctNodes(nodes)
    ensures CiteNodes(cs, nodes) == cs + OwnEntries(cs, nodes)
  {
    if nodes == [] {
      assert cs + [] == cs;
    } else {
      var init, n := nodes[..|nodes| - 1], nodes[|nodes| - 1];
      assert n.id !in Ids(init);
      assert DistinctNodes(init);
      hide NodeCitation, Cited, Has, Ids;
      CiteNodesAppends(cs, init);
      CiteNodesAre(cs, init, n.id);
      NodesHold(cs, init);
      OneNodeCited(CiteNodes(cs, init), n);
    }
  }

  lemma {:induction false} OwnAll(cs: seq<Entry<Citation>>, nodes: seq<Node>, ids: set<string>)
    requires Ids(nodes) <= ids
    ensures CitesWithin(ids, OwnEntries(cs, nodes)) == OwnEntries(cs, nodes)
  {
    if nodes != [] {
      var init, n := nodes[..|nodes| - 1], nodes[|nodes| - 1];
      assert nodes == init + [n];
      IdsNext(init, n);
      assert Ids(init) <= ids && Cites(NodeCitation(n).value, ids);
      hide Cited, Has, Ids, Cites, CitesWithin, NodeCitation;
      OwnAll(cs, init, ids);
      OneWithin(ids, NodeCitation(n));
      WithinConcat(ids, OwnEntries(cs, init), [NodeCitation(n)]);
      assert OwnEntries(cs, init) + [] == OwnEntries(cs, init);
    }
  }

  lemma OneWithin(ids: set<string>, e: Entry<Citation>)
    ensures CitesWithin(ids, [e]) == if Cites(e.value, ids) then [e] else []
  {
    assert [e][..0] == [];
  }

  lemma {:induction false} OwnWithin(cs: seq<Entry<Citation>>, nodes: seq<Node>, first: seq<Node>)
    requires DistinctNodes(nodes) && first <= nodes
    ensures CitesWithin(Ids(first), OwnEntries(cs, nodes)) == OwnEntries(cs, first)
  {
    if first == nodes {
      OwnAll(cs, first, Ids(first));
    } else {
      var init, n := nodes[..|nodes| - 1], nodes[|nodes| - 1];
      assert n.id !in Ids(first) by {
        assert forall i :: 0 <= i < |first| ==> first[i] == nodes[i];
      }
      assert first <= init && DistinctNodes(init);
      hide Cited, Has, Ids, DistinctNodes;
      assert !Cites(NodeCitation(n).value, Ids(first));
      hide Cites, CitesWithin, NodeCitation;
      OwnWithin(cs, init, first);
      OneWithin(Ids(first), NodeCitation(n));
      WithinConcat(Ids(first), OwnEntries(cs, init), [NodeCitation(n)]);
      assert OwnEntries(cs, init) + [] == OwnEntries(cs, init);
    }
  }

  lemma OneKey(n: Node)
    ensures KeysOf([NodeCitation(n)]) == ["node:" + n.id] && KeysOf([]) == []
  {
  }

  lemma OwnNext(cs: seq<Entry<Citation>>, nodes: seq<Node>, n: Node, own: seq<Node>)
    requires KeysOf(OwnEntries(cs, nodes)) == NodeSlots(own)
    ensures Cited(cs, n.id) || Has(cs, "node:" + n.id) ==> KeysOf(OwnEntries(cs, nodes + [n])) == NodeSlots(own)
    ensures !Cited(cs, n.id) && !Has(cs, "node:" + n.id) ==>
              KeysOf(OwnEntries(cs, nodes + [n])) == NodeSlots(own + [n])
  {
    var all := nodes + [n];
    assert all[..|all| - 1] == nodes && all[|all| - 1] == n;
    OneKey(n);
    hide Cited, Has, NodeCitation;
    var before := OwnEntries(cs, nodes);
    if Cited(cs, n.id) || Has(cs, "node:" + n.id) {
      assert OwnEntries(cs, all) == before;
    } else {
      assert OwnEntries(cs, all) == before + [NodeCitation(n)];
      KeysJoin(before, [NodeCitation(n)]);
      hide OwnEntries, KeysOf;
      assert NodeSlots(own + [n]) == NodeSlots(own) + ["node:" + n.id];
    }
  }

  lemma {:induction false} OwnFiltered(cs: seq<Entry<Citation>>, nodes: seq<Node>, keep: Node -> bool)
    returns (own: seq<Node>)
    requires forall n :: n in nodes ==> (keep(n) <==> !Cited(cs, n.id) && !Has(cs, "node:" + n.id))
    ensures Filtered(nodes, keep, own) && KeysOf(OwnEntries(cs, nodes)) == NodeSlots(own)
  {
    hide Cited, Has, Filtered;
    if nodes == [] {
      own := [];
      FilteredNone(keep);
    } else {
      var init, n := nodes[..|nodes| - 1], nodes[|nodes| - 1];
      assert nodes == init + [n];
      hide OwnEntries, KeysOf, NodeSlots;
      var before := OwnFiltered(cs, init, keep);
      FilteredNext(init, keep, before, n);
      OwnNext(cs, init, n, before);
      own := before + if keep(n) then [n] else [];
      assert before + [] == before;
    }
  }

  lemma {:induction false} FirstsSelf(xs: seq<string>)
    requires forall i, j :: 0 <= i < j < |xs| ==> xs[i] != xs[j]
    ensures Firsts(xs, Same(), xs)
  {
    if xs == [] {
      FirstsNone(Same());
    } else {
      var init, x := xs[..|xs| - 1], xs[|xs| - 1];
      assert forall i :: 0 <= i < |init| ==> init[i] == xs[i] && init[i] != x;
      FirstsSelf(init);
      FirstsNext(init, Same(), init, x);
      hide Firsts;
      assert xs == init + [x];
      assert !exists y :: y in init && Same()(y) == Same()(x);
    }
  }

  // ----- all citations -----

  /** The dictionary before the citations of edges and paths. */
  lemma BaseInOrder(cs: seq<Entry<Citation>>, kept: seq<Node>, first: seq<Node>) returns (own: seq<Node>)
    requires Keyed(cs, CitationId()) && DistinctKeys(cs) && DistinctNodes(kept) && first <= kept
    ensures
      var base := CitesWithin(Ids(first), CiteNodes(CitesWithin(Ids(kept), cs), kept));
      && Filtered(first, Own(Values(cs), kept), own)
      && KeysOf(base) == KeysOf(CitesWithin(Ids(first), cs)) + NodeSlots(own)
  {
    var within := CitesWithin(Ids(kept), cs);
    assert Ids(first) <= Ids(kept) by {
      assert forall i :: 0 <= i < |first| ==> first[i] == kept[i];
    }
    assert forall n :: n in first ==> n in kept;
    hide *;
    WithinHolds(Ids(kept), cs);
    CiteNodesAppends(within, kept);
    WithinConcat(Ids(first), within, OwnEntries(within, kept));
    WithinTwice(Ids(first), Ids(kept), cs);
    OwnWithin(within, kept, first);
    forall n | n in first
      ensures Own(Values(cs), kept)(n) <==> !Cited(within, n.id) && !Has(within, "node:" + n.id)
    {
      OwnIs(cs, kept, n);
    }
    own := OwnFiltered(within, first, Own(Values(cs), kept));
    KeysJoin(CitesWithin(Ids(first), within), OwnEntries(within, first));
  }

  lemma OwnIs(cs: seq<Entry<Citation>>, kept: seq<Node>, n: Node)
    requires Keyed(cs, CitationId()) && DistinctKeys(cs) && n in kept
    ensures
      var within := CitesWithin(Ids(kept), cs);
      Own(Values(cs), kept)(n) <==> !Cited(within, n.id) && !Has(within, "node:" + n.id)
  {
    UncitedExactly(cs, kept, n);
    hide Keyed, DistinctKeys, CitesWithin, Uncited, Ids, Cited, Has;
  }

  lemma KeysAreIds(d: seq<Entry<Citation>>)
    requires Keyed(d, CitationId())
    ensures CitedIds(Values(d)) == KeysOf(d)
  {
  }

  lemma {:induction false} WithinKeyed(ids: set<string>, cs: seq<Entry<Citation>>)
    requires Keyed(cs, CitationId())
    ensures Keyed(CitesWithin(ids, cs), CitationId())
  {
    if cs != [] {
      assert Keyed(cs[..|cs| - 1], CitationId());
      WithinKeyed(ids, cs[..|cs| - 1]);
    }
  }

  lemma DictionaryKeyed(cs: seq<Entry<Citation>>, kept: seq<Node>, ev: GraphEvidence)
    requires Keyed(cs, CitationId()) && DistinctKeys(cs) && DistinctNodes(kept) && ev.nodes <= kept
    requires Closed(ev) && DistinctNodes(ev.nodes) && DistinctEdges(ev.edges) && DistinctPaths(ev.paths)
    ensures Keyed(AllCitations(ev, CiteNodes(CitesWithin(Ids(kept), cs), kept)), CitationId())
  {
    var d := AllCitations(ev, CiteNodes(CitesWithin(Ids(kept), cs), kept));
    hide AllCitations, CiteNodes, CitesWithin, DistinctKeys, DistinctNodes, Closed, Returned;
    forall i | 0 <= i < |d|
      ensures d[i].key == d[i].value.id
    {
      DictionaryHolds(cs, kept, ev, d[i].key, d[i].value);
      assert Holds(d, d[i].key, d[i].value);
    }
  }

  lemma CitationsInOrder(cs: seq<Entry<Citation>>, kept: seq<Node>, ev: GraphEvidence)
    requires Keyed(cs, CitationId()) && DistinctKeys(cs) && DistinctNodes(kept) && ev.nodes <= kept
    requires Closed(ev) && DistinctNodes(ev.nodes) && DistinctEdges(ev.edges) && DistinctPaths(ev.paths)
    ensures InOrder(Values(cs), kept, ev, Values(AllCitations(ev, CiteNodes(CitesWithin(Ids(kept), cs), kept))))
  {
    var base := CitesWithin(Ids(ev.nodes), CiteNodes(CitesWithin(Ids(kept), cs), kept));
    var about := CitesWithin(Ids(ev.nodes), cs);
    var d := AllCitations(ev, CiteNodes(CitesWithin(Ids(kept), cs), kept));
    assert d == CitePaths(CiteEdges(base, ev.nodes, ev.edges), ev.nodes, ev.paths);
    WithinHolds(Ids(kept), cs);
    NodesHold(CitesWithin(Ids(kept), cs), kept);
    WithinHolds(Ids(ev.nodes), CiteNodes(CitesWithin(Ids(kept), cs), kept));
    assert forall i, j :: 0 <= i < j < |KeysOf(base)| ==> KeysOf(base)[i] != KeysOf(base)[j];
    DictionaryKeyed(cs, kept, ev);
    EvidenceWithin(ev);
    hide *;
    var own := BaseInOrder(cs, kept, ev.nodes);
    FirstsSelf(KeysOf(base));
    EdgesInOrder(KeysOf(base), base, ev.nodes, ev.edges);
    PathsInOrder(KeysOf(base) + EdgeSlots(ev.edges), CiteEdges(base, ev.nodes, ev.edges), ev.nodes, ev.paths);
    WithinKeyed(Ids(ev.nodes), cs);
    WithinFiltered(ev.nodes, cs);
    KeysAreIds(about);
    KeysAreIds(d);
    OrderIs(Values(cs), kept, ev, Values(d), Values(about), own);
  }

  lemma EvidenceWithin(ev: GraphEvidence)
    requires Closed(ev)
    ensures forall i :: 0 <= i < |ev.edges| ==> EdgeWithin(Ids(ev.nodes), ev.edges[i])
    ensures forall i :: 0 <= i < |ev.paths| ==> PathWithin(Ids(ev.nodes), ev.paths[i])
  {
  }

  lemma OrderIs(
    given: seq<Citation>, kept: seq<Node>, ev: GraphEvidence, citations: seq<Citation>, about: seq<Citation>,
    own: seq<Node>)
    requires Filtered(given, About(ev.nodes), about) && Filtered(ev.nodes, Own(given, kept), own)
    requires Firsts(
               CitedIds(about) + NodeSlots(own) + EdgeSlots(ev.edges) + PathSlots(ev.paths), Same(),
               CitedIds(citations))
    ensures InOrder(given, kept, ev, citations)
  {
    hide Filtered, Firsts;
  }

  /** For every result list, limits and size. */
  lemma OrderTheorem(results: seq<GraphResult>, limits: Limits, size: GraphEvidence -> nat)
    ensures
      var m := Merged(Listed(results));
      var kept := Limited(m, limits);
      var ev := Outcome(kept, size, limits.maxBytes);
      && Closed(ev)
      && InOrder(Values(m.citations), kept.nodes, ev, Values(AllCitations(ev, NodeCitations(m, limits))))
  {
    var m := Merged(Listed(results));
    var kept := Limited(m, limits);
    assert NodeCitations(m, limits) == CiteNodes(CitesWithin(Ids(kept.nodes), m.citations), kept.nodes) by {
      hide Listed, Merged, Limited, CiteNodes, CitesWithin;
    }
    hide *;
    LimitedClosed(results, limits);
    MergedOwnIds(results);
    SeenTells(results);
    PathsDistinct(results, limits);
    OutcomeDistinct(kept, size, limits.maxBytes);
    OutcomeGood(kept, size, limits.maxBytes);
    CitationsInOrder(m.citations, kept.nodes, Outcome(kept, size, limits.maxBytes));
  }
}
