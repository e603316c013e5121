/** The bounded impact traversal: breadth-first over objects, from a set of anchors. */
module Impact {
  import opened Ordering
  import opened EdgeStore

  /** What one traversal is asked: the stored rows, the direction, the relationship filter and the anchors. */
  datatype Query = Query(table: seq<Row>, direction: Direction, rels: set<string>, anchors: set<string>) {
    function From(e: Edge): string { Near(direction, e) }
    function To(e: Edge): string { Far(direction, e) }
    function At(name: string): seq<Edge> { Adjacent(table, direction, rels, name) }
    ghost predicate Has(e: Edge) { Stored(table, rels, e) }
  }

  // ----- what impact means: chains of edges leading back to an anchor -----

  /** `w` joins `peer` to an anchor; its first edge touches `peer`, and no edge is a self-loop. */
  ghost predicate Chain(q: Query, peer: string, w: seq<Edge>)
    decreases |w|
  {
    && |w| > 0
    && q.Has(w[0]) && q.To(w[0]) == peer && q.From(w[0]) != peer
    && (if |w| == 1 then q.From(w[0]) in q.anchors else Chain(q, q.From(w[0]), w[1..]))
  }

  ghost predicate Within(q: Query, peer: string, n: nat) {
    exists w :: Chain(q, peer, w) && |w| <= n
  }

  /** `n` is the length of a shortest chain from `peer` to an anchor. */
  ghost predicate AtDistance(q: Query, peer: string, n: nat) {
    && (exists w :: Chain(q, peer, w) && |w| == n)
    && (forall w :: Chain(q, peer, w) ==> n <= |w|)
  }

  // ----- chains in flow order, on the ends of their edges -----

  /** A stored edge between two objects, of a relationship that is followed. */
  ghost predicate Link(q: Query, e: Edge) {
    && (exists row :: row in q.table && row.mappable && row.edge == e)
    && e.relationship in q.rels && e.source != e.target
  }

  /** Edges in flow order, source to target: upstream from `peer` to an anchor, downstream from an anchor to `peer`. */
  ghost predicate Leads(q: Query, peer: string, r: seq<Edge>) {
    && |r| > 0
    && (forall i :: 0 <= i < |r| ==> Link(q, r[i]))
    && (forall i :: 0 <= i < |r| - 1 ==> r[i].target == r[i + 1].source)
    && (match q.direction
        case Upstream => r[0].source == peer && r[|r| - 1].target in q.anchors
        case Downstream => r[0].source in q.anchors && r[|r| - 1].target == peer)
  }

  function Reverse(w: seq<Edge>): seq<Edge> {
    if w == [] then [] else Reverse(w[1..]) + [w[0]]
  }

  lemma {:induction false} ReverseAppend(w: seq<Edge>, e: Edge)
    ensures Reverse(w + [e]) == [e] + Reverse(w)
    ensures |Reverse(w)| == |w|
  {
    if w == [] {
      assert w + [e] == [e];
      assert Reverse([e]) == Reverse([]) + [e];
    } else {
      ReverseAppend(w[1..], e);
      assert (w + [e])[1..] == w[1..] + [e];
    }
  }

  lemma {:induction false} ReverseTwice(w: seq<Edge>)
    ensures Reverse(Reverse(w)) == w && |Reverse(w)| == |w|
  {
    if w != [] {
      ReverseTwice(w[1..]);
      ReverseAppend(Reverse(w[1..]), w[0]);
    }
  }

  lemma {:induction false} ChainUpstream(q: Query, peer: string, w: seq<Edge>)
    requires q.direction == Upstream
    ensures Chain(q, peer, w) <==> Leads(q, peer, w)
    decreases |w|
  {
    hide Link;
    if |w| > 0 {
      assert q.Has(w[0]) && w[0].source != w[0].target <==> Link(q, w[0]) by {
        LinkIsStored(q, w[0]);
      }
      if |w| > 1 {
        var t := w[1..];
        ChainUpstream(q, w[0].target, t);
        assert forall i :: 0 <= i < |t| ==> t[i] == w[i + 1];
        assert forall i :: 1 <= i < |w| ==> w[i] == t[i - 1];
      }
    }
  }

  lemma LinkIsStored(q: Query, e: Edge)
    ensures Link(q, e) <==> q.Has(e) && e.source != e.target
  {
  }

  lemma {:induction false} ChainDownstream(q: Query, peer: string, r: seq<Edge>)
    requires q.direction == Downstream
    ensures Chain(q, peer, Reverse(r)) <==> Leads(q, peer, r)
    decreases |r|
  {
    hide Link;
    if |r| > 0 {
      var init, e := r[..|r| - 1], r[|r| - 1];
      assert r == init + [e];
      ReverseAppend(init, e);
      ReverseTwice(init);
      LinkIsStored(q, e);
      assert Reverse(r)[0] == e && Reverse(r)[1..] == Reverse(init);
      if |r| > 1 {
        ChainDownstream(q, e.source, init);
        assert forall i :: 0 <= i < |init| ==> init[i] == r[i];
      }
    }
  }

  /** A route read from the dependent towards the anchor; read so twice, it is in flow order again. */
  function FromPeer(d: Direction, r: seq<Edge>): seq<Edge> { if d.Upstream? then r else Reverse(r) }

  /** The two directions of following edges, told apart by the ends of the edges alone. */
  lemma ChainLeads(q: Query, peer: string, w: seq<Edge>)
    ensures Chain(q, peer, w) <==> Leads(q, peer, FromPeer(q.direction, w))
    ensures |FromPeer(q.direction, w)| == |w| && FromPeer(q.direction, FromPeer(q.direction, w)) == w
  {
    hide Chain, Leads;
    ReverseTwice(w);
    if q.direction.Upstream? {
      ChainUpstream(q, peer, w);
    } else {
      ChainDownstream(q, peer, Reverse(w));
    }
  }

  /** Being within `n`, and the distance, in terms of the routes. */
  lemma WithinLeads(q: Query, peer: string, n: nat)
    ensures Within(q, peer, n) <==> exists r :: Leads(q, peer, r) && |r| <= n
    ensures AtDistance(q, peer, n) <==>
            (exists r :: Leads(q, peer, r) && |r| == n) && forall r :: Leads(q, peer, r) ==> n <= |r|
  {
    hide Chain, Leads;
    forall w {
      ChainLeads(q, peer, w);
    }
    if r :| Leads(q, peer, r) && |r| <= n {
      assert Chain(q, peer, FromPeer(q.direction, r));
    }
    if r :| Leads(q, peer, r) && |r| == n {
      assert Chain(q, peer, FromPeer(q.direction, r));
    }
    assert (forall w :: Chain(q, peer, w) ==> n <= |w|) <==> (forall r :: Leads(q, peer, r) ==> n <= |r|) by {
      if forall w :: Chain(q, peer, w) ==> n <= |w| {
        forall r | Leads(q, peer, r)
          ensures n <= |r|
        {
          assert Chain(q, peer, FromPeer(q.direction, r));
        }
      }
    }
  }

  // ----- the traversal as a function -----

  /** `distance`, `parents` and the order in which objects were discovered. */
  datatype Search = Search(distance: map<string, nat>, parents: map<string, seq<Edge>>, found: seq<string>)

  ghost predicate Aligned(s: Search) {
    && s.parents.Keys == s.distance.Keys
    && (forall p :: p in s.found <==> p in s.distance)
    && Distinct(s.found)
  }

  const EMPTY := Search(map[], map[], [])

  /** One edge of a round. */
  function Absorb(q: Query, s: Search, e: Edge, depth: nat): (s': Search)
    requires s.parents.Keys == s.distance.Keys
    ensures s'.parents.Keys == s'.distance.Keys
    ensures s.found <= s'.found
  {
    var peer := q.To(e);
    if peer == q.From(e) then s
    else if peer !in s.distance then
      Search(s.distance[peer := depth], s.parents[peer := [e]], s.found + [peer])
    else if s.distance[peer] == depth then
      s.(parents := s.parents[peer := s.parents[peer] + [e]])
    else s
  }

  function AbsorbAll(q: Query, s: Search, es: seq<Edge>, depth: nat): (s': Search)
    requires s.parents.Keys == s.distance.Keys
    ensures s'.parents.Keys == s'.distance.Keys
    ensures s.found <= s'.found
  {
    if es == [] then s
    else Absorb(q, AbsorbAll(q, s, es[..|es| - 1], depth), es[|es| - 1], depth)
  }

  /** The edges a round looks at, in the order it looks at them. */
  function RoundEdges(q: Query, names: seq<string>): seq<Edge> {
    if names == [] then [] else RoundEdges(q, names[..|names| - 1]) + q.At(names[|names| - 1])
  }

  function Fresh(frontier: seq<string>, expanded: set<string>): seq<string> {
    if frontier == [] then []
    else (if frontier[0] !in expanded then [frontier[0]] else []) + Fresh(frontier[1..], expanded)
  }

  function SetOf(s: seq<string>): set<string> { set x | x in s }

  /** Names in order, given as any list without repetition. */
  function SortNames(names: seq<string>): seq<string> { SortBy(names, Identity, StringLess) }

  function Identity(name: string): string { name }

  /** What one round hands to the next. */
  datatype State = State(search: Search, frontier: seq<string>, expanded: set<string>)

  function Round(q: Query, st: State, depth: nat): (st': State)
    requires st.search.parents.Keys == st.search.distance.Keys
    ensures st'.search.parents.Keys == st'.search.distance.Keys
  {
    var names := Fresh(st.frontier, st.expanded);
    var s' := AbsorbAll(q, st.search, RoundEdges(q, names), depth);
    State(s', s'.found[|st.search.found|..], st.expanded + SetOf(names))
  }

  /** The traversal after `n` rounds with no edge budget; a round with nothing to expand changes nothing. */
  function Rounds(q: Query, anchors: seq<string>, n: nat): (st: State)
    ensures st.search.parents.Keys == st.search.distance.Keys
  {
    if n == 0 then State(EMPTY, SortNames(anchors), {}) else Round(q, Rounds(q, anchors, n - 1), n)
  }

  // ----- one round -----

  /** The edges of `es` that reach `p` from elsewhere. */
  function Reaching(q: Query, es: seq<Edge>, p: string): seq<Edge> {
    if es == [] then []
    else
      var e := es[|es| - 1];
      Reaching(q, es[..|es| - 1], p) + (if q.To(e) == p && q.From(e) != p then [e] else [])
  }

  lemma {:induction false} ReachingMember(q: Query, es: seq<Edge>, p: string, e: Edge)
    ensures e in Reaching(q, es, p) <==> e in es && q.To(e) == p && q.From(e) != p
  {
    if es != [] {
      ReachingMember(q, es[..|es| - 1], p, e);
      assert es == es[..|es| - 1] + [es[|es| - 1]];
    }
  }

  lemma {:induction false} ReachingDistinct(q: Query, es: seq<Edge>, p: string)
    requires Distinct(es)
    ensures Distinct(Reaching(q, es, p))
  {
    if es != [] {
      ReachingDistinct(q, es[..|es| - 1], p);
      ReachingMember(q, es[..|es| - 1], p, es[|es| - 1]);
    }
  }

  /** What absorbing a round does: it records each newly reached object once, with every edge that reaches it. */
  ghost predicate RoundDone(q: Query, s: Search, es: seq<Edge>, depth: nat, s': Search) {
    && Aligned(s')
    && s.found <= s'.found
    && KeepsOld(s, s')
    && AddsReached(q, s, es, depth, s')
  }

  ghost predicate KeepsOld(s: Search, s': Search) {
    && (forall p :: p in s.distance ==> p in s'.distance && s'.distance[p] == s.distance[p])
    && (forall p :: p in s.parents ==> p in s'.parents && s'.parents[p] == s.parents[p])
  }

  ghost predicate AddsReached(q: Query, s: Search, es: seq<Edge>, depth: nat, s': Search) {
    && (forall p :: p !in s.distance ==> (p in s'.distance <==> Reaching(q, es, p) != []))
    && (forall p :: p in s'.distance && p !in s.distance ==> s'.distance[p] == depth)
    && (forall p :: p in s'.parents && p !in s.parents ==> s'.parents[p] == Reaching(q, es, p))
  }

  lemma {:induction false} AbsorbAllRound(q: Query, s: Search, es: seq<Edge>, depth: nat)
    requires Aligned(s)
    requires forall p :: p in s.distance ==> s.distance[p] < depth
    ensures RoundDone(q, s, es, depth, AbsorbAll(q, s, es, depth))
  {
    if es != [] {
      var init, e := es[..|es| - 1], es[|es| - 1];
      AbsorbAllRound(q, s, init, depth);
      AbsorbOne(q, s, init, e, depth, AbsorbAll(q, s, init, depth));
      assert es == init + [e];
    }
  }

  lemma ReachingNext(q: Query, es: seq<Edge>, e: Edge, p: string)
    ensures Reaching(q, es + [e], p) == Reaching(q, es, p) + (if q.To(e) == p && q.From(e) != p then [e] else [])
  {
    assert (es + [e])[..|es|] == es;
  }

  lemma AbsorbOne(q: Query, s: Search, es: seq<Edge>, e: Edge, depth: nat, s1: Search)
    requires Aligned(s) && forall p :: p in s.distance ==> s.distance[p] < depth
    requires RoundDone(q, s, es, depth, s1)
    ensures RoundDone(q, s, es + [e], depth, Absorb(q, s1, e, depth))
  {
    AbsorbAligned(q, s1, e, depth);
    AbsorbKeeps(q, s, e, depth, s1);
    AbsorbAdds(q, s, es, e, depth, s1);
    hide Aligned, KeepsOld, AddsReached, Absorb;
  }

  lemma AbsorbKeeps(q: Query, s: Search, e: Edge, depth: nat, s1: Search)
    requires s.parents.Keys == s.distance.Keys && s1.parents.Keys == s1.distance.Keys
    requires KeepsOld(s, s1) && forall p :: p in s.distance ==> s.distance[p] < depth
    ensures KeepsOld(s, Absorb(q, s1, e, depth))
  {
  }

  lemma AbsorbAdds(q: Query, s: Search, es: seq<Edge>, e: Edge, depth: nat, s1: Search)
    requires s.parents.Keys == s.distance.Keys && s1.parents.Keys == s1.distance.Keys
    requires KeepsOld(s, s1) && AddsReached(q, s, es, depth, s1)
    requires forall p :: p in s.distance ==> s.distance[p] < depth
    ensures AddsReached(q, s, es + [e], depth, Absorb(q, s1, e, depth))
  {
    hide Reaching, KeepsOld, AddsReached, Absorb;
    var s2 := Absorb(q, s1, e, depth);
    forall p
      ensures AddsAt(q, s, es + [e], depth, s2, p)
    {
      AbsorbAddsAt(q, s, es, e, depth, s1, p);
    }
    AddsEverywhere(q, s, es + [e], depth, s2);
  }

  ghost predicate AddsAt(q: Query, s: Search, es: seq<Edge>, depth: nat, s': Search, p: string) {
    && (p !in s.distance ==> (p in s'.distance <==> Reaching(q, es, p) != []))
    && (p in s'.distance && p !in s.distance ==> s'.distance[p] == depth)
    && (p in s'.parents && p !in s.parents ==> s'.parents[p] == Reaching(q, es, p))
  }

  lemma AddsEverywhere(q: Query, s: Search, es: seq<Edge>, depth: nat, s': Search)
    requires forall p :: AddsAt(q, s, es, depth, s', p)
    ensures AddsReached(q, s, es, depth, s')
  {
    hide Reaching;
    forall p
      ensures p !in s.distance ==> (p in s'.distance <==> Reaching(q, es, p) != [])
      ensures p in s'.distance && p !in s.distance ==> s'.distance[p] == depth
      ensures p in s'.parents && p !in s.parents ==> s'.parents[p] == Reaching(q, es, p)
    {
      assert AddsAt(q, s, es, depth, s', p);
    }
  }

  lemma AbsorbAddsAt(q: Query, s: Search, es: seq<Edge>, e: Edge, depth: nat, s1: Search, p: string)
    requires s.parents.Keys == s.distance.Keys && s1.parents.Keys == s1.distance.Keys
    requires KeepsOld(s, s1) && AddsReached(q, s, es, depth, s1)
    requires forall p :: p in s.distance ==> s.distance[p] < depth
    ensures AddsAt(q, s, es + [e], depth, Absorb(q, s1, e, depth), p)
  {
    ReachingNext(q, es, e, p);
    hide Reaching;
    if p == q.To(e) && p != q.From(e) && p !in s.distance {
      assert p in s1.distance <==> Reaching(q, es, p) != [];
      assert p in s1.distance ==> s1.distance[p] == depth && s1.parents[p] == Reaching(q, es, p);
    }
  }

  lemma AbsorbAligned(q: Query, s: Search, e: Edge, depth: nat)
    requires Aligned(s)
    ensures Aligned(Absorb(q, s, e, depth))
  {
    var s' := Absorb(q, s, e, depth);
    if s'.found != s.found {
      assert s'.found == s.found + [q.To(e)];
    }
  }

  lemma {:induction false} RoundEdgesMember(q: Query, names: seq<string>, e: Edge)
    ensures e in RoundEdges(q, names) <==> q.Has(e) && q.From(e) in names
  {
    if names != [] {
      var init, last := names[..|names| - 1], names[|names| - 1];
      RoundEdgesMember(q, init, e);
      AdjacentMember(q.table, q.direction, q.rels, last, e);
      assert names == init + [last];
    }
  }

  lemma {:induction false} RoundEdgesDistinct(q: Query, names: seq<string>)
    requires OneRowPerTriple(q.table) && Distinct(names)
    ensures Distinct(RoundEdges(q, names))
  {
    if names != [] {
      var init, last := names[..|names| - 1], names[|names| - 1];
      RoundEdgesDistinct(q, init);
      EdgesAtDistinct(q.table, q.direction, q.rels, last);
      DistinctSort(EdgesAt(q.table, q.direction, q.rels, last), EdgeKey, StringLess);
      assert last !in init;
      forall e | e in RoundEdges(q, init)
        ensures e !in q.At(last)
      {
        RoundEdgesMember(q, init, e);
        AdjacentMember(q.table, q.direction, q.rels, last, e);
      }
      DistinctConcat(RoundEdges(q, init), q.At(last));
    }
  }

  lemma {:induction false} FreshMember(frontier: seq<string>, expanded: set<string>, x: string)
    ensures x in Fresh(frontier, expanded) <==> x in frontier && x !in expanded
  {
    if frontier != [] {
      FreshMember(frontier[1..], expanded, x);
      assert frontier == [frontier[0]] + frontier[1..];
    }
  }

  lemma {:induction false} FreshDistinct(frontier: seq<string>, expanded: set<string>)
    requires Distinct(frontier)
    ensures Distinct(Fresh(frontier, expanded))
  {
    if frontier != [] {
      var t := frontier[1..];
      assert forall i :: 0 <= i < |t| ==> t[i] == frontier[i + 1];
      FreshDistinct(t, expanded);
      FreshMember(t, expanded, frontier[0]);
    }
  }

  // ----- the layering invariant -----

  /** The state of the search after `d` rounds. */
  ghost predicate Layered(q: Query, s: Search, frontier: seq<string>, expanded: set<string>, d: nat) {
    && Aligned(s)
    && ReachedWithin(q, s, d)
    && ValuesShortest(q, s, d)
    && FrontierLast(q, s, frontier, d)
    && ExpandedEarlier(q, s, expanded, d)
  }

  ghost predicate LayeredState(q: Query, st: State, d: nat) {
    Layered(q, st.search, st.frontier, st.expanded, d)
  }

  ghost predicate ReachedWithin(q: Query, s: Search, d: nat) {
    forall p :: p in s.distance <==> Within(q, p, d)
  }

  ghost predicate ValuesShortest(q: Query, s: Search, d: nat) {
    forall p :: p in s.distance ==> 1 <= s.distance[p] <= d && AtDistance(q, p, s.distance[p]) && ParentsTight(q, s, p)
  }

  ghost predicate FrontierLast(q: Query, s: Search, frontier: seq<string>, d: nat) {
    && Distinct(frontier)
    && (forall p :: p in frontier <==> if d == 0 then p in q.anchors else p in s.distance && s.distance[p] == d)
  }

  ghost predicate ExpandedEarlier(q: Query, s: Search, expanded: set<string>, d: nat) {
    forall p :: p in expanded <==> d > 0 && (p in q.anchors || (p in s.distance && s.distance[p] < d))
  }

  /** The remembered parents of `p` are all the first edges of its shortest chains. */
  ghost predicate ParentsTight(q: Query, s: Search, p: string)
    requires p in s.distance
  {
    p in s.parents && forall e :: e in s.parents[p] <==> TightEdge(q, p, s.distance[p], e)
  }

  /** `e` is a first edge of some shortest chain from `p`. */
  ghost predicate TightEdge(q: Query, p: string, n: nat, e: Edge) {
    && q.Has(e) && q.To(e) == p && q.From(e) != p
    && n >= 1
    && (if n == 1 then q.From(e) in q.anchors else AtDistance(q, q.From(e), n - 1))
  }

  lemma ChainExtend(q: Query, p: string, e: Edge, w: seq<Edge>)
    requires q.Has(e) && q.To(e) == p && q.From(e) != p && Chain(q, q.From(e), w)
    ensures Chain(q, p, [e] + w)
  {
    assert ([e] + w)[1..] == w;
  }

  /** The tail of a shortest chain is shortest, and only its end is an anchor. */
  lemma ChainTail(q: Query, p: string, w: seq<Edge>)
    requires Chain(q, p, w) && AtDistance(q, p, |w|)
    ensures TightEdge(q, p, |w|, w[0])
    ensures |w| > 1 ==> q.From(w[0]) !in q.anchors && Chain(q, q.From(w[0]), w[1..])
  {
    if |w| > 1 {
      var next := q.From(w[0]);
      if next in q.anchors {
        AnchorEdgeNear(q, p, w[0]);
      }
      forall v | Chain(q, next, v)
        ensures |w| - 1 <= |v|
      {
        ChainExtend(q, p, w[0], v);
      }
      assert Chain(q, next, w[1..]);
    }
  }

  lemma AtDistanceUnique(q: Query, p: string, m: nat, n: nat)
    requires AtDistance(q, p, m) && AtDistance(q, p, n)
    ensures m == n
  {
  }

  lemma AnchorEdgeNear(q: Query, p: string, e: Edge)
    requires q.Has(e) && q.To(e) == p && q.From(e) != p && q.From(e) in q.anchors
    ensures Chain(q, p, [e]) && AtDistance(q, p, 1)
  {
  }

  /** An object first reachable in d + 1 steps is one whose first edge leaves a name of round d + 1. */
  lemma NextLayer(q: Query, s: Search, frontier: seq<string>, expanded: set<string>, d: nat, p: string, e: Edge)
    requires Layered(q, s, frontier, expanded, d) && p !in s.distance
    ensures TightEdge(q, p, d + 1, e) <==> e in Reaching(q, RoundEdges(q, Fresh(frontier, expanded)), p)
    ensures TightEdge(q, p, d + 1, e) ==> AtDistance(q, p, d + 1)
  {
    var names := Fresh(frontier, expanded);
    ReachingMember(q, RoundEdges(q, names), p, e);
    RoundEdgesMember(q, names, e);
    FreshMember(frontier, expanded, q.From(e));
    hide Reaching, RoundEdges, Fresh, Layered, Stored, Chain;
    if TightEdge(q, p, d + 1, e) {
      if d == 0 {
        FirstLayer(q, s, frontier, expanded, p, e);
      } else {
        FromLastLayer(q, s, frontier, expanded, d, p, e);
      }
    } else if q.Has(e) && q.To(e) == p && q.From(e) != p && q.From(e) in frontier {
      FrontierDistance(q, s, frontier, expanded, d, q.From(e));
    }
  }

  lemma FirstLayer(q: Query, s: Search, frontier: seq<string>, expanded: set<string>, p: string, e: Edge)
    requires Layered(q, s, frontier, expanded, 0) && TightEdge(q, p, 1, e)
    ensures q.From(e) in frontier && q.From(e) !in expanded && AtDistance(q, p, 1)
  {
    AnchorEdgeNear(q, p, e);
  }

  lemma FrontierDistance(q: Query, s: Search, frontier: seq<string>, expanded: set<string>, d: nat, n: string)
    requires Layered(q, s, frontier, expanded, d) && n in frontier
    ensures if d == 0 then n in q.anchors else AtDistance(q, n, d)
  {
    hide AtDistance, Within, ParentsTight;
  }

  lemma FromLastLayer(q: Query, s: Search, frontier: seq<string>, expanded: set<string>, d: nat, p: string, e: Edge)
    requires Layered(q, s, frontier, expanded, d) && p !in s.distance && d > 0 && TightEdge(q, p, d + 1, e)
    ensures q.From(e) in frontier && q.From(e) !in expanded && AtDistance(q, p, d + 1)
  {
    hide ParentsTight, Stored;
    var n := q.From(e);
    var w :| Chain(q, n, w) && |w| == d;
    ChainExtend(q, p, e, w);
    NotSooner(q, s, frontier, expanded, d, p);
    if n in q.anchors {
      AnchorEdgeNear(q, p, e);
    }
    assert Within(q, n, d);
    AtDistanceUnique(q, n, s.distance[n], d);
  }

  lemma NotSooner(q: Query, s: Search, frontier: seq<string>, expanded: set<string>, d: nat, p: string)
    requires Layered(q, s, frontier, expanded, d) && p !in s.distance
    ensures forall w :: Chain(q, p, w) ==> d + 1 <= |w|
  {
    forall w | Chain(q, p, w)
      ensures d + 1 <= |w|
    {
      assert |w| <= d ==> Within(q, p, d);
    }
  }

  lemma LayerStep(q: Query, s: Search, frontier: seq<string>, expanded: set<string>, d: nat)
    requires Layered(q, s, frontier, expanded, d)
    ensures LayeredState(q, Round(q, State(s, frontier, expanded), d + 1), d + 1)
  {
    var names := Fresh(frontier, expanded);
    var es := RoundEdges(q, names);
    var s' := AbsorbAll(q, s, es, d + 1);
    AbsorbAllRound(q, s, es, d + 1);
    LayerRound(q, s, frontier, expanded, d, s');
  }

  lemma LayerRound(q: Query, s: Search, frontier: seq<string>, expanded: set<string>, d: nat, s': Search)
    requires Layered(q, s, frontier, expanded, d)
    requires RoundDone(q, s, RoundEdges(q, Fresh(frontier, expanded)), d + 1, s')
    ensures Layered(q, s', s'.found[|s.found|..], expanded + SetOf(Fresh(frontier, expanded)), d + 1)
  {
    LayerFrontier(q, s, s', d);
    LayerExpanded(q, s, frontier, expanded, d, s');
    forall p
      ensures p in s'.distance <==> Within(q, p, d + 1)
    {
      LayerDomain(q, s, frontier, expanded, d, s', p);
    }
    LayerValues(q, s, frontier, expanded, d, s');
  }

  lemma LayerValues(q: Query, s: Search, frontier: seq<string>, expanded: set<string>, d: nat, s': Search)
    requires Layered(q, s, frontier, expanded, d)
    requires RoundDone(q, s, RoundEdges(q, Fresh(frontier, expanded)), d + 1, s')
    ensures ValuesShortest(q, s', d + 1)
  {
    forall p | p in s'.distance
      ensures 1 <= s'.distance[p] <= d + 1 && AtDistance(q, p, s'.distance[p]) && ParentsTight(q, s', p)
    {
      if p !in s.distance {
        LayerNew(q, s, frontier, expanded, d, s', p);
      } else {
        LayerOld(q, s, s', p);
      }
    }
  }

  lemma LayerExpanded(q: Query, s: Search, frontier: seq<string>, expanded: set<string>, d: nat, s': Search)
    requires Layered(q, s, frontier, expanded, d)
    requires RoundDone(q, s, RoundEdges(q, Fresh(frontier, expanded)), d + 1, s')
    ensures ExpandedEarlier(q, s', expanded + SetOf(Fresh(frontier, expanded)), d + 1)
  {
    forall p
      ensures p in expanded + SetOf(Fresh(frontier, expanded)) <==>
              p in q.anchors || (p in s'.distance && s'.distance[p] < d + 1)
    {
      FreshMember(frontier, expanded, p);
    }
  }

  lemma LayerOld(q: Query, s: Search, s': Search, p: string)
    requires p in s.distance && ParentsTight(q, s, p)
    requires p in s'.distance && s'.distance[p] == s.distance[p] && p in s'.parents && s'.parents[p] == s.parents[p]
    ensures ParentsTight(q, s', p)
  {
  }

  lemma LayerNew(q: Query, s: Search, frontier: seq<string>, expanded: set<string>, d: nat, s': Search, p: string)
    requires Layered(q, s, frontier, expanded, d)
    requires RoundDone(q, s, RoundEdges(q, Fresh(frontier, expanded)), d + 1, s')
    requires p in s'.distance && p !in s.distance
    ensures AtDistance(q, p, d + 1) && ParentsTight(q, s', p)
  {
    var es := RoundEdges(q, Fresh(frontier, expanded));
    var reaching := Reaching(q, es, p);
    assert p in s'.parents && s'.parents[p] == reaching != [];
    assert AtDistance(q, p, d + 1) by {
      NextLayer(q, s, frontier, expanded, d, p, reaching[0]);
    }
    forall e
      ensures e in reaching <==> TightEdge(q, p, d + 1, e)
    {
      NextLayer(q, s, frontier, expanded, d, p, e);
    }
  }

  lemma LayerFrontier(q: Query, s: Search, s': Search, d: nat)
    requires Aligned(s) && Aligned(s') && s.found <= s'.found
    requires forall p :: p in s.distance ==> p in s'.distance && s'.distance[p] == s.distance[p] <= d
    requires forall p :: p in s'.distance && p !in s.distance ==> s'.distance[p] == d + 1
    ensures FrontierLast(q, s', s'.found[|s.found|..], d + 1)
  {
    var frontier' := s'.found[|s.found|..];
    assert s'.found == s.found + frontier';
    assert forall i :: 0 <= i < |frontier'| ==> frontier'[i] == s'.found[|s.found| + i];
    assert forall p :: p in s'.found <==> p in s.found || p in frontier';
    forall p
      ensures p in frontier' <==> p in s'.distance && s'.distance[p] == d + 1
    {
    }
  }

  lemma LayerDomain(q: Query, s: Search, frontier: seq<string>, expanded: set<string>, d: nat, s': Search, p: string)
    requires Layered(q, s, frontier, expanded, d)
    requires RoundDone(q, s, RoundEdges(q, Fresh(frontier, expanded)), d + 1, s')
    ensures p in s'.distance <==> Within(q, p, d + 1)
  {
    var es := RoundEdges(q, Fresh(frontier, expanded));
    if p in s.distance {
      var w :| Chain(q, p, w) && |w| <= d;
    } else {
      if p in s'.distance {
        NextLayer(q, s, frontier, expanded, d, p, Reaching(q, es, p)[0]);
      }
      if Within(q, p, d + 1) {
        var w :| Chain(q, p, w) && |w| <= d + 1;
        NotSooner(q, s, frontier, expanded, d, p);
        ChainTail(q, p, w);
        NextLayer(q, s, frontier, expanded, d, p, w[0]);
      }
    }
  }

  /** The finished search: distances are shortest chain lengths, parents are exactly the tight edges. */
  ghost predicate Correct(q: Query, s: Search, hops: nat) {
    && Aligned(s)
    && ReachedWithin(q, s, hops)
    && ValuesShortest(q, s, hops)
  }

  lemma StartLayer(q: Query, anchors: seq<string>)
    requires Distinct(anchors) && q.anchors == SetOf(anchors)
    ensures LayeredState(q, State(EMPTY, SortNames(anchors), {}), 0)
  {
    SortByContents(anchors, Identity, StringLess);
    DistinctSort(anchors, Identity, StringLess);
    forall p
      ensures !Within(q, p, 0)
    {
    }
  }

  lemma {:induction false} RoundsLayered(q: Query, anchors: seq<string>, n: nat)
    requires Distinct(anchors) && q.anchors == SetOf(anchors)
    ensures LayeredState(q, Rounds(q, anchors, n), n)
  {
    hide *;
    if n == 0 {
      RoundsStart(q, anchors);
      StartLayer(q, anchors);
    } else {
      RoundsLayered(q, anchors, n - 1);
      RoundsLayeredNext(q, anchors, n, Rounds(q, anchors, n - 1));
    }
  }

  lemma RoundsLayeredNext(q: Query, anchors: seq<string>, n: nat, st: State)
    requires n > 0 && st == Rounds(q, anchors, n - 1) && LayeredState(q, st, n - 1)
    ensures LayeredState(q, Rounds(q, anchors, n), n)
  {
    hide AbsorbAll, RoundEdges, Fresh, ReachedWithin, ValuesShortest, FrontierLast, ExpandedEarlier, Aligned;
    LayerStep(q, st.search, st.frontier, st.expanded, n - 1);
  }

  /** `n` edges lead between `p` and an anchor, and no fewer do. */
  ghost predicate DistanceIs(q: Query, p: string, n: nat) {
    (exists r :: Leads(q, p, r) && |r| == n) && forall r :: Leads(q, p, r) ==> n <= |r|
  }

  /** `e` is the edge at `p` of a route of `n` edges. */
  ghost predicate EdgeAtPeer(q: Query, p: string, n: nat, e: Edge) {
    exists r :: LeadsBy(q, p, n, e, r)
  }

  ghost predicate LeadsBy(q: Query, p: string, n: nat, e: Edge, r: seq<Edge>) {
    && Leads(q, p, r) && |r| == n
    && e == (match q.direction case Upstream => r[0] case Downstream => r[|r| - 1])
  }

  /** Who is within reach, how far, and by which edges, on the ends of the stored edges. */
  ghost predicate Reaches(q: Query, s: Search, hops: nat) {
    && s.parents.Keys == s.distance.Keys
    && (forall p :: p in s.distance <==> exists r :: Leads(q, p, r) && |r| <= hops)
    && (forall p :: p in s.distance ==> DistanceIs(q, p, s.distance[p]))
    && (forall p, e :: p in s.distance ==> (e in s.parents[p] <==> EdgeAtPeer(q, p, s.distance[p], e)))
  }

  lemma TightExactly(q: Query, p: string, n: nat, e: Edge)
    requires AtDistance(q, p, n)
    ensures TightEdge(q, p, n, e) <==> EdgeAtPeer(q, p, n, e)
  {
    hide Leads, Chain;
    if TightEdge(q, p, n, e) {
      var w := TightStarts(q, p, n, e);
      ChainLeads(q, p, w);
      FirstFromPeer(q.direction, w);
      LeadsSome(q, p, FromPeer(q.direction, w));
      assert LeadsBy(q, p, n, e, FromPeer(q.direction, w));
    }
    if r :| LeadsBy(q, p, n, e, r) {
      LeadsSome(q, p, r);
      ChainLeads(q, p, FromPeer(q.direction, r));
      ChainLeads(q, p, r);
      FirstFromPeer(q.direction, r);
      ChainTail(q, p, FromPeer(q.direction, r));
    }
  }

  lemma LeadsSome(q: Query, p: string, r: seq<Edge>)
    requires Leads(q, p, r)
    ensures r != []
  {
  }

  lemma FirstFromPeer(d: Direction, r: seq<Edge>)
    requires r != []
    ensures |FromPeer(d, r)| == |r|
    ensures d.Upstream? ==> FromPeer(d, r)[0] == r[0]
    ensures d.Downstream? ==> FromPeer(d, r)[0] == r[|r| - 1] && FromPeer(d, r)[|r| - 1] == r[0]
  {
    ReverseTwice(r);
    assert r == r[..|r| - 1] + [r[|r| - 1]];
    ReverseAppend(r[..|r| - 1], r[|r| - 1]);
  }

  lemma TightStarts(q: Query, p: string, n: nat, e: Edge) returns (w: seq<Edge>)
    requires TightEdge(q, p, n, e)
    ensures Chain(q, p, w) && |w| == n && w[0] == e
  {
    if n == 1 {
      w := [e];
    } else {
      var rest :| Chain(q, q.From(e), rest) && |rest| == n - 1;
      w := [e] + rest;
      ChainExtend(q, p, e, rest);
    }
  }

  lemma CorrectReaches(q: Query, s: Search, hops: nat)
    requires Correct(q, s, hops)
    ensures Reaches(q, s, hops)
  {
    hide Leads, Chain, TightEdge, EdgeAtPeer, Within, AtDistance;
    forall p
      ensures p in s.distance <==> exists r :: Leads(q, p, r) && |r| <= hops
    {
      WithinLeads(q, p, hops);
    }
    forall p | p in s.distance
      ensures DistanceIs(q, p, s.distance[p])
    {
      WithinLeads(q, p, s.distance[p]);
    }
    forall p, e | p in s.distance
      ensures e in s.parents[p] <==> EdgeAtPeer(q, p, s.distance[p], e)
    {
      assert ParentsTight(q, s, p);
      TightExactly(q, p, s.distance[p], e);
    }
  }

  /** The distance theorem. */
  lemma UnboundedCorrect(q: Query, anchors: seq<string>, hops: nat)
    requires Distinct(anchors) && q.anchors == SetOf(anchors)
    ensures Correct(q, Rounds(q, anchors, hops).search, hops)
    ensures Reaches(q, Rounds(q, anchors, hops).search, hops)
  {
    hide *;
    RoundsLayered(q, anchors, hops);
    LayersCorrect(q, Rounds(q, anchors, hops), hops);
    CorrectReaches(q, Rounds(q, anchors, hops).search, hops);
  }

  lemma LayersCorrect(q: Query, st: State, hops: nat)
    requires LayeredState(q, st, hops)
    ensures Correct(q, st.search, hops)
  {
    hide Within, AtDistance, TightEdge;
  }

  /** Every parent edge is stored and was fetched: it leaves a name the search has expanded. */
  lemma ParentsFetched(q: Query, anchors: seq<string>, hops: nat, p: string, e: Edge)
    requires Distinct(anchors) && q.anchors == SetOf(anchors)
    requires
      var s := Rounds(q, anchors, hops).search;
      p in s.parents && e in s.parents[p]
    ensures q.Has(e) && q.From(e) in Rounds(q, anchors, hops).expanded
  {
    RoundsLayered(q, anchors, hops);
    ParentsExpanded(q, Rounds(q, anchors, hops), hops, p, e);
  }

  lemma ParentsExpanded(q: Query, st: State, d: nat, p: string, e: Edge)
    requires LayeredState(q, st, d) && p in st.search.parents && e in st.search.parents[p]
    ensures q.Has(e) && q.From(e) in st.expanded
  {
    hide Chain, Stored;
    var n := st.search.distance[p];
    assert ParentsTight(q, st.search, p) && TightEdge(q, p, n, e);
    if n > 1 {
      var near := q.From(e);
      assert AtDistance(q, near, n - 1);
      assert Within(q, near, d);
      AtDistanceUnique(q, near, st.search.distance[near], n - 1);
    }
  }

  /** Stopping early, when no name is left to expand, loses nothing. */
  lemma {:induction false} RoundsEnd(q: Query, anchors: seq<string>, n: nat, hops: nat)
    requires n <= hops
    requires Fresh(Rounds(q, anchors, n).frontier, Rounds(q, anchors, n).expanded) == []
    ensures Rounds(q, anchors, hops).search == Rounds(q, anchors, n).search
    ensures Fresh(Rounds(q, anchors, hops).frontier, Rounds(q, anchors, hops).expanded) == []
  {
    if n < hops {
      RoundsEnd(q, anchors, n, hops - 1);
      assert RoundEdges(q, []) == [];
    }
  }

  lemma RoundsStart(q: Query, anchors: seq<string>)
    ensures Rounds(q, anchors, 0) == State(EMPTY, SortNames(anchors), {})
  {
  }

  lemma RoundsNext(q: Query, anchors: seq<string>, n: nat, st: State)
    requires n > 0 && st == Rounds(q, anchors, n - 1)
    ensures
      var names := Fresh(st.frontier, st.expanded);
      var s' := AbsorbAll(q, st.search, RoundEdges(q, names), n);
      Rounds(q, anchors, n) == State(s', s'.found[|st.search.found|..], st.expanded + SetOf(names))
  {
  }

  lemma LayerFacts(q: Query, st: State, d: nat)
    requires LayeredState(q, st, d)
    ensures Aligned(st.search) && Distinct(st.frontier)
    ensures forall p :: p in st.search.distance ==> st.search.distance[p] < d + 1
  {
  }
}
