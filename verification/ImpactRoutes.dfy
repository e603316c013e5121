/** Rebuilding the shortest routes of a finished impact search from its parent edges. */
module ImpactRoutes {
  import opened Ordering
  import opened EdgeStore
  import opened Impact

  // ----- the recursive generator -----

  /** Parent edges lead to an anchor or to an object recorded strictly closer, so the generator terminates. */
  ghost predicate Rooted(d: Direction, anchors: set<string>, s: Search) {
    && s.parents.Keys == s.distance.Keys
    && (forall p, e :: p in s.parents && e in s.parents[p] ==> Closer(d, anchors, s, p, e))
  }

  ghost predicate Closer(d: Direction, anchors: set<string>, s: Search, p: string, e: Edge)
    requires p in s.distance
  {
    Near(d, e) in anchors || (Near(d, e) in s.distance && s.distance[Near(d, e)] < s.distance[p])
  }

  /** A route grows at the dependent's end: in flow order that is the front upstream and the back downstream. */
  function Join(d: Direction, e: Edge, rest: seq<Edge>): seq<Edge> {
    if d.Upstream? then [e] + rest else rest + [e]
  }

  function JoinAll(d: Direction, e: Edge, rests: seq<seq<Edge>>): seq<seq<Edge>> {
    if rests == [] then [] else [Join(d, e, rests[0])] + JoinAll(d, e, rests[1..])
  }

  /** All the routes the generator would yield for a peer. */
  function RoutesFrom(d: Direction, anchors: set<string>, s: Search, peer: string): seq<seq<Edge>>
    requires Rooted(d, anchors, s) && peer in s.distance
    decreases s.distance[peer], 1, 0
  {
    RoutesVia(d, anchors, s, peer, s.parents[peer])
  }

  function RoutesVia(d: Direction, anchors: set<string>, s: Search, peer: string, es: seq<Edge>): seq<seq<Edge>>
    requires Rooted(d, anchors, s) && peer in s.distance
    requires forall e :: e in es ==> Closer(d, anchors, s, peer, e)
    decreases s.distance[peer], 0, |es|
  {
    if es == [] then []
    else
      var current := Near(d, es[0]);
      assert Closer(d, anchors, s, peer, es[0]);
      var onward := if current in anchors then [[]] else RoutesFrom(d, anchors, s, current);
      JoinAll(d, es[0], onward) + RoutesVia(d, anchors, s, peer, es[1..])
  }

  const MAX_ROUTES: nat := 5

  /** The first five of them. */
  function KeptRoutes(d: Direction, anchors: set<string>, s: Search, peer: string): seq<seq<Edge>>
    requires Rooted(d, anchors, s) && peer in s.distance
  {
    var all := RoutesFrom(d, anchors, s, peer);
    if |all| <= MAX_ROUTES then all else all[..MAX_ROUTES]
  }

  // ----- what a route is -----

  /** `r`, in flow order, joins `peer` to an anchor by exactly `n` edges. */
  ghost predicate Route(q: Query, peer: string, n: nat, r: seq<Edge>) {
    |r| == n && Chain(q, peer, FromPeer(q.direction, r))
  }

  /** A route, on the ends of its edges. */
  lemma RouteLeads(q: Query, peer: string, n: nat, r: seq<Edge>)
    ensures Route(q, peer, n, r) <==> |r| == n && Leads(q, peer, r)
  {
    hide Chain, Leads;
    ChainLeads(q, peer, FromPeer(q.direction, r));
    ChainLeads(q, peer, r);
  }

  lemma FromPeerJoin(d: Direction, e: Edge, rest: seq<Edge>)
    ensures FromPeer(d, Join(d, e, rest)) == [e] + FromPeer(d, rest)
    ensures |FromPeer(d, rest)| == |rest|
    ensures |Join(d, e, rest)| == |rest| + 1
  {
    ReverseAppend(rest, e);
  }

  /** Every nonempty route is a first edge joined to a rest. */
  lemma Unjoin(d: Direction, r: seq<Edge>) returns (e: Edge, rest: seq<Edge>)
    requires r != []
    ensures r == Join(d, e, rest)
    ensures FromPeer(d, r) == [e] + FromPeer(d, rest)
  {
    if d.Upstream? {
      e, rest := r[0], r[1..];
    } else {
      e, rest := r[|r| - 1], r[..|r| - 1];
      assert r == rest + [e];
    }
    FromPeerJoin(d, e, rest);
  }

  // ----- exactness -----

  lemma CorrectRooted(q: Query, s: Search, hops: nat)
    requires Correct(q, s, hops)
    ensures Rooted(q.direction, q.anchors, s)
  {
    forall p, e | p in s.parents && e in s.parents[p]
      ensures Closer(q.direction, q.anchors, s, p, e)
    {
      assert ParentsTight(q, s, p);
      var n := s.distance[p];
      if q.From(e) !in q.anchors {
        var w :| Chain(q, q.From(e), w) && |w| == n - 1;
        assert Within(q, q.From(e), hops);
        AtDistanceUnique(q, q.From(e), s.distance[q.From(e)], n - 1);
      }
    }
  }

  lemma {:induction false} JoinAllMember(d: Direction, e: Edge, rests: seq<seq<Edge>>, r: seq<Edge>)
    ensures r in JoinAll(d, e, rests) <==> exists rest :: rest in rests && r == Join(d, e, rest)
  {
    if rests != [] {
      JoinAllMember(d, e, rests[1..], r);
      assert rests == [rests[0]] + rests[1..];
    }
  }

  ghost predicate RoutesExact(q: Query, s: Search, peer: string)
    requires Rooted(q.direction, q.anchors, s) && peer in s.distance
  {
    forall r :: r in RoutesFrom(q.direction, q.anchors, s, peer) <==> Route(q, peer, s.distance[peer], r)
  }

  /** The generator yields all and only the routes of exactly `distance[peer]` edges. */
  lemma {:induction false} RoutesFromExact(q: Query, s: Search, hops: nat, peer: string)
    requires Correct(q, s, hops) && Rooted(q.direction, q.anchors, s) && peer in s.distance
    ensures RoutesExact(q, s, peer)
    decreases s.distance[peer]
  {
    forall r
      ensures r in RoutesFrom(q.direction, q.anchors, s, peer) <==> Route(q, peer, s.distance[peer], r)
    {
      RouteStep(q, s, hops, peer, r);
      RoutesViaMember(q, s, hops, peer, s.parents[peer], r);
    }
  }

  /** `r` starts with an edge of `es` and goes on along a shortest route of what that edge leads to. */
  ghost predicate Starts(q: Query, s: Search, peer: string, es: seq<Edge>, r: seq<Edge>)
    requires peer in s.distance
  {
    exists e, rest :: StartsWith(q, s, peer, es, r, e, rest)
  }

  ghost predicate StartsWith(q: Query, s: Search, peer: string, es: seq<Edge>, r: seq<Edge>, e: Edge, rest: seq<Edge>)
    requires peer in s.distance
  {
    && e in es && r == Join(q.direction, e, rest)
    && (if q.From(e) in q.anchors then rest == []
        else q.From(e) in s.distance && Route(q, q.From(e), s.distance[q.From(e)], rest))
  }

  lemma {:induction false} RoutesViaMember(q: Query, s: Search, hops: nat, peer: string, es: seq<Edge>, r: seq<Edge>)
    requires Correct(q, s, hops) && Rooted(q.direction, q.anchors, s) && peer in s.distance
    requires forall e :: e in es ==> Closer(q.direction, q.anchors, s, peer, e)
    ensures r in RoutesVia(q.direction, q.anchors, s, peer, es) <==> Starts(q, s, peer, es, r)
    decreases s.distance[peer], |es|
  {
    hide Correct, Rooted, Chain;
    if es != [] {
      var e, tail := es[0], es[1..];
      var current := q.From(e);
      assert Closer(q.direction, q.anchors, s, peer, e);
      var onward := if current in q.anchors then [[]] else RoutesFrom(q.direction, q.anchors, s, current);
      if current !in q.anchors {
        RoutesFromExact(q, s, hops, current);
      }
      RoutesViaMember(q, s, hops, peer, tail, r);
      JoinAllMember(q.direction, e, onward, r);
      assert es == [e] + tail;
      StartsCons(q, s, peer, e, tail, r);
      assert r in JoinAll(q.direction, e, onward) <==> exists rest :: StartsWith(q, s, peer, [e], r, e, rest) by {
        if rest :| rest in onward && r == Join(q.direction, e, rest) {
          assert StartsWith(q, s, peer, [e], r, e, rest);
        }
        if rest :| StartsWith(q, s, peer, [e], r, e, rest) {
          assert rest in onward;
        }
      }
    }
  }

  lemma StartsCons(q: Query, s: Search, peer: string, e: Edge, tail: seq<Edge>, r: seq<Edge>)
    requires peer in s.distance
    ensures Starts(q, s, peer, [e] + tail, r) <==>
            Starts(q, s, peer, tail, r) || exists rest :: StartsWith(q, s, peer, [e], r, e, rest)
  {
    if Starts(q, s, peer, [e] + tail, r) {
      var e', rest :| StartsWith(q, s, peer, [e] + tail, r, e', rest);
      if e' in tail {
        assert StartsWith(q, s, peer, tail, r, e', rest);
      } else {
        assert StartsWith(q, s, peer, [e], r, e, rest);
      }
    }
    if Starts(q, s, peer, tail, r) {
      var e', rest :| StartsWith(q, s, peer, tail, r, e', rest);
      assert StartsWith(q, s, peer, [e] + tail, r, e', rest);
    }
    if rest :| StartsWith(q, s, peer, [e], r, e, rest) {
      assert StartsWith(q, s, peer, [e] + tail, r, e, rest);
    }
  }

  /** A shortest route is a parent edge followed by a shortest route, or a parent edge alone at an anchor. */
  lemma RouteStep(q: Query, s: Search, hops: nat, peer: string, r: seq<Edge>)
    requires Correct(q, s, hops) && peer in s.distance
    ensures Route(q, peer, s.distance[peer], r) <==> Starts(q, s, peer, s.parents[peer], r)
  {
    assert peer in s.parents;
    hide Correct, Route, StartsWith;
    if Route(q, peer, s.distance[peer], r) {
      RouteStarts(q, s, hops, peer, r);
    }
    if e, rest :| StartsWith(q, s, peer, s.parents[peer], r, e, rest) {
      StartIsRoute(q, s, hops, peer, r, e, rest);
    }
  }

  lemma RouteStarts(q: Query, s: Search, hops: nat, peer: string, r: seq<Edge>)
    requires Correct(q, s, hops) && peer in s.distance && Route(q, peer, s.distance[peer], r)
    ensures Starts(q, s, peer, s.parents[peer], r)
  {
    hide Stored, FromPeer, Join;
    var n := s.distance[peer];
    assert ParentsTight(q, s, peer) && AtDistance(q, peer, n);
    var e, rest := Unjoin(q.direction, r);
    var w := FromPeer(q.direction, r);
    FromPeerJoin(q.direction, e, rest);
    ChainTail(q, peer, w);
    if n > 1 {
      assert w[1..] == FromPeer(q.direction, rest);
      assert AtDistance(q, q.From(e), n - 1);
      assert Within(q, q.From(e), hops);
      AtDistanceUnique(q, q.From(e), s.distance[q.From(e)], n - 1);
    }
    assert StartsWith(q, s, peer, s.parents[peer], r, e, rest);
  }

  lemma StartIsRoute(q: Query, s: Search, hops: nat, peer: string, r: seq<Edge>, e: Edge, rest: seq<Edge>)
    requires Correct(q, s, hops) && peer in s.distance && StartsWith(q, s, peer, s.parents[peer], r, e, rest)
    ensures Route(q, peer, s.distance[peer], r)
  {
    hide Stored, FromPeer, Join;
    var n := s.distance[peer];
    assert ParentsTight(q, s, peer) && AtDistance(q, peer, n);
    FromPeerJoin(q.direction, e, rest);
    assert TightEdge(q, peer, n, e);
    if q.From(e) in q.anchors {
      AnchorEdgeNear(q, peer, e);
      AtDistanceUnique(q, peer, n, 1);
      assert |FromPeer(q.direction, rest)| == 0;
      assert FromPeer(q.direction, r) == [e];
    } else {
      AtDistanceUnique(q, q.From(e), s.distance[q.From(e)], n - 1);
      ChainExtend(q, peer, e, FromPeer(q.direction, rest));
      assert |r| == |rest| + 1;
    }
  }

  // ----- the records behind a route -----

  /** Every parent edge can be looked up by its id. */
  ghost predicate Recorded(s: Search, records: map<string, Row>) {
    forall p, e :: p in s.parents && e in s.parents[p] ==> HasRecord(records, e)
  }

  ghost predicate RoutesRecorded(d: Direction, anchors: set<string>, s: Search, records: map<string, Row>, peer: string)
    requires Rooted(d, anchors, s) && peer in s.distance
  {
    forall r, e :: r in RoutesFrom(d, anchors, s, peer) && e in r ==> HasRecord(records, e)
  }

  /** So can every edge of every route the generator yields. */
  lemma {:induction false} RoutesAreRecorded(
    d: Direction, anchors: set<string>, s: Search, records: map<string, Row>, peer: string)
    requires Rooted(d, anchors, s) && Recorded(s, records) && peer in s.distance
    ensures RoutesRecorded(d, anchors, s, records, peer)
    decreases s.distance[peer], 1, 0
  {
    hide HasRecord;
    forall r, e | r in RoutesFrom(d, anchors, s, peer) && e in r
      ensures HasRecord(records, e)
    {
      RoutesViaRecorded(d, anchors, s, records, peer, s.parents[peer], r, e);
    }
  }

  lemma {:induction false} RoutesViaRecorded(
    d: Direction, anchors: set<string>, s: Search, records: map<string, Row>, peer: string, es: seq<Edge>, r: seq<Edge>,
    e: Edge)
    requires Rooted(d, anchors, s) && Recorded(s, records) && peer in s.distance
    requires forall x :: x in es ==> x in s.parents[peer] && Closer(d, anchors, s, peer, x)
    requires r in RoutesVia(d, anchors, s, peer, es) && e in r
    ensures HasRecord(records, e)
    decreases s.distance[peer], 0, |es|
  {
    hide HasRecord;
    assert es[0] in s.parents[peer] && HasRecord(records, es[0]);
    hide Rooted;
    var current := Near(d, es[0]);
    assert Closer(d, anchors, s, peer, es[0]);
    var onward := if current in anchors then [[]] else RoutesFrom(d, anchors, s, current);
    if r in RoutesVia(d, anchors, s, peer, es[1..]) {
      RoutesViaRecorded(d, anchors, s, records, peer, es[1..], r, e);
    } else {
      JoinAllMember(d, es[0], onward, r);
      var rest :| rest in onward && r == Join(d, es[0], rest);
      if e in rest && current !in anchors {
        RoutesAreRecorded(d, anchors, s, records, current);
      } else {
        assert e == es[0];
      }
    }
  }

  // ----- once each -----

  ghost predicate NoRepeats(s: Search) {
    forall p :: p in s.parents ==> Distinct(s.parents[p])
  }

  lemma NothingRepeats()
    ensures NoRepeats(EMPTY)
  {
  }

  lemma RoundNoRepeats(q: Query, s: Search, es: seq<Edge>, depth: nat, s': Search)
    requires NoRepeats(s) && Distinct(es) && RoundDone(q, s, es, depth, s')
    ensures NoRepeats(s')
  {
    forall p | p in s'.parents
      ensures Distinct(s'.parents[p])
    {
      ReachingDistinct(q, es, p);
    }
  }

  lemma {:induction false} ParentsDistinct(q: Query, anchors: seq<string>, n: nat)
    requires OneRowPerTriple(q.table) && Distinct(anchors) && q.anchors == SetOf(anchors)
    ensures NoRepeats(Rounds(q, anchors, n).search)
  {
    hide *;
    if n > 0 {
      ParentsDistinct(q, anchors, n - 1);
      RoundsLayered(q, anchors, n - 1);
      var st := Rounds(q, anchors, n - 1);
      LayerFacts(q, st, n - 1);
      var names := Fresh(st.frontier, st.expanded);
      var es := RoundEdges(q, names);
      FreshDistinct(st.frontier, st.expanded);
      RoundEdgesDistinct(q, names);
      AbsorbAllRound(q, st.search, es, n);
      RoundNoRepeats(q, st.search, es, n, AbsorbAll(q, st.search, es, n));
      RoundsNext(q, anchors, n, st);
    } else {
      RoundsStart(q, anchors);
      NothingRepeats();
    }
  }

  lemma {:induction false} JoinAllDistinct(d: Direction, e: Edge, rests: seq<seq<Edge>>)
    requires Distinct(rests)
    ensures Distinct(JoinAll(d, e, rests))
  {
    if rests != [] {
      var t := rests[1..];
      assert forall i :: 0 <= i < |t| ==> t[i] == rests[i + 1];
      JoinAllDistinct(d, e, t);
      JoinAllMember(d, e, t, Join(d, e, rests[0]));
      forall rest | rest in t
        ensures Join(d, e, rest) != Join(d, e, rests[0])
      {
        JoinInjective(d, e, rest, e, rests[0]);
      }
    }
  }

  lemma JoinInjective(d: Direction, e: Edge, rest: seq<Edge>, e': Edge, rest': seq<Edge>)
    ensures Join(d, e, rest) == Join(d, e', rest') ==> e == e' && rest == rest'
  {
    if Join(d, e, rest) == Join(d, e', rest') {
      if d.Upstream? {
        assert rest == Join(d, e, rest)[1..] && rest' == Join(d, e', rest')[1..];
      } else {
        var r := Join(d, e, rest);
        assert rest == r[..|r| - 1] && rest' == r[..|r| - 1];
        assert e == r[|r| - 1] == e';
      }
    }
  }

  lemma {:induction false} RoutesDistinct(d: Direction, anchors: set<string>, s: Search, peer: string)
    requires Rooted(d, anchors, s) && peer in s.distance && NoRepeats(s)
    ensures Distinct(RoutesFrom(d, anchors, s, peer))
    decreases s.distance[peer], 1, 0
  {
    RoutesViaDistinct(d, anchors, s, peer, s.parents[peer]);
  }

  lemma {:induction false} RoutesViaDistinct(d: Direction, anchors: set<string>, s: Search, peer: string, es: seq<Edge>)
    requires Rooted(d, anchors, s) && peer in s.distance && NoRepeats(s) && Distinct(es)
    requires forall e :: e in es ==> Closer(d, anchors, s, peer, e)
    ensures Distinct(RoutesVia(d, anchors, s, peer, es))
    decreases s.distance[peer], 0, |es|
  {
    if es != [] {
      var e, tail := es[0], es[1..];
      assert forall i :: 0 <= i < |tail| ==> tail[i] == es[i + 1];
      var current := Near(d, e);
      assert Closer(d, anchors, s, peer, e);
      var onward := if current in anchors then [[]] else RoutesFrom(d, anchors, s, current);
      if current !in anchors {
        RoutesDistinct(d, anchors, s, current);
      }
      JoinAllDistinct(d, e, onward);
      RoutesViaDistinct(d, anchors, s, peer, tail);
      forall r | r in JoinAll(d, e, onward)
        ensures r !in RoutesVia(d, anchors, s, peer, tail)
      {
        JoinAllMember(d, e, onward, r);
        var rest :| rest in onward && r == Join(d, e, rest);
        RoutesViaFirst(d, anchors, s, peer, tail, e, rest);
      }
      DistinctConcat(JoinAll(d, e, onward), RoutesVia(d, anchors, s, peer, tail));
    }
  }

  lemma {:induction false} RoutesViaFirst(
    d: Direction, anchors: set<string>, s: Search, peer: string, es: seq<Edge>, e: Edge, rest: seq<Edge>)
    requires Rooted(d, anchors, s) && peer in s.distance && e !in es
    requires forall e :: e in es ==> Closer(d, anchors, s, peer, e)
    ensures Join(d, e, rest) !in RoutesVia(d, anchors, s, peer, es)
    decreases |es|
  {
    if es != [] {
      var current := Near(d, es[0]);
      assert Closer(d, anchors, s, peer, es[0]);
      var onward := if current in anchors then [[]] else RoutesFrom(d, anchors, s, current);
      JoinAllMember(d, es[0], onward, Join(d, e, rest));
      forall rest' | rest' in onward
        ensures Join(d, e, rest) != Join(d, es[0], rest')
      {
        JoinInjective(d, e, rest, es[0], rest');
      }
      RoutesViaFirst(d, anchors, s, peer, es[1..], e, rest);
    }
  }

  // ----- the route theorem -----

  /** With one row per triple: every route once, and the cap keeps min(5, number of shortest routes) of them. */
  lemma KeptRoutesTheorem(q: Query, anchors: seq<string>, hops: nat, s: Search, peer: string, routes: set<seq<Edge>>)
    requires OneRowPerTriple(q.table) && Distinct(anchors) && q.anchors == SetOf(anchors)
    requires s == Rounds(q, anchors, hops).search && peer in s.distance
    requires forall r :: r in routes <==> Route(q, peer, s.distance[peer], r)
    ensures Rooted(q.direction, q.anchors, s)
    ensures
      var all, kept := RoutesFrom(q.direction, q.anchors, s, peer), KeptRoutes(q.direction, q.anchors, s, peer);
      && Distinct(all) && (forall r :: r in all <==> r in routes)
      && kept <= all && Distinct(kept)
      && |kept| == (if |routes| < MAX_ROUTES then |routes| else MAX_ROUTES)
      && |kept| > 0
  {
    hide Rounds, Rooted, OneRowPerTriple, NoRepeats, RoutesFrom, Route, Reaches;
    UnboundedCorrect(q, anchors, hops);
    CorrectRooted(q, s, hops);
    ParentsDistinct(q, anchors, hops);
    RoutesFromExact(q, s, hops, peer);
    RoutesDistinct(q.direction, q.anchors, s, peer);
    var all := RoutesFrom(q.direction, q.anchors, s, peer);
    DistinctLength(all);
    assert (set r | r in all) == routes;
    SomeRoute(q, peer, s.distance[peer]);
  }

  lemma SomeRoute(q: Query, peer: string, n: nat)
    requires AtDistance(q, peer, n)
    ensures exists r :: Route(q, peer, n, r)
  {
    var w :| Chain(q, peer, w) && |w| == n;
    var r := RouteOf(q, peer, w);
  }

  lemma RouteOf(q: Query, peer: string, w: seq<Edge>) returns (r: seq<Edge>)
    requires Chain(q, peer, w)
    ensures Route(q, peer, |w|, r)
  {
    r := if q.direction.Upstream? then w else Reverse(w);
    ReverseTwice(w);
  }
}
