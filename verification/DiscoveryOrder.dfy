/** The order in which the impact search discovers objects, and with it which routes the cap keeps. */
module DiscoveryOrder {
  import opened Ordering
  import opened EdgeStore
  import opened Impact
  import opened ImpactRoutes
  import opened ImpactAnchors
  import opened ImpactReport

  // ----- the order, on the stored edges -----

  /** The end of an edge on the side of the anchors. */
  ghost function Start(q: Query, e: Edge): string {
    match q.direction case Upstream => e.target case Downstream => e.source
  }

  /**
    Of two objects `n` edges away, the one discovered first: anchors go by name, other objects by the first of the edges
    that can end their routes.
   */
  ghost predicate NameBefore(q: Query, n: nat, a: string, b: string)
    decreases n, 0
  {
    if n == 0 then ComesBefore(a, b)
    else exists e :: EdgeAtPeer(q, a, n, e) && forall e' :: EdgeAtPeer(q, b, n, e') ==> EdgeBefore(q, n - 1, e, e')
  }

  /** Of two edges that start at objects `n` edges away, the one looked at first. */
  ghost predicate EdgeBefore(q: Query, n: nat, e: Edge, e': Edge)
    decreases n, 1
  {
    || NameBefore(q, n, Start(q, e), Start(q, e'))
    || (Start(q, e) == Start(q, e') && ComesBefore(e.id, e'.id))
  }

  /** The edge with number `k` of a route in flow order, counted from the dependent. */
  ghost function Nth(q: Query, r: seq<Edge>, k: nat): Edge
    requires k < |r|
  {
    match q.direction case Upstream => r[k] case Downstream => r[|r| - 1 - k]
  }

  ghost predicate Diverge(q: Query, r: seq<Edge>, r': seq<Edge>, k: nat) {
    && |r| == |r'| && k < |r|
    && (forall j: nat :: j < k ==> Nth(q, r, j) == Nth(q, r', j))
    && EdgeBefore(q, |r| - 1 - k, Nth(q, r, k), Nth(q, r', k))
  }

  /** Of two routes of one length, the one whose edge comes first where they differ, seen from the dependent. */
  ghost predicate RouteBefore(q: Query, r: seq<Edge>, r': seq<Edge>) {
    exists k: nat :: Diverge(q, r, r', k)
  }

  // ----- names and edges of a round -----

  ghost predicate NamesInOrder(q: Query, n: nat, names: seq<string>) {
    forall i, j :: 0 <= i < j < |names| ==> NameBefore(q, n, names[i], names[j])
  }

  /** Several rows of one triple give an edge several times over. */
  ghost predicate EdgesInOrder(q: Query, n: nat, es: seq<Edge>) {
    forall i, j :: 0 <= i < j < |es| ==> es[i] == es[j] || EdgeBefore(q, n, es[i], es[j])
  }

  lemma {:induction false} FreshInOrder(q: Query, n: nat, names: seq<string>, expanded: set<string>)
    requires NamesInOrder(q, n, names)
    ensures NamesInOrder(q, n, Fresh(names, expanded))
  {
    hide NameBefore;
    if names != [] {
      var t := names[1..];
      assert forall i :: 0 <= i < |t| ==> t[i] == names[i + 1];
      FreshInOrder(q, n, t, expanded);
      forall x | x in Fresh(t, expanded)
        ensures NameBefore(q, n, names[0], x)
      {
        FreshMember(t, expanded, x);
        var i :| 0 <= i < |t| && t[i] == x;
        assert names[i + 1] == x;
      }
    }
  }

  lemma AdjacentInOrder(q: Query, n: nat, name: string)
    requires IdsAgree(q.table)
    ensures EdgesInOrder(q, n, q.At(name))
    ensures forall e :: e in q.At(name) ==> Start(q, e) == name
  {
    var all := EdgesAt(q.table, q.direction, q.rels, name);
    var es := q.At(name);
    EdgesAtKeys(q.table, q.direction, q.rels, name);
    StringStrictTotal();
    SortBySorted(all, EdgeKey, StringLess);
    SortByContents(all, EdgeKey, StringLess);
    hide SortBy, EdgesAt, NameBefore, StringLess;
    forall e | e in es
      ensures Start(q, e) == name
    {
      AdjacentMember(q.table, q.direction, q.rels, name, e);
    }
    forall i, j | 0 <= i < j < |es|
      ensures es[i] == es[j] || EdgeBefore(q, n, es[i], es[j])
    {
      assert es[i] in all && es[j] in all;
      assert !StringLess(EdgeKey(es[j]), EdgeKey(es[i]));
      StringLessExactly(es[i].id, es[j].id);
    }
  }

  lemma {:induction false} RoundInOrder(q: Query, n: nat, names: seq<string>)
    requires IdsAgree(q.table) && NamesInOrder(q, n, names)
    ensures EdgesInOrder(q, n, RoundEdges(q, names))
  {
    hide NameBefore, IdsAgree;
    if names != [] {
      var init, last := names[..|names| - 1], names[|names| - 1];
      RoundInOrder(q, n, init);
      AdjacentInOrder(q, n, last);
      var es, more := RoundEdges(q, init), q.At(last);
      forall e, e' | e in es && e' in more
        ensures EdgeBefore(q, n, e, e')
      {
        RoundEdgesMember(q, init, e);
        var i :| 0 <= i < |init| && init[i] == q.From(e);
        assert NameBefore(q, n, names[i], last);
      }
      hide RoundEdges, Adjacent, EdgeBefore;
      EdgesJoin(q, n, es, more);
      assert RoundEdges(q, names) == es + more by {
        RoundEdgesLast(q, names);
      }
    }
  }

  lemma RoundEdgesLast(q: Query, names: seq<string>)
    requires names != []
    ensures RoundEdges(q, names) == RoundEdges(q, names[..|names| - 1]) + q.At(names[|names| - 1])
  {
  }

  lemma EdgesJoin(q: Query, n: nat, es: seq<Edge>, more: seq<Edge>)
    requires EdgesInOrder(q, n, es) && EdgesInOrder(q, n, more)
    requires forall e, e' :: e in es && e' in more ==> EdgeBefore(q, n, e, e')
    ensures EdgesInOrder(q, n, es + more)
  {
    hide EdgeBefore;
    var all := es + more;
    forall i, j | 0 <= i < j < |all|
      ensures all[i] == all[j] || EdgeBefore(q, n, all[i], all[j])
    {
      if i < |es| <= j {
        assert all[i] in es && all[j] in more;
      }
    }
  }

  lemma {:induction false} ReachingInOrder(q: Query, n: nat, es: seq<Edge>, p: string)
    requires EdgesInOrder(q, n, es)
    ensures EdgesInOrder(q, n, Reaching(q, es, p))
  {
    hide EdgeBefore;
    if es != [] {
      var init, e := es[..|es| - 1], es[|es| - 1];
      ReachingInOrder(q, n, init, p);
      forall x | x in Reaching(q, init, p)
        ensures x == e || EdgeBefore(q, n, x, e)
      {
        ReachingMember(q, init, p, x);
        var i :| 0 <= i < |init| && init[i] == x;
        assert es[i] == x;
      }
    }
  }

  // ----- the next frontier -----

  /** An edge that reaches `a` comes before every edge that reaches `b`. */
  ghost predicate ReachedFirst(q: Query, es: seq<Edge>, a: string, b: string) {
    exists i :: 0 <= i < |es| && Brings(q, es[i], a) && forall j :: 0 <= j < |es| && Brings(q, es[j], b) ==> i < j
  }

  ghost predicate Brings(q: Query, e: Edge, p: string) { q.To(e) == p && q.From(e) != p }

  ghost predicate FoundInOrder(q: Query, es: seq<Edge>, known: nat, found: seq<string>) {
    forall i, j :: known <= i < j < |found| ==> ReachedFirst(q, es, found[i], found[j])
  }

  lemma ReachedFirstNext(q: Query, es: seq<Edge>, e: Edge, a: string, b: string)
    ensures ReachedFirst(q, es, a, b) ==> ReachedFirst(q, es + [e], a, b)
    ensures (exists x :: x in es && Brings(q, x, a)) && !(exists x :: x in es && Brings(q, x, b)) ==>
              ReachedFirst(q, es + [e], a, b)
  {
    hide Brings;
    var all := es + [e];
    assert forall i :: 0 <= i < |es| ==> all[i] == es[i];
    if ReachedFirst(q, es, a, b) {
      var i :| 0 <= i < |es| && Brings(q, es[i], a) && forall j :: 0 <= j < |es| && Brings(q, es[j], b) ==> i < j;
      assert Brings(q, all[i], a);
      assert ReachedFirst(q, all, a, b);
    }
    if (exists x :: x in es && Brings(q, x, a)) && !(exists x :: x in es && Brings(q, x, b)) {
      var x :| x in es && Brings(q, x, a);
      var i :| 0 <= i < |es| && es[i] == x;
      assert Brings(q, all[i], a);
      assert forall j :: 0 <= j < |es| ==> es[j] in es;
      assert ReachedFirst(q, all, a, b);
    }
  }

  lemma {:induction false} AbsorbInOrder(q: Query, s: Search, es: seq<Edge>, depth: nat)
    requires Aligned(s) && forall p :: p in s.distance ==> s.distance[p] < depth
    ensures FoundInOrder(q, es, |s.found|, AbsorbAll(q, s, es, depth).found)
  {
    if es != [] {
      var init, e := es[..|es| - 1], es[|es| - 1];
      AbsorbInOrder(q, s, init, depth);
      AbsorbAllRound(q, s, init, depth);
      var s1 := AbsorbAll(q, s, init, depth);
      assert es == init + [e];
      FoundNext(q, s, init, e, depth, s1);
    }
  }

  lemma FoundNext(q: Query, s: Search, es: seq<Edge>, e: Edge, depth: nat, s1: Search)
    requires Aligned(s) && RoundDone(q, s, es, depth, s1) && FoundInOrder(q, es, |s.found|, s1.found)
    ensures FoundInOrder(q, es + [e], |s.found|, Absorb(q, s1, e, depth).found)
  {
    var s2 := Absorb(q, s1, e, depth);
    forall i, j | |s.found| <= i < j < |s2.found|
      ensures ReachedFirst(q, es + [e], s2.found[i], s2.found[j])
    {
      ReachedFirstNext(q, es, e, s2.found[i], s2.found[j]);
      if j == |s1.found| {
        NewlyReached(q, s, es, depth, s1, s1.found[i]);
        NotYetReached(q, s, es, depth, s1, q.To(e));
      }
    }
  }

  lemma NewlyReached(q: Query, s: Search, es: seq<Edge>, depth: nat, s1: Search, p: string)
    requires Aligned(s) && RoundDone(q, s, es, depth, s1)
    requires exists i :: |s.found| <= i < |s1.found| && s1.found[i] == p
    ensures exists x :: x in es && Brings(q, x, p)
  {
    var i :| |s.found| <= i < |s1.found| && s1.found[i] == p;
    assert p !in s.found by {
      assert forall k :: 0 <= k < |s.found| ==> s1.found[k] == s.found[k];
    }
    var x := Reaching(q, es, p)[0];
    ReachingMember(q, es, p, x);
  }

  lemma NotYetReached(q: Query, s: Search, es: seq<Edge>, depth: nat, s1: Search, p: string)
    requires Aligned(s) && RoundDone(q, s, es, depth, s1) && p !in s1.distance
    ensures !exists x :: x in es && Brings(q, x, p)
  {
    if x :| x in es && Brings(q, x, p) {
      ReachingMember(q, es, p, x);
    }
  }

  // ----- all rounds -----

  ghost predicate ParentsInOrder(q: Query, s: Search) {
    forall p :: p in s.parents && p in s.distance && s.distance[p] > 0 ==>
                  EdgesInOrder(q, s.distance[p] - 1, s.parents[p])
  }

  ghost predicate StateInOrder(q: Query, n: nat, st: State) {
    NamesInOrder(q, n, st.frontier) && ParentsInOrder(q, st.search)
  }

  /** The edges that bring an object in a round are those that can end its routes. */
  lemma BringersExactly(q: Query, s: Search, es: seq<Edge>, n: nat, p: string, e: Edge)
    requires p in s.distance && s.distance[p] == n && AtDistance(q, p, n) && ParentsTight(q, s, p)
    requires s.parents[p] == Reaching(q, es, p)
    ensures EdgeAtPeer(q, p, n, e) <==> e in es && Brings(q, e, p)
  {
    TightExactly(q, p, n, e);
    ReachingMember(q, es, p, e);
    hide AtDistance, TightEdge, EdgeAtPeer, Reaching;
  }

  lemma Discovered(q: Query, s: Search, es: seq<Edge>, n: nat, a: string, b: string)
    requires n > 0 && a != b && EdgesInOrder(q, n - 1, es) && ReachedFirst(q, es, a, b)
    requires forall p :: p in {a, b} ==>
               && p in s.distance && s.distance[p] == n && AtDistance(q, p, n) && ParentsTight(q, s, p)
               && s.parents[p] == Reaching(q, es, p)
    ensures NameBefore(q, n, a, b)
  {
    hide EdgeBefore, EdgeAtPeer, AtDistance, ParentsTight, Reaching;
    var i :| 0 <= i < |es| && Brings(q, es[i], a) && forall j :: 0 <= j < |es| && Brings(q, es[j], b) ==> i < j;
    var e := es[i];
    BringersExactly(q, s, es, n, a, e);
    forall e' | EdgeAtPeer(q, b, n, e')
      ensures EdgeBefore(q, n - 1, e, e')
    {
      BringersExactly(q, s, es, n, b, e');
      var j :| 0 <= j < |es| && es[j] == e';
    }
    assert EdgeAtPeer(q, a, n, e);
  }

  lemma AnchorsInOrder(q: Query, anchors: seq<string>)
    requires Distinct(anchors)
    ensures NamesInOrder(q, 0, SortNames(anchors))
  {
    var names := SortNames(anchors);
    StringStrictTotal();
    SortBySorted(anchors, Identity, StringLess);
    DistinctSort(anchors, Identity, StringLess);
    hide SortBy, StringLess;
    forall i, j | 0 <= i < j < |names|
      ensures ComesBefore(names[i], names[j])
    {
      assert !StringLess(Identity(names[j]), Identity(names[i]));
      StringLessExactly(names[i], names[j]);
    }
  }

  lemma {:induction false} RoundsInOrder(q: Query, anchors: seq<string>, n: nat)
    requires IdsAgree(q.table) && Distinct(anchors) && q.anchors == SetOf(anchors)
    ensures StateInOrder(q, n, Rounds(q, anchors, n))
  {
    hide *;
    RoundsLayered(q, anchors, n);
    if n == 0 {
      RoundsStart(q, anchors);
      AnchorsInOrder(q, anchors);
      NothingFound(q, SortNames(anchors));
    } else {
      var st := Rounds(q, anchors, n - 1);
      RoundsInOrder(q, anchors, n - 1);
      RoundsLayered(q, anchors, n - 1);
      RoundsNext(q, anchors, n, st);
      StepInOrder(q, n, st, Rounds(q, anchors, n));
    }
  }

  lemma NothingFound(q: Query, names: seq<string>)
    requires NamesInOrder(q, 0, names)
    ensures StateInOrder(q, 0, State(EMPTY, names, {}))
  {
  }

  lemma StepInOrder(q: Query, n: nat, st: State, st': State)
    requires IdsAgree(q.table) && n > 0 && StateInOrder(q, n - 1, st)
    requires LayeredState(q, st, n - 1) && LayeredState(q, st', n)
    requires
      var s' := AbsorbAll(q, st.search, RoundEdges(q, Fresh(st.frontier, st.expanded)), n);
      st'.search == s' && st'.frontier == s'.found[|st.search.found|..]
    ensures StateInOrder(q, n, st')
  {
    hide *;
    InOrderBoth(q, n - 1, st);
    var names := Fresh(st.frontier, st.expanded);
    var es := RoundEdges(q, names);
    LayerFacts(q, st, n - 1);
    FreshInOrder(q, n - 1, st.frontier, st.expanded);
    RoundInOrder(q, n - 1, names);
    AbsorbInOrder(q, st.search, es, n);
    AbsorbAllRound(q, st.search, es, n);
    FrontierInOrder(q, n, st, st', es);
    ParentsStep(q, n, st.search, es, st'.search);
    BothInOrder(q, n, st');
  }

  lemma InOrderBoth(q: Query, n: nat, st: State)
    requires StateInOrder(q, n, st)
    ensures NamesInOrder(q, n, st.frontier) && ParentsInOrder(q, st.search)
  {
  }

  lemma BothInOrder(q: Query, n: nat, st: State)
    requires NamesInOrder(q, n, st.frontier) && ParentsInOrder(q, st.search)
    ensures StateInOrder(q, n, st)
  {
  }

  lemma ParentsStep(q: Query, n: nat, s: Search, es: seq<Edge>, s': Search)
    requires n > 0 && ParentsInOrder(q, s) && EdgesInOrder(q, n - 1, es) && Aligned(s) && RoundDone(q, s, es, n, s')
    ensures ParentsInOrder(q, s')
  {
    hide EdgesInOrder, Reaching;
    forall p | p in s'.parents && p in s'.distance && s'.distance[p] > 0
      ensures EdgesInOrder(q, s'.distance[p] - 1, s'.parents[p])
    {
      ReachingInOrder(q, n - 1, es, p);
    }
  }

  lemma FrontierInOrder(q: Query, n: nat, st: State, st': State, es: seq<Edge>)
    requires n > 0 && LayeredState(q, st, n - 1) && LayeredState(q, st', n)
    requires RoundDone(q, st.search, es, n, st'.search) && st'.frontier == st'.search.found[|st.search.found|..]
    requires EdgesInOrder(q, n - 1, es) && FoundInOrder(q, es, |st.search.found|, st'.search.found)
    ensures NamesInOrder(q, n, st'.frontier)
  {
    hide NameBefore, EdgesInOrder, Within, AtDistance, ParentsTight, Reaching, ReachedFirst;
    var (s, s', names) := (st.search, st'.search, st'.frontier);
    forall i, j | 0 <= i < j < |names|
      ensures NameBefore(q, n, names[i], names[j])
    {
      assert names[i] == s'.found[|s.found| + i] && names[j] == s'.found[|s.found| + j];
      assert names[i] in names && names[j] in names;
      Discovered(q, s', es, n, names[i], names[j]);
    }
  }

  // ----- the routes of one object -----

  /** Each route comes, when it comes first, after all the routes that go before it. */
  ghost predicate RoutesInOrder(q: Query, rs: seq<seq<Edge>>) {
    forall i, j :: 0 <= i < j < |rs| ==> rs[j] in rs[..j] || RouteBefore(q, rs[i], rs[j])
  }

  lemma RoutesJoin(q: Query, rs: seq<seq<Edge>>, more: seq<seq<Edge>>)
    requires RoutesInOrder(q, rs) && RoutesInOrder(q, more)
    requires forall r, r' :: r in rs && r' in more ==> r' in rs || RouteBefore(q, r, r')
    ensures RoutesInOrder(q, rs + more)
  {
    hide RouteBefore;
    var all := rs + more;
    forall i, j | 0 <= i < j < |all|
      ensures all[j] in all[..j] || RouteBefore(q, all[i], all[j])
    {
      if j < |rs| {
        assert all[..j] == rs[..j];
      } else {
        var m := j - |rs|;
        assert all[..j] == rs + more[..m] && all[j] == more[m];
        assert i < |rs| ==> all[i] in rs;
      }
    }
  }

  lemma NthJoin(q: Query, e: Edge, r: seq<Edge>)
    ensures
      var all := Join(q.direction, e, r);
      |all| == |r| + 1 && Nth(q, all, 0) == e && forall k: nat :: 0 < k < |all| ==> Nth(q, all, k) == Nth(q, r, k - 1)
  {
  }

  lemma BeforeJoin(q: Query, e: Edge, r: seq<Edge>, r': seq<Edge>)
    requires RouteBefore(q, r, r')
    ensures RouteBefore(q, Join(q.direction, e, r), Join(q.direction, e, r'))
  {
    hide EdgeBefore, Join, Nth;
    NthJoin(q, e, r);
    NthJoin(q, e, r');
    var k: nat :| Diverge(q, r, r', k);
    var m := k + 1;
    var (x, x') := (Join(q.direction, e, r), Join(q.direction, e, r'));
    assert Nth(q, x, m) == Nth(q, r, k) && Nth(q, x', m) == Nth(q, r', k);
    assert |x| - 1 - m == |r| - 1 - k;
    assert Diverge(q, x, x', m);
  }

  lemma BeforeFirst(q: Query, e: Edge, r: seq<Edge>, e': Edge, r': seq<Edge>)
    requires |r| == |r'| && EdgeBefore(q, |r|, e, e')
    ensures RouteBefore(q, Join(q.direction, e, r), Join(q.direction, e', r'))
  {
    hide EdgeBefore, Join, Nth;
    NthJoin(q, e, r);
    NthJoin(q, e', r');
    var k := 0;
    assert Diverge(q, Join(q.direction, e, r), Join(q.direction, e', r'), k);
  }

  lemma {:induction false} JoinAllAt(d: Direction, e: Edge, rests: seq<seq<Edge>>)
    ensures |JoinAll(d, e, rests)| == |rests|
    ensures forall k :: 0 <= k < |rests| ==> JoinAll(d, e, rests)[k] == Join(d, e, rests[k])
  {
    if rests != [] {
      JoinAllAt(d, e, rests[1..]);
    }
  }

  lemma JoinAllInOrder(q: Query, e: Edge, rests: seq<seq<Edge>>)
    requires RoutesInOrder(q, rests)
    ensures RoutesInOrder(q, JoinAll(q.direction, e, rests))
  {
    JoinAllAt(q.direction, e, rests);
    hide RouteBefore, JoinAll, Join;
    var all := JoinAll(q.direction, e, rests);
    forall i, j | 0 <= i < j < |all|
      ensures all[j] in all[..j] || RouteBefore(q, all[i], all[j])
    {
      if rests[j] in rests[..j] {
        var k :| 0 <= k < j && rests[k] == rests[j];
        assert all[..j][k] == all[j];
      } else {
        BeforeJoin(q, e, rests[i], rests[j]);
      }
    }
  }

  /** What the generator goes on with after a parent edge. */
  ghost function Onward(q: Query, s: Search, peer: string, e: Edge): seq<seq<Edge>>
    requires Rooted(q.direction, q.anchors, s) && peer in s.distance && Closer(q.direction, q.anchors, s, peer, e)
  {
    if q.From(e) in q.anchors then [[]] else RoutesFrom(q.direction, q.anchors, s, q.From(e))
  }

  lemma OnwardLength(q: Query, hops: nat, s: Search, peer: string, e: Edge, rest: seq<Edge>)
    requires Correct(q, s, hops) && Rooted(q.direction, q.anchors, s) && peer in s.distance
    requires e in s.parents[peer] && Closer(q.direction, q.anchors, s, peer, e) && rest in Onward(q, s, peer, e)
    ensures |rest| + 1 == s.distance[peer]
  {
    assert peer in s.parents;
    hide Correct, Rooted, RoutesFrom, Join, Chain;
    if q.From(e) !in q.anchors {
      RoutesFromExact(q, s, hops, q.From(e));
    }
    var r := Join(q.direction, e, rest);
    NthJoin(q, e, rest);
    assert StartsWith(q, s, peer, s.parents[peer], r, e, rest);
    StartIsRoute(q, s, hops, peer, r, e, rest);
  }

  lemma RoutesViaStep(q: Query, s: Search, peer: string, es: seq<Edge>)
    requires Rooted(q.direction, q.anchors, s) && peer in s.distance && es != []
    requires forall e :: e in es ==> Closer(q.direction, q.anchors, s, peer, e)
    ensures RoutesVia(q.direction, q.anchors, s, peer, es) ==
            JoinAll(q.direction, es[0], Onward(q, s, peer, es[0]))
            + RoutesVia(q.direction, q.anchors, s, peer, es[1..])
  {
  }

  /** A route by one of some parent edges is that edge joined to what follows it. */
  lemma {:induction false} RoutesViaJoin(q: Query, s: Search, peer: string, es: seq<Edge>, r: seq<Edge>)
    returns (e: Edge, rest: seq<Edge>)
    requires Rooted(q.direction, q.anchors, s) && peer in s.distance
    requires forall x :: x in es ==> Closer(q.direction, q.anchors, s, peer, x)
    requires r in RoutesVia(q.direction, q.anchors, s, peer, es)
    ensures e in es && Closer(q.direction, q.anchors, s, peer, e) && rest in Onward(q, s, peer, e)
    ensures r == Join(q.direction, e, rest)
    decreases |es|
  {
    RoutesViaStep(q, s, peer, es);
    hide Rooted, Closer, JoinAll, Join, Onward;
    if r in RoutesVia(q.direction, q.anchors, s, peer, es[1..]) {
      e, rest := RoutesViaJoin(q, s, peer, es[1..], r);
    } else {
      e := es[0];
      JoinAllMember(q.direction, e, Onward(q, s, peer, e), r);
      rest :| rest in Onward(q, s, peer, e) && r == Join(q.direction, e, rest);
    }
  }

  lemma {:induction false} RoutesFromInOrder(q: Query, hops: nat, s: Search, peer: string)
    requires Correct(q, s, hops) && Rooted(q.direction, q.anchors, s) && peer in s.distance && ParentsInOrder(q, s)
    ensures RoutesInOrder(q, RoutesFrom(q.direction, q.anchors, s, peer))
    decreases s.distance[peer], 1, 0
  {
    assert forall e :: e in s.parents[peer] ==> Closer(q.direction, q.anchors, s, peer, e);
    assert s.distance[peer] > 0 && EdgesInOrder(q, s.distance[peer] - 1, s.parents[peer]);
    RoutesViaInOrder(q, hops, s, peer, s.parents[peer]);
  }

  lemma {:induction false} RoutesViaInOrder(q: Query, hops: nat, s: Search, peer: string, es: seq<Edge>)
    requires Correct(q, s, hops) && Rooted(q.direction, q.anchors, s) && peer in s.distance && ParentsInOrder(q, s)
    requires s.distance[peer] > 0 && EdgesInOrder(q, s.distance[peer] - 1, es)
    requires forall e :: e in es ==> e in s.parents[peer] && Closer(q.direction, q.anchors, s, peer, e)
    ensures RoutesInOrder(q, RoutesVia(q.direction, q.anchors, s, peer, es))
    decreases s.distance[peer], 0, |es|
  {
    if es != [] {
      var e, tail := es[0], es[1..];
      assert Closer(q.direction, q.anchors, s, peer, e);
      hide Correct, Rooted, ParentsInOrder, EdgeBefore, RouteBefore, JoinAll, Join;
      assert forall i :: 0 <= i < |tail| ==> tail[i] == es[i + 1];
      var onward := Onward(q, s, peer, e);
      assert RoutesInOrder(q, onward) by {
        if q.From(e) !in q.anchors {
          RoutesFromInOrder(q, hops, s, q.From(e));
        }
      }
      hide Closer, RoutesInOrder, Onward;
      JoinAllInOrder(q, e, onward);
      RoutesViaInOrder(q, hops, s, peer, tail);
      RoutesViaStep(q, s, peer, es);
      var first, more := JoinAll(q.direction, e, onward), RoutesVia(q.direction, q.anchors, s, peer, tail);
      forall r, r' | r in first && r' in more
        ensures r' in first || RouteBefore(q, r, r')
      {
        TwoRoutes(q, hops, s, peer, e, tail, r, r');
      }
      RoutesJoin(q, first, more);
    }
  }

  lemma TwoRoutes(
    q: Query, hops: nat, s: Search, peer: string, e: Edge, tail: seq<Edge>, r: seq<Edge>, r': seq<Edge>)
    requires Correct(q, s, hops) && Rooted(q.direction, q.anchors, s) && peer in s.distance
    requires e in s.parents[peer] && Closer(q.direction, q.anchors, s, peer, e)
    requires forall x :: x in tail ==> x in s.parents[peer] && Closer(q.direction, q.anchors, s, peer, x)
    requires forall x :: x in tail ==> s.distance[peer] > 0 && (e == x || EdgeBefore(q, s.distance[peer] - 1, e, x))
    requires r in JoinAll(q.direction, e, Onward(q, s, peer, e))
    requires r' in RoutesVia(q.direction, q.anchors, s, peer, tail)
    ensures r' in JoinAll(q.direction, e, Onward(q, s, peer, e)) || RouteBefore(q, r, r')
  {
    hide *;
    JoinAllMember(q.direction, e, Onward(q, s, peer, e), r);
    var rest :| rest in Onward(q, s, peer, e) && r == Join(q.direction, e, rest);
    var e', rest' := RoutesViaJoin(q, s, peer, tail, r');
    if e == e' {
      JoinAllMember(q.direction, e, Onward(q, s, peer, e), r');
    } else {
      OnwardLength(q, hops, s, peer, e, rest);
      OnwardLength(q, hops, s, peer, e', rest');
      BeforeFirst(q, e, rest, e', rest');
    }
  }

  /** The cap keeps the routes that come first, also where a triple has several rows. */
  lemma KeptComeFirst(q: Query, anchors: seq<string>, hops: nat, peer: string, r: seq<Edge>, r': seq<Edge>)
    requires IdsAgree(q.table) && Distinct(anchors) && q.anchors == SetOf(anchors)
    requires peer in Rounds(q, anchors, hops).search.distance
    ensures
      var s := Rounds(q, anchors, hops).search;
      && Rooted(q.direction, q.anchors, s)
      && var kept := KeptRoutes(q.direction, q.anchors, s, peer);
      (r in kept && r' !in kept && |r'| == s.distance[peer] && Leads(q, peer, r') ==> RouteBefore(q, r, r'))
  {
    var st := Rounds(q, anchors, hops);
    var s := st.search;
    hide *;
    UnboundedCorrect(q, anchors, hops);
    CorrectRooted(q, s, hops);
    RoundsInOrder(q, anchors, hops);
    InOrderBoth(q, hops, st);
    RoutesFromInOrder(q, hops, s, peer);
    RoutesFromExact(q, s, hops, peer);
    RouteLeads(q, peer, s.distance[peer], r');
    KeptFirst(q, s, peer, r, r');
  }

  lemma KeptFirst(q: Query, s: Search, peer: string, r: seq<Edge>, r': seq<Edge>)
    requires Rooted(q.direction, q.anchors, s) && peer in s.distance
    requires RoutesExact(q, s, peer) && RoutesInOrder(q, RoutesFrom(q.direction, q.anchors, s, peer))
    ensures
      var kept := KeptRoutes(q.direction, q.anchors, s, peer);
      r in kept && r' !in kept && Route(q, peer, s.distance[peer], r') ==> RouteBefore(q, r, r')
  {
    hide Rooted, RoutesFrom, RouteBefore, Route;
    var all, kept := RoutesFrom(q.direction, q.anchors, s, peer), KeptRoutes(q.direction, q.anchors, s, peer);
    if r in kept && r' !in kept && Route(q, peer, s.distance[peer], r') {
      var i :| 0 <= i < |kept| && kept[i] == r;
      var j := FirstIndex(all, r');
      assert forall k :: 0 <= k < |kept| ==> all[k] == kept[k] && kept[k] in kept;
      assert r' !in all[..j];
    }
  }

  lemma {:induction false} FirstIndex<T>(xs: seq<T>, x: T) returns (i: nat)
    requires x in xs
    ensures i < |xs| && xs[i] == x && x !in xs[..i]
  {
    if xs[0] == x {
      i := 0;
    } else {
      i := FirstIndex(xs[1..], x);
      i := i + 1;
      assert xs[..i] == [xs[0]] + xs[1..][..i - 1];
    }
  }

  // ----- the report -----

  /** The item shows no route while it leaves out one that comes before it. */
  ghost predicate ShowsFirst(q: Query, i: Item) {
    forall r, r' ::
      && ShowsRoute(i, r) && !ShowsRoute(i, r')
      && |r'| == i.distance && Leads(q, i.dependent.qualifiedName, r')
      ==> RouteBefore(q, r, r')
  }

  lemma ItemShowsFirst(
    q: Query, anchors: seq<string>, hops: nat, objects: map<string, ObjectRecord>, records: map<string, Row>, p: string)
    requires IdsAgree(q.table) && Distinct(anchors) && q.anchors == SetOf(anchors) && Described(objects)
    requires p in Rounds(q, anchors, hops).search.distance && p in objects
    requires Recorded(Rounds(q, anchors, hops).search, records) && Indexed(q.table, q.rels, records)
    requires Rooted(q.direction, q.anchors, Rounds(q, anchors, hops).search)
    ensures ShowsFirst(q, ItemOf(q.direction, q.anchors, Rounds(q, anchors, hops).search, objects, records, p))
  {
    var s := Rounds(q, anchors, hops).search;
    var i := ItemOf(q.direction, q.anchors, s, objects, records, p);
    assert i.distance == s.distance[p] && i.dependent.qualifiedName == p;
    hide *;
    UnboundedCorrect(q, anchors, hops);
    ItemTellsRoutes(q, hops, s, objects, records, p);
    forall r, r' | ShowsRoute(i, r) && !ShowsRoute(i, r') && |r'| == i.distance && Leads(q, p, r')
      ensures RouteBefore(q, r, r')
    {
      KeptComeFirst(q, anchors, hops, p, r, r');
    }
    ShowsFirstIs(q, i);
  }

  lemma ShowsFirstIs(q: Query, i: Item)
    requires forall r, r' ::
               && ShowsRoute(i, r) && !ShowsRoute(i, r')
               && |r'| == i.distance && Leads(q, i.dependent.qualifiedName, r')
               ==> RouteBefore(q, r, r')
    ensures ShowsFirst(q, i)
  {
    hide ShowsRoute, Leads, RouteBefore;
  }

  /** Which five of more than five routes a report shows: those discovered first. */
  lemma ReportShowsFirst(
    table: seq<Row>, d: Direction, rels: set<string>, changed: ObjectRecord, hops: nat,
    objects: map<string, ObjectRecord>, casefold: string -> string, items: seq<Item>, summary: Summary)
    requires IdsAgree(table) && Described(objects)
    requires ImpactReported(table, d, rels, changed, hops, objects, casefold, items, summary)
    ensures forall i :: 0 <= i < |items| ==> ShowsFirst(QueryOf(table, d, rels, changed), items[i])
  {
    var q := QueryOf(table, d, rels, changed);
    var anchors :| AnchorList(table, changed, anchors)
                   && Reports(q, Rounds(q, anchors, hops).search, changed.qualifiedName, objects, casefold, items,
                              summary);
    assert Distinct(anchors) && q.anchors == SetOf(anchors);
    hide IdsAgree, Described, AnchorList, QueryOf, Reports, ShowsFirst, Rounds;
    ReportsShowFirst(q, anchors, hops, changed.qualifiedName, objects, casefold, items, summary);
  }

  lemma ReportsShowFirst(
    q: Query, anchors: seq<string>, hops: nat, changed: string, objects: map<string, ObjectRecord>,
    casefold: string -> string, items: seq<Item>, summary: Summary)
    requires IdsAgree(q.table) && Distinct(anchors) && q.anchors == SetOf(anchors) && Described(objects)
    requires Reports(q, Rounds(q, anchors, hops).search, changed, objects, casefold, items, summary)
    ensures forall i :: 0 <= i < |items| ==> ShowsFirst(q, items[i])
  {
    var s := Rounds(q, anchors, hops).search;
    hide IdsAgree, Described, Rounds, ShowsFirst, Recorded, Indexed, Rooted, ItemOf;
    var records :| Indexed(q.table, q.rels, records)
                   && IsReport(q.direction, q.anchors, s, changed, objects, records, casefold, items, summary);
    var names := Reported(s.found, changed, objects);
    assert Rooted(q.direction, q.anchors, s) && Recorded(s, records);
    assert forall p :: p in names ==> p in s.distance && p in objects;
    assert items == SortBy(ItemsOf(q.direction, q.anchors, s, objects, records, names), KeyOfItem(casefold), ItemLess);
    UnboundedCorrect(q, anchors, hops);
    FoundWithin(q, s, hops, changed, objects);
    hide *;
    ItemsTheorem(q, hops, s, objects, records, names, casefold);
    forall i | 0 <= i < |items|
      ensures ShowsFirst(q, items[i])
    {
      ItemOfNames(q, s, objects, records, names, items, i);
      ItemShowsFirst(q, anchors, hops, objects, records, items[i].dependent.qualifiedName);
    }
  }

  lemma ItemOfNames(
    q: Query, s: Search, objects: map<string, ObjectRecord>, records: map<string, Row>, names: seq<string>,
    items: seq<Item>, i: nat)
    requires Rooted(q.direction, q.anchors, s) && i < |items|
    requires Itemized(q.direction, q.anchors, s, objects, records, names, items)
    ensures
      var p := items[i].dependent.qualifiedName;
      p in names && p in s.distance && p in objects
      && items[i] == ItemOf(q.direction, q.anchors, s, objects, records, p)
  {
    hide Rooted, ItemOf;
  }
}
