/** What `find_paths` finds: trails that keep every node before the end at its shortest distance. */
module Paths {
  import opened Ordering
  import opened EdgeStore

  datatype PathQuery = PathQuery(table: seq<Row>, rels: set<string>, source: string, target: string) {
    ghost predicate Has(e: Edge) { Stored(table, rels, e) }
  }

  /** `v` is reached from the source by `n` edges, none of which leaves the target. */
  ghost predicate LeadsTo(g: PathQuery, v: string, n: nat)
    decreases n
  {
    if n == 0 then v == g.source
    else exists e :: g.Has(e) && e.target == v && e.source != g.target && LeadsTo(g, e.source, n - 1)
  }

  /** `n` is the shortest distance of `v` from the source, the target never being expanded. */
  ghost predicate Level(g: PathQuery, v: string, n: nat) {
    LeadsTo(g, v, n) && forall m :: 0 <= m < n ==> !LeadsTo(g, v, m)
  }

  /** Stored edges, each starting where the one before it ends. */
  ghost predicate Trail(g: PathQuery, w: seq<Edge>) {
    && (|w| > 0 ==> w[0].source == g.source)
    && (forall i :: 0 <= i < |w| ==> g.Has(w[i]))
    && (forall i :: 0 <= i < |w| - 1 ==> w[i].target == w[i + 1].source)
  }

  function End(g: PathQuery, w: seq<Edge>): string {
    if w == [] then g.source else w[|w| - 1].target
  }

  function Visited(g: PathQuery, w: seq<Edge>): set<string> {
    {g.source} + set e | e in w :: e.target
  }

  /** Every edge of the trail leaves a node other than the target, at that node's own level. */
  ghost predicate Tight(g: PathQuery, w: seq<Edge>) {
    Trail(g, w) && forall i :: 0 <= i < |w| ==> w[i].source != g.target && Level(g, w[i].source, i)
  }

  /** The answer of a search of at most `hops` rounds. */
  ghost predicate Answer(g: PathQuery, hops: nat, w: seq<Edge>) {
    Tight(g, w) && 1 <= |w| <= hops && End(g, w) == g.target
  }

  /** A trail still being extended after `r` rounds. */
  ghost predicate InFrontier(g: PathQuery, r: nat, w: seq<Edge>) {
    && Tight(g, w) && |w| == r && End(g, w) != g.target
    && (r > 0 ==> End(g, w) !in Visited(g, w[..r - 1]))
  }

  // ----- levels and trails -----

  lemma {:induction false} TrailLeads(g: PathQuery, w: seq<Edge>)
    requires Trail(g, w) && forall i :: 0 <= i < |w| ==> w[i].source != g.target
    ensures LeadsTo(g, End(g, w), |w|)
  {
    if w != [] {
      var init, last := w[..|w| - 1], w[|w| - 1];
      TrailLeads(g, init);
      assert last.source == End(g, init);
      assert g.Has(last);
    }
  }

  lemma {:induction false} LevelExists(g: PathQuery, v: string, n: nat) returns (m: nat)
    requires LeadsTo(g, v, n)
    ensures m <= n && Level(g, v, m)
    decreases n
  {
    if k :| 0 <= k < n && LeadsTo(g, v, k) {
      m := LevelExists(g, v, k);
    } else {
      m := n;
    }
  }

  /** The node before a node of level n + 1, on a way of that length, has level n. */
  lemma PredecessorLevel(g: PathQuery, v: string, n: nat, e: Edge)
    requires Level(g, v, n + 1) && g.Has(e) && e.target == v && e.source != g.target && LeadsTo(g, e.source, n)
    ensures Level(g, e.source, n)
  {
    forall m | 0 <= m < n
      ensures !LeadsTo(g, e.source, m)
    {
      assert !LeadsTo(g, v, m + 1);
    }
  }

  /** A node with a level is the end of a tight trail of that length. */
  lemma {:induction false} TightTrailTo(g: PathQuery, v: string, n: nat) returns (w: seq<Edge>)
    requires Level(g, v, n)
    ensures Tight(g, w) && |w| == n && End(g, w) == v
    decreases n
  {
    if n == 0 {
      w := [];
    } else {
      var e :| g.Has(e) && e.target == v && e.source != g.target && LeadsTo(g, e.source, n - 1);
      PredecessorLevel(g, v, n - 1, e);
      var init := TightTrailTo(g, e.source, n - 1);
      w := init + [e];
      TightAppend(g, init, e);
    }
  }

  lemma TightAppend(g: PathQuery, w: seq<Edge>, e: Edge)
    requires Trail(g, w) && forall i :: 0 <= i < |w| ==> w[i].source != g.target && Level(g, w[i].source, i)
    ensures Tight(g, w + [e]) <==> g.Has(e) && e.source == End(g, w) && e.source != g.target && Level(g, e.source, |w|)
    ensures End(g, w + [e]) == e.target
    ensures Visited(g, w + [e]) == Visited(g, w) + {e.target}
  {
    var w' := w + [e];
    assert forall i :: 0 <= i < |w| ==> w'[i] == w[i];
    assert w'[|w|] == e;
    if Tight(g, w') {
      assert w != [] ==> w'[|w| - 1].target == w'[|w|].source;
    }
    assert forall x :: x in w' <==> x in w || x == e;
  }

  lemma TightPrefix(g: PathQuery, w: seq<Edge>, n: nat)
    requires Tight(g, w) && n <= |w|
    ensures Tight(g, w[..n])
    ensures n < |w| ==> End(g, w[..n]) == w[n].source
  {
    assert forall i :: 0 <= i < n ==> w[..n][i] == w[i];
  }

  /** The nodes of a tight trail before its end are all different. */
  lemma TightDistinct(g: PathQuery, w: seq<Edge>)
    requires Tight(g, w)
    ensures forall i, j :: 0 <= i < j < |w| ==> w[i].source != w[j].source
  {
    forall i, j | 0 <= i < j < |w|
      ensures w[i].source != w[j].source
    {
      assert Level(g, w[i].source, i) && Level(g, w[j].source, j);
    }
  }

  lemma VisitedIsSources(g: PathQuery, w: seq<Edge>, v: string)
    requires Trail(g, w)
    ensures v in Visited(g, w) <==> v == End(g, w) || exists i :: 0 <= i < |w| && w[i].source == v
  {
    if v in Visited(g, w) && v != End(g, w) {
      if v == g.source {
        assert w[0].source == v;
      } else {
        var e :| e in w && e.target == v;
        var i :| 0 <= i < |w| && w[i] == e;
        assert w[i + 1].source == v;
      }
    }
    if i :| 0 <= i < |w| && w[i].source == v {
      if i > 0 {
        assert w[i - 1].target == v && w[i - 1] in w;
      }
    }
  }

  /** A tight trail whose end is at its own level has not met that end before. */
  lemma LevelEndIsNew(g: PathQuery, w: seq<Edge>)
    requires Tight(g, w) && |w| > 0 && Level(g, End(g, w), |w|)
    ensures End(g, w) !in Visited(g, w[..|w| - 1])
  {
    var init := w[..|w| - 1];
    TightPrefix(g, w, |w| - 1);
    VisitedIsSources(g, init, End(g, w));
    forall i | 0 <= i < |w|
      ensures w[i].source != End(g, w)
    {
      assert Level(g, w[i].source, i);
    }
    assert End(g, init) == w[|w| - 1].source;
  }

  /** The nodes that the trails of round `r` end at include every node of level `r` but the target. */
  lemma FrontierReaches(g: PathQuery, v: string, r: nat)
    requires Level(g, v, r) && v != g.target
    ensures exists w :: InFrontier(g, r, w) && End(g, w) == v
  {
    var w := TightTrailTo(g, v, r);
    if r > 0 {
      LevelEndIsNew(g, w);
    }
    assert InFrontier(g, r, w);
  }

  lemma FrontierLevel(g: PathQuery, w: seq<Edge>, r: nat)
    requires InFrontier(g, r, w)
    ensures exists n :: 0 <= n <= r && Level(g, End(g, w), n)
  {
    TrailLeads(g, w);
    var n := LevelExists(g, End(g, w), r);
  }

  /** Once no trail is left to extend, none is later and no further answer exists. */
  lemma FrontierDry(g: PathQuery, r: nat, m: nat)
    requires r <= m && forall w :: !InFrontier(g, r, w)
    ensures forall w :: !InFrontier(g, m, w)
    ensures forall w :: Answer(g, m, w) <==> Answer(g, r, w)
  {
    forall w: seq<Edge> | Tight(g, w)
      ensures |w| <= r
    {
      if |w| > r {
        TightPrefix(g, w, r);
        FrontierReaches(g, w[r].source, r);
      }
    }
  }

  // ----- one round -----

  /** Extending the trails of round `r` at the nodes expanded for the first time gives round `r + 1`. */
  lemma FrontierStep(g: PathQuery, r: nat, w: seq<Edge>)
    ensures InFrontier(g, r + 1, w) <==>
            |w| == r + 1 && InFrontier(g, r, w[..r]) && g.Has(w[r]) && w[r].source == End(g, w[..r])
            && Level(g, w[r].source, r) && w[r].target !in Visited(g, w[..r]) && w[r].target != g.target
  {
    if |w| == r + 1 {
      StepSplit(g, r, w);
    }
  }

  lemma AnswerStep(g: PathQuery, r: nat, w: seq<Edge>)
    ensures Answer(g, r + 1, w) <==>
            Answer(g, r, w)
            || (|w| == r + 1 && InFrontier(g, r, w[..r]) && g.Has(w[r]) && w[r].source == End(g, w[..r])
                && Level(g, w[r].source, r) && w[r].target == g.target)
  {
    if |w| == r + 1 {
      StepSplit(g, r, w);
    }
  }

  lemma StepSplit(g: PathQuery, r: nat, w: seq<Edge>)
    requires |w| == r + 1
    ensures Tight(g, w) <==>
            InFrontier(g, r, w[..r]) && g.Has(w[r]) && w[r].source == End(g, w[..r]) && Level(g, w[r].source, r)
    ensures End(g, w) == w[r].target
  {
    var init, e := w[..r], w[r];
    assert w == init + [e];
    if Tight(g, w) {
      TightPrefix(g, w, r);
      assert Level(g, e.source, r);
      if r > 0 {
        LevelEndIsNew(g, init);
      }
    }
    if Tight(g, init) {
      TightAppend(g, init, e);
    }
  }

  // ----- consequences -----

  /** Every answer is simple: its nodes are pairwise different. */
  lemma AnswersAreSimple(g: PathQuery, hops: nat, w: seq<Edge>)
    requires Answer(g, hops, w)
    ensures forall i, j :: 0 <= i < j < |w| ==> w[i].source != w[j].source
    ensures forall i :: 0 <= i < |w| ==> w[i].source != End(g, w)
  {
    TightDistinct(g, w);
  }

  /** Every shortest trail to the target is an answer. */
  lemma ShortestAreAnswers(g: PathQuery, hops: nat, w: seq<Edge>)
    requires g.source != g.target && Trail(g, w) && End(g, w) == g.target && |w| <= hops
    requires forall v :: Trail(g, v) && End(g, v) == g.target ==> |w| <= |v|
    ensures Answer(g, hops, w)
  {
    forall i | 0 <= i < |w|
      ensures w[i].source != g.target && Level(g, w[i].source, i)
    {
      ShortestKeepsLevels(g, w, i);
    }
  }

  lemma ShortestKeepsLevels(g: PathQuery, w: seq<Edge>, i: nat)
    requires g.source != g.target && Trail(g, w) && End(g, w) == g.target && i < |w|
    requires forall v :: Trail(g, v) && End(g, v) == g.target ==> |w| <= |v|
    ensures w[i].source != g.target && Level(g, w[i].source, i)
  {
    forall j | 0 <= j <= i
      ensures w[j].source != g.target
    {
      TrailPrefix(g, w, j);
      assert End(g, w[..j]) == w[j].source;
    }
    TrailPrefix(g, w, i);
    assert End(g, w[..i]) == w[i].source;
    TrailLeads(g, w[..i]);
    var m := LevelExists(g, w[i].source, i);
    var u := TightTrailTo(g, w[i].source, m);
    TrailGraft(g, u, w, i);
    assert |w| <= |u + w[i..]|;
  }

  lemma TrailPrefix(g: PathQuery, w: seq<Edge>, n: nat)
    requires Trail(g, w) && n <= |w|
    ensures Trail(g, w[..n])
  {
    assert forall i :: 0 <= i < n ==> w[..n][i] == w[i];
  }

  lemma TrailGraft(g: PathQuery, u: seq<Edge>, w: seq<Edge>, i: nat)
    requires Trail(g, u) && Trail(g, w) && i < |w| && End(g, u) == w[i].source
    ensures Trail(g, u + w[i..]) && End(g, u + w[i..]) == End(g, w)
  {
    var v := u + w[i..];
    forall k | 0 <= k < |v|
      ensures g.Has(v[k])
      ensures k < |v| - 1 ==> v[k].target == v[k + 1].source
    {
      if k < |u| {
        assert v[k] == u[k];
        if k + 1 < |u| {
          assert v[k + 1] == u[k + 1];
        } else if k + 1 < |v| {
          assert v[k + 1] == w[i];
        }
      } else {
        assert v[k] == w[k - |u| + i];
        if k + 1 < |v| {
          assert v[k + 1] == w[k + 1 - |u| + i];
        }
      }
    }
  }

  function Call(id: string, source: string, target: string): Edge { Edge(id, "CALLS", source, target, false) }

  /** s -> a, s -> b, b -> a, a -> t. */
  function Diamond(): PathQuery {
    PathQuery(
      [Row(Call("1", "s", "a"), "", true), Row(Call("2", "s", "b"), "", true), Row(Call("3", "b", "a"), "", true),
       Row(Call("4", "a", "t"), "", true)],
      {"CALLS"}, "s", "t")
  }

  lemma DiamondHas()
    ensures Diamond().Has(Call("1", "s", "a")) && Diamond().Has(Call("2", "s", "b"))
    ensures Diamond().Has(Call("3", "b", "a")) && Diamond().Has(Call("4", "a", "t"))
    ensures OneRowPerTriple(Diamond().table)
  {
    var table := Diamond().table;
    assert table[0] in table && table[1] in table && table[2] in table && table[3] in table;
  }

  /** Not every simple path is an answer: the way s, b, a, t comes to `a` late, and is not extended past it. */
  lemma NotEverySimplePath(hops: nat)
    ensures
      var g, w := Diamond(), [Call("2", "s", "b"), Call("3", "b", "a"), Call("4", "a", "t")];
      && Trail(g, w) && End(g, w) == g.target
      && (forall i, j :: 0 <= i < j < |w| ==> w[i].source != w[j].source)
      && (forall i :: 0 <= i < |w| ==> w[i].source != g.target)
      && !Answer(g, hops, w)
  {
    hide StringLess, Stored, Diamond, OneRowPerTriple;
    DiamondHas();
    var g, w := Diamond(), [Call("2", "s", "b"), Call("3", "b", "a"), Call("4", "a", "t")];
    assert g.source == "s" && g.target == "t" by {
      DiamondEnds();
    }
    assert LeadsTo(g, "s", 0);
    assert Call("1", "s", "a").target == "a";
    assert LeadsTo(g, "a", 1);
    assert !Level(g, w[2].source, 2);
  }

  lemma DiamondEnds()
    ensures Diamond().source == "s" && Diamond().target == "t"
  {
  }
}
