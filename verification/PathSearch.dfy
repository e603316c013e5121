/** The path search as the gateway runs it: one frontier of trails a round, under an edge budget. */
module PathSearch {
  import opened Wrappers
  import opened Ordering
  import opened EdgeStore
  import opened Paths
  import opened Paging

  /** A trail being extended: its end, its edges, the nodes it has visited. */
  datatype Entry = Entry(node: string, trail: seq<Edge>, visited: set<string>)

  // ----- the budget, told without the search's variables -----

  ghost predicate SourcesAt(g: PathQuery, r: nat, sources: set<string>) {
    forall v :: v in sources <==> exists w :: InFrontier(g, r, w) && End(g, w) == v
  }

  ghost predicate ExpandedBefore(g: PathQuery, r: nat, v: string) {
    v != g.target && exists n :: 0 <= n < r && Level(g, v, n)
  }

  ghost predicate KnownId(g: PathQuery, r: nat, id: string) {
    exists e :: g.Has(e) && e.id == id && ExpandedBefore(g, r, e.source)
  }

  /** The ids of all edges that leave a node expanded in the first `r` rounds. */
  ghost predicate KnownAt(g: PathQuery, r: nat, known: set<string>) {
    forall id :: id in known <==> KnownId(g, r, id)
  }

  /** Round `r` asks while some budget is left and gets no more rows than that. */
  ghost predicate RoundAffords(g: PathQuery, r: nat, budget: nat) {
    forall sources, known | SourcesAt(g, r, sources) && KnownAt(g, r, known) ::
      sources == {} || (|known| < budget && |known| + |Select(g.table, Downstream, g.rels, sources)| <= budget)
  }

  ghost predicate Affords(g: PathQuery, hops: nat, budget: nat) {
    forall r :: 0 <= r < hops ==> RoundAffords(g, r, budget)
  }

  /** The budget of a round, counting stored rows. */
  ghost predicate RowsAfford(g: PathQuery, r: nat, budget: nat) {
    forall sources, known | SourcesAt(g, r, sources) && KnownAt(g, r, known) ::
      sources == {} || (|known| < budget && |known| + |Found(g.table, Downstream, g.rels, sources)| <= budget)
  }

  lemma AffordsExactly(g: PathQuery, hops: nat, budget: nat)
    ensures Affords(g, hops, budget) <==> forall r :: 0 <= r < hops ==> RowsAfford(g, r, budget)
  {
    hide SourcesAt, KnownAt, Select, Found;
    forall r: nat
      ensures RoundAffords(g, r, budget) <==> RowsAfford(g, r, budget)
    {
      forall sources {
        SelectCount(g.table, Downstream, g.rels, sources);
      }
    }
  }

  // ----- extending one frontier -----

  /** The entries made from `en` by some edges, in order; the target is never expanded. */
  function Extend(en: Entry, edges: seq<Edge>, target: string): seq<Entry> {
    if edges == [] then []
    else
      var e := edges[|edges| - 1];
      Extend(en, edges[..|edges| - 1], target)
      + (if e.target in en.visited || e.target == target then []
         else [Entry(e.target, en.trail + [e], en.visited + {e.target})])
  }

  function Hits(en: Entry, edges: seq<Edge>, target: string): set<seq<Edge>> {
    if edges == [] then {}
    else
      var e := edges[|edges| - 1];
      Hits(en, edges[..|edges| - 1], target)
      + (if e.target !in en.visited && e.target == target then {en.trail + [e]} else {})
  }

  function ExtendAll(frontier: seq<Entry>, outgoing: map<string, seq<Edge>>, target: string): seq<Entry> {
    if frontier == [] then []
    else
      var en := frontier[|frontier| - 1];
      ExtendAll(frontier[..|frontier| - 1], outgoing, target) + Extend(en, Get(outgoing, en.node), target)
  }

  function HitAll(frontier: seq<Entry>, outgoing: map<string, seq<Edge>>, target: string): set<seq<Edge>> {
    if frontier == [] then {}
    else
      var en := frontier[|frontier| - 1];
      HitAll(frontier[..|frontier| - 1], outgoing, target) + Hits(en, Get(outgoing, en.node), target)
  }

  /** One more edge of an entry. */
  lemma ExtendNext(en: Entry, edges: seq<Edge>, j: nat, target: string)
    requires j < |edges|
    ensures
      var e := edges[j];
      && Extend(en, edges[..j + 1], target) ==
         Extend(en, edges[..j], target)
         + (if e.target in en.visited || e.target == target then []
            else [Entry(e.target, en.trail + [e], en.visited + {e.target})])
      && Hits(en, edges[..j + 1], target) ==
         Hits(en, edges[..j], target) + (if e.target !in en.visited && e.target == target then {en.trail + [e]} else {})
  {
    assert edges[..j + 1][..j] == edges[..j];
  }

  /** One more entry of the frontier. */
  lemma ExtendAllNext(frontier: seq<Entry>, outgoing: map<string, seq<Edge>>, target: string, i: nat)
    requires i < |frontier|
    ensures
      var en := frontier[i];
      && ExtendAll(frontier[..i + 1], outgoing, target) ==
         ExtendAll(frontier[..i], outgoing, target) + Extend(en, Get(outgoing, en.node), target)
      && HitAll(frontier[..i + 1], outgoing, target) ==
         HitAll(frontier[..i], outgoing, target) + Hits(en, Get(outgoing, en.node), target)
  {
    assert frontier[..i + 1][..i] == frontier[..i];
  }

  method ExtendFrontier(
    frontier: seq<Entry>, outgoing: map<string, seq<Edge>>, target: string, discovered0: set<seq<Edge>>)
    returns (next: seq<Entry>, discovered: set<seq<Edge>>)
    ensures next == ExtendAll(frontier, outgoing, target)
    ensures discovered == discovered0 + HitAll(frontier, outgoing, target)
  {
    next, discovered := [], discovered0;
    assert ExtendAll(frontier[..0], outgoing, target) == [] && HitAll(frontier[..0], outgoing, target) == {};
    assert frontier[..|frontier|] == frontier;
    hide ExtendAll, HitAll;
    for i := 0 to |frontier|
      invariant next == ExtendAll(frontier[..i], outgoing, target)
      invariant discovered == discovered0 + HitAll(frontier[..i], outgoing, target)
    {
      var en := frontier[i];
      var edges := Get(outgoing, en.node);
      ghost var next0, discovered1 := next, discovered;
      assert Extend(en, edges[..0], target) == [] && Hits(en, edges[..0], target) == {};
      assert edges[..|edges|] == edges;
      hide Extend, Hits, Get;
      for j := 0 to |edges|
        invariant next == next0 + Extend(en, edges[..j], target)
        invariant discovered == discovered1 + Hits(en, edges[..j], target)
      {
        var edge := edges[j];
        ExtendNext(en, edges, j, target);
        var reached := edge.target;
        if reached !in en.visited {
          var trail := en.trail + [edge];
          if reached == target {
            UnionAssociates(discovered1, Hits(en, edges[..j], target), {trail});
            discovered := discovered + {trail};
          } else {
            Associate(next0, Extend(en, edges[..j], target), [Entry(reached, trail, en.visited + {reached})]);
            next := next + [Entry(reached, trail, en.visited + {reached})];
          }
        }
      }
      ExtendAllNext(frontier, outgoing, target, i);
      UnionAssociates(discovered0, HitAll(frontier[..i], outgoing, target), Hits(en, edges, target));
    }
  }

  lemma {:induction false} ExtendMember(en: Entry, edges: seq<Edge>, target: string, x: Entry)
    ensures x in Extend(en, edges, target) <==>
            exists e :: e in edges && e.target !in en.visited && e.target != target
                        && x == Entry(e.target, en.trail + [e], en.visited + {e.target})
  {
    if edges != [] {
      var init, last := edges[..|edges| - 1], edges[|edges| - 1];
      ExtendMember(en, init, target, x);
      assert edges == init + [last];
      assert forall e :: e in edges <==> e in init || e == last;
    }
  }

  lemma {:induction false} HitsMember(en: Entry, edges: seq<Edge>, target: string, w: seq<Edge>)
    ensures w in Hits(en, edges, target) <==>
            exists e :: e in edges && e.target !in en.visited && e.target == target && w == en.trail + [e]
  {
    if edges != [] {
      var init, last := edges[..|edges| - 1], edges[|edges| - 1];
      HitsMember(en, init, target, w);
      assert edges == init + [last];
      assert forall e :: e in edges <==> e in init || e == last;
    }
  }

  lemma {:induction false} ExtendAllMember(
    frontier: seq<Entry>, outgoing: map<string, seq<Edge>>, target: string, x: Entry)
    ensures x in ExtendAll(frontier, outgoing, target) <==>
            exists en :: en in frontier && x in Extend(en, Get(outgoing, en.node), target)
  {
    if frontier != [] {
      var init, last := frontier[..|frontier| - 1], frontier[|frontier| - 1];
      ExtendAllMember(init, outgoing, target, x);
      assert frontier == init + [last];
      assert forall en :: en in frontier <==> en in init || en == last;
    }
  }

  lemma {:induction false} HitAllMember(
    frontier: seq<Entry>, outgoing: map<string, seq<Edge>>, target: string, w: seq<Edge>)
    ensures w in HitAll(frontier, outgoing, target) <==>
            exists en :: en in frontier && w in Hits(en, Get(outgoing, en.node), target)
  {
    if frontier != [] {
      var init, last := frontier[..|frontier| - 1], frontier[|frontier| - 1];
      HitAllMember(init, outgoing, target, w);
      assert frontier == init + [last];
      assert forall en :: en in frontier <==> en in init || en == last;
    }
  }

  // ----- the round invariant -----

  function EntryOf(g: PathQuery, w: seq<Edge>): Entry { Entry(End(g, w), w, Visited(g, w)) }

  /** The frontier holds the entries of exactly the trails of round `r`. */
  ghost predicate Extending(g: PathQuery, r: nat, frontier: seq<Entry>) {
    forall x :: x in frontier <==> InFrontier(g, r, x.trail) && x == EntryOf(g, x.trail)
  }

  ghost predicate Discovered(g: PathQuery, r: nat, discovered: set<seq<Edge>>) {
    forall w :: w in discovered <==> Answer(g, r, w)
  }

  /** The grouped answer offers, at each node of round `r`, its edges if the node is new and nothing otherwise. */
  ghost predicate Offers(g: PathQuery, r: nat, outgoing: map<string, seq<Edge>>) {
    forall w :: InFrontier(g, r, w) ==> OffersAt(g, r, outgoing, End(g, w))
  }

  ghost predicate OffersAt(g: PathQuery, r: nat, outgoing: map<string, seq<Edge>>, v: string) {
    forall e :: e in Get(outgoing, v) <==> g.Has(e) && e.source == v && Level(g, v, r)
  }

  /** `x` is made from an entry of the frontier by one offered edge. */
  ghost predicate MadeFrom(g: PathQuery, frontier: seq<Entry>, outgoing: map<string, seq<Edge>>, w: seq<Edge>, r: nat) {
    && |w| == r + 1 && EntryOf(g, w[..r]) in frontier
    && w[r] in Get(outgoing, End(g, w[..r])) && w[r].target !in Visited(g, w[..r])
  }

  lemma MadeFromStep(g: PathQuery, r: nat, frontier: seq<Entry>, outgoing: map<string, seq<Edge>>, w: seq<Edge>)
    requires Extending(g, r, frontier) && Offers(g, r, outgoing)
    ensures MadeFrom(g, frontier, outgoing, w, r) && w[r].target != g.target <==> InFrontier(g, r + 1, w)
    ensures (MadeFrom(g, frontier, outgoing, w, r) && w[r].target == g.target) || Answer(g, r, w) <==>
            Answer(g, r + 1, w)
  {
    hide Level, Tight, Answer;
    FrontierStep(g, r, w);
    AnswerStep(g, r, w);
    if |w| == r + 1 {
      var init := w[..r];
      assert EntryOf(g, init).trail == init;
      assert EntryOf(g, init) in frontier <==> InFrontier(g, r, init);
      if InFrontier(g, r, init) {
        assert OffersAt(g, r, outgoing, End(g, init));
        TargetNotVisited(g, r, init);
      }
    }
  }

  lemma TargetNotVisited(g: PathQuery, r: nat, w: seq<Edge>)
    requires InFrontier(g, r, w)
    ensures g.target !in Visited(g, w)
  {
    VisitedIsSources(g, w, g.target);
  }

  lemma EntryMade(g: PathQuery, r: nat, frontier: seq<Entry>, outgoing: map<string, seq<Edge>>, en: Entry, e: Edge)
    requires Extending(g, r, frontier) && en in frontier && e in Get(outgoing, en.node) && e.target !in en.visited
    ensures MadeFrom(g, frontier, outgoing, en.trail + [e], r)
    ensures EntryOf(g, en.trail + [e]) == Entry(e.target, en.trail + [e], en.visited + {e.target})
  {
    hide Level;
    var w := en.trail + [e];
    assert InFrontier(g, r, en.trail) && en == EntryOf(g, en.trail);
    assert w[..r] == en.trail && w[r] == e;
    assert forall x :: x in w <==> x in en.trail || x == e;
  }

  lemma NextExtending(g: PathQuery, r: nat, frontier: seq<Entry>, outgoing: map<string, seq<Edge>>)
    requires Extending(g, r, frontier) && Offers(g, r, outgoing)
    ensures Extending(g, r + 1, ExtendAll(frontier, outgoing, g.target))
  {
    hide *;
    var next := ExtendAll(frontier, outgoing, g.target);
    forall x: Entry | x in next
      ensures InFrontier(g, r + 1, x.trail) && x == EntryOf(g, x.trail)
    {
      NextEntryIsNew(g, r, frontier, outgoing, x);
    }
    forall x: Entry | InFrontier(g, r + 1, x.trail) && x == EntryOf(g, x.trail)
      ensures x in next
    {
      NewEntryIsNext(g, r, frontier, outgoing, x);
    }
    ExtendingIs(g, r + 1, next);
  }

  lemma ExtendingIs(g: PathQuery, r: nat, frontier: seq<Entry>)
    requires forall x: Entry :: x in frontier ==> InFrontier(g, r, x.trail) && x == EntryOf(g, x.trail)
    requires forall x: Entry :: InFrontier(g, r, x.trail) && x == EntryOf(g, x.trail) ==> x in frontier
    ensures Extending(g, r, frontier)
  {
  }

  lemma NextEntryIsNew(g: PathQuery, r: nat, frontier: seq<Entry>, outgoing: map<string, seq<Edge>>, x: Entry)
    requires Extending(g, r, frontier) && Offers(g, r, outgoing)
    requires x in ExtendAll(frontier, outgoing, g.target)
    ensures InFrontier(g, r + 1, x.trail) && x == EntryOf(g, x.trail)
  {
    hide Level, InFrontier, Offers, Extending, EntryOf, ExtendAll, Extend;
    ExtendAllMember(frontier, outgoing, g.target, x);
    MadeFromStep(g, r, frontier, outgoing, x.trail);
    var en :| en in frontier && x in Extend(en, Get(outgoing, en.node), g.target);
    ExtendMember(en, Get(outgoing, en.node), g.target, x);
    var e :| e in Get(outgoing, en.node) && e.target !in en.visited && e.target != g.target
             && x == Entry(e.target, en.trail + [e], en.visited + {e.target});
    EntryMade(g, r, frontier, outgoing, en, e);
    assert x.trail[|x.trail| - 1] == e;
  }

  lemma NewEntryIsNext(g: PathQuery, r: nat, frontier: seq<Entry>, outgoing: map<string, seq<Edge>>, x: Entry)
    requires Extending(g, r, frontier) && Offers(g, r, outgoing)
    requires InFrontier(g, r + 1, x.trail) && x == EntryOf(g, x.trail)
    ensures x in ExtendAll(frontier, outgoing, g.target)
  {
    hide Level, InFrontier, Offers, Extending, ExtendAll, Extend;
    ExtendAllMember(frontier, outgoing, g.target, x);
    MadeFromStep(g, r, frontier, outgoing, x.trail);
    var w := x.trail;
    var en, e := EntryOf(g, w[..r]), w[r];
    assert w == en.trail + [e];
    EntryMade(g, r, frontier, outgoing, en, e);
    ExtendMember(en, Get(outgoing, en.node), g.target, x);
  }

  lemma NextDiscovered(
    g: PathQuery, r: nat, frontier: seq<Entry>, outgoing: map<string, seq<Edge>>, discovered: set<seq<Edge>>)
    requires Extending(g, r, frontier) && Offers(g, r, outgoing) && Discovered(g, r, discovered)
    ensures Discovered(g, r + 1, discovered + HitAll(frontier, outgoing, g.target))
  {
    hide Extending, Offers, Answer, HitAll, MadeFrom;
    forall w: seq<Edge>
      ensures w in discovered + HitAll(frontier, outgoing, g.target) <==> Answer(g, r + 1, w)
    {
      MadeFromStep(g, r, frontier, outgoing, w);
      HitIsMade(g, r, frontier, outgoing, w);
    }
  }

  lemma HitIsMade(g: PathQuery, r: nat, frontier: seq<Entry>, outgoing: map<string, seq<Edge>>, w: seq<Edge>)
    requires Extending(g, r, frontier)
    ensures w in HitAll(frontier, outgoing, g.target) <==>
            MadeFrom(g, frontier, outgoing, w, r) && w[r].target == g.target
  {
    HitAllMember(frontier, outgoing, g.target, w);
    hide InFrontier, HitAll, Hits;
    if en :| en in frontier && w in Hits(en, Get(outgoing, en.node), g.target) {
      HitsMember(en, Get(outgoing, en.node), g.target, w);
      var e :| e in Get(outgoing, en.node) && e.target !in en.visited && e.target == g.target && w == en.trail + [e];
      EntryMade(g, r, frontier, outgoing, en, e);
      assert w[r] == e by {
        assert |w| == r + 1;
      }
    }
    if MadeFrom(g, frontier, outgoing, w, r) && w[r].target == g.target {
      var en, e := EntryOf(g, w[..r]), w[r];
      assert w == en.trail + [e];
      HitsMember(en, Get(outgoing, en.node), g.target, w);
    }
  }

  // ----- grouping one answer -----

  /** After `i` rows: new edges are filed under their source, once each, and every edge is indexed by id. */
  ghost predicate Filed(
    g: PathQuery, rows: seq<Row>, known: map<string, Row>, outgoing: map<string, seq<Edge>>, records: map<string, Row>)
  {
    && Indexed(g.table, g.rels, records)
    && IdsFiled(rows, known, records)
    && EdgesFiled(rows, known, outgoing)
    && |records| <= |known| + |rows|
  }

  ghost predicate IdsFiled(rows: seq<Row>, known: map<string, Row>, records: map<string, Row>) {
    forall id :: id in records <==> id in known || exists r :: r in rows && r.mappable && r.edge.id == id
  }

  ghost predicate EdgesFiled(rows: seq<Row>, known: map<string, Row>, outgoing: map<string, seq<Edge>>) {
    forall v, e :: e in Get(outgoing, v) <==> HasRow(rows, e) && e.source == v && e.id !in known
  }

  lemma FiledSkip(
    g: PathQuery, rows: seq<Row>, row: Row, known: map<string, Row>, outgoing: map<string, seq<Edge>>,
    records: map<string, Row>)
    requires IdsAgree(g.table) && Filed(g, rows, known, outgoing, records)
    requires forall r :: r in rows + [row] ==> r in g.table && r.edge.relationship in g.rels
    requires !row.mappable || row.edge.id in records
    ensures Filed(g, rows + [row], known, outgoing, records)
  {
    SkippedIds(rows, row, known, records);
    SkippedEdges(g, rows, row, known, records);
    hide Indexed, IdsFiled, HasRow, IdsAgree;
  }

  lemma SkippedIds(rows: seq<Row>, row: Row, known: map<string, Row>, records: map<string, Row>)
    requires IdsFiled(rows, known, records) && (!row.mappable || row.edge.id in records)
    ensures IdsFiled(rows + [row], known, records)
  {
    var more := rows + [row];
    forall id
      ensures id in records <==> id in known || exists r :: r in more && r.mappable && r.edge.id == id
    {
      if r :| r in rows && r.mappable && r.edge.id == id {
        assert r in more;
      }
    }
  }

  /** A row whose id is known brings no new edge. */
  lemma SkippedEdges(g: PathQuery, rows: seq<Row>, row: Row, known: map<string, Row>, records: map<string, Row>)
    requires IdsAgree(g.table) && IdsFiled(rows, known, records) && (!row.mappable || row.edge.id in records)
    requires forall r :: r in rows + [row] ==> r in g.table && r.edge.relationship in g.rels
    ensures forall e: Edge :: e.id !in known ==> (HasRow(rows + [row], e) <==> HasRow(rows, e))
  {
    var more := rows + [row];
    assert forall r :: r in more <==> r in rows || r == row;
    if row.mappable && row.edge.id !in known {
      var r :| r in rows && r.mappable && r.edge.id == row.edge.id;
      assert r in more && row in more;
      assert r.edge == row.edge;
    }
    forall e: Edge | e.id !in known
      ensures HasRow(more, e) <==> HasRow(rows, e)
    {
      if r :| r in rows && r.mappable && r.edge == e {
        assert r in more;
      }
    }
  }

  lemma FiledNew(
    g: PathQuery, rows: seq<Row>, row: Row, known: map<string, Row>, outgoing: map<string, seq<Edge>>,
    records: map<string, Row>)
    requires Filed(g, rows, known, outgoing, records)
    requires row in g.table && row.edge.relationship in g.rels
    requires row.mappable && row.edge.id !in records
    ensures
      var e := row.edge;
      Filed(g, rows + [row], known, outgoing[e.source := Get(outgoing, e.source) + [e]], records[e.id := row])
  {
    assert row.edge.id !in known;
    FiledOutgoing(rows, row, known, outgoing);
    FiledIds(rows, row, known, records);
    hide EdgesFiled, IdsFiled;
  }

  lemma FiledOutgoing(rows: seq<Row>, row: Row, known: map<string, Row>, outgoing: map<string, seq<Edge>>)
    requires EdgesFiled(rows, known, outgoing) && row.mappable && row.edge.id !in known
    ensures EdgesFiled(rows + [row], known, outgoing[row.edge.source := Get(outgoing, row.edge.source) + [row.edge]])
  {
    var e := row.edge;
    var outgoing' := outgoing[e.source := Get(outgoing, e.source) + [e]];
    forall v, x
      ensures x in Get(outgoing', v) <==> HasRow(rows + [row], x) && x.source == v && x.id !in known
    {
      assert x in Get(outgoing', v) <==> x in Get(outgoing, v) || (v == e.source && x == e);
    }
  }

  lemma FiledIds(rows: seq<Row>, row: Row, known: map<string, Row>, records: map<string, Row>)
    requires IdsFiled(rows, known, records) && row.mappable
    ensures IdsFiled(rows + [row], known, records[row.edge.id := row])
  {
    var records' := records[row.edge.id := row];
    forall id
      ensures id in records' <==> id in known || exists r :: r in rows + [row] && r.mappable && r.edge.id == id
    {
      if id == row.edge.id {
        assert row in rows + [row];
      } else if id in records && id !in known {
        var r :| r in rows && r.mappable && r.edge.id == id;
        assert r in rows + [row];
      }
    }
  }

  method GroupNew(g: PathQuery, rows: seq<Row>, known: map<string, Row>)
    returns (outgoing: map<string, seq<Edge>>, edgeById: map<string, Row>)
    requires IdsAgree(g.table) && Indexed(g.table, g.rels, known)
    requires forall r :: r in rows ==> r in g.table && r.edge.relationship in g.rels
    ensures Filed(g, rows, known, outgoing, edgeById)
  {
    edgeById := known;
    var bySource: map<string, seq<Edge>> := map[];
    assert rows[..0] == [];
    assert Filed(g, rows[..0], known, bySource, edgeById);
    hide Filed, IdsAgree, Indexed;
    for i := 0 to |rows|
      invariant Filed(g, rows[..i], known, bySource, edgeById)
    {
      var row := rows[i];
      assert rows[..i + 1] == rows[..i] + [row];
      assert forall r :: r in rows[..i + 1] ==> r in rows;
      if !row.mappable || row.edge.id in edgeById {
        FiledSkip(g, rows[..i], row, known, bySource, edgeById);
      } else {
        FiledNew(g, rows[..i], row, known, bySource, edgeById);
        var edge := row.edge;
        edgeById := edgeById[edge.id := row];
        bySource := bySource[edge.source := Get(bySource, edge.source) + [edge]];
      }
    }
    assert rows[..|rows|] == rows;
    outgoing := map v | v in bySource :: SortById(bySource[v]);
    FiledSorted(g, rows, known, bySource, edgeById);
  }

  lemma FiledSorted(
    g: PathQuery, rows: seq<Row>, known: map<string, Row>, bySource: map<string, seq<Edge>>, records: map<string, Row>)
    requires Filed(g, rows, known, bySource, records)
    ensures Filed(g, rows, known, map v | v in bySource :: SortById(bySource[v]), records)
  {
    hide SortById, HasRow, Indexed, IdsFiled;
    var outgoing := map v | v in bySource :: SortById(bySource[v]);
    forall v, e
      ensures e in Get(outgoing, v) <==> e in Get(bySource, v)
    {
      SortedMember(Get(bySource, v), e);
    }
  }

  lemma SortedMember(es: seq<Edge>, e: Edge)
    ensures e in SortById(es) <==> e in es
  {
    SortByContents(es, EdgeKey, StringLess);
  }

  // ----- what an answer means to the round -----

  ghost predicate AnswerRows(g: PathQuery, sources: set<string>, rows: seq<Row>) {
    forall r :: r in rows <==> r in g.table && r.edge.relationship in g.rels && r.edge.source in sources
  }

  lemma AnswerComplete(g: PathQuery, sources: set<string>, rows: seq<Row>)
    requires multiset(rows) == multiset(Select(g.table, Downstream, g.rels, sources))
    ensures AnswerRows(g, sources, rows)
  {
    forall r
      ensures r in rows <==> r in g.table && r.edge.relationship in g.rels && r.edge.source in sources
    {
      SelectMember(g.table, Downstream, g.rels, sources, r);
      assert r in rows <==> r in multiset(rows);
    }
  }

  lemma AnswerHas(g: PathQuery, sources: set<string>, rows: seq<Row>, e: Edge)
    requires AnswerRows(g, sources, rows)
    ensures HasRow(rows, e) <==> HasRow(g.table, e) && e.relationship in g.rels && e.source in sources
  {
    if r :| r in g.table && r.mappable && r.edge == e && e.relationship in g.rels && e.source in sources {
      assert r in rows;
    }
  }

  lemma KnownBySource(g: PathQuery, r: nat, e: Edge)
    requires IdsAgree(g.table) && g.Has(e)
    ensures KnownId(g, r, e.id) <==> ExpandedBefore(g, r, e.source)
  {
    if KnownId(g, r, e.id) {
      var e' :| g.Has(e') && e'.id == e.id && ExpandedBefore(g, r, e'.source);
      StoredIdUnique(g.table, g.rels, e', e);
    }
  }

  lemma SourceStatus(g: PathQuery, r: nat, sources: set<string>, v: string)
    requires SourcesAt(g, r, sources)
    ensures v in sources ==>
              v != g.target && (ExpandedBefore(g, r, v) || Level(g, v, r))
              && !(ExpandedBefore(g, r, v) && Level(g, v, r))
    ensures v != g.target && Level(g, v, r) ==> v in sources
    ensures ExpandedBefore(g, r + 1, v) <==> ExpandedBefore(g, r, v) || (v != g.target && Level(g, v, r))
  {
    if v in sources {
      var w :| InFrontier(g, r, w) && End(g, w) == v;
      FrontierLevel(g, w, r);
    }
    if v != g.target && Level(g, v, r) {
      FrontierReaches(g, v, r);
    }
  }

  lemma FiledOffers(
    g: PathQuery, r: nat, sources: set<string>, rows: seq<Row>, known: map<string, Row>,
    outgoing: map<string, seq<Edge>>, records: map<string, Row>)
    requires IdsAgree(g.table) && SourcesAt(g, r, sources) && KnownAt(g, r, known.Keys)
    requires AnswerRows(g, sources, rows) && Filed(g, rows, known, outgoing, records)
    ensures Offers(g, r, outgoing)
    ensures KnownAt(g, r + 1, records.Keys)
  {
    hide InFrontier, Level, IdsAgree, HasRow, AnswerRows;
    forall w | InFrontier(g, r, w)
      ensures OffersAt(g, r, outgoing, End(g, w))
    {
      var v := End(g, w);
      assert v in sources;
      SourceStatus(g, r, sources, v);
      forall e
        ensures e in Get(outgoing, v) <==> g.Has(e) && e.source == v && Level(g, v, r)
      {
        AnswerHas(g, sources, rows, e);
        if g.Has(e) && e.source == v {
          KnownBySource(g, r, e);
          assert e.id in known.Keys <==> KnownId(g, r, e.id);
        }
      }
    }
    forall id
      ensures id in records.Keys <==> KnownId(g, r + 1, id)
    {
      KnownNext(g, r, sources, rows, id);
    }
  }

  lemma KnownNext(g: PathQuery, r: nat, sources: set<string>, rows: seq<Row>, id: string)
    requires SourcesAt(g, r, sources) && AnswerRows(g, sources, rows)
    ensures KnownId(g, r + 1, id) <==>
            KnownId(g, r, id) || exists row :: row in rows && row.mappable && row.edge.id == id
  {
    hide InFrontier, Level, SourcesAt, ExpandedBefore;
    if KnownId(g, r + 1, id) {
      var e :| g.Has(e) && e.id == id && ExpandedBefore(g, r + 1, e.source);
      SourceStatus(g, r, sources, e.source);
      var row :| row in g.table && row.mappable && row.edge == e;
    }
    if KnownId(g, r, id) {
      var e :| g.Has(e) && e.id == id && ExpandedBefore(g, r, e.source);
      SourceStatus(g, r, sources, e.source);
    }
    if row :| row in rows && row.mappable && row.edge.id == id {
      assert g.Has(row.edge);
      SourceStatus(g, r, sources, row.edge.source);
    }
  }

  /** One query of a round: refused when the budget is spent or the answer exceeds what is left of it. */
  method AskRound(g: PathQuery, ghost r: nat, sources: set<string>, known: map<string, Row>, budget: nat)
    returns (ok: bool, outgoing: map<string, seq<Edge>>, edgeById: map<string, Row>)
    requires IdsAgree(g.table) && Indexed(g.table, g.rels, known) && sources != {}
    requires SourcesAt(g, r, sources) && KnownAt(g, r, known.Keys) && |known| <= budget
    ensures ok <==> RoundAffords(g, r, budget)
    ensures Indexed(g.table, g.rels, edgeById) && |edgeById| <= budget
    ensures ok ==> Offers(g, r, outgoing) && KnownAt(g, r + 1, edgeById.Keys)
  {
    hide IdsAgree, Indexed, SourcesAt, KnownAt, Offers, RoundAffords, AnswerRows, Select;
    edgeById, outgoing := known, map[];
    FitsExactly(g, r, sources, known, budget);
    if budget <= |edgeById| {
      return false, outgoing, edgeById;
    }
    var remaining := budget - |edgeById|;
    ghost var all := Select(g.table, Downstream, g.rels, sources);
    var rows := Limited(Select(g.table, Downstream, g.rels, sources), remaining + 1);
    BagSize(rows, all);
    if |rows| > remaining {
      return false, outgoing, edgeById;
    }
    BagSize(all, rows);
    AnswerComplete(g, sources, rows);
    RowsStored(g, sources, rows);
    outgoing, edgeById := GroupNew(g, rows, edgeById);
    FiledOffers(g, r, sources, rows, known, outgoing, edgeById);
    ok := true;
  }

  lemma RowsStored(g: PathQuery, sources: set<string>, rows: seq<Row>)
    requires AnswerRows(g, sources, rows)
    ensures forall r :: r in rows ==> r in g.table && r.edge.relationship in g.rels
  {
  }

  lemma FitsExactly(g: PathQuery, r: nat, sources: set<string>, known: map<string, Row>, budget: nat)
    requires SourcesAt(g, r, sources) && KnownAt(g, r, known.Keys) && sources != {}
    ensures RoundAffords(g, r, budget) <==>
            |known| < budget && |known| + |Select(g.table, Downstream, g.rels, sources)| <= budget
  {
    hide InFrontier, KnownId, Select;
    assert |known.Keys| == |known|;
    forall sources', known' | SourcesAt(g, r, sources') && KnownAt(g, r, known')
      ensures sources' == sources && known' == known.Keys
    {
    }
  }

  // ----- the search -----

  lemma SearchStarts(g: PathQuery)
    requires g.source != g.target
    ensures Extending(g, 0, [Entry(g.source, [], {g.source})])
    ensures Discovered(g, 0, {}) && KnownAt(g, 0, {}) && Indexed(g.table, g.rels, map[])
  {
    assert EntryOf(g, []) == Entry(g.source, [], {g.source});
  }

  lemma FrontierSources(g: PathQuery, r: nat, frontier: seq<Entry>)
    requires Extending(g, r, frontier)
    ensures SourcesAt(g, r, set en | en in frontier :: en.node)
  {
    hide InFrontier;
    var sources := set en | en in frontier :: en.node;
    forall v
      ensures v in sources <==> exists w :: InFrontier(g, r, w) && End(g, w) == v
    {
      if w :| InFrontier(g, r, w) && End(g, w) == v {
        assert EntryOf(g, w).trail == w;
        assert EntryOf(g, w) in frontier;
      }
    }
  }

  /** With no trail left to extend, the remaining rounds ask nothing and find nothing. */
  lemma SearchEnds(g: PathQuery, r: nat, hops: nat, frontier: seq<Entry>, budget: nat, discovered: set<seq<Edge>>)
    requires r <= hops && Extending(g, r, frontier) && frontier == []
    requires Affords(g, r, budget) && Discovered(g, r, discovered)
    ensures Affords(g, hops, budget) && Discovered(g, hops, discovered)
  {
    hide InFrontier, Answer;
    forall w
      ensures !InFrontier(g, r, w)
    {
      assert EntryOf(g, w).trail == w;
    }
    FrontierDry(g, r, hops);
    forall m | r <= m < hops
      ensures RoundAffords(g, m, budget)
    {
      FrontierDry(g, r, m);
    }
  }

  lemma NoSources(frontier: seq<Entry>)
    ensures (set en | en in frontier :: en.node) == {} <==> frontier == []
  {
    var nodes := set en | en in frontier :: en.node;
    if frontier != [] {
      assert frontier[0].node in nodes;
    } else {
      assert forall v :: v !in nodes;
    }
  }

  /** Every edge of an answer leaves a node expanded before, so it is recorded. */
  lemma AnswersRecorded(g: PathQuery, r: nat, discovered: set<seq<Edge>>, records: map<string, Row>)
    requires IdsAgree(g.table) && Indexed(g.table, g.rels, records)
    requires KnownAt(g, r, records.Keys) && Discovered(g, r, discovered)
    ensures forall w :: w in discovered ==> TrailRecorded(records, w)
  {
    hide Level, IdsAgree;
    forall w, e | w in discovered && e in w
      ensures HasRecord(records, e)
    {
      assert Answer(g, r, w);
      var i :| 0 <= i < |w| && w[i] == e;
      assert g.Has(e) && ExpandedBefore(g, r, e.source);
      assert KnownId(g, r, e.id);
      RecordAgrees(g, records, e);
    }
  }

  lemma RecordAgrees(g: PathQuery, records: map<string, Row>, e: Edge)
    requires IdsAgree(g.table) && Indexed(g.table, g.rels, records) && g.Has(e) && e.id in records
    ensures HasRecord(records, e)
  {
    assert IsRecord(g.table, g.rels, e.id, records[e.id]);
  }

  method Search(g: PathQuery, hops: nat, budget: nat)
    returns (r: Result<set<seq<Edge>>, Failure>, edgeById: map<string, Row>)
    requires IdsAgree(g.table) && g.source != g.target
    ensures r.Ok? <==> Affords(g, hops, budget)
    ensures r.Ok? ==> forall w :: w in r.value <==> Answer(g, hops, w)
    ensures r.Ok? ==> forall w :: w in r.value ==> TrailRecorded(edgeById, w)
    ensures Indexed(g.table, g.rels, edgeById) && |edgeById| <= budget
  {
    edgeById := map[];
    var discovered: set<seq<Edge>> := {};
    var frontier := [Entry(g.source, [], {g.source})];
    SearchStarts(g);
    hide IdsAgree, Indexed, KnownAt, Offers, RoundAffords, Extending, SourcesAt, InFrontier, Answer, TrailRecorded;
    var round := 0;
    while round < hops
      invariant 0 <= round <= hops
      invariant Extending(g, round, frontier) && Discovered(g, round, discovered)
      invariant Indexed(g.table, g.rels, edgeById) && KnownAt(g, round, edgeById.Keys) && |edgeById| <= budget
      invariant Affords(g, round, budget)
      invariant forall w :: w in discovered ==> TrailRecorded(edgeById, w)
    {
      var sources := set en | en in frontier :: en.node;
      FrontierSources(g, round, frontier);
      if sources == {} {
        NoSources(frontier);
        SearchEnds(g, round, hops, frontier, budget, discovered);
        break;
      }
      var outgoing, ok;
      ok, outgoing, edgeById := AskRound(g, round, sources, edgeById, budget);
      if !ok {
        return Err(LimitExceeded), edgeById;
      }
      NextExtending(g, round, frontier, outgoing);
      NextDiscovered(g, round, frontier, outgoing, discovered);
      frontier, discovered := ExtendFrontier(frontier, outgoing, g.target, discovered);
      round := round + 1;
      AnswersRecorded(g, round, discovered, edgeById);
    }
    r := Ok(discovered);
  }

  // ----- ordering and paging the answer -----

  datatype PathKey = PathKey(length: nat, targets: seq<string>, ids: seq<string>)

  function KeyOf(w: seq<Edge>): PathKey { PathKey(|w|, Targets(w), Ids(w)) }

  predicate PathLess(a: PathKey, b: PathKey) {
    a.length < b.length
    || (a.length == b.length
        && (NamesLess(a.targets, b.targets) || (a.targets == b.targets && NamesLess(a.ids, b.ids))))
  }

  lemma PathStrictTotal()
    ensures StrictTotal(PathLess)
  {
    hide NamesLess;
    NamesStrictTotal();
  }

  lemma AnswerKeys(g: PathQuery, hops: nat, records: seq<seq<Edge>>)
    requires IdsAgree(g.table) && forall w :: w in records ==> Answer(g, hops, w)
    ensures KeyInjective(records, KeyOf)
  {
    forall i, j | 0 <= i < |records| && 0 <= j < |records| && KeyOf(records[i]) == KeyOf(records[j])
      ensures records[i] == records[j]
    {
      assert Answer(g, hops, records[i]) && Answer(g, hops, records[j]);
      IdsDetermine(g.table, g.rels, records[i], records[j]);
    }
  }

  /** The full ordered list behind the pages: every answer once, in key order. */
  ghost predicate Ordered(g: PathQuery, hops: nat, records: seq<seq<Edge>>) {
    && Distinct(records)
    && (forall w :: w in records <==> g.source != g.target && Answer(g, hops, w))
    && SortedBy(records, KeyOf, PathLess)
  }

  /** One page of the ordered list, each edge shown as a stored row. */
  ghost predicate IsPage(g: PathQuery, hops: nat, page: Page<seq<Row>>, limit: int, offset: int, maxRows: nat)
    requires maxRows >= 1
  {
    exists trails, records ::
      && Ordered(g, hops, trails)
      && Indexed(g.table, g.rels, records) && (forall w :: w in trails ==> TrailRecorded(records, w))
      && page == PageOf(PathsOf(records, trails), limit, offset, maxRows)
  }

  method FindPaths(g: PathQuery, maxHops: int, hopLimit: nat, budget: nat, limit: int, offset: int, maxRows: nat)
    returns (r: Result<Page<seq<Row>>, Failure>)
    requires IdsAgree(g.table) && hopLimit >= 1 && maxRows >= 1
    ensures
      var hops := Max(1, Min(maxHops, hopLimit));
      && (r.Ok? <==> g.source == g.target || Affords(g, hops, budget))
      && (r.Ok? ==> IsPage(g, hops, r.value, limit, offset, maxRows))
  {
    hide Answer, Affords, IdsAgree, PathLess, KeyOf, SortBy;
    if g.source == g.target {
      assert PageOf<seq<Row>>([], limit, offset, maxRows) == Page([], false, 0);
      assert PathsOf(map[], []) == [];
      assert Ordered(g, Max(1, Min(maxHops, hopLimit)), []);
      return Ok(Page([], false, 0));
    }
    var hops := Max(1, Min(maxHops, hopLimit));
    var found, edgeById := Search(g, hops, budget);
    if found.Err? {
      return Err(found.error);
    }
    var listed := ListOf(found.value);
    var ordered := SortBy(listed, KeyOf, PathLess);
    SortByContents(listed, KeyOf, PathLess);
    DistinctSort(listed, KeyOf, PathLess);
    PathStrictTotal();
    SortBySorted(listed, KeyOf, PathLess);
    assert Ordered(g, hops, ordered);
    var paths := LookUp(edgeById, ordered);
    r := Ok(PageOf(paths, limit, offset, maxRows));
  }

  /** Answers one after the other: shorter first, then by the names of the targets, then by the edge ids. */
  ghost predicate Follows(a: seq<Edge>, b: seq<Edge>) {
    |a| < |b| || (|a| == |b| && TrailBefore(a, b))
  }

  /** The order of the list, told without its sort key. */
  lemma AnswersInOrder(g: PathQuery, hops: nat, trails: seq<seq<Edge>>)
    requires IdsAgree(g.table) && Ordered(g, hops, trails)
    ensures forall i, j :: 0 <= i < j < |trails| ==> Follows(trails[i], trails[j])
  {
    AnswerKeys(g, hops, trails);
    hide IdsAgree, Answer, NamesLess, Targets, Ids, TrailBefore;
    PathStrictTotal();
    forall i, j | 0 <= i < j < |trails|
      ensures Follows(trails[i], trails[j])
    {
      var a, b := trails[i], trails[j];
      assert KeyOf(a) != KeyOf(b) && !PathLess(KeyOf(b), KeyOf(a));
      if |a| == |b| {
        TrailOrder(a, b);
      }
    }
  }

  /** Every step of a path is a stored row. */
  ghost predicate StoredSteps(g: PathQuery, steps: seq<Row>, w: seq<Edge>) {
    && |steps| == |w|
    && forall k :: 0 <= k < |w| ==>
                     && steps[k].edge == w[k] && steps[k] in g.table && steps[k].mappable
                     && steps[k].edge.relationship in g.rels
  }

  /** All answers in order, each once, and what a page of them shows. */
  ghost predicate Answers(g: PathQuery, hops: nat, all: seq<seq<Edge>>) {
    && (forall i, j :: 0 <= i < j < |all| ==> all[i] != all[j] && Follows(all[i], all[j]))
    && (forall w :: w in all <==> g.source != g.target && Answer(g, hops, w))
  }

  ghost predicate PageTells(g: PathQuery, page: Page<seq<Row>>, shown: Page<seq<Edge>>) {
    && page.total == shown.total && page.truncated == shown.truncated && |page.items| == |shown.items|
    && forall k :: 0 <= k < |page.items| ==> StoredSteps(g, page.items[k], shown.items[k])
  }

  /** A page of paths, told without sort keys, records or page arithmetic. */
  lemma PageTheorem(g: PathQuery, hops: nat, page: Page<seq<Row>>, limit: int, offset: int, maxRows: nat)
    requires maxRows >= 1 && IdsAgree(g.table) && IsPage(g, hops, page, limit, offset, maxRows)
    ensures
      var size := if limit < 1 then 1 else if limit < maxRows then limit else maxRows;
      exists all, shown ::
        Answers(g, hops, all) && Cuts(all, if offset < 0 then 0 else offset, size, shown) && PageTells(g, page, shown)
  {
    var trails, records :|
      && Ordered(g, hops, trails)
      && Indexed(g.table, g.rels, records) && (forall w :: w in trails ==> TrailRecorded(records, w))
      && page == PageOf(PathsOf(records, trails), limit, offset, maxRows);
    AnswersInOrder(g, hops, trails);
    assert Answers(g, hops, trails) by {
      hide IdsAgree, Indexed, TrailRecorded, Answer, Follows, PageOf, SortedBy;
    }
    hide Ordered, Answers, IdsAgree, Indexed, TrailRecorded, PathsOf, StoredSteps;
    var shown := PageOf(trails, limit, offset, maxRows);
    PageExactly(trails, limit, offset, maxRows);
    PageExactly(PathsOf(records, trails), limit, offset, maxRows);
    PathsStored(g, records, trails);
    assert PageTells(g, page, shown);
  }

  lemma {:induction false} PathsStored(g: PathQuery, records: map<string, Row>, trails: seq<seq<Edge>>)
    requires Indexed(g.table, g.rels, records) && forall w :: w in trails ==> TrailRecorded(records, w)
    ensures |PathsOf(records, trails)| == |trails|
    ensures forall k :: 0 <= k < |trails| ==> StoredSteps(g, PathsOf(records, trails)[k], trails[k])
  {
    if trails != [] {
      hide Indexed, TrailRecorded, StepsOf, StoredSteps;
      var init, last := trails[..|trails| - 1], trails[|trails| - 1];
      PathsStored(g, records, init);
      assert last in trails;
      StepsAreStored(g, records, last);
    }
  }

  lemma {:induction false} StepsAreStored(g: PathQuery, records: map<string, Row>, w: seq<Edge>)
    requires Indexed(g.table, g.rels, records) && TrailRecorded(records, w)
    ensures StoredSteps(g, StepsOf(records, w), w)
  {
    if w != [] {
      var init, last := w[..|w| - 1], w[|w| - 1];
      StepsAreStored(g, records, init);
      assert HasRecord(records, last) && IsRecord(g.table, g.rels, last.id, records[last.id]);
    }
  }

  /** The ordered list is unique, and two stores holding the same rows in different orders have the same one. */
  lemma PathsForgetOrder(g: PathQuery, table: seq<Row>, hops: nat, records: seq<seq<Edge>>, records': seq<seq<Edge>>)
    requires IdsAgree(g.table) && multiset(table) == multiset(g.table)
    requires Ordered(g, hops, records) && Ordered(g.(table := table), hops, records')
    ensures records == records'
  {
    hide IdsAgree, PathLess, KeyOf;
    forall w
      ensures Answer(g, hops, w) <==> Answer(g.(table := table), hops, w)
    {
      AnswerBag(g, table, hops, w);
    }
    AnswerKeys(g, hops, records);
    PathStrictTotal();
    SameBag(records, records');
    SortedUnique(records, records', KeyOf, PathLess);
  }

  lemma {:induction false} LeadsBag(g: PathQuery, table: seq<Row>, v: string, n: nat)
    requires forall r :: r in table <==> r in g.table
    ensures LeadsTo(g.(table := table), v, n) <==> LeadsTo(g, v, n)
    decreases n
  {
    if n > 0 {
      var m := n - 1;
      forall u
        ensures LeadsTo(g.(table := table), u, m) <==> LeadsTo(g, u, m)
      {
        LeadsBag(g, table, u, m);
      }
      assert forall e :: g.(table := table).Has(e) <==> g.Has(e);
    }
  }

  lemma AnswerBag(g: PathQuery, table: seq<Row>, hops: nat, w: seq<Edge>)
    requires multiset(table) == multiset(g.table)
    ensures Answer(g, hops, w) <==> Answer(g.(table := table), hops, w)
  {
    forall r
      ensures r in table <==> r in g.table
    {
      assert r in multiset(table) <==> r in multiset(g.table);
    }
    forall v, n: nat
      ensures LeadsTo(g.(table := table), v, n) <==> LeadsTo(g, v, n)
    {
      LeadsBag(g, table, v, n);
    }
    hide LeadsTo;
    assert forall v, n: nat :: Level(g.(table := table), v, n) <==> Level(g, v, n);
  }
}
