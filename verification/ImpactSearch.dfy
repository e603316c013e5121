/** The traversal as the gateway runs it: one limited query a round, under an edge budget. */
module ImpactSearch {
  import opened Wrappers
  import opened Ordering
  import opened EdgeStore
  import opened Impact
  import opened ImpactRoutes

  // ----- the budget, told without the traversal's variables -----

  /** Ids of the mappable edges attached to the names expanded so far. */
  ghost function KnownIds(q: Query, expanded: set<string>): set<string> {
    set r | r in q.table && r.mappable && r.edge.relationship in q.rels && q.From(r.edge) in expanded :: r.edge.id
  }

  ghost predicate RoundFits(q: Query, st: State, budget: nat) {
    var names := Fresh(st.frontier, st.expanded);
    var known := |KnownIds(q, st.expanded)|;
    names == [] || (known < budget && known + |Select(q.table, q.direction, q.rels, SetOf(names))| <= budget)
  }

  /** Every round asks for edges while some budget is left, and gets no more rows than that. */
  ghost predicate Fits(q: Query, anchors: seq<string>, hops: nat, budget: nat) {
    forall n :: 0 <= n < hops ==> RoundFits(q, Rounds(q, anchors, n), budget)
  }

  // ----- the budget, on the stored rows -----

  /** What round `n` asks about: the anchors, then the other objects `n` edges away. */
  ghost predicate AsksAt(q: Query, n: nat, p: string) {
    if n == 0 then p in q.anchors else p !in q.anchors && DistanceIs(q, p, n)
  }

  ghost predicate AskedBefore(q: Query, n: nat, p: string) { exists m :: 0 <= m < n && AsksAt(q, m, p) }

  /** The id of an edge that an earlier round has fetched. */
  ghost predicate FetchedBefore(q: Query, n: nat, id: string) {
    exists row :: row in q.table && FetchedRow(q, n, row) && row.edge.id == id
  }

  ghost predicate FetchedRow(q: Query, n: nat, row: Row) {
    && row.mappable && row.edge.relationship in q.rels
    && AskedBefore(q, n, match q.direction case Upstream => row.edge.target case Downstream => row.edge.source)
  }

  /** Some budget is left for round `n` unless there is nothing to ask, and it gets no more rows than that. */
  ghost predicate RoundAffords(q: Query, n: nat, budget: nat) {
    forall names: set<string>, known: set<string> :: AsksAbout(q, n, names) && Fetched(q, n, known) ==>
      names == {} || (|known| < budget && |known| + |Found(q.table, q.direction, q.rels, names)| <= budget)
  }

  ghost predicate AsksAbout(q: Query, n: nat, names: set<string>) { forall p :: p in names <==> AsksAt(q, n, p) }

  ghost predicate Fetched(q: Query, n: nat, known: set<string>) {
    forall id :: id in known <==> FetchedBefore(q, n, id)
  }

  lemma FreshAsks(q: Query, st: State, n: nat)
    requires LayeredState(q, st, n)
    ensures forall p :: p in Fresh(st.frontier, st.expanded) <==> AsksAt(q, n, p)
    ensures forall p :: p in st.expanded <==> AskedBefore(q, n, p)
  {
    hide Leads, Chain, Fresh;
    forall p
      ensures p in Fresh(st.frontier, st.expanded) <==> AsksAt(q, n, p)
      ensures p in st.expanded <==> AskedBefore(q, n, p)
    {
      FreshMember(st.frontier, st.expanded, p);
      ExpandedAsked(q, st, n, p);
      if n > 0 {
        DistanceKnown(q, st, n, p, n);
      }
    }
  }

  lemma DistanceKnown(q: Query, st: State, n: nat, p: string, m: nat)
    requires LayeredState(q, st, n) && 0 < m <= n
    ensures DistanceIs(q, p, m) <==> p in st.search.distance && st.search.distance[p] == m
  {
    hide Leads, Chain;
    WithinLeads(q, p, m);
    WithinLeads(q, p, n);
    if DistanceIs(q, p, m) {
      assert Within(q, p, n);
      AtDistanceUnique(q, p, m, st.search.distance[p]);
    }
  }

  lemma ExpandedAsked(q: Query, st: State, n: nat, p: string)
    requires LayeredState(q, st, n)
    ensures p in st.expanded <==> AskedBefore(q, n, p)
  {
    hide Leads, Chain, DistanceIs, AtDistance, Within;
    forall m | 0 < m < n
      ensures DistanceIs(q, p, m) <==> p in st.search.distance && st.search.distance[p] == m
    {
      DistanceKnown(q, st, n, p, m);
    }
    if p in st.expanded {
      if p in q.anchors {
        assert AsksAt(q, 0, p);
      } else {
        assert AsksAt(q, st.search.distance[p], p);
      }
    }
  }

  lemma KnownFetched(q: Query, st: State, n: nat)
    requires forall p :: p in st.expanded <==> AskedBefore(q, n, p)
    ensures Fetched(q, n, KnownIds(q, st.expanded))
  {
    hide AskedBefore;
    forall row | row in q.table
      ensures FetchedRow(q, n, row) <==>
              row.mappable && row.edge.relationship in q.rels && q.From(row.edge) in st.expanded
    {
    }
  }

  lemma RoundFitsExactly(q: Query, st: State, n: nat, budget: nat)
    requires LayeredState(q, st, n)
    ensures RoundFits(q, st, budget) <==> RoundAffords(q, n, budget)
  {
    FreshAsks(q, st, n);
    KnownFetched(q, st, n);
    hide LayeredState, Fresh, Select, Found, AsksAt, AskedBefore, FetchedBefore, KnownIds;
    var names, known := SetOf(Fresh(st.frontier, st.expanded)), KnownIds(q, st.expanded);
    SelectCount(q.table, q.direction, q.rels, names);
    assert AsksAbout(q, n, names) && Fetched(q, n, known);
    forall names': set<string>, known': set<string> | AsksAbout(q, n, names') && Fetched(q, n, known')
      ensures names' == names && known' == known
    {
    }
    assert names == {} <==> Fresh(st.frontier, st.expanded) == [] by {
      if Fresh(st.frontier, st.expanded) != [] {
        assert Fresh(st.frontier, st.expanded)[0] in names;
      }
    }
  }

  /** The limit error, on the stored rows: it comes exactly when the budget does not last for some round. */
  lemma FitsExactly(q: Query, anchors: seq<string>, hops: nat, budget: nat)
    requires Distinct(anchors) && q.anchors == SetOf(anchors)
    ensures Fits(q, anchors, hops, budget) <==> forall n :: 0 <= n < hops ==> RoundAffords(q, n, budget)
  {
    hide RoundFits, RoundAffords, Rounds, LayeredState;
    forall n | 0 <= n < hops
      ensures RoundFits(q, Rounds(q, anchors, n), budget) <==> RoundAffords(q, n, budget)
    {
      RoundsLayered(q, anchors, n);
      RoundFitsExactly(q, Rounds(q, anchors, n), n, budget);
    }
  }

  // ----- one answer, grouped by the name it was asked for -----

  ghost function IdsOf(rows: seq<Row>): set<string> {
    set r | r in rows && r.mappable :: r.edge.id
  }

  lemma GroupNext(q: Query, rows: seq<Row>, i: nat, name: string)
    requires i < |rows| && rows[i].edge.relationship in q.rels
    ensures EdgesAt(rows[..i + 1], q.direction, q.rels, name) ==
            EdgesAt(rows[..i], q.direction, q.rels, name)
            + (if rows[i].mappable && q.From(rows[i].edge) == name then [rows[i].edge] else [])
  {
    assert rows[..i + 1] == rows[..i] + [rows[i]];
    EdgesAtConcat(rows[..i], [rows[i]], q.direction, q.rels, name);
  }

  lemma IdsNext(rows: seq<Row>, i: nat)
    requires i < |rows|
    ensures IdsOf(rows[..i + 1]) == IdsOf(rows[..i]) + (if rows[i].mappable then {rows[i].edge.id} else {})
  {
    assert rows[..i + 1] == rows[..i] + [rows[i]];
  }

  ghost predicate Grouped(q: Query, rows: seq<Row>, byName: map<string, seq<Edge>>) {
    forall name :: Get(byName, name) == EdgesAt(rows, q.direction, q.rels, name)
  }

  lemma LookupAgrees(q: Query, records: map<string, Row>, row: Row)
    requires IdsAgree(q.table) && Indexed(q.table, q.rels, records)
    requires row in q.table && row.mappable && row.edge.id in records
    ensures records[row.edge.id].edge == row.edge
  {
    assert IsRecord(q.table, q.rels, row.edge.id, records[row.edge.id]);
  }

  /** Indexing adds the ids of the rows that can be mapped, at most one a row. */
  lemma {:induction false} IndexKeys(known: map<string, Row>, rows: seq<Row>, n: nat)
    requires n <= |rows|
    ensures Index(known, rows[..n]).Keys == known.Keys + IdsOf(rows[..n])
    ensures |Index(known, rows[..n])| <= |known| + n
  {
    if n == 0 {
      assert IdsOf(rows[..0]) == {};
      assert known.Keys + {} == known.Keys;
    } else {
      IndexKeys(known, rows, n - 1);
      IndexKeysNext(known, rows, n - 1);
    }
  }

  lemma IndexKeysNext(known: map<string, Row>, rows: seq<Row>, i: nat)
    requires i < |rows|
    requires Index(known, rows[..i]).Keys == known.Keys + IdsOf(rows[..i])
    requires |Index(known, rows[..i])| <= |known| + i
    ensures Index(known, rows[..i + 1]).Keys == known.Keys + IdsOf(rows[..i + 1])
    ensures |Index(known, rows[..i + 1])| <= |known| + i + 1
  {
    IdsNext(rows, i);
    IndexNext(known, rows, i);
    hide IdsOf, Index;
    var added := if rows[i].mappable then {rows[i].edge.id} else {};
    if rows[i].mappable {
      RecordAdded(Index(known, rows[..i]), rows[i]);
    } else {
      assert Index(known, rows[..i]).Keys + added == Index(known, rows[..i]).Keys;
    }
    UnionAssociates(known.Keys, IdsOf(rows[..i]), added);
  }

  lemma RecordAdded(records: map<string, Row>, row: Row)
    ensures
      var more := if row.edge.id !in records then records[row.edge.id := row] else records;
      more.Keys == records.Keys + {row.edge.id} && |more| <= |records| + 1
  {
    if row.edge.id !in records {
      assert records[row.edge.id := row].Keys == records.Keys + {row.edge.id};
    } else {
      assert records.Keys + {row.edge.id} == records.Keys;
    }
  }

  lemma {:induction false} IndexStored(q: Query, known: map<string, Row>, rows: seq<Row>)
    requires Indexed(q.table, q.rels, known)
    requires forall r :: r in rows ==> r in q.table && r.edge.relationship in q.rels
    ensures Indexed(q.table, q.rels, Index(known, rows))
  {
    if rows != [] {
      IndexStored(q, known, rows[..|rows| - 1]);
      assert rows[|rows| - 1] in rows;
    }
  }

  lemma SortedGroups(q: Query, rows: seq<Row>, byName: map<string, seq<Edge>>)
    requires Grouped(q, rows, byName)
    ensures
      var adjacency := map name | name in byName :: SortById(byName[name]);
      forall name :: Get(adjacency, name) == SortById(EdgesAt(rows, q.direction, q.rels, name))
  {
    var adjacency := map name | name in byName :: SortById(byName[name]);
    forall name
      ensures Get(adjacency, name) == SortById(EdgesAt(rows, q.direction, q.rels, name))
    {
      assert Get(byName, name) == EdgesAt(rows, q.direction, q.rels, name);
    }
  }

  function Append(byName: map<string, seq<Edge>>, name: string, e: Edge): map<string, seq<Edge>> {
    byName[name := Get(byName, name) + [e]]
  }

  lemma GroupedNext(q: Query, rows: seq<Row>, i: nat, byName: map<string, seq<Edge>>)
    requires i < |rows| && rows[i].edge.relationship in q.rels
    requires Grouped(q, rows[..i], byName)
    ensures
      var more := if rows[i].mappable then Append(byName, q.From(rows[i].edge), rows[i].edge) else byName;
      Grouped(q, rows[..i + 1], more)
  {
    hide EdgesAt;
    var more := if rows[i].mappable then Append(byName, q.From(rows[i].edge), rows[i].edge) else byName;
    forall name
      ensures Get(more, name) == EdgesAt(rows[..i + 1], q.direction, q.rels, name)
    {
      GroupNext(q, rows, i, name);
      assert Get(byName, name) == EdgesAt(rows[..i], q.direction, q.rels, name);
    }
  }

  method Group(q: Query, rows: seq<Row>, known: map<string, Row>)
    returns (adjacency: map<string, seq<Edge>>, edgeById: map<string, Row>)
    requires IdsAgree(q.table) && Indexed(q.table, q.rels, known)
    requires forall r :: r in rows ==> r in q.table && r.edge.relationship in q.rels
    ensures forall name :: Get(adjacency, name) == SortById(EdgesAt(rows, q.direction, q.rels, name))
    ensures Indexed(q.table, q.rels, edgeById)
    ensures edgeById == Index(known, rows)
    ensures edgeById.Keys == known.Keys + IdsOf(rows)
    ensures |edgeById| <= |known| + |rows|
  {
    edgeById := known;
    var byName: map<string, seq<Edge>> := map[];
    assert Grouped(q, rows[..0], byName);
    hide Grouped, IdsAgree, Indexed, Append, EdgesAt;
    for i := 0 to |rows|
      invariant Grouped(q, rows[..i], byName)
      invariant edgeById == Index(known, rows[..i])
    {
      var row := rows[i];
      GroupedNext(q, rows, i, byName);
      IndexNext(known, rows, i);
      if row.mappable {
        var edge := row.edge;
        if edge.id !in edgeById {
          edgeById := edgeById[edge.id := row];
        }
        FirstAgrees(q, rows, i, known);
        byName := Append(byName, q.From(edge), edgeById[edge.id].edge);
      }
    }
    assert rows[..|rows|] == rows;
    adjacency := map name | name in byName :: SortById(byName[name]);
    SortedGroups(q, rows, byName);
    IndexKeys(known, rows, |rows|);
    IndexStored(q, known, rows);
  }

  /** The record kept under an id has the edge of every later row of that id. */
  lemma FirstAgrees(q: Query, rows: seq<Row>, i: nat, known: map<string, Row>)
    requires IdsAgree(q.table) && Indexed(q.table, q.rels, known)
    requires forall r :: r in rows ==> r in q.table && r.edge.relationship in q.rels
    requires i < |rows| && rows[i].mappable
    ensures
      var records := Index(known, rows[..i + 1]);
      rows[i].edge.id in records && records[rows[i].edge.id].edge == rows[i].edge
  {
    var upTo := rows[..i + 1];
    assert rows[i] == upTo[i];
    assert rows[i] in upTo;
    assert forall r :: r in upTo ==> r in rows;
    IndexKeys(known, rows, i + 1);
    IndexStored(q, known, upTo);
    assert rows[i].edge.id in IdsOf(upTo);
    LookupAgrees(q, Index(known, upTo), rows[i]);
  }

  lemma KnownIdsGrow(q: Query, expanded: set<string>, names: set<string>, rows: seq<Row>)
    requires multiset(rows) == multiset(Select(q.table, q.direction, q.rels, names))
    ensures KnownIds(q, expanded + names) == KnownIds(q, expanded) + IdsOf(rows)
  {
    forall r
      ensures r in rows <==> r in q.table && Matches(r, q.direction, q.rels, names)
    {
      SelectMember(q.table, q.direction, q.rels, names, r);
      assert r in rows <==> r in multiset(rows);
    }
    forall id
      ensures id in KnownIds(q, expanded + names) <==> id in KnownIds(q, expanded) || id in IdsOf(rows)
    {
    }
  }

  lemma AbsorbAllNext(q: Query, s: Search, es: seq<Edge>, e: Edge, depth: nat)
    requires s.parents.Keys == s.distance.Keys
    ensures AbsorbAll(q, s, es + [e], depth) == Absorb(q, AbsorbAll(q, s, es, depth), e, depth)
  {
    assert (es + [e])[..|es|] == es;
  }

  // ----- the traversal -----

  lemma TraversalStarts(q: Query, anchors: seq<string>)
    ensures Rounds(q, anchors, 0) == State(EMPTY, SortNames(anchors), {})
    ensures Indexed(q.table, q.rels, map[]) && KnownIds(q, {}) == {}
    ensures forall budget :: Fits(q, anchors, 0, budget)
  {
  }

  lemma FitsNext(q: Query, anchors: seq<string>, n: nat, hops: nat, budget: nat)
    requires n < hops
    requires Fits(q, anchors, n, budget)
    ensures RoundFits(q, Rounds(q, anchors, n), budget) ==> Fits(q, anchors, n + 1, budget)
    ensures !RoundFits(q, Rounds(q, anchors, n), budget) ==> !Fits(q, anchors, hops, budget)
  {
  }

  method Traverse(q: Query, anchors: seq<string>, hops: nat, budget: nat)
    returns (r: Result<Search, Failure>, edgeById: map<string, Row>)
    requires IdsAgree(q.table)
    requires Distinct(anchors) && q.anchors == SetOf(anchors)
    ensures r.Ok? <==> Fits(q, anchors, hops, budget)
    ensures r.Ok? ==> r.value == Rounds(q, anchors, hops).search
    ensures |edgeById| <= budget
    ensures Indexed(q.table, q.rels, edgeById)
    ensures r.Ok? ==> edgeById.Keys == KnownIds(q, Rounds(q, anchors, hops).expanded)
    ensures r.Ok? ==> Recorded(r.value, edgeById)
  {
    hide *;
    edgeById := map[];
    TraversalStarts(q, anchors);
    var search := EMPTY;
    var expanded: set<string> := {};
    var frontier := SortNames(anchors);
    var depth := 1;
    while depth <= hops
      invariant 1 <= depth <= hops + 1
      invariant Rounds(q, anchors, depth - 1) == State(search, frontier, expanded)
      invariant Fits(q, anchors, depth - 1, budget)
      invariant Indexed(q.table, q.rels, edgeById)
      invariant edgeById.Keys == KnownIds(q, expanded)
      invariant |edgeById| <= budget
    {
      var names := Fresh(frontier, expanded);
      if names == [] {
        FitsEnd(q, anchors, depth - 1, hops, budget);
        RoundsEnd(q, anchors, depth - 1, hops);
        RoundsEndExpanded(q, anchors, depth - 1, hops);
        break;
      }
      var adjacency, ok;
      ok, adjacency, edgeById := AskRound(q, names, State(search, frontier, expanded), edgeById, budget);
      FitsNext(q, anchors, depth - 1, hops, budget);
      if !ok {
        return Err(LimitExceeded), edgeById;
      }
      RoundsNext(q, anchors, depth, State(search, frontier, expanded));
      search, frontier := ExpandRound(q, names, adjacency, search, depth);
      expanded := expanded + SetOf(names);
      depth := depth + 1;
    }
    AllRecorded(q, anchors, hops, edgeById);
    r := Ok(search);
  }

  /** A finished search has a record of every parent edge: no lookup by id can fail. */
  lemma AllRecorded(q: Query, anchors: seq<string>, hops: nat, records: map<string, Row>)
    requires IdsAgree(q.table) && Distinct(anchors) && q.anchors == SetOf(anchors)
    requires Indexed(q.table, q.rels, records) && records.Keys == KnownIds(q, Rounds(q, anchors, hops).expanded)
    ensures Recorded(Rounds(q, anchors, hops).search, records)
  {
    hide Rounds, IdsAgree, Indexed;
    var s := Rounds(q, anchors, hops).search;
    forall p, e | p in s.parents && e in s.parents[p]
      ensures HasRecord(records, e)
    {
      ParentsFetched(q, anchors, hops, p, e);
      var row :| row in q.table && row.mappable && row.edge == e;
      assert e.id in KnownIds(q, Rounds(q, anchors, hops).expanded);
      LookupAgrees(q, records, row);
    }
  }

  /** One query of a round: refused when the budget is spent or the answer exceeds what is left of it. */
  method AskRound(q: Query, names: seq<string>, ghost st: State, known: map<string, Row>, budget: nat)
    returns (ok: bool, adjacency: map<string, seq<Edge>>, edgeById: map<string, Row>)
    requires IdsAgree(q.table) && Indexed(q.table, q.rels, known) && names != []
    requires names == Fresh(st.frontier, st.expanded)
    requires known.Keys == KnownIds(q, st.expanded) && |known| <= budget
    ensures ok <==> RoundFits(q, st, budget)
    ensures ok ==> forall name :: name in names ==> Get(adjacency, name) == q.At(name)
    ensures Indexed(q.table, q.rels, edgeById) && |edgeById| <= budget
    ensures ok ==> edgeById.Keys == KnownIds(q, st.expanded + SetOf(names))
  {
    hide IdsAgree, Indexed, KnownIds, Fresh;
    edgeById, adjacency := known, map[];
    assert |KnownIds(q, st.expanded)| == |known.Keys| == |known|;
    if budget <= |edgeById| {
      return false, adjacency, edgeById;
    }
    var remaining := budget - |edgeById|;
    ghost var all := Select(q.table, q.direction, q.rels, SetOf(names));
    var rows := Limited(Select(q.table, q.direction, q.rels, SetOf(names)), remaining + 1);
    BagSize(rows, all);
    if |rows| > remaining {
      return false, adjacency, edgeById;
    }
    BagSize(all, rows);
    BagMember(rows, all);
    forall row | row in rows
      ensures row in q.table && row.edge.relationship in q.rels
    {
      SelectMember(q.table, q.direction, q.rels, SetOf(names), row);
    }
    adjacency, edgeById := Group(q, rows, edgeById);
    KnownIdsGrow(q, st.expanded, SetOf(names), rows);
    forall name | name in names
      ensures Get(adjacency, name) == q.At(name)
    {
      AdjacentOfAnswer(q.table, q.direction, q.rels, SetOf(names), rows, name);
    }
    ok := true;
  }

  lemma {:induction false} FitsEnd(q: Query, anchors: seq<string>, n: nat, hops: nat, budget: nat)
    requires n <= hops && Fits(q, anchors, n, budget)
    requires Fresh(Rounds(q, anchors, n).frontier, Rounds(q, anchors, n).expanded) == []
    ensures Fits(q, anchors, hops, budget)
  {
    forall m | n <= m < hops
      ensures RoundFits(q, Rounds(q, anchors, m), budget)
    {
      RoundsEnd(q, anchors, n, m);
    }
  }

  lemma {:induction false} RoundsEndExpanded(q: Query, anchors: seq<string>, n: nat, hops: nat)
    requires n <= hops
    requires Fresh(Rounds(q, anchors, n).frontier, Rounds(q, anchors, n).expanded) == []
    ensures Rounds(q, anchors, hops).expanded == Rounds(q, anchors, n).expanded
  {
    hide *;
    if n < hops {
      RoundsEnd(q, anchors, n, hops - 1);
      RoundsEndExpanded(q, anchors, n, hops - 1);
      QuietRound(q, anchors, hops, Rounds(q, anchors, hops - 1));
    }
  }

  lemma QuietRound(q: Query, anchors: seq<string>, n: nat, st: State)
    requires n > 0 && st == Rounds(q, anchors, n - 1) && Fresh(st.frontier, st.expanded) == []
    ensures Rounds(q, anchors, n).expanded == st.expanded
  {
    hide *;
    RoundsNext(q, anchors, n, st);
    NoNames(st.expanded);
  }

  lemma NoNames(expanded: set<string>)
    ensures expanded + SetOf([]) == expanded
  {
  }

  lemma RoundEdgesStart(q: Query, s: Search, depth: nat)
    requires s.parents.Keys == s.distance.Keys
    ensures RoundEdges(q, []) == [] && AbsorbAll(q, s, [], depth) == s
  {
  }

  lemma RoundEdgesNext(q: Query, names: seq<string>, i: nat)
    requires i < |names|
    ensures RoundEdges(q, names[..i + 1]) == RoundEdges(q, names[..i]) + q.At(names[i])
  {
    assert names[..i + 1][..i] == names[..i];
  }

  /** The two inner loops of a round: every name of the round, every edge attached to it. */
  method ExpandRound(q: Query, names: seq<string>, adjacency: map<string, seq<Edge>>, s: Search, depth: nat)
    returns (s': Search, next: seq<string>)
    requires s.parents.Keys == s.distance.Keys
    requires forall name :: name in names ==> Get(adjacency, name) == q.At(name)
    ensures s' == AbsorbAll(q, s, RoundEdges(q, names), depth)
    ensures s'.found == s.found + next
  {
    s', next := s, [];
    RoundEdgesStart(q, s, depth);
    assert names[..0] == [];
    hide *;
    for i := 0 to |names|
      invariant s' == AbsorbAll(q, s, RoundEdges(q, names[..i]), depth)
      invariant s'.found == s.found + next
    {
      var more;
      s', more := ExpandName(q, names[i], Get(adjacency, names[i]), s, RoundEdges(q, names[..i]), s', depth);
      Associate(s.found, next, more);
      next := next + more;
      RoundEdgesNext(q, names, i);
    }
    assert names[..|names|] == names;
  }

  /** What the next edge of a name does to the search. */
  lemma NextEdge(q: Query, current: string, edges: seq<Edge>, s: Search, done: seq<Edge>, j: nat, depth: nat)
    requires s.parents.Keys == s.distance.Keys
    requires edges == q.At(current) && j < |edges|
    ensures
      var s1, e := AbsorbAll(q, s, done + edges[..j], depth), edges[j];
      var peer := q.To(e);
      && s1.parents.Keys == s1.distance.Keys
      && AbsorbAll(q, s, done + edges[..j + 1], depth) ==
         if peer == current then s1
         else if peer !in s1.distance then
           Search(s1.distance[peer := depth], s1.parents[peer := [e]], s1.found + [peer])
         else if s1.distance[peer] == depth then
           Search(s1.distance, s1.parents[peer := s1.parents[peer] + [e]], s1.found)
         else s1
  {
    hide AbsorbAll, Adjacent, Stored;
    assert done + edges[..j + 1] == (done + edges[..j]) + [edges[j]];
    AbsorbAllNext(q, s, done + edges[..j], edges[j], depth);
    AdjacentMember(q.table, q.direction, q.rels, current, edges[j]);
  }

  method ExpandName(
    q: Query, current: string, edges: seq<Edge>, ghost s: Search, ghost done: seq<Edge>, s1: Search, depth: nat)
    returns (s': Search, next: seq<string>)
    requires s.parents.Keys == s.distance.Keys
    requires edges == q.At(current) && s1 == AbsorbAll(q, s, done, depth)
    ensures s' == AbsorbAll(q, s, done + edges, depth)
    ensures s'.found == s1.found + next
  {
    var distance, parents, found := s1.distance, s1.parents, s1.found;
    next := [];
    assert done + edges[..0] == done;
    assert edges[..|edges|] == edges;
    hide *;
    for j := 0 to |edges|
      invariant parents.Keys == distance.Keys
      invariant Search(distance, parents, found) == AbsorbAll(q, s, done + edges[..j], depth)
      invariant found == s1.found + next
    {
      var edge := edges[j];
      NextEdge(q, current, edges, s, done, j, depth);
      var peer := q.To(edge);
      if peer != current {
        if peer !in distance {
          distance := distance[peer := depth];
          parents := parents[peer := [edge]];
          Associate(s1.found, next, [peer]);
          found := found + [peer];
          next := next + [peer];
        } else if distance[peer] == depth {
          parents := parents[peer := parents[peer] + [edge]];
        }
      }
    }
    s' := Search(distance, parents, found);
  }
}
