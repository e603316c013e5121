/** The dependency graph behind the gateway, as a table of edge rows queried one frontier at a time.

  Qualified names are the nodes. The table is a bag: nothing is assumed about the order in which
  a query returns its rows, nor, unless a lemma says so, that a triple has one row only.
 */
module EdgeStore {
  import opened Ordering

  /** One typed edge as the client maps it from a row. */
  datatype Edge = Edge(id: string, relationship: string, source: string, target: string, targetIsTable: bool)

  /**
    A stored row; the client drops the rows it cannot map. Two rows of one triple have the same edge and
    may differ in their evidence: where in the source the edge was seen, how it was resolved, via which table.
   */
  datatype Row = Row(edge: Edge, evidence: string, mappable: bool)

  datatype Direction = Upstream | Downstream

  /** The endpoint a query selects on: dependents are found through their target, dependencies through their source. */
  function Near(d: Direction, e: Edge): string { if d.Upstream? then e.target else e.source }

  /** The endpoint a traversal reaches. */
  function Far(d: Direction, e: Edge): string { if d.Upstream? then e.source else e.target }

  /** What a traversal raises rather than return a truncated answer. */
  datatype Failure = LimitExceeded

  /** The list filed under a name, empty if there is none. */
  function Get(lists: map<string, seq<Edge>>, name: string): seq<Edge> {
    if name in lists then lists[name] else []
  }

  predicate Matches(row: Row, d: Direction, rels: set<string>, names: set<string>) {
    row.edge.relationship in rels && Near(d, row.edge) in names
  }

  function Select(table: seq<Row>, d: Direction, rels: set<string>, names: set<string>): seq<Row> {
    if table == [] then []
    else (if Matches(table[0], d, rels, names) then [table[0]] else []) + Select(table[1..], d, rels, names)
  }

  /** The positions of the rows a query finds. */
  ghost function Found(table: seq<Row>, d: Direction, rels: set<string>, names: set<string>): set<nat> {
    set i | 0 <= i < |table| && table[i].edge.relationship in rels
            && (match d case Upstream => table[i].edge.target case Downstream => table[i].edge.source) in names
  }

  lemma SelectCount(table: seq<Row>, d: Direction, rels: set<string>, names: set<string>)
    ensures |Select(table, d, rels, names)| == |Found(table, d, rels, names)|
  {
    SelectPositions(table, d, rels, names);
    assert Found(table, d, rels, names) == Positions(table, row => Matches(row, d, rels, names));
  }

  lemma {:induction false} SelectPositions(table: seq<Row>, d: Direction, rels: set<string>, names: set<string>)
    ensures |Select(table, d, rels, names)| == |Positions(table, row => Matches(row, d, rels, names))|
  {
    if table != [] {
      hide Matches, Positions;
      SelectPositions(table[1..], d, rels, names);
      PositionsFirst(table, row => Matches(row, d, rels, names));
    }
  }

  /** The edges of `rels` attached to `name` among some rows, in row order. */
  function EdgesAt(rows: seq<Row>, d: Direction, rels: set<string>, name: string): seq<Edge> {
    if rows == [] then []
    else
      (if rows[0].mappable && Matches(rows[0], d, rels, {name}) then [rows[0].edge] else [])
      + EdgesAt(rows[1..], d, rels, name)
  }

  ghost predicate HasRow(rows: seq<Row>, e: Edge) {
    exists r :: r in rows && r.mappable && r.edge == e
  }

  ghost predicate Stored(table: seq<Row>, rels: set<string>, e: Edge) {
    HasRow(table, e) && e.relationship in rels
  }

  /** The records a search keeps by edge id are stored rows of the relationships it follows. */
  ghost predicate Indexed(table: seq<Row>, rels: set<string>, records: map<string, Row>) {
    forall id :: id in records ==> IsRecord(table, rels, id, records[id])
  }

  ghost predicate IsRecord(table: seq<Row>, rels: set<string>, id: string, r: Row) {
    r in table && r.mappable && r.edge.relationship in rels && r.edge.id == id
  }

  /** Indexing an answer by edge id: the first row of an id stays, whatever else is said of the same edge later. */
  function Index(known: map<string, Row>, rows: seq<Row>): map<string, Row> {
    if rows == [] then known
    else
      var records, row := Index(known, rows[..|rows| - 1]), rows[|rows| - 1];
      if row.mappable && row.edge.id !in records then records[row.edge.id := row] else records
  }

  /**
    Two mappable rows with one edge id describe one edge (see `GraphIds.EdgeIdInjective`), perhaps with different
    evidence.
   */
  ghost predicate IdsAgree(table: seq<Row>) {
    forall r, r' :: r in table && r' in table && r.mappable && r'.mappable && r.edge.id == r'.edge.id ==>
                      r.edge == r'.edge
  }

  /** Two mappable rows with one edge id are the same row, evidence included. */
  ghost predicate RowsAgree(table: seq<Row>) {
    forall r, r' :: r in table && r' in table && r.mappable && r'.mappable && r.edge.id == r'.edge.id ==> r == r'
  }

  /** The stored rows say one thing of an edge. */
  ghost predicate Settled(table: seq<Row>, e: Edge) {
    forall r, r' ::
      r in table && r' in table && r.mappable && r'.mappable && r.edge.id == e.id && r'.edge.id == e.id ==> r == r'
  }

  /** Every triple has at most one row. */
  ghost predicate OneRowPerTriple(table: seq<Row>) {
    forall i, j :: 0 <= i < j < |table| && table[i].mappable && table[j].mappable ==>
                     table[i].edge.id != table[j].edge.id
  }

  /**
    The answer to a limited query. Callers learn only that the rows are some of the matching ones, and
    all of them when the limit was not reached; the order is the store's own.
   */
  method Limited(all: seq<Row>, limit: nat) returns (rows: seq<Row>)
    ensures |rows| <= limit
    ensures multiset(rows) <= multiset(all)
    ensures |rows| < limit ==> multiset(rows) == multiset(all)
  {
    if |all| <= limit {
      rows := all;
    } else {
      rows := all[..limit];
      assert all == rows + all[limit..];
    }
  }

  // ----- how a row bag determines its edges -----

  lemma {:induction false} EdgesAtConcat(a: seq<Row>, b: seq<Row>, d: Direction, rels: set<string>, name: string)
    ensures EdgesAt(a + b, d, rels, name) == EdgesAt(a, d, rels, name) + EdgesAt(b, d, rels, name)
  {
    if a == [] {
      assert a + b == b;
    } else {
      assert (a + b)[1..] == a[1..] + b;
      EdgesAtConcat(a[1..], b, d, rels, name);
    }
  }

  lemma {:induction false} EdgesAtBag(a: seq<Row>, b: seq<Row>, d: Direction, rels: set<string>, name: string)
    requires multiset(a) == multiset(b)
    ensures multiset(EdgesAt(a, d, rels, name)) == multiset(EdgesAt(b, d, rels, name))
  {
    assert |multiset(a)| == |multiset(b)|;
    if a != [] {
      assert a[0] in multiset(b);
      var k :| 0 <= k < |b| && b[k] == a[0];
      var before, after := b[..k], b[k + 1..];
      RemoveOne(a, b, k);
      EdgesAtBag(a[1..], before + after, d, rels, name);
      EdgesAtConcat(before, [b[k]] + after, d, rels, name);
      EdgesAtConcat([b[k]], after, d, rels, name);
      EdgesAtConcat(before, after, d, rels, name);
      EdgesAtConcat([a[0]], a[1..], d, rels, name);
      hide EdgesAt;
    }
  }

  lemma RemoveOne(a: seq<Row>, b: seq<Row>, k: nat)
    requires a != [] && multiset(a) == multiset(b) && k < |b| && b[k] == a[0]
    ensures b == b[..k] + ([b[k]] + b[k + 1..]) && a == [a[0]] + a[1..]
    ensures multiset(a[1..]) == multiset(b[..k] + b[k + 1..])
  {
    assert b == b[..k] + ([b[k]] + b[k + 1..]);
    assert a == [a[0]] + a[1..];
    assert multiset(a[1..]) == multiset(a) - multiset{a[0]};
    assert multiset(b[..k] + b[k + 1..]) == multiset(b) - multiset{b[k]};
  }

  lemma {:induction false} EdgesAtSelect(
    table: seq<Row>, d: Direction, rels: set<string>, names: set<string>, name: string)
    requires name in names
    ensures EdgesAt(Select(table, d, rels, names), d, rels, name) == EdgesAt(table, d, rels, name)
  {
    if table != [] {
      EdgesAtSelect(table[1..], d, rels, names, name);
      if Matches(table[0], d, rels, names) {
        assert ([table[0]] + Select(table[1..], d, rels, names))[1..] == Select(table[1..], d, rels, names);
      } else {
        assert Select(table, d, rels, names) == Select(table[1..], d, rels, names);
      }
    }
  }

  lemma {:induction false} SelectMember(table: seq<Row>, d: Direction, rels: set<string>, names: set<string>, r: Row)
    ensures r in Select(table, d, rels, names) <==> r in table && Matches(r, d, rels, names)
  {
    if table != [] {
      SelectMember(table[1..], d, rels, names, r);
      assert table == [table[0]] + table[1..];
    }
  }

  lemma {:induction false} EdgesAtMember(rows: seq<Row>, d: Direction, rels: set<string>, name: string, e: Edge)
    ensures e in EdgesAt(rows, d, rels, name) <==> Stored(rows, rels, e) && Near(d, e) == name
  {
    if rows != [] {
      EdgesAtMember(rows[1..], d, rels, name, e);
      assert rows == [rows[0]] + rows[1..];
    }
  }

  lemma StoredIdUnique(table: seq<Row>, rels: set<string>, e: Edge, e': Edge)
    requires IdsAgree(table) && Stored(table, rels, e) && Stored(table, rels, e') && e.id == e'.id
    ensures e == e'
  {
    var r :| r in table && r.mappable && r.edge == e;
    var r' :| r' in table && r'.mappable && r'.edge == e';
  }

  lemma {:induction false} EdgesAtDistinct(rows: seq<Row>, d: Direction, rels: set<string>, name: string)
    requires OneRowPerTriple(rows)
    ensures Distinct(EdgesAt(rows, d, rels, name))
  {
    if rows != [] {
      var t := rows[1..];
      assert forall i :: 0 <= i < |t| ==> t[i] == rows[i + 1];
      EdgesAtDistinct(t, d, rels, name);
      EdgesAtMember(t, d, rels, name, rows[0].edge);
    }
  }

  // ----- adjacency -----

  function EdgeKey(e: Edge): string { e.id }

  /** Edges in the order of their ids. */
  function SortById(es: seq<Edge>): seq<Edge> { SortBy(es, EdgeKey, StringLess) }

  /** The sorted edges attached to one name: what a round sees of the graph there. */
  function Adjacent(table: seq<Row>, d: Direction, rels: set<string>, name: string): seq<Edge> {
    SortById(EdgesAt(table, d, rels, name))
  }

  lemma AdjacentMember(table: seq<Row>, d: Direction, rels: set<string>, name: string, e: Edge)
    ensures e in Adjacent(table, d, rels, name) <==> Stored(table, rels, e) && Near(d, e) == name
  {
    SortByContents(EdgesAt(table, d, rels, name), EdgeKey, StringLess);
    EdgesAtMember(table, d, rels, name, e);
  }

  lemma EdgesAtKeys(table: seq<Row>, d: Direction, rels: set<string>, name: string)
    requires IdsAgree(table)
    ensures KeyInjective(EdgesAt(table, d, rels, name), EdgeKey)
  {
    var es := EdgesAt(table, d, rels, name);
    forall i, j | 0 <= i < |es| && 0 <= j < |es| && EdgeKey(es[i]) == EdgeKey(es[j])
      ensures es[i] == es[j]
    {
      EdgesAtMember(table, d, rels, name, es[i]);
      EdgesAtMember(table, d, rels, name, es[j]);
      StoredIdUnique(table, rels, es[i], es[j]);
    }
  }

  /** Row order cannot be seen through `Adjacent`. */
  lemma AdjacentBag(a: seq<Row>, b: seq<Row>, d: Direction, rels: set<string>, name: string)
    requires IdsAgree(a) && multiset(a) == multiset(b)
    ensures Adjacent(a, d, rels, name) == Adjacent(b, d, rels, name)
  {
    EdgesAtBag(a, b, d, rels, name);
    EdgesAtKeys(a, d, rels, name);
    StringStrictTotal();
    SortForgetsOrder(EdgesAt(a, d, rels, name), EdgesAt(b, d, rels, name), EdgeKey, StringLess);
  }

  /** A complete answer to a query on `names`, in whatever order, yields the adjacency of each name. */
  lemma AdjacentOfAnswer(
    table: seq<Row>, d: Direction, rels: set<string>, names: set<string>, rows: seq<Row>, name: string)
    requires IdsAgree(table) && name in names
    requires multiset(rows) == multiset(Select(table, d, rels, names))
    ensures SortById(EdgesAt(rows, d, rels, name)) == Adjacent(table, d, rels, name)
  {
    EdgesAtBag(rows, Select(table, d, rels, names), d, rels, name);
    EdgesAtSelect(table, d, rels, names, name);
    EdgesAtKeys(table, d, rels, name);
    StringStrictTotal();
    SortForgetsOrder(EdgesAt(table, d, rels, name), EdgesAt(rows, d, rels, name), EdgeKey, StringLess);
  }

  // ----- records -----

  lemma IndexNext(known: map<string, Row>, rows: seq<Row>, i: nat)
    requires i < |rows|
    ensures
      var records := Index(known, rows[..i]);
      Index(known, rows[..i + 1]) ==
      if rows[i].mappable && rows[i].edge.id !in records then records[rows[i].edge.id := rows[i]] else records
  {
    assert rows[..i + 1][..i] == rows[..i];
  }

  /**
    What is known stays; an id that is new has the record of the first row that brings it, and no other id is added.
   */
  lemma {:induction false} IndexKeepsFirst(known: map<string, Row>, rows: seq<Row>, id: string)
    ensures id in known ==> id in Index(known, rows) && Index(known, rows)[id] == known[id]
    ensures id !in known ==>
              (id in Index(known, rows) <==> exists k :: 0 <= k < |rows| && rows[k].mappable && rows[k].edge.id == id)
    ensures id !in known && id in Index(known, rows) ==>
              exists k ::
                0 <= k < |rows| && rows[k] == Index(known, rows)[id] && rows[k].mappable && rows[k].edge.id == id
                          && forall j :: 0 <= j < k ==> !rows[j].mappable || rows[j].edge.id != id
  {
    if rows != [] {
      var init := rows[..|rows| - 1];
      IndexKeepsFirst(known, init, id);
      assert forall k :: 0 <= k < |init| ==> rows[k] == init[k];
    }
  }

  /** Any row can be the first of its id: there is an order of the rows that puts it first. */
  lemma FirstWins(rows: seq<Row>, k: nat)
    requires k < |rows| && rows[k].mappable
    ensures
      var reordered := [rows[k]] + rows[..k] + rows[k + 1..];
      && multiset(reordered) == multiset(rows)
      && rows[k].edge.id in Index(map[], reordered) && Index(map[], reordered)[rows[k].edge.id] == rows[k]
  {
    var reordered, id := [rows[k]] + rows[..k] + rows[k + 1..], rows[k].edge.id;
    assert rows == rows[..k] + [rows[k]] + rows[k + 1..];
    IndexKeepsFirst(map[], reordered, id);
    assert reordered[0] == rows[k];
  }

  ghost predicate Brings(rows: seq<Row>, id: string) { exists r :: r in rows && r.mappable && r.edge.id == id }

  lemma IndexFrom(rows: seq<Row>, id: string)
    ensures id in Index(map[], rows) <==> Brings(rows, id)
    ensures id in Index(map[], rows) ==>
              var r := Index(map[], rows)[id];
              r in rows && r.mappable && r.edge.id == id
  {
    IndexKeepsFirst(map[], rows, id);
    hide Index;
    if r :| r in rows && r.mappable && r.edge.id == id {
      var k :| 0 <= k < |rows| && rows[k] == r;
    }
  }

  lemma IndexOfAgreeing(rows: seq<Row>, rows': seq<Row>)
    requires RowsAgree(rows) && multiset(rows') == multiset(rows)
    ensures Index(map[], rows') == Index(map[], rows)
  {
    hide Index;
    var records, records' := Index(map[], rows), Index(map[], rows');
    BagMember(rows, rows');
    BagMember(rows', rows);
    forall id
      ensures id in records <==> id in records'
      ensures id in records && id in records' ==> records[id] == records'[id]
    {
      IndexFrom(rows, id);
      IndexFrom(rows', id);
    }
  }

  /** Whatever order the rows come in. */
  ghost predicate RecordsFixed(rows: seq<Row>) {
    forall rows' :: multiset(rows') == multiset(rows) ==> Index(map[], rows') == Index(map[], rows)
  }

  /**
    What is recorded of the edges is the same for every order of the rows if and only if rows of one edge id are equal.
   */
  lemma RecordsForgetOrderExactly(rows: seq<Row>)
    ensures RecordsFixed(rows) <==> RowsAgree(rows)
  {
    hide Index;
    if RowsAgree(rows) {
      forall rows' | multiset(rows') == multiset(rows)
        ensures Index(map[], rows') == Index(map[], rows)
      {
        IndexOfAgreeing(rows, rows');
      }
    }
    if RecordsFixed(rows) {
      forall r, r' | r in rows && r' in rows && r.mappable && r'.mappable && r.edge.id == r'.edge.id
        ensures r == r'
      {
        var k :| 0 <= k < |rows| && rows[k] == r;
        var l :| 0 <= l < |rows| && rows[l] == r';
        FirstWins(rows, k);
        FirstWins(rows, l);
      }
    }
  }

  /** Two rows of one triple: which evidence is shown depends on the order in which the store returns them. */
  lemma EvidenceFollowsOrder(e: Edge)
    ensures
      var a, b := Row(e, "a", true), Row(e, "b", true);
      && IdsAgree([a, b]) && multiset([a, b]) == multiset([b, a])
      && Index(map[], [a, b])[e.id].evidence == "a"
      && Index(map[], [b, a])[e.id].evidence == "b"
  {
    var a, b := Row(e, "a", true), Row(e, "b", true);
    IndexKeepsFirst(map[], [a, b], e.id);
    IndexKeepsFirst(map[], [b, a], e.id);
    assert [a, b][0] == a && [b, a][0] == b;
  }

  ghost predicate HasRecord(records: map<string, Row>, e: Edge) { e.id in records && records[e.id].edge == e }

  ghost predicate TrailRecorded(records: map<string, Row>, r: seq<Edge>) {
    forall e :: e in r ==> HasRecord(records, e)
  }

  /** The record of an edge, or the edge without evidence where none is recorded. */
  function StepOf(records: map<string, Row>, e: Edge): Row {
    if e.id in records then records[e.id] else Row(e, "", true)
  }

  function StepsOf(records: map<string, Row>, r: seq<Edge>): seq<Row> {
    if r == [] then [] else StepsOf(records, r[..|r| - 1]) + [StepOf(records, r[|r| - 1])]
  }

  function PathsOf(records: map<string, Row>, trails: seq<seq<Edge>>): seq<seq<Row>> {
    if trails == [] then []
    else PathsOf(records, trails[..|trails| - 1]) + [StepsOf(records, trails[|trails| - 1])]
  }

  function EdgesOf(steps: seq<Row>): seq<Edge> {
    if steps == [] then [] else EdgesOf(steps[..|steps| - 1]) + [steps[|steps| - 1].edge]
  }

  /** The paths of an answer: its trails in order, each step looked up by edge id, which never fails. */
  method LookUp(records: map<string, Row>, trails: seq<seq<Edge>>) returns (paths: seq<seq<Row>>)
    requires forall r :: r in trails ==> TrailRecorded(records, r)
    ensures paths == PathsOf(records, trails)
  {
    paths := [];
    for i := 0 to |trails|
      invariant paths == PathsOf(records, trails[..i])
    {
      var trail := trails[i];
      assert TrailRecorded(records, trail);
      var steps: seq<Row> := [];
      for j := 0 to |trail|
        invariant steps == StepsOf(records, trail[..j])
      {
        assert HasRecord(records, trail[j]);
        assert trail[..j + 1][..j] == trail[..j];
        steps := steps + [records[trail[j].id]];
      }
      assert trail[..|trail|] == trail;
      assert trails[..i + 1][..i] == trails[..i];
      paths := paths + [steps];
    }
    assert trails[..|trails|] == trails;
  }

  lemma {:induction false} StepsEdges(records: map<string, Row>, r: seq<Edge>)
    requires TrailRecorded(records, r)
    ensures EdgesOf(StepsOf(records, r)) == r
  {
    if r != [] {
      var init, last := r[..|r| - 1], r[|r| - 1];
      StepsEdges(records, init);
      assert HasRecord(records, last);
      assert StepsOf(records, r)[..|StepsOf(records, r)| - 1] == StepsOf(records, init);
      assert r == init + [last];
    }
  }

  lemma {:induction false} PathsMember(records: map<string, Row>, trails: seq<seq<Edge>>, steps: seq<Row>)
    ensures |PathsOf(records, trails)| == |trails|
    ensures steps in PathsOf(records, trails) ==> exists r :: r in trails && steps == StepsOf(records, r)
  {
    if trails != [] {
      PathsMember(records, trails[..|trails| - 1], steps);
      assert trails == trails[..|trails| - 1] + [trails[|trails| - 1]];
    }
  }

  lemma {:induction false} StepsIndex(records: map<string, Row>, r: seq<Edge>)
    ensures |StepsOf(records, r)| == |r|
    ensures forall j :: 0 <= j < |r| ==> StepsOf(records, r)[j] == StepOf(records, r[j])
  {
    hide StepOf;
    if r != [] {
      StepsIndex(records, r[..|r| - 1]);
    }
  }

  lemma {:induction false} PathsIndex(records: map<string, Row>, trails: seq<seq<Edge>>)
    ensures |PathsOf(records, trails)| == |trails|
    ensures forall k :: 0 <= k < |trails| ==> PathsOf(records, trails)[k] == StepsOf(records, trails[k])
  {
    hide StepsOf;
    if trails != [] {
      PathsIndex(records, trails[..|trails| - 1]);
    }
  }

  lemma {:induction false} EdgesIndex(steps: seq<Row>)
    ensures |EdgesOf(steps)| == |steps|
    ensures forall k :: 0 <= k < |steps| ==> EdgesOf(steps)[k] == steps[k].edge
  {
    if steps != [] {
      EdgesIndex(steps[..|steps| - 1]);
    }
  }

  // ----- names along a trail, for sort keys -----

  function Targets(r: seq<Edge>): seq<string> { if r == [] then [] else [r[0].target] + Targets(r[1..]) }

  function Ids(r: seq<Edge>): seq<string> { if r == [] then [] else [r[0].id] + Ids(r[1..]) }

  lemma {:induction false} NamesAlong(r: seq<Edge>)
    ensures |Targets(r)| == |r| && |Ids(r)| == |r|
    ensures forall k :: 0 <= k < |r| ==> Targets(r)[k] == r[k].target && Ids(r)[k] == r[k].id
  {
    if r != [] {
      NamesAlong(r[1..]);
    }
  }

  ghost predicate SameTargets(a: seq<Edge>, b: seq<Edge>, n: nat)
    requires n <= |a| == |b|
  {
    forall j :: 0 <= j < n ==> a[j].target == b[j].target
  }

  /** The first step whose target differs has the target that comes first. */
  ghost predicate LesserTarget(a: seq<Edge>, b: seq<Edge>, k: nat)
    requires |a| == |b|
  {
    k < |a| && SameTargets(a, b, k) && ComesBefore(a[k].target, b[k].target)
  }

  /** The first step whose id differs has the id that comes first. */
  ghost predicate LesserId(a: seq<Edge>, b: seq<Edge>, k: nat)
    requires |a| == |b|
  {
    k < |a| && (forall j :: 0 <= j < k ==> a[j].id == b[j].id) && ComesBefore(a[k].id, b[k].id)
  }

  /** Trails of one length in order: by the names of the targets, and where these are the same by the edge ids. */
  ghost predicate TrailBefore(a: seq<Edge>, b: seq<Edge>)
    requires |a| == |b|
  {
    || (exists k: nat :: LesserTarget(a, b, k))
    || (SameTargets(a, b, |a|) && exists k: nat :: LesserId(a, b, k))
  }

  lemma NamesLessExactly(a: seq<string>, b: seq<string>)
    requires |a| == |b|
    ensures NamesLess(a, b) <==>
            exists k: nat :: k < |a| && (forall j :: 0 <= j < k ==> a[j] == b[j]) && ComesBefore(a[k], b[k])
  {
    hide ComesBefore, StringLess;
    LexExactly(StringLess, a, b);
    if k: nat :| DecidedAt(StringLess, a, b, k) {
      StringLessExactly(a[k], b[k]);
    }
    if k: nat :| k < |a| && (forall j :: 0 <= j < k ==> a[j] == b[j]) && ComesBefore(a[k], b[k]) {
      StringLessExactly(a[k], b[k]);
      assert DecidedAt(StringLess, a, b, k);
    }
  }

  lemma TrailOrder(a: seq<Edge>, b: seq<Edge>)
    requires |a| == |b|
    ensures NamesLess(Targets(a), Targets(b)) || (Targets(a) == Targets(b) && NamesLess(Ids(a), Ids(b))) <==>
            TrailBefore(a, b)
  {
    hide Targets, Ids, NamesLess, ComesBefore;
    NamesAlong(a);
    NamesAlong(b);
    NamesLessExactly(Targets(a), Targets(b));
    NamesLessExactly(Ids(a), Ids(b));
    assert Targets(a) == Targets(b) <==> SameTargets(a, b, |a|);
    assert NamesLess(Targets(a), Targets(b)) <==> exists k: nat :: LesserTarget(a, b, k) by {
      assert forall k: nat | k < |a| :: LesserTarget(a, b, k) <==>
               (forall j :: 0 <= j < k ==> Targets(a)[j] == Targets(b)[j]) && ComesBefore(Targets(a)[k], Targets(b)[k]);
    }
    assert NamesLess(Ids(a), Ids(b)) <==> exists k: nat :: LesserId(a, b, k) by {
      assert forall k: nat | k < |a| :: LesserId(a, b, k) <==>
               (forall j :: 0 <= j < k ==> Ids(a)[j] == Ids(b)[j]) && ComesBefore(Ids(a)[k], Ids(b)[k]);
    }
  }

  /** Stored edges are told apart by their ids, so trails are told apart by theirs. */
  lemma {:induction false} IdsDetermine(table: seq<Row>, rels: set<string>, a: seq<Edge>, b: seq<Edge>)
    requires IdsAgree(table) && Ids(a) == Ids(b)
    requires (forall e :: e in a ==> Stored(table, rels, e)) && (forall e :: e in b ==> Stored(table, rels, e))
    ensures a == b
  {
    if a != [] && b != [] {
      assert Ids(a)[0] == a[0].id && Ids(b)[0] == b[0].id;
      assert a[0] in a && b[0] in b;
      StoredIdUnique(table, rels, a[0], b[0]);
      assert Ids(a)[1..] == Ids(a[1..]) && Ids(b)[1..] == Ids(b[1..]);
      IdsDetermine(table, rels, a[1..], b[1..]);
      assert a == [a[0]] + a[1..] && b == [b[0]] + b[1..];
    }
  }
}
