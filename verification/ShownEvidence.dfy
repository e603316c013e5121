/** When what a report and a page of paths show of their edges, evidence included, is the same for every row order. */
module ShownEvidence {
  import opened Wrappers
  import opened Ordering
  import opened EdgeStore
  import opened Impact
  import opened ImpactAnchors
  import opened ImpactRoutes
  import opened ImpactReport
  import opened Paging
  import P = PathSearch
  import Paths

  // ----- steps -----

  ghost predicate TrailSettled(table: seq<Row>, r: seq<Edge>) { forall e :: e in r ==> Settled(table, e) }

  lemma StepSettled(table: seq<Row>, rels: set<string>, records: map<string, Row>, records': map<string, Row>, e: Edge)
    requires Indexed(table, rels, records) && Indexed(table, rels, records')
    requires HasRecord(records, e) && HasRecord(records', e) && Settled(table, e)
    ensures StepOf(records, e) == StepOf(records', e)
  {
    assert IsRecord(table, rels, e.id, records[e.id]) && IsRecord(table, rels, e.id, records'[e.id]);
  }

  lemma {:induction false} StepsSettled(
    table: seq<Row>, rels: set<string>, records: map<string, Row>, records': map<string, Row>, r: seq<Edge>)
    requires Indexed(table, rels, records) && Indexed(table, rels, records')
    requires TrailRecorded(records, r) && TrailRecorded(records', r) && TrailSettled(table, r)
    ensures StepsOf(records, r) == StepsOf(records', r)
  {
    hide Indexed, HasRecord, Settled, StepOf;
    if r != [] {
      StepsSettled(table, rels, records, records', r[..|r| - 1]);
      StepSettled(table, rels, records, records', r[|r| - 1]);
    }
  }

  lemma {:induction false} PathsSettled(
    table: seq<Row>, rels: set<string>, records: map<string, Row>, records': map<string, Row>, trails: seq<seq<Edge>>)
    requires Indexed(table, rels, records) && Indexed(table, rels, records')
    requires forall r :: r in trails ==>
                           TrailRecorded(records, r) && TrailRecorded(records', r) && TrailSettled(table, r)
    ensures PathsOf(records, trails) == PathsOf(records', trails)
  {
    hide Indexed, TrailRecorded, TrailSettled, StepsOf;
    if trails != [] {
      PathsSettled(table, rels, records, records', trails[..|trails| - 1]);
      StepsSettled(table, rels, records, records', trails[|trails| - 1]);
    }
  }

  /** Paths that look the same look up the same records. */
  lemma SamePathsSameStep(
    records: map<string, Row>, records': map<string, Row>, trails: seq<seq<Edge>>, r: seq<Edge>, e: Edge)
    requires PathsOf(records, trails) == PathsOf(records', trails) && r in trails && e in r
    ensures StepOf(records, e) == StepOf(records', e)
  {
    hide StepOf, StepsOf, PathsOf;
    var k :| 0 <= k < |trails| && trails[k] == r;
    var j :| 0 <= j < |r| && r[j] == e;
    PathsIndex(records, trails);
    PathsIndex(records', trails);
    StepsIndex(records, r);
    StepsIndex(records', r);
  }

  // ----- records a search can end with -----

  /** Some records of everything that is stored under the relationships asked for. */
  ghost function SomeRecords(table: seq<Row>, rels: set<string>): map<string, Row> {
    var all := Index(map[], table);
    map id | id in all && all[id].edge.relationship in rels :: all[id]
  }

  lemma SomeRecordsGood(table: seq<Row>, rels: set<string>, e: Edge)
    requires IdsAgree(table)
    ensures Indexed(table, rels, SomeRecords(table, rels))
    ensures Stored(table, rels, e) ==> HasRecord(SomeRecords(table, rels), e)
  {
    hide Index;
    forall id
      ensures id in Index(map[], table) ==>
                var r := Index(map[], table)[id];
                r in table && r.mappable && r.edge.id == id
    {
      IndexFrom(table, id);
    }
    if Stored(table, rels, e) {
      IndexFrom(table, e.id);
    }
  }

  /** Another stored row of an edge can be its record. */
  lemma Rerecorded(table: seq<Row>, rels: set<string>, records: map<string, Row>, row: Row, e: Edge)
    requires IdsAgree(table) && Indexed(table, rels, records) && row in table && row.mappable
    requires row.edge.relationship in rels
    requires Stored(table, rels, e) && HasRecord(records, e)
    ensures Indexed(table, rels, records[row.edge.id := row]) && HasRecord(records[row.edge.id := row], e)
  {
  }

  /** Records of everything stored under the relationships asked for, with a given stored row for one edge. */
  lemma RecordsWith(table: seq<Row>, rels: set<string>, e: Edge, row: Row) returns (records: map<string, Row>)
    requires IdsAgree(table) && Stored(table, rels, e) && row in table && row.mappable && row.edge.id == e.id
    ensures Indexed(table, rels, records) && StepOf(records, e) == row
    ensures forall x :: Stored(table, rels, x) ==> HasRecord(records, x)
  {
    hide Index;
    var some := SomeRecords(table, rels);
    SomeRecordsGood(table, rels, e);
    var stored :| stored in table && stored.mappable && stored.edge == e;
    assert row.edge == stored.edge;
    hide SomeRecords, IdsAgree;
    records := some[row.edge.id := row];
    Rerecorded(table, rels, some, row, e);
    forall x | Stored(table, rels, x)
      ensures HasRecord(records, x)
    {
      SomeRecordsGood(table, rels, x);
      Rerecorded(table, rels, some, row, x);
    }
  }

  // ----- the report -----

  /** `r` is a route the report keeps for `p`. */
  ghost predicate Keeps(d: Direction, anchors: set<string>, s: Search, names: seq<string>, p: string, r: seq<Edge>) {
    Rooted(d, anchors, s) && p in names && p in s.distance && r in KeptRoutes(d, anchors, s, p)
  }

  ghost predicate ShownAt(d: Direction, anchors: set<string>, s: Search, names: seq<string>, e: Edge) {
    exists p, r :: Keeps(d, anchors, s, names, p, r) && e in r
  }

  lemma ItemSettled(
    table: seq<Row>, d: Direction, rels: set<string>, anchors: set<string>, s: Search,
    objects: map<string, ObjectRecord>, records: map<string, Row>, records': map<string, Row>, names: seq<string>,
    p: string)
    requires Indexed(table, rels, records) && Indexed(table, rels, records')
    requires Rooted(d, anchors, s) && Recorded(s, records) && Recorded(s, records')
    requires forall e :: ShownAt(d, anchors, s, names, e) ==> Settled(table, e)
    requires p in names && p in s.distance && p in objects
    ensures ItemOf(d, anchors, s, objects, records, p) == ItemOf(d, anchors, s, objects, records', p)
  {
    hide Indexed, Rooted, Recorded, TrailRecorded, Settled, RoutesFrom, KeptRoutes, PathsOf;
    var kept := KeptRoutes(d, anchors, s, p);
    KeptRecorded(d, anchors, s, records, p);
    KeptRecorded(d, anchors, s, records', p);
    SortByContents(kept, KeyOfTrail, TrailLess);
    forall r | r in SortTrails(kept)
      ensures TrailSettled(table, r)
    {
      forall e | e in r
        ensures Settled(table, e)
      {
        assert Keeps(d, anchors, s, names, p, r);
      }
    }
    PathsSettled(table, rels, records, records', SortTrails(kept));
  }

  lemma ItemsSettled(
    table: seq<Row>, d: Direction, rels: set<string>, anchors: set<string>, s: Search,
    objects: map<string, ObjectRecord>, records: map<string, Row>, records': map<string, Row>, names: seq<string>)
    requires Indexed(table, rels, records) && Indexed(table, rels, records')
    requires Rooted(d, anchors, s) && Recorded(s, records) && Recorded(s, records')
    requires forall e :: ShownAt(d, anchors, s, names, e) ==> Settled(table, e)
    requires forall p :: p in names ==> p in s.distance && p in objects
    ensures ItemsOf(d, anchors, s, objects, records, names) == ItemsOf(d, anchors, s, objects, records', names)
  {
    hide Indexed, Rooted, Recorded, Settled, ShownAt, ItemOf, ItemsOf;
    ItemsOfIndex(d, anchors, s, objects, records, names);
    ItemsOfIndex(d, anchors, s, objects, records', names);
    forall i | 0 <= i < |names|
      ensures ItemOf(d, anchors, s, objects, records, names[i]) == ItemOf(d, anchors, s, objects, records', names[i])
    {
      assert names[i] in names;
      ItemSettled(table, d, rels, anchors, s, objects, records, records', names, names[i]);
    }
  }

  lemma ReportsSettled(
    q: Query, s: Search, changed: string, objects: map<string, ObjectRecord>, casefold: string -> string,
    items: seq<Item>, summary: Summary, items': seq<Item>, summary': Summary)
    requires Reports(q, s, changed, objects, casefold, items, summary)
    requires Reports(q, s, changed, objects, casefold, items', summary')
    requires forall e :: ShownAt(q.direction, q.anchors, s, Reported(s.found, changed, objects), e) ==>
                           Settled(q.table, e)
    ensures items == items' && summary == summary'
  {
    hide Indexed, Rooted, Recorded, Settled, ShownAt, ItemsOf, SortBy, Reported, Nearest, PackagesOf, TablesOf;
    var records :| Indexed(q.table, q.rels, records)
                   && IsReport(q.direction, q.anchors, s, changed, objects, records, casefold, items, summary);
    var records' :| Indexed(q.table, q.rels, records')
                    && IsReport(q.direction, q.anchors, s, changed, objects, records', casefold, items', summary');
    ItemsSettled(
      q.table, q.direction, q.rels, q.anchors, s, objects, records, records', Reported(s.found, changed, objects));
  }

  /** The same rows in another order: the same records will do. */
  lemma ReportsReordered(
    q: Query, table: seq<Row>, s: Search, changed: string, objects: map<string, ObjectRecord>,
    casefold: string -> string, items: seq<Item>, summary: Summary)
    requires multiset(table) == multiset(q.table)
    requires Reports(q.(table := table), s, changed, objects, casefold, items, summary)
    ensures Reports(q, s, changed, objects, casefold, items, summary)
  {
    hide IsReport;
    BagMember(table, q.table);
    var records :| Indexed(table, q.rels, records)
                   && IsReport(q.direction, q.anchors, s, changed, objects, records, casefold, items, summary);
    assert Indexed(q.table, q.rels, records);
  }

  /** Two records of one shown edge make two reports. */
  lemma ReportsDiffer(
    d: Direction, anchors: set<string>, s: Search, objects: map<string, ObjectRecord>, casefold: string -> string,
    records: map<string, Row>, records': map<string, Row>, names: seq<string>, p: string, r: seq<Edge>, e: Edge)
    requires Rooted(d, anchors, s) && Described(objects)
    requires forall p :: p in names ==> p in s.distance && p in objects
    requires Keeps(d, anchors, s, names, p, r) && e in r && StepOf(records, e) != StepOf(records', e)
    ensures SortBy(ItemsOf(d, anchors, s, objects, records, names), KeyOfItem(casefold), ItemLess)
            != SortBy(ItemsOf(d, anchors, s, objects, records', names), KeyOfItem(casefold), ItemLess)
  {
    hide Rooted, StepOf, PathsOf, KeptRoutes, ItemsOf, SortBy, ItemLess;
    var raw, raw' := ItemsOf(d, anchors, s, objects, records, names), ItemsOf(d, anchors, s, objects, records', names);
    SortByContents(raw, KeyOfItem(casefold), ItemLess);
    SortByContents(raw', KeyOfItem(casefold), ItemLess);
    ItemsOfIndex(d, anchors, s, objects, records, names);
    ItemsOfIndex(d, anchors, s, objects, records', names);
    var k :| 0 <= k < |names| && names[k] == p;
    if raw[k] in raw' {
      var l :| 0 <= l < |raw'| && raw'[l] == raw[k];
      assert names[l] in names;
      assert objects[names[l]] == objects[p];
      assert names[l] == p;
      var trails := SortTrails(KeptRoutes(d, anchors, s, p));
      SortByContents(KeptRoutes(d, anchors, s, p), KeyOfTrail, TrailLess);
      SamePathsSameStep(records, records', trails, r, e);
    }
    assert raw[k] in SortBy(raw, KeyOfItem(casefold), ItemLess);
  }

  lemma ReportExists(
    q: Query, s: Search, changed: string, objects: map<string, ObjectRecord>, casefold: string -> string,
    records: map<string, Row>)
    returns (items: seq<Item>, summary: Summary)
    requires Rooted(q.direction, q.anchors, s) && Aligned(s)
    requires Recorded(s, records) && Indexed(q.table, q.rels, records)
    ensures Reports(q, s, changed, objects, casefold, items, summary)
    ensures
      var names := Reported(s.found, changed, objects);
      && (forall p :: p in names ==> p in s.distance && p in objects)
      && items == SortBy(ItemsOf(q.direction, q.anchors, s, objects, records, names), KeyOfItem(casefold), ItemLess)
  {
    ReportedMember(s.found, changed, objects);
    var names := Reported(s.found, changed, objects);
    hide Rooted, Recorded, Indexed, Reported, ItemsOf, SortBy, PackagesOf, TablesOf;
    var raw := ItemsOf(q.direction, q.anchors, s, objects, records, names);
    items := SortBy(raw, KeyOfItem(casefold), ItemLess);
    ItemsOfIndex(q.direction, q.anchors, s, objects, records, names);
    SortByContents(raw, KeyOfItem(casefold), ItemLess);
    DistinctLength(names);
    SubsetSize(Nearest(s, names), set p | p in names);
    summary :=
      Summary(
        |Nearest(s, names)|, |items| - |Nearest(s, names)|, |PackagesOf(objects, names)|,
        |TablesOf(q.direction, q.anchors, s, names)|);
    assert IsReport(q.direction, q.anchors, s, changed, objects, records, casefold, items, summary);
  }

  /** An edge that a report on this change shows. */
  ghost predicate ShownEdge(
    table: seq<Row>, d: Direction, rels: set<string>, changed: ObjectRecord, hops: nat,
    objects: map<string, ObjectRecord>, e: Edge)
  {
    exists anchors ::
      AnchorList(table, changed, anchors) && ShownFrom(table, d, rels, changed, hops, objects, anchors, e)
  }

  ghost predicate ShownFrom(
    table: seq<Row>, d: Direction, rels: set<string>, changed: ObjectRecord, hops: nat,
    objects: map<string, ObjectRecord>, anchors: seq<string>, e: Edge)
  {
    var q := QueryOf(table, d, rels, changed);
    var s := Rounds(q, anchors, hops).search;
    ShownAt(d, q.anchors, s, Reported(s.found, changed.qualifiedName, objects), e)
  }

  /** All reports on this change are equal, whatever order the store returns its rows in. */
  ghost predicate ReportFixed(
    table: seq<Row>, d: Direction, rels: set<string>, changed: ObjectRecord, hops: nat,
    objects: map<string, ObjectRecord>, casefold: string -> string)
  {
    forall table', items, summary, items', summary' ::
      && multiset(table') == multiset(table)
      && ImpactReported(table, d, rels, changed, hops, objects, casefold, items, summary)
      && ImpactReported(table', d, rels, changed, hops, objects, casefold, items', summary')
      ==> items == items' && summary == summary'
  }

  lemma SettledFixes(
    table: seq<Row>, d: Direction, rels: set<string>, changed: ObjectRecord, hops: nat,
    objects: map<string, ObjectRecord>, casefold: string -> string)
    requires IdsAgree(table)
    requires forall e :: ShownEdge(table, d, rels, changed, hops, objects, e) ==> Settled(table, e)
    ensures ReportFixed(table, d, rels, changed, hops, objects, casefold)
  {
    hide IdsAgree, Settled, AnchorList, AnchorsOf, Rounds, Reports, ShownAt, Reported;
    var q := QueryOf(table, d, rels, changed);
    forall table', items, summary, items', summary' |
      && multiset(table') == multiset(table)
      && ImpactReported(table, d, rels, changed, hops, objects, casefold, items, summary)
      && ImpactReported(table', d, rels, changed, hops, objects, casefold, items', summary')
      ensures items == items' && summary == summary'
    {
      var a :| AnchorList(table, changed, a)
               && Reports(q, Rounds(q, a, hops).search, changed.qualifiedName, objects, casefold, items, summary);
      var b := AnchorsBehind(table, table', d, rels, changed, hops, objects, casefold, items', summary');
      AnchorListUnique(table, changed, a, b);
      var s := Rounds(q, a, hops).search;
      forall e | ShownAt(d, q.anchors, s, Reported(s.found, changed.qualifiedName, objects), e)
        ensures Settled(table, e)
      {
        assert ShownFrom(table, d, rels, changed, hops, objects, a, e);
      }
      ReportsSettled(q, s, changed.qualifiedName, objects, casefold, items, summary, items', summary');
    }
  }

  /** A report on the reordered rows is one on the rows as they were. */
  lemma AnchorsBehind(
    table: seq<Row>, table': seq<Row>, d: Direction, rels: set<string>, changed: ObjectRecord, hops: nat,
    objects: map<string, ObjectRecord>, casefold: string -> string, items: seq<Item>, summary: Summary)
    returns (anchors: seq<string>)
    requires IdsAgree(table) && multiset(table') == multiset(table)
    requires ImpactReported(table', d, rels, changed, hops, objects, casefold, items, summary)
    ensures AnchorList(table, changed, anchors)
    ensures
      var q := QueryOf(table, d, rels, changed);
      Reports(q, Rounds(q, anchors, hops).search, changed.qualifiedName, objects, casefold, items, summary)
  {
    hide IdsAgree, AnchorsOf, Rounds, Reports;
    var q, q' := QueryOf(table, d, rels, changed), QueryOf(table', d, rels, changed);
    AnchorsForgetOrder(table, table', changed, 0);
    assert q' == q.(table := table');
    anchors :| AnchorList(table', changed, anchors)
               && Reports(q', Rounds(q', anchors, hops).search, changed.qualifiedName, objects, casefold, items,
                          summary);
    RoundsForgetOrder(q, table', anchors, hops);
    ReportsReordered(q, table', Rounds(q, anchors, hops).search, changed.qualifiedName, objects, casefold, items,
                     summary);
  }

  lemma FixedSettles(
    table: seq<Row>, d: Direction, rels: set<string>, changed: ObjectRecord, hops: nat,
    objects: map<string, ObjectRecord>, casefold: string -> string, e: Edge)
    requires IdsAgree(table) && Described(objects) && ReportFixed(table, d, rels, changed, hops, objects, casefold)
    requires ShownEdge(table, d, rels, changed, hops, objects, e)
    ensures Settled(table, e)
  {
    var q := QueryOf(table, d, rels, changed);
    hide IdsAgree, AnchorsOf, Rounds, Reports, ShownAt, Reported, Described, ReportFixed;
    var anchors :| AnchorList(table, changed, anchors) && ShownFrom(table, d, rels, changed, hops, objects, anchors, e);
    forall row, row' |
      row in table && row' in table && row.mappable && row'.mappable && row.edge.id == e.id && row'.edge.id == e.id
      ensures row == row'
    {
      if row != row' {
        TwoReports(table, d, rels, changed, hops, objects, casefold, anchors, e, row, row');
      }
    }
  }

  lemma SearchFacts(
    table: seq<Row>, d: Direction, rels: set<string>, changed: ObjectRecord, hops: nat, anchors: seq<string>)
    requires AnchorList(table, changed, anchors)
    ensures
      var q := QueryOf(table, d, rels, changed);
      var s := Rounds(q, anchors, hops).search;
      && Rooted(d, q.anchors, s) && Aligned(s)
      && forall p, x :: p in s.parents && x in s.parents[p] ==> q.Has(x)
  {
    hide AnchorsOf, Rounds, Rooted, Stored, Correct, Reaches;
    var q := QueryOf(table, d, rels, changed);
    var s := Rounds(q, anchors, hops).search;
    UnboundedCorrect(q, anchors, hops);
    CorrectRooted(q, s, hops);
    CorrectAligned(q, s, hops);
    forall p, x | p in s.parents && x in s.parents[p]
      ensures q.Has(x)
    {
      ParentsFetched(q, anchors, hops, p, x);
    }
  }

  lemma AllRecorded(q: Query, s: Search, records: map<string, Row>)
    requires forall p, x :: p in s.parents && x in s.parents[p] ==> q.Has(x)
    requires forall x :: Stored(q.table, q.rels, x) ==> HasRecord(records, x)
    ensures Recorded(s, records)
  {
    hide Stored, HasRecord;
    forall p, x | p in s.parents && x in s.parents[p]
      ensures HasRecord(records, x)
    {
      assert q.Has(x);
    }
  }

  lemma KeptStored(
    q: Query, s: Search, names: seq<string>, p: string, r: seq<Edge>, e: Edge)
    requires IdsAgree(q.table) && Keeps(q.direction, q.anchors, s, names, p, r) && e in r
    requires forall p, x :: p in s.parents && x in s.parents[p] ==> q.Has(x)
    ensures q.Has(e)
  {
    hide IdsAgree, SomeRecords, Stored, KeptRoutes, Rooted;
    var some := SomeRecords(q.table, q.rels);
    forall p, x | p in s.parents && x in s.parents[p]
      ensures HasRecord(some, x)
    {
      assert q.Has(x);
      SomeRecordsGood(q.table, q.rels, x);
    }
    SomeRecordsGood(q.table, q.rels, e);
    KeptRecorded(q.direction, q.anchors, s, some, p);
    SortByContents(KeptRoutes(q.direction, q.anchors, s, p), KeyOfTrail, TrailLess);
    assert TrailRecorded(some, r) && HasRecord(some, e);
    RecordStored(q.table, q.rels, some, e);
  }

  lemma RecordStored(table: seq<Row>, rels: set<string>, records: map<string, Row>, e: Edge)
    requires Indexed(table, rels, records) && HasRecord(records, e)
    ensures Stored(table, rels, e)
  {
    assert IsRecord(table, rels, e.id, records[e.id]);
  }

  /** Two rows of a shown edge that differ make two reports. */
  lemma TwoReports(
    table: seq<Row>, d: Direction, rels: set<string>, changed: ObjectRecord, hops: nat,
    objects: map<string, ObjectRecord>, casefold: string -> string, anchors: seq<string>, e: Edge, row: Row, row': Row)
    requires IdsAgree(table) && Described(objects) && AnchorList(table, changed, anchors)
    requires ShownFrom(table, d, rels, changed, hops, objects, anchors, e)
    requires row in table && row' in table && row.mappable && row'.mappable && row.edge.id == e.id
    requires row'.edge.id == e.id
    requires row != row'
    ensures !ReportFixed(table, d, rels, changed, hops, objects, casefold)
  {
    hide IdsAgree, Described, AnchorList, Rounds, Rooted, Recorded, Aligned, Indexed, Reports, Stored, StepOf,
         ReportFixed;
    hide SortBy, ItemsOf, Reported, AnchorsOf, Keeps;
    var q := QueryOf(table, d, rels, changed);
    var s := Rounds(q, anchors, hops).search;
    var names := Reported(s.found, changed.qualifiedName, objects);
    var p, r :| Keeps(d, q.anchors, s, names, p, r) && e in r;
    SearchFacts(table, d, rels, changed, hops, anchors);
    KeptStored(q, s, names, p, r, e);
    var records := RecordsWith(table, rels, e, row);
    var records' := RecordsWith(table, rels, e, row');
    AllRecorded(q, s, records);
    AllRecorded(q, s, records');
    var items, summary := ReportExists(q, s, changed.qualifiedName, objects, casefold, records);
    var items', summary' := ReportExists(q, s, changed.qualifiedName, objects, casefold, records');
    ReportsDiffer(d, q.anchors, s, objects, casefold, records, records', names, p, r, e);
    Unfixed(table, d, rels, changed, hops, objects, casefold, anchors, items, summary, items', summary');
  }

  lemma Unfixed(
    table: seq<Row>, d: Direction, rels: set<string>, changed: ObjectRecord, hops: nat,
    objects: map<string, ObjectRecord>, casefold: string -> string, anchors: seq<string>, items: seq<Item>,
    summary: Summary, items': seq<Item>, summary': Summary)
    requires AnchorList(table, changed, anchors) && items != items'
    requires
      var q := QueryOf(table, d, rels, changed);
      var s := Rounds(q, anchors, hops).search;
      && Reports(q, s, changed.qualifiedName, objects, casefold, items, summary)
      && Reports(q, s, changed.qualifiedName, objects, casefold, items', summary')
    ensures !ReportFixed(table, d, rels, changed, hops, objects, casefold)
  {
    hide AnchorList, Rounds, Reports, AnchorsOf;
    assert ImpactReported(table, d, rels, changed, hops, objects, casefold, items, summary);
    assert ImpactReported(table, d, rels, changed, hops, objects, casefold, items', summary');
  }

  /**
    Reports on a change are the same for every order of the stored rows, evidence included, if and only if the rows of
    every edge on a kept route are equal.
   */
  lemma ReportFixedExactly(
    table: seq<Row>, d: Direction, rels: set<string>, changed: ObjectRecord, hops: nat,
    objects: map<string, ObjectRecord>, casefold: string -> string)
    requires IdsAgree(table) && Described(objects)
    ensures ReportFixed(table, d, rels, changed, hops, objects, casefold) <==>
            forall e :: ShownEdge(table, d, rels, changed, hops, objects, e) ==> Settled(table, e)
  {
    hide IdsAgree, Described, ReportFixed, ShownEdge, Settled;
    if forall e :: ShownEdge(table, d, rels, changed, hops, objects, e) ==> Settled(table, e) {
      SettledFixes(table, d, rels, changed, hops, objects, casefold);
    }
    if ReportFixed(table, d, rels, changed, hops, objects, casefold) {
      forall e | ShownEdge(table, d, rels, changed, hops, objects, e)
        ensures Settled(table, e)
      {
        FixedSettles(table, d, rels, changed, hops, objects, casefold, e);
      }
    }
  }

  /**
    In particular where the rows of one edge id are equal, every report on every change is the same for every order.
   */
  lemma ReportFixedWhereRowsAgree(
    table: seq<Row>, d: Direction, rels: set<string>, changed: ObjectRecord, hops: nat,
    objects: map<string, ObjectRecord>, casefold: string -> string)
    requires RowsAgree(table)
    ensures ReportFixed(table, d, rels, changed, hops, objects, casefold)
  {
    assert forall e :: Settled(table, e);
    assert IdsAgree(table);
    hide RowsAgree, IdsAgree, Settled, ShownEdge, ReportFixed;
    SettledFixes(table, d, rels, changed, hops, objects, casefold);
  }

  // ----- a page of paths -----

  /** An edge on a trail of the page. */
  ghost predicate PageShows(g: Paths.PathQuery, hops: nat, limit: int, offset: int, maxRows: nat, e: Edge)
    requires maxRows >= 1
  {
    exists trails, w ::
      P.Ordered(g, hops, trails) && w in PageOf(trails, limit, offset, maxRows).items && e in w
  }

  /** All such pages are equal, whatever order the store returns its rows in. */
  ghost predicate PageFixed(g: Paths.PathQuery, hops: nat, limit: int, offset: int, maxRows: nat)
    requires maxRows >= 1
  {
    forall table, page, page' ::
      && multiset(table) == multiset(g.table)
      && P.IsPage(g, hops, page, limit, offset, maxRows)
      && P.IsPage(g.(table := table), hops, page', limit, offset, maxRows)
      ==> page == page'
  }

  /** A page of paths is the paths of a page. */
  lemma PageOfPaths(records: map<string, Row>, trails: seq<seq<Edge>>, limit: int, offset: int, maxRows: nat)
    requires maxRows >= 1
    ensures
      var page := PageOf(trails, limit, offset, maxRows);
      var shown := PageOf(PathsOf(records, trails), limit, offset, maxRows);
      shown == Page(PathsOf(records, page.items), page.truncated, page.total)
  {
    var page, shown := PageOf(trails, limit, offset, maxRows), PageOf(PathsOf(records, trails), limit, offset, maxRows);
    PathsIndex(records, trails);
    PathsIndex(records, page.items);
    hide PathsOf, StepsOf;
    assert |shown.items| == |page.items|;
    forall k | 0 <= k < |page.items|
      ensures shown.items[k] == PathsOf(records, page.items)[k]
    {
      var start := Min(Max(0, offset), |trails|);
      assert page.items[k] == trails[start + k];
      assert shown.items[k] == PathsOf(records, trails)[start + k];
    }
  }

  lemma PageMember(trails: seq<seq<Edge>>, limit: int, offset: int, maxRows: nat)
    requires maxRows >= 1
    ensures forall w :: w in PageOf(trails, limit, offset, maxRows).items ==> w in trails
  {
  }

  lemma PagesSettled(
    g: Paths.PathQuery, table: seq<Row>, hops: nat, limit: int, offset: int, maxRows: nat, page: Page<seq<Row>>,
    page': Page<seq<Row>>)
    requires maxRows >= 1 && IdsAgree(g.table) && multiset(table) == multiset(g.table)
    requires P.IsPage(g, hops, page, limit, offset, maxRows)
    requires P.IsPage(g.(table := table), hops, page', limit, offset, maxRows)
    requires forall e :: PageShows(g, hops, limit, offset, maxRows, e) ==> Settled(g.table, e)
    ensures page == page'
  {
    hide IdsAgree, P.Ordered, Settled, PathsOf, PageOf, TrailRecorded;
    var g' := g.(table := table);
    var t, records :|
      && P.Ordered(g, hops, t) && Indexed(g.table, g.rels, records)
      && (forall w :: w in t ==> TrailRecorded(records, w))
      && page == PageOf(PathsOf(records, t), limit, offset, maxRows);
    var t', records' :|
      && P.Ordered(g', hops, t') && Indexed(table, g.rels, records')
      && (forall w :: w in t' ==> TrailRecorded(records', w))
      && page' == PageOf(PathsOf(records', t'), limit, offset, maxRows);
    P.PathsForgetOrder(g, table, hops, t, t');
    BagMember(table, g.table);
    assert Indexed(g.table, g.rels, records');
    PageOfPaths(records, t, limit, offset, maxRows);
    PageOfPaths(records', t, limit, offset, maxRows);
    PageMember(t, limit, offset, maxRows);
    var shown := PageOf(t, limit, offset, maxRows).items;
    hide Indexed;
    forall w | w in shown
      ensures TrailSettled(g.table, w)
    {
      forall e | e in w
        ensures Settled(g.table, e)
      {
        assert PageShows(g, hops, limit, offset, maxRows, e);
      }
    }
    PathsSettled(g.table, g.rels, records, records', shown);
  }

  /** Two rows of an edge on the page that differ make two pages. */
  lemma TwoPages(g: Paths.PathQuery, hops: nat, limit: int, offset: int, maxRows: nat, e: Edge, row: Row, row': Row)
    requires maxRows >= 1 && IdsAgree(g.table) && PageShows(g, hops, limit, offset, maxRows, e)
    requires row in g.table && row' in g.table && row.mappable && row'.mappable && row.edge.id == e.id
    requires row'.edge.id == e.id
    requires row != row'
    ensures !PageFixed(g, hops, limit, offset, maxRows)
  {
    hide IdsAgree, Stored, Indexed, StepOf, PathsOf, PageOf, TrailRecorded, P.Ordered;
    var trails, w :| P.Ordered(g, hops, trails) && w in PageOf(trails, limit, offset, maxRows).items && e in w;
    PageMember(trails, limit, offset, maxRows);
    AnswersStored(g, hops, trails);
    assert Stored(g.table, g.rels, e);
    var records := RecordsWith(g.table, g.rels, e, row);
    var records' := RecordsWith(g.table, g.rels, e, row');
    AnswersRecorded(g, hops, trails, records);
    AnswersRecorded(g, hops, trails, records');
    PageOfPaths(records, trails, limit, offset, maxRows);
    PageOfPaths(records', trails, limit, offset, maxRows);
    var page := PageOf(PathsOf(records, trails), limit, offset, maxRows);
    var page' := PageOf(PathsOf(records', trails), limit, offset, maxRows);
    assert P.IsPage(g, hops, page, limit, offset, maxRows)
           && P.IsPage(g.(table := g.table), hops, page', limit, offset, maxRows);
    if page == page' {
      SamePathsSameStep(records, records', PageOf(trails, limit, offset, maxRows).items, w, e);
    }
  }

  lemma AnswersStored(g: Paths.PathQuery, hops: nat, trails: seq<seq<Edge>>)
    requires P.Ordered(g, hops, trails)
    ensures forall w, e :: w in trails && e in w ==> Stored(g.table, g.rels, e)
  {
    hide Stored, Paths.Level;
    forall w, e | w in trails && e in w
      ensures Stored(g.table, g.rels, e)
    {
      assert Paths.Answer(g, hops, w);
      var i :| 0 <= i < |w| && w[i] == e;
      assert g.Has(w[i]);
    }
  }

  lemma AnswersRecorded(g: Paths.PathQuery, hops: nat, trails: seq<seq<Edge>>, records: map<string, Row>)
    requires P.Ordered(g, hops, trails) && forall x :: Stored(g.table, g.rels, x) ==> HasRecord(records, x)
    ensures forall w :: w in trails ==> TrailRecorded(records, w)
  {
    AnswersStored(g, hops, trails);
    hide Stored, HasRecord, P.Ordered;
  }

  /**
    A page of paths is the same for every order of the stored rows, evidence included, if and only if the rows of every
    edge on it are equal.
   */
  lemma PageFixedExactly(g: Paths.PathQuery, hops: nat, limit: int, offset: int, maxRows: nat)
    requires maxRows >= 1 && IdsAgree(g.table)
    ensures PageFixed(g, hops, limit, offset, maxRows) <==>
            forall e :: PageShows(g, hops, limit, offset, maxRows, e) ==> Settled(g.table, e)
  {
    hide IdsAgree, P.IsPage, PageShows;
    if forall e :: PageShows(g, hops, limit, offset, maxRows, e) ==> Settled(g.table, e) {
      forall table, page, page' |
        && multiset(table) == multiset(g.table)
        && P.IsPage(g, hops, page, limit, offset, maxRows)
        && P.IsPage(g.(table := table), hops, page', limit, offset, maxRows)
        ensures page == page'
      {
        PagesSettled(g, table, hops, limit, offset, maxRows, page, page');
      }
    }
    if PageFixed(g, hops, limit, offset, maxRows) {
      hide PageFixed;
      forall e, row, row' |
        && PageShows(g, hops, limit, offset, maxRows, e)
        && row in g.table && row' in g.table && row.mappable && row'.mappable && row.edge.id == e.id
        && row'.edge.id == e.id
        ensures row == row'
      {
        if row != row' {
          TwoPages(g, hops, limit, offset, maxRows, e, row, row');
        }
      }
    }
  }

  /** In particular where the rows of one edge id are equal, every page is the same for every order. */
  lemma PageFixedWhereRowsAgree(g: Paths.PathQuery, hops: nat, limit: int, offset: int, maxRows: nat)
    requires maxRows >= 1 && RowsAgree(g.table)
    ensures PageFixed(g, hops, limit, offset, maxRows)
  {
    assert forall e :: Settled(g.table, e);
    assert IdsAgree(g.table);
    PageFixedExactly(g, hops, limit, offset, maxRows);
  }
}
