/** The impact report: items, kept routes, order and summary, built from a finished search. */
module ImpactReport {
  import opened Wrappers
  import opened Ordering
  import opened EdgeStore
  import opened Impact
  import opened ImpactAnchors
  import opened ImpactSearch
  import opened ImpactRoutes
  import opened Paging

  /** An item explains a dependent by paths whose steps are records: edges with their evidence. */
  datatype Item = Item(dependent: ObjectRecord, distance: nat, paths: seq<seq<Row>>)

  datatype Summary = Summary(direct: nat, indirect: nat, packages: nat, tablesModified: nat)

  /** The objects the store can describe, each under its own qualified name, with ids that tell them apart. */
  ghost predicate Described(objects: map<string, ObjectRecord>) {
    && (forall p :: p in objects ==> objects[p].qualifiedName == p)
    && (forall p, p' :: p in objects && p' in objects && objects[p].id == objects[p'].id ==> p == p')
  }

  // ----- sort keys -----

  datatype TrailKey = TrailKey(targets: seq<string>, ids: seq<string>)

  function KeyOfTrail(r: seq<Edge>): TrailKey { TrailKey(Targets(r), Ids(r)) }

  predicate TrailLess(a: TrailKey, b: TrailKey) {
    NamesLess(a.targets, b.targets) || (a.targets == b.targets && NamesLess(a.ids, b.ids))
  }

  datatype ItemKey = ItemKey(distance: nat, folded: string, id: string)

  predicate ItemLess(a: ItemKey, b: ItemKey) {
    a.distance < b.distance
    || (a.distance == b.distance
        && (StringLess(a.folded, b.folded) || (a.folded == b.folded && StringLess(a.id, b.id))))
  }

  lemma ItemStrictTotal()
    ensures StrictTotal(ItemLess)
  {
    hide StringLess;
    StringStrictTotal();
  }

  // ----- the report as a function of the search -----

  function SortTrails(trails: seq<seq<Edge>>): seq<seq<Edge>> { SortBy(trails, KeyOfTrail, TrailLess) }

  function ItemOf(
    d: Direction, anchors: set<string>, s: Search, objects: map<string, ObjectRecord>, records: map<string, Row>,
    p: string): Item
    requires Rooted(d, anchors, s) && p in s.distance && p in objects
  {
    Item(objects[p], s.distance[p], PathsOf(records, SortTrails(KeptRoutes(d, anchors, s, p))))
  }

  /** The reached objects that get an item: describable, and not the changed object itself. */
  function Reported(found: seq<string>, changed: string, objects: map<string, ObjectRecord>): seq<string> {
    if found == [] then []
    else
      var p := found[|found| - 1];
      Reported(found[..|found| - 1], changed, objects) + (if p != changed && p in objects then [p] else [])
  }

  function ItemsOf(
    d: Direction, anchors: set<string>, s: Search, objects: map<string, ObjectRecord>, records: map<string, Row>,
    names: seq<string>): seq<Item>
    requires Rooted(d, anchors, s)
    requires forall p :: p in names ==> p in s.distance && p in objects
  {
    if names == [] then []
    else
      ItemsOf(d, anchors, s, objects, records, names[..|names| - 1])
      + [ItemOf(d, anchors, s, objects, records, names[|names| - 1])]
  }

  function PackageOf(o: ObjectRecord): Option<(string, string)> {
    if o.owner != "" then Some((o.schemaName, o.owner))
    else if o.isPackage then Some((o.schemaName, o.name))
    else None
  }

  predicate ModifiesTable(e: Edge) { e.relationship == "WRITES" && e.targetIsTable }

  ghost function PackagesOf(objects: map<string, ObjectRecord>, names: seq<string>): set<(string, string)>
    requires forall p :: p in names ==> p in objects
  {
    set p | p in names && PackageOf(objects[p]).Some? :: PackageOf(objects[p]).value
  }

  ghost function TablesOf(d: Direction, anchors: set<string>, s: Search, names: seq<string>): set<string>
    requires Rooted(d, anchors, s)
    requires forall p :: p in names ==> p in s.distance
  {
    set p, r, e | p in names && r in KeptRoutes(d, anchors, s, p) && e in r && ModifiesTable(e) :: e.target
  }

  lemma {:induction false} ReportedMember(found: seq<string>, changed: string, objects: map<string, ObjectRecord>)
    ensures forall p :: p in Reported(found, changed, objects) <==> p in found && p != changed && p in objects
    ensures Distinct(found) ==> Distinct(Reported(found, changed, objects))
  {
    if found != [] {
      var init := found[..|found| - 1];
      ReportedMember(init, changed, objects);
      assert found == init + [found[|found| - 1]];
    }
  }

  lemma {:induction false} ItemsOfIndex(
    d: Direction, anchors: set<string>, s: Search, objects: map<string, ObjectRecord>, records: map<string, Row>,
    names: seq<string>)
    requires Rooted(d, anchors, s)
    requires forall p :: p in names ==> p in s.distance && p in objects
    ensures |ItemsOf(d, anchors, s, objects, records, names)| == |names|
    ensures forall i :: 0 <= i < |names| ==>
                          ItemsOf(d, anchors, s, objects, records, names)[i] ==
                          ItemOf(d, anchors, s, objects, records, names[i])
  {
    hide ItemOf, Rooted;
    if names != [] {
      ItemsOfIndex(d, anchors, s, objects, records, names[..|names| - 1]);
    }
  }

  // ----- the report as the gateway builds it -----

  method BuildReport(
    d: Direction, anchors: set<string>, s: Search, changed: string, objects: map<string, ObjectRecord>,
    records: map<string, Row>, casefold: string -> string)
    returns (items: seq<Item>, summary: Summary)
    requires Rooted(d, anchors, s) && Aligned(s) && Recorded(s, records)
    ensures
      var names := Reported(s.found, changed, objects);
      && (forall p :: p in names ==> p in s.distance && p in objects)
      && items == SortBy(ItemsOf(d, anchors, s, objects, records, names), KeyOfItem(casefold), ItemLess)
      && summary.direct == |Nearest(s, names)|
      && summary.direct + summary.indirect == |items|
      && summary.packages == |PackagesOf(objects, names)|
      && summary.tablesModified == |TablesOf(d, anchors, s, names)|
  {
    items := [];
    var direct := 0;
    var packages: set<(string, string)> := {};
    var tables: set<string> := {};
    ReportedMember(s.found, changed, objects);
    ghost var names := [];
    TallyStarts(d, anchors, s, objects, records);
    assert s.found[..0] == [];
    assert names == Reported(s.found[..0], changed, objects);
    hide *;
    for i := 0 to |s.found|
      invariant names == Reported(s.found[..i], changed, objects)
      invariant forall p :: p in names ==> p in s.distance && p in objects
      invariant Tallied(d, anchors, s, objects, records, names, items, direct, packages, tables)
    {
      var peer := s.found[i];
      ReportedNext(s, changed, objects, i);
      if peer != changed && peer in objects {
        var dependent := objects[peer];
        var trails := KeptRoutes(d, anchors, s, peer);
        TallyNext(d, anchors, s, objects, records, names, items, direct, packages, tables, peer);
        ItemOfIs(d, anchors, s, objects, records, peer);
        if s.distance[peer] == 1 {
          direct := direct + 1;
        }
        if PackageOf(dependent).Some? {
          packages := packages + {PackageOf(dependent).value};
        }
        tables := tables + (set r, e | r in trails && e in r && ModifiesTable(e) :: e.target);
        KeptRecorded(d, anchors, s, records, peer);
        var paths := LookUp(records, SortTrails(trails));
        items := items + [Item(dependent, s.distance[peer], paths)];
        names := names + [peer];
      }
    }
    assert s.found[..|s.found|] == s.found;
    TallyEnds(d, anchors, s, objects, records, names, items, direct, packages, tables);
    SortByContents(items, KeyOfItem(casefold), ItemLess);
    summary := Summary(direct, |items| - direct, |packages|, |tables|);
    items := SortBy(items, KeyOfItem(casefold), ItemLess);
  }

  lemma KeptRecorded(d: Direction, anchors: set<string>, s: Search, records: map<string, Row>, peer: string)
    requires Rooted(d, anchors, s) && Recorded(s, records) && peer in s.distance
    ensures forall r :: r in SortTrails(KeptRoutes(d, anchors, s, peer)) ==> TrailRecorded(records, r)
  {
    hide Rooted, Recorded, HasRecord, RoutesFrom;
    RoutesAreRecorded(d, anchors, s, records, peer);
    SortByContents(KeptRoutes(d, anchors, s, peer), KeyOfTrail, TrailLess);
  }

  /** The running totals after the objects `names` have been reported. */
  ghost predicate Tallied(
    d: Direction, anchors: set<string>, s: Search, objects: map<string, ObjectRecord>, records: map<string, Row>,
    names: seq<string>, items: seq<Item>, direct: nat, packages: set<(string, string)>, tables: set<string>)
    requires Rooted(d, anchors, s) && forall p :: p in names ==> p in s.distance && p in objects
  {
    && Distinct(names)
    && items == ItemsOf(d, anchors, s, objects, records, names)
    && direct == |Nearest(s, names)|
    && packages == PackagesOf(objects, names)
    && tables == TablesOf(d, anchors, s, names)
  }

  ghost function Nearest(s: Search, names: seq<string>): set<string>
    requires forall p :: p in names ==> p in s.distance
  {
    set p | p in names && s.distance[p] == 1
  }

  lemma ReportedNext(s: Search, changed: string, objects: map<string, ObjectRecord>, i: nat)
    requires Aligned(s) && i < |s.found|
    ensures s.found[i] !in Reported(s.found[..i], changed, objects) && s.found[i] in s.distance
    ensures Reported(s.found[..i + 1], changed, objects) ==
            Reported(s.found[..i], changed, objects)
            + (if s.found[i] != changed && s.found[i] in objects then [s.found[i]] else [])
  {
    ReportedMember(s.found[..i], changed, objects);
    assert s.found[..i + 1][..i] == s.found[..i];
    assert s.found[i] !in s.found[..i];
  }

  lemma ItemOfIs(
    d: Direction, anchors: set<string>, s: Search, objects: map<string, ObjectRecord>, records: map<string, Row>,
    p: string)
    requires Rooted(d, anchors, s) && p in s.distance && p in objects
    ensures ItemOf(d, anchors, s, objects, records, p) ==
            Item(objects[p], s.distance[p], PathsOf(records, SortTrails(KeptRoutes(d, anchors, s, p))))
  {
  }

  lemma ItemsOfNext(
    d: Direction, anchors: set<string>, s: Search, objects: map<string, ObjectRecord>, records: map<string, Row>,
    names: seq<string>, p: string)
    requires Rooted(d, anchors, s)
    requires forall x :: x in names + [p] ==> x in s.distance && x in objects
    ensures forall x :: x in names ==> x in s.distance && x in objects
    ensures p in s.distance && p in objects
    ensures ItemsOf(d, anchors, s, objects, records, names + [p]) ==
            ItemsOf(d, anchors, s, objects, records, names) + [ItemOf(d, anchors, s, objects, records, p)]
  {
    assert (names + [p])[..|names|] == names;
    assert forall x :: x in names ==> x in names + [p];
    assert p in names + [p];
  }

  lemma NearestNext(s: Search, names: seq<string>, p: string)
    requires p in s.distance && p !in names && forall x :: x in names ==> x in s.distance
    ensures |Nearest(s, names + [p])| == |Nearest(s, names)| + (if s.distance[p] == 1 then 1 else 0)
  {
    assert Nearest(s, names + [p]) == Nearest(s, names) + (if s.distance[p] == 1 then {p} else {});
    assert p !in Nearest(s, names);
  }

  lemma TallyStarts(
    d: Direction, anchors: set<string>, s: Search, objects: map<string, ObjectRecord>, records: map<string, Row>)
    requires Rooted(d, anchors, s)
    ensures Tallied(d, anchors, s, objects, records, [], [], 0, {}, {})
  {
  }

  lemma TallyNext(
    d: Direction, anchors: set<string>, s: Search, objects: map<string, ObjectRecord>, records: map<string, Row>,
    names: seq<string>, items: seq<Item>, direct: nat, packages: set<(string, string)>, tables: set<string>, p: string)
    requires Rooted(d, anchors, s) && forall x :: x in names ==> x in s.distance && x in objects
    requires Tallied(d, anchors, s, objects, records, names, items, direct, packages, tables)
    requires p in s.distance && p in objects && p !in names
    ensures Tallied(
              d, anchors, s, objects, records, names + [p], items + [ItemOf(d, anchors, s, objects, records, p)],
              if s.distance[p] == 1 then direct + 1 else direct,
              packages + (if PackageOf(objects[p]).Some? then {PackageOf(objects[p]).value} else {}),
              tables + (set r, e | r in KeptRoutes(d, anchors, s, p) && e in r && ModifiesTable(e) :: e.target))
    ensures packages + {} == packages
  {
    hide Rooted, KeptRoutes, TablesOf, PackagesOf, ModifiesTable, ItemOf, ItemsOf, Nearest, PackageOf;
    PackagesNext(objects, names, p);
    TablesNext(d, anchors, s, names, p);
    ItemsOfNext(d, anchors, s, objects, records, names, p);
    NearestNext(s, names, p);
    DistinctConcat(names, [p]);
  }

  lemma TallyEnds(
    d: Direction, anchors: set<string>, s: Search, objects: map<string, ObjectRecord>, records: map<string, Row>,
    names: seq<string>, items: seq<Item>, direct: nat, packages: set<(string, string)>, tables: set<string>)
    requires Rooted(d, anchors, s) && forall p :: p in names ==> p in s.distance && p in objects
    requires Tallied(d, anchors, s, objects, records, names, items, direct, packages, tables)
    ensures items == ItemsOf(d, anchors, s, objects, records, names) && direct == |Nearest(s, names)| <= |items|
    ensures packages == PackagesOf(objects, names) && tables == TablesOf(d, anchors, s, names)
  {
    ItemsOfIndex(d, anchors, s, objects, records, names);
    DistinctLength(names);
    SubsetSize(Nearest(s, names), set p | p in names);
  }

  lemma {:induction false} SubsetSize<T>(a: set<T>, b: set<T>)
    requires a <= b
    ensures |a| <= |b|
  {
    assert b == a + (b - a);
    assert |b| == |a| + |b - a|;
  }

  function KeyOfItem(casefold: string -> string): Item -> ItemKey {
    (i: Item) => ItemKey(i.distance, casefold(i.dependent.qualifiedName), i.dependent.id)
  }

  lemma PackagesNext(objects: map<string, ObjectRecord>, names: seq<string>, p: string)
    requires p in objects && forall x :: x in names ==> x in objects
    ensures PackagesOf(objects, names + [p]) ==
            PackagesOf(objects, names) + (if PackageOf(objects[p]).Some? then {PackageOf(objects[p]).value} else {})
  {
  }

  lemma TablesNext(d: Direction, anchors: set<string>, s: Search, names: seq<string>, p: string)
    requires Rooted(d, anchors, s) && p in s.distance && forall x :: x in names ==> x in s.distance
    ensures TablesOf(d, anchors, s, names + [p]) ==
            TablesOf(d, anchors, s, names)
            + (set r, e | r in KeptRoutes(d, anchors, s, p) && e in r && ModifiesTable(e) :: e.target)
  {
    hide KeptRoutes, Rooted, ModifiesTable;
    var grown := TablesOf(d, anchors, s, names + [p]);
    var touched := set r, e | r in KeptRoutes(d, anchors, s, p) && e in r && ModifiesTable(e) :: e.target;
    forall t
      ensures t in grown <==> t in TablesOf(d, anchors, s, names) || t in touched
    {
      if t in grown {
        var p', r, e :| p' in names + [p] && r in KeptRoutes(d, anchors, s, p') && e in r && ModifiesTable(e)
                        && e.target == t;
        if p' != p {
          assert p' in names;
        }
      }
      if t in TablesOf(d, anchors, s, names) {
        var p', r, e :| p' in names && r in KeptRoutes(d, anchors, s, p') && e in r && ModifiesTable(e)
                        && e.target == t;
        assert p' in names + [p];
      }
      if t in touched {
        var r, e :| r in KeptRoutes(d, anchors, s, p) && e in r && ModifiesTable(e) && e.target == t;
        assert p in names + [p];
      }
    }
  }

  // ----- what the report says -----

  /** `items` and `summary` are the report of a finished search. */
  ghost predicate IsReport(
    d: Direction, anchors: set<string>, s: Search, changed: string, objects: map<string, ObjectRecord>,
    records: map<string, Row>, casefold: string -> string, items: seq<Item>, summary: Summary)
  {
    && Rooted(d, anchors, s) && Recorded(s, records)
    && var names := Reported(s.found, changed, objects);
    && (forall p :: p in names ==> p in s.distance && p in objects)
    && items == SortBy(ItemsOf(d, anchors, s, objects, records, names), KeyOfItem(casefold), ItemLess)
    && summary.direct == |Nearest(s, names)|
    && summary.direct + summary.indirect == |items|
    && summary.packages == |PackagesOf(objects, names)|
    && summary.tablesModified == |TablesOf(d, anchors, s, names)|
  }

  /** ... with records that are stored rows. */
  ghost predicate Reports(
    q: Query, s: Search, changed: string, objects: map<string, ObjectRecord>, casefold: string -> string,
    items: seq<Item>, summary: Summary)
  {
    exists records ::
      && Indexed(q.table, q.rels, records)
      && IsReport(q.direction, q.anchors, s, changed, objects, records, casefold, items, summary)
  }

  /** A path of an item: a shortest route of `p`, each of its steps a stored row. */
  ghost predicate Shown(q: Query, p: string, n: nat, steps: seq<Row>) {
    && Route(q, p, n, EdgesOf(steps))
    && forall x :: x in steps ==> x in q.table && x.mappable && x.edge.relationship in q.rels
  }

  /** Some item is about `p`. */
  ghost predicate HasItem(items: seq<Item>, p: string) {
    exists i :: 0 <= i < |items| && items[i].dependent.qualifiedName == p
  }

  /** An item is about `p`, at its shortest distance, explained by nothing but shortest routes. */
  ghost predicate Explains(q: Query, hops: nat, i: Item, p: string) {
    && i.dependent.qualifiedName == p
    && Within(q, p, hops) && AtDistance(q, p, i.distance)
    && 0 < |i.paths| <= MAX_ROUTES
    && (forall steps :: steps in i.paths ==> Shown(q, p, i.distance, steps))
  }

  lemma FoundWithin(q: Query, s: Search, hops: nat, changed: string, objects: map<string, ObjectRecord>)
    requires Correct(q, s, hops)
    ensures Distinct(Reported(s.found, changed, objects))
    ensures forall p :: p in Reported(s.found, changed, objects) <==> Within(q, p, hops) && p != changed && p in objects
  {
    hide Within, ValuesShortest, Reported;
    ReportedMember(s.found, changed, objects);
  }

  lemma ReportItems(
    q: Query, hops: nat, s: Search, changed: string, objects: map<string, ObjectRecord>, casefold: string -> string,
    items: seq<Item>, summary: Summary)
    requires Correct(q, s, hops) && Described(objects) && Distinct(Reported(s.found, changed, objects))
    requires Reports(q, s, changed, objects, casefold, items, summary)
    ensures forall i :: 0 <= i < |items| ==> Explains(q, hops, items[i], items[i].dependent.qualifiedName)
    ensures forall p :: p in Reported(s.found, changed, objects)
                        <==> HasItem(items, p)
    ensures forall i, j :: 0 <= i < j < |items| ==>
              items[i].distance <= items[j].distance
              && items[i].dependent.qualifiedName != items[j].dependent.qualifiedName
  {
    hide Correct, Rooted, Recorded, Indexed, Described, Reported, ItemsOf, SortBy, Explains;
    var records :| Indexed(q.table, q.rels, records)
                   && IsReport(q.direction, q.anchors, s, changed, objects, records, casefold, items, summary);
    var names := Reported(s.found, changed, objects);
    ItemsTheorem(q, hops, s, objects, records, names, casefold);
    assert items == SortBy(ItemsOf(q.direction, q.anchors, s, objects, records, names), KeyOfItem(casefold), ItemLess);
  }

  lemma {:induction false} StepsStored(q: Query, records: map<string, Row>, r: seq<Edge>)
    requires Indexed(q.table, q.rels, records) && TrailRecorded(records, r)
    ensures forall x :: x in StepsOf(records, r) ==> x in q.table && x.mappable && x.edge.relationship in q.rels
  {
    if r != [] {
      StepsStored(q, records, r[..|r| - 1]);
      var last := r[|r| - 1];
      assert HasRecord(records, last) && IsRecord(q.table, q.rels, last.id, records[last.id]);
    }
  }

  lemma ItemExplains(
    q: Query, hops: nat, s: Search, objects: map<string, ObjectRecord>, records: map<string, Row>, p: string)
    requires Correct(q, s, hops) && Rooted(q.direction, q.anchors, s) && Described(objects)
    requires Recorded(s, records) && Indexed(q.table, q.rels, records)
    requires p in s.distance && p in objects
    ensures Explains(q, hops, ItemOf(q.direction, q.anchors, s, objects, records, p), p)
  {
    hide Rooted, Route, Chain, Recorded, Indexed, HasRecord, StepsOf, PathsOf, EdgesOf, RoutesFrom;
    var kept := KeptRoutes(q.direction, q.anchors, s, p);
    RoutesFromExact(q, s, hops, p);
    SomeRoute(q, p, s.distance[p]);
    SortByContents(kept, KeyOfTrail, TrailLess);
    KeptRecorded(q.direction, q.anchors, s, records, p);
    var trails := SortTrails(kept);
    PathsMember(records, trails, []);
    forall steps | steps in PathsOf(records, trails)
      ensures Shown(q, p, s.distance[p], steps)
    {
      PathsMember(records, trails, steps);
      var r :| r in trails && steps == StepsOf(records, r);
      StepsEdges(records, r);
      StepsStored(q, records, r);
    }
  }

  lemma ItemsTheorem(
    q: Query, hops: nat, s: Search, objects: map<string, ObjectRecord>, records: map<string, Row>, names: seq<string>,
    casefold: string -> string)
    requires Correct(q, s, hops) && Rooted(q.direction, q.anchors, s) && Described(objects) && Distinct(names)
    requires Recorded(s, records) && Indexed(q.table, q.rels, records)
    requires forall p :: p in names ==> p in s.distance && p in objects
    ensures
      var items := SortBy(ItemsOf(q.direction, q.anchors, s, objects, records, names), KeyOfItem(casefold), ItemLess);
      && (forall i :: 0 <= i < |items| ==> Explains(q, hops, items[i], items[i].dependent.qualifiedName))
      && (forall p :: p in names <==> HasItem(items, p))
      && (forall i, j :: 0 <= i < j < |items| ==>
                           items[i].distance <= items[j].distance
                           && items[i].dependent.qualifiedName != items[j].dependent.qualifiedName)
      && Itemized(q.direction, q.anchors, s, objects, records, names, items)
      && (forall i, j :: 0 <= i < j < |items| ==> ItemBefore(casefold, items[i], items[j]))
  {
    hide ItemBefore, Correct, Rooted, KeptRoutes, Explains, ItemsOf, PathsOf, SortBy, SortTrails, StringLess;
    hide Recorded, Indexed;
    var raw := ItemsOf(q.direction, q.anchors, s, objects, records, names);
    var key := KeyOfItem(casefold);
    var items := SortBy(raw, key, ItemLess);
    ItemsOfIndex(q.direction, q.anchors, s, objects, records, names);
    ItemStrictTotal();
    SortBySorted(raw, key, ItemLess);
    SortByContents(raw, key, ItemLess);
    assert Distinct(raw);
    DistinctSort(raw, key, ItemLess);
    forall i | 0 <= i < |items|
      ensures Explains(q, hops, items[i], items[i].dependent.qualifiedName)
      ensures items[i].dependent.qualifiedName in names
      ensures items[i] == ItemOf(q.direction, q.anchors, s, objects, records, items[i].dependent.qualifiedName)
    {
      assert items[i] in raw;
      var k :| 0 <= k < |raw| && raw[k] == items[i];
      ItemExplains(q, hops, s, objects, records, names[k]);
    }
    forall p | p in names
      ensures HasItem(items, p)
    {
      var k :| 0 <= k < |names| && names[k] == p;
      assert raw[k] in items;
    }
    forall i, j | 0 <= i < j < |items|
      ensures items[i].distance <= items[j].distance
      ensures items[i].dependent.qualifiedName != items[j].dependent.qualifiedName
    {
      assert !ItemLess(key(items[j]), key(items[i]));
      assert items[i] != items[j];
    }
    ItemsInOrder(objects, items, casefold);
  }

  lemma ItemsInOrder(objects: map<string, ObjectRecord>, items: seq<Item>, casefold: string -> string)
    requires Described(objects) && SortedBy(items, KeyOfItem(casefold), ItemLess)
    requires forall i :: 0 <= i < |items| ==>
               items[i].dependent.qualifiedName in objects
               && items[i].dependent == objects[items[i].dependent.qualifiedName]
    requires forall i, j :: 0 <= i < j < |items| ==>
               items[i].dependent.qualifiedName != items[j].dependent.qualifiedName
    ensures forall i, j :: 0 <= i < j < |items| ==> ItemBefore(casefold, items[i], items[j])
  {
    hide StringLess, ComesBefore;
    ItemStrictTotal();
    forall i, j | 0 <= i < j < |items|
      ensures ItemBefore(casefold, items[i], items[j])
    {
      var a, b := KeyOfItem(casefold)(items[i]), KeyOfItem(casefold)(items[j]);
      assert !ItemLess(b, a) && a.id != b.id;
      StringLessExactly(a.folded, b.folded);
      StringLessExactly(a.id, b.id);
    }
  }

  // ----- row order cannot be seen -----

  lemma SelectWithout(b: seq<Row>, k: nat, d: Direction, rels: set<string>, names: set<string>)
    requires k < |b|
    ensures |Select(b, d, rels, names)| ==
            |Select(b[..k] + b[k + 1..], d, rels, names)| + (if Matches(b[k], d, rels, names) then 1 else 0)
  {
    assert b == b[..k] + ([b[k]] + b[k + 1..]);
    SelectConcat(b[..k], [b[k]] + b[k + 1..], d, rels, names);
    SelectConcat([b[k]], b[k + 1..], d, rels, names);
    SelectConcat(b[..k], b[k + 1..], d, rels, names);
    assert Select([b[k]], d, rels, names) == if Matches(b[k], d, rels, names) then [b[k]] else [];
  }

  lemma {:induction false} SelectBag(a: seq<Row>, b: seq<Row>, d: Direction, rels: set<string>, names: set<string>)
    requires multiset(a) == multiset(b)
    ensures |Select(a, d, rels, names)| == |Select(b, d, rels, names)|
  {
    assert |multiset(a)| == |multiset(b)|;
    if a != [] {
      hide Select, Matches;
      assert a[0] in multiset(b);
      var k :| 0 <= k < |b| && b[k] == a[0];
      RemoveOne(a, b, k);
      SelectBag(a[1..], b[..k] + b[k + 1..], d, rels, names);
      SelectWithout(b, k, d, rels, names);
      SelectCons(a[0], a[1..], d, rels, names);
      assert |Select(a, d, rels, names)| == |Select(b, d, rels, names)|;
    }
  }

  lemma SelectCons(row: Row, rest: seq<Row>, d: Direction, rels: set<string>, names: set<string>)
    ensures Select([row] + rest, d, rels, names) ==
            (if Matches(row, d, rels, names) then [row] else []) + Select(rest, d, rels, names)
  {
    assert ([row] + rest)[1..] == rest;
  }

  lemma {:induction false} SelectConcat(a: seq<Row>, b: seq<Row>, d: Direction, rels: set<string>, names: set<string>)
    ensures Select(a + b, d, rels, names) == Select(a, d, rels, names) + Select(b, d, rels, names)
  {
    if a == [] {
      assert a + b == b;
      assert Select(a, d, rels, names) == [];
    } else {
      hide Select, Matches;
      var first := if Matches(a[0], d, rels, names) then [a[0]] else [];
      SelectConcat(a[1..], b, d, rels, names);
      assert a + b == [a[0]] + (a[1..] + b) && a == [a[0]] + a[1..];
      SelectCons(a[0], a[1..] + b, d, rels, names);
      SelectCons(a[0], a[1..], d, rels, names);
      Associate(first, Select(a[1..], d, rels, names), Select(b, d, rels, names));
      assert Select(a + b, d, rels, names) == Select(a, d, rels, names) + Select(b, d, rels, names);
    }
  }

  lemma {:induction false} RoundEdgesBag(q: Query, table: seq<Row>, names: seq<string>)
    requires IdsAgree(q.table) && multiset(table) == multiset(q.table)
    ensures RoundEdges(q.(table := table), names) == RoundEdges(q, names)
  {
    if names != [] {
      RoundEdgesBag(q, table, names[..|names| - 1]);
      AdjacentBag(q.table, table, q.direction, q.rels, names[|names| - 1]);
    }
  }

  lemma {:induction false} AbsorbAllSame(q: Query, table: seq<Row>, s: Search, es: seq<Edge>, depth: nat)
    requires s.parents.Keys == s.distance.Keys
    ensures AbsorbAll(q.(table := table), s, es, depth) == AbsorbAll(q, s, es, depth)
  {
    if es != [] {
      AbsorbAllSame(q, table, s, es[..|es| - 1], depth);
    }
  }

  /** Two stores holding the same rows in any two orders run the same search. */
  lemma {:induction false} RoundsForgetOrder(q: Query, table: seq<Row>, anchors: seq<string>, n: nat)
    requires IdsAgree(q.table) && multiset(table) == multiset(q.table)
    ensures Rounds(q.(table := table), anchors, n) == Rounds(q, anchors, n)
  {
    hide *;
    var q' := q.(table := table);
    if n == 0 {
      RoundsStart(q, anchors);
      RoundsStart(q', anchors);
    } else {
      RoundsForgetOrder(q, table, anchors, n - 1);
      var st := Rounds(q, anchors, n - 1);
      RoundsNext(q, anchors, n, st);
      RoundsNext(q', anchors, n, st);
      RoundEdgesBag(q, table, Fresh(st.frontier, st.expanded));
      AbsorbAllSame(q, table, st.search, RoundEdges(q, Fresh(st.frontier, st.expanded)), n);
    }
  }

  /** ... and meet the edge budget, or exceed it, together. */
  lemma FitsForgetsOrder(q: Query, table: seq<Row>, anchors: seq<string>, hops: nat, budget: nat)
    requires IdsAgree(q.table) && multiset(table) == multiset(q.table)
    ensures Fits(q.(table := table), anchors, hops, budget) <==> Fits(q, anchors, hops, budget)
  {
    var q' := q.(table := table);
    forall n | 0 <= n < hops
      ensures RoundFits(q', Rounds(q', anchors, n), budget) <==> RoundFits(q, Rounds(q, anchors, n), budget)
    {
      RoundsForgetOrder(q, table, anchors, n);
      RoundFitsSame(q, table, Rounds(q, anchors, n), budget);
    }
  }

  lemma RoundFitsSame(q: Query, table: seq<Row>, st: State, budget: nat)
    requires multiset(table) == multiset(q.table)
    ensures RoundFits(q.(table := table), st, budget) <==> RoundFits(q, st, budget)
  {
    var names := SetOf(Fresh(st.frontier, st.expanded));
    SelectBag(q.table, table, q.direction, q.rels, names);
    assert KnownIds(q.(table := table), st.expanded) == KnownIds(q, st.expanded) by {
      forall r
        ensures r in table <==> r in q.table
      {
        assert r in multiset(table) <==> r in multiset(q.table);
      }
    }
  }

  // ----- the whole computation -----

  /** The search behind a request. */
  ghost function QueryOf(table: seq<Row>, d: Direction, rels: set<string>, changed: ObjectRecord): Query {
    Query(table, d, rels, AnchorsOf(table, changed))
  }

  /** The lookup of the anchors and every round of the search stay within the budget. */
  ghost predicate ImpactFits(
    table: seq<Row>, d: Direction, rels: set<string>, changed: ObjectRecord, hops: nat, budget: nat)
  {
    AnchorsFit(table, changed, budget)
    && exists anchors ::
         AnchorList(table, changed, anchors) && Fits(QueryOf(table, d, rels, changed), anchors, hops, budget)
  }

  /** `items` and `summary` are the report on a change to `changed`. */
  ghost predicate ImpactReported(
    table: seq<Row>, d: Direction, rels: set<string>, changed: ObjectRecord, hops: nat,
    objects: map<string, ObjectRecord>, casefold: string -> string, items: seq<Item>, summary: Summary)
  {
    exists anchors ::
      && AnchorList(table, changed, anchors)
      && var q := QueryOf(table, d, rels, changed);
      Reports(q, Rounds(q, anchors, hops).search, changed.qualifiedName, objects, casefold, items, summary)
  }

  /** Either the limit error or the report of the search with no budget, never a truncated one. */
  method ComputeImpact(
    table: seq<Row>, d: Direction, rels: set<string>, changed: ObjectRecord, hops: nat, budget: nat,
    objects: map<string, ObjectRecord>, casefold: string -> string)
    returns (r: Result<(seq<Item>, Summary), Failure>)
    requires IdsAgree(table)
    ensures r.Ok? <==> ImpactFits(table, d, rels, changed, hops, budget)
    ensures r.Ok? ==> ImpactReported(table, d, rels, changed, hops, objects, casefold, r.value.0, r.value.1)
  {
    hide Rounds, Fits, Correct, Reaches, Rooted, Recorded, Indexed, AnchorsFit, AnchorsOf, IdsAgree;
    var anchors := FindAnchors(table, changed, budget);
    if anchors.Err? {
      return Err(anchors.error);
    }
    var q := Query(table, d, rels, SetOf(anchors.value));
    assert q == QueryOf(table, d, rels, changed);
    OneAnchorList(table, d, rels, changed, anchors.value, hops, budget);
    var search, edgeById := Traverse(q, anchors.value, hops, budget);
    if search.Err? {
      return Err(search.error);
    }
    UnboundedCorrect(q, anchors.value, hops);
    CorrectRooted(q, search.value, hops);
    CorrectAligned(q, search.value, hops);
    var items, summary := BuildReport(d, q.anchors, search.value, changed.qualifiedName, objects, edgeById, casefold);
    assert Reports(q, search.value, changed.qualifiedName, objects, casefold, items, summary);
    r := Ok((items, summary));
  }

  lemma OneAnchorList(
    table: seq<Row>, d: Direction, rels: set<string>, changed: ObjectRecord, anchors: seq<string>, hops: nat,
    budget: nat)
    requires AnchorList(table, changed, anchors) && AnchorsFit(table, changed, budget)
    ensures ImpactFits(table, d, rels, changed, hops, budget) <==>
            Fits(QueryOf(table, d, rels, changed), anchors, hops, budget)
  {
    hide AnchorList, Fits, AnchorsOf;
    forall other | AnchorList(table, changed, other)
      ensures other == anchors
    {
      AnchorListUnique(table, changed, other, anchors);
    }
  }

  /** When the limit error comes, on the stored rows. */
  lemma ImpactFitsExactly(
    table: seq<Row>, d: Direction, rels: set<string>, changed: ObjectRecord, hops: nat, budget: nat,
    anchors: seq<string>)
    requires AnchorList(table, changed, anchors)
    ensures ImpactFits(table, d, rels, changed, hops, budget) <==>
            && (changed.isPackage ==> |Looked(table, changed)| <= budget)
            && forall n :: 0 <= n < hops ==> RoundAffords(QueryOf(table, d, rels, changed), n, budget)
  {
    hide AnchorsFit, Fits, RoundAffords, AnchorsOf, Looked;
    AnchorsFitExactly(table, changed, budget);
    FitsExactly(QueryOf(table, d, rels, changed), anchors, hops, budget);
    if AnchorsFit(table, changed, budget) {
      OneAnchorList(table, d, rels, changed, anchors, hops, budget);
    }
  }

  /** A page of the report and its whole summary, with the hop clamp of the request. */
  method ImpactOf(
    table: seq<Row>, d: Direction, rels: set<string>, changed: ObjectRecord, maxHops: int, hopLimit: nat, budget: nat,
    objects: map<string, ObjectRecord>, casefold: string -> string, limit: int, offset: int, maxRows: nat)
    returns (r: Result<(Page<Item>, Summary), Failure>)
    requires IdsAgree(table) && hopLimit >= 1 && maxRows >= 1
    ensures
      var hops := Max(1, Min(maxHops, hopLimit));
      && (r.Ok? <==> ImpactFits(table, d, rels, changed, hops, budget))
      && (r.Ok? ==>
            exists items ::
              && ImpactReported(table, d, rels, changed, hops, objects, casefold, items, r.value.1)
              && r.value.0 == PageOf(items, limit, offset, maxRows))
  {
    hide ImpactFits, ImpactReported, IdsAgree;
    var hops := Max(1, Min(maxHops, hopLimit));
    var full := ComputeImpact(table, d, rels, changed, hops, budget, objects, casefold);
    if full.Err? {
      return Err(full.error);
    }
    r := Ok((PageOf(full.value.0, limit, offset, maxRows), full.value.1));
  }

  lemma CorrectAligned(q: Query, s: Search, hops: nat)
    requires Correct(q, s, hops)
    ensures Aligned(s)
  {
  }

  /** An item without the evidence of its steps. */
  function Bare(i: Item): Item { i.(paths := PathsOf(map[], TrailsOf(i.paths))) }

  function TrailsOf(paths: seq<seq<Row>>): seq<seq<Edge>> {
    if paths == [] then [] else TrailsOf(paths[..|paths| - 1]) + [EdgesOf(paths[|paths| - 1])]
  }

  function BareAll(items: seq<Item>): seq<Item> {
    if items == [] then [] else [Bare(items[0])] + BareAll(items[1..])
  }

  lemma {:induction false} PathsTrails(records: map<string, Row>, trails: seq<seq<Edge>>)
    requires forall r :: r in trails ==> TrailRecorded(records, r)
    ensures TrailsOf(PathsOf(records, trails)) == trails
  {
    hide TrailRecorded, StepsOf, EdgesOf;
    if trails != [] {
      var init, last := trails[..|trails| - 1], trails[|trails| - 1];
      PathsTrails(records, init);
      assert last in trails;
      StepsEdges(records, last);
      var paths := PathsOf(records, trails);
      assert paths[..|paths| - 1] == PathsOf(records, init);
      assert trails == init + [last];
    }
  }

  lemma BareItem(
    d: Direction, anchors: set<string>, s: Search, objects: map<string, ObjectRecord>, records: map<string, Row>,
    p: string)
    requires Rooted(d, anchors, s) && Recorded(s, records) && p in s.distance && p in objects
    ensures Bare(ItemOf(d, anchors, s, objects, records, p)) == ItemOf(d, anchors, s, objects, map[], p)
  {
    hide Rooted, Recorded, HasRecord, PathsOf, TrailsOf, SortTrails, KeptRoutes;
    KeptRecorded(d, anchors, s, records, p);
    PathsTrails(records, SortTrails(KeptRoutes(d, anchors, s, p)));
  }

  lemma {:induction false} BareIndex(items: seq<Item>)
    ensures |BareAll(items)| == |items|
    ensures forall i :: 0 <= i < |items| ==> BareAll(items)[i] == Bare(items[i])
  {
    if items != [] {
      hide Bare;
      BareIndex(items[1..]);
      assert forall i :: 1 <= i < |items| ==> items[i] == items[1..][i - 1];
    }
  }

  lemma BareItems(
    d: Direction, anchors: set<string>, s: Search, objects: map<string, ObjectRecord>, records: map<string, Row>,
    names: seq<string>)
    requires Rooted(d, anchors, s) && Recorded(s, records)
    requires forall p :: p in names ==> p in s.distance && p in objects
    ensures BareAll(ItemsOf(d, anchors, s, objects, records, names)) == ItemsOf(d, anchors, s, objects, map[], names)
  {
    hide Rooted, Recorded, ItemOf, ItemsOf, Bare, BareAll;
    var items, plain := ItemsOf(d, anchors, s, objects, records, names), ItemsOf(d, anchors, s, objects, map[], names);
    ItemsOfIndex(d, anchors, s, objects, records, names);
    ItemsOfIndex(d, anchors, s, objects, map[], names);
    BareIndex(items);
    forall i | 0 <= i < |names|
      ensures BareAll(items)[i] == plain[i]
    {
      assert names[i] in names;
      BareItem(d, anchors, s, objects, records, names[i]);
    }
  }

  /** What a report is without its evidence depends on the search alone. */
  lemma BareReport(
    q: Query, s: Search, changed: string, objects: map<string, ObjectRecord>, casefold: string -> string,
    items: seq<Item>, summary: Summary)
    requires Reports(q, s, changed, objects, casefold, items, summary)
    ensures Rooted(q.direction, q.anchors, s)
    ensures
      var names := Reported(s.found, changed, objects);
      && (forall p :: p in names ==> p in s.distance && p in objects)
      && BareAll(items) ==
         SortBy(ItemsOf(q.direction, q.anchors, s, objects, map[], names), KeyOfItem(casefold), ItemLess)
      && |items| == |names|
  {
    hide Rooted, Recorded, Indexed, SortBy, ItemsOf, BareAll, Reported, PackagesOf, TablesOf, Nearest, PathsOf;
    var records :| Indexed(q.table, q.rels, records)
                   && IsReport(q.direction, q.anchors, s, changed, objects, records, casefold, items, summary);
    var names := Reported(s.found, changed, objects);
    var raw := ItemsOf(q.direction, q.anchors, s, objects, records, names);
    BareItems(q.direction, q.anchors, s, objects, records, names);
    ItemsOfIndex(q.direction, q.anchors, s, objects, records, names);
    SortByContents(raw, KeyOfItem(casefold), ItemLess);
    BareSort(raw, KeyOfItem(casefold));
  }

  lemma {:induction false} BareInsert(i: Item, items: seq<Item>, key: Item -> ItemKey)
    requires forall x: Item :: key(Bare(x)) == key(x)
    ensures BareAll(InsertBy(i, items, key, ItemLess)) == InsertBy(Bare(i), BareAll(items), key, ItemLess)
  {
    hide Bare, ItemLess;
    if items != [] {
      BareInsert(i, items[1..], key);
      assert ([i] + items)[1..] == items;
      assert key(Bare(items[0])) == key(items[0]);
    }
  }

  lemma {:induction false} BareSort(items: seq<Item>, key: Item -> ItemKey)
    requires forall x: Item :: key(Bare(x)) == key(x)
    ensures BareAll(SortBy(items, key, ItemLess)) == SortBy(BareAll(items), key, ItemLess)
  {
    if items != [] {
      hide Bare, ItemLess;
      BareSort(items[1..], key);
      BareInsert(items[0], SortBy(items[1..], key, ItemLess), key);
      assert BareAll(items)[1..] == BareAll(items[1..]);
    }
  }

  // ----- the report, told without the search, its records and its sort keys -----

  /** Nearer first, then by the folded name, then by the id of the object. */
  ghost predicate ItemBefore(casefold: string -> string, a: Item, b: Item) {
    || a.distance < b.distance
    || (a.distance == b.distance
        && var x, y := casefold(a.dependent.qualifiedName), casefold(b.dependent.qualifiedName);
        ComesBefore(x, y) || (x == y && ComesBefore(a.dependent.id, b.dependent.id)))
  }

  /** A path that leads to `p` by stored rows only. */
  ghost predicate PathTells(q: Query, p: string, n: nat, steps: seq<Row>) {
    && |steps| == n == |EdgesOf(steps)| && Leads(q, p, EdgesOf(steps))
    && (forall k :: 0 <= k < n ==> steps[k] in q.table && steps[k].mappable && EdgesOf(steps)[k] == steps[k].edge)
  }

  /** Five of the shortest routes, or all of them where there are fewer, in the order of their targets and ids. */
  ghost predicate ItemTells(q: Query, i: Item) {
    var p := i.dependent.qualifiedName;
    && DistanceIs(q, p, i.distance) && 0 < |i.paths| <= 5
    && (forall k :: 0 <= k < |i.paths| ==> PathTells(q, p, i.distance, i.paths[k]))
    && (|i.paths| == 5 || forall r :: Leads(q, p, r) && |r| == i.distance ==> ShowsRoute(i, r))
    && (forall j, k :: 0 <= j < k < |i.paths| ==> !TrailBefore(EdgesOf(i.paths[k]), EdgesOf(i.paths[j])))
  }

  ghost predicate ShowsRoute(i: Item, r: seq<Edge>) { exists k :: 0 <= k < |i.paths| && EdgesOf(i.paths[k]) == r }

  lemma TrailStrictTotal()
    ensures StrictTotal(TrailLess)
  {
    hide NamesLess;
    NamesStrictTotal();
  }

  lemma KeptLead(q: Query, hops: nat, s: Search, p: string)
    requires Correct(q, s, hops) && Rooted(q.direction, q.anchors, s) && p in s.distance
    ensures DistanceIs(q, p, s.distance[p])
    ensures
      var kept := KeptRoutes(q.direction, q.anchors, s, p);
      && 0 < |kept| <= 5 && (forall r :: r in kept ==> |r| == s.distance[p] && Leads(q, p, r))
      && (|kept| == 5 || forall r :: Leads(q, p, r) && |r| == s.distance[p] ==> r in kept)
  {
    hide Rooted, RoutesFrom, Leads, Route, Chain;
    WithinLeads(q, p, s.distance[p]);
    RoutesFromExact(q, s, hops, p);
    SomeRoute(q, p, s.distance[p]);
    forall r
      ensures Route(q, p, s.distance[p], r) <==> |r| == s.distance[p] && Leads(q, p, r)
    {
      RouteLeads(q, p, s.distance[p], r);
    }
  }

  lemma PathsTell(q: Query, p: string, n: nat, records: map<string, Row>, trails: seq<seq<Edge>>)
    requires Indexed(q.table, q.rels, records)
    requires forall r :: r in trails ==> TrailRecorded(records, r) && |r| == n && Leads(q, p, r)
    ensures |PathsOf(records, trails)| == |trails|
    ensures forall k :: 0 <= k < |trails| ==>
                          && EdgesOf(PathsOf(records, trails)[k]) == trails[k]
                          && PathTells(q, p, n, PathsOf(records, trails)[k])
  {
    hide Indexed, TrailRecorded, StepsOf, PathsOf, EdgesOf, Leads;
    PathsIndex(records, trails);
    forall k | 0 <= k < |trails|
      ensures EdgesOf(PathsOf(records, trails)[k]) == trails[k] && PathTells(q, p, n, PathsOf(records, trails)[k])
    {
      assert trails[k] in trails;
      StepsEdges(records, trails[k]);
      StepsIndex(records, trails[k]);
      EdgesIndex(StepsOf(records, trails[k]));
      StepsStored(q, records, trails[k]);
    }
  }

  lemma ItemFields(q: Query, s: Search, objects: map<string, ObjectRecord>, records: map<string, Row>, p: string)
    requires Rooted(q.direction, q.anchors, s) && Described(objects) && p in s.distance && p in objects
    ensures
      var i := ItemOf(q.direction, q.anchors, s, objects, records, p);
      && i.distance == s.distance[p] && i.dependent.qualifiedName == p
      && i.paths == PathsOf(records, SortTrails(KeptRoutes(q.direction, q.anchors, s, p)))
  {
    hide Rooted, KeptRoutes, SortTrails, PathsOf;
  }

  lemma ItemTellsRoutes(
    q: Query, hops: nat, s: Search, objects: map<string, ObjectRecord>, records: map<string, Row>, p: string)
    requires Correct(q, s, hops) && Rooted(q.direction, q.anchors, s) && Described(objects)
    requires Recorded(s, records) && Indexed(q.table, q.rels, records)
    requires p in s.distance && p in objects
    ensures ItemTells(q, ItemOf(q.direction, q.anchors, s, objects, records, p))
    ensures forall r :: r in KeptRoutes(q.direction, q.anchors, s, p) <==>
                        ShowsRoute(ItemOf(q.direction, q.anchors, s, objects, records, p), r)
  {
    hide *;
    var i := ItemOf(q.direction, q.anchors, s, objects, records, p);
    var kept := KeptRoutes(q.direction, q.anchors, s, p);
    ItemFields(q, s, objects, records, p);
    KeptLead(q, hops, s, p);
    KeptRecorded(q.direction, q.anchors, s, records, p);
    TrailsInOrder(kept);
    PathsTell(q, p, i.distance, records, SortTrails(kept));
    KeptTell(q, i, kept, SortTrails(kept));
  }

  lemma KeptTell(q: Query, i: Item, kept: seq<seq<Edge>>, trails: seq<seq<Edge>>)
    requires
      var p := i.dependent.qualifiedName;
      && DistanceIs(q, p, i.distance) && 0 < |kept| <= 5 && |trails| == |kept| == |i.paths|
      && (forall r :: r in trails <==> r in kept)
      && (|kept| == 5 || forall r :: Leads(q, p, r) && |r| == i.distance ==> r in kept)
      && (forall k :: 0 <= k < |trails| ==> EdgesOf(i.paths[k]) == trails[k] && PathTells(q, p, i.distance, i.paths[k]))
    requires forall j, k :: 0 <= j < k < |trails| ==> |trails[j]| == |trails[k]| && !TrailBefore(trails[k], trails[j])
    ensures ItemTells(q, i) && forall r :: r in kept <==> ShowsRoute(i, r)
  {
    hide Leads, EdgesOf, TrailBefore, DistanceIs;
    forall r | r in kept
      ensures ShowsRoute(i, r)
    {
      var k :| 0 <= k < |trails| && trails[k] == r;
    }
  }

  lemma TrailsInOrder(kept: seq<seq<Edge>>)
    requires forall i, j :: 0 <= i < |kept| && 0 <= j < |kept| ==> |kept[i]| == |kept[j]|
    ensures |SortTrails(kept)| == |kept| && forall r :: r in SortTrails(kept) <==> r in kept
    ensures forall j, k :: 0 <= j < k < |kept| ==>
                             |SortTrails(kept)[j]| == |SortTrails(kept)[k]|
                             && !TrailBefore(SortTrails(kept)[k], SortTrails(kept)[j])
  {
    hide NamesLess, Targets, EdgeStore.Ids, TrailBefore, SortBy;
    var trails := SortTrails(kept);
    SortByContents(kept, KeyOfTrail, TrailLess);
    TrailStrictTotal();
    SortBySorted(kept, KeyOfTrail, TrailLess);
    forall j, k | 0 <= j < k < |kept|
      ensures |trails[j]| == |trails[k]| && !TrailBefore(trails[k], trails[j])
    {
      assert trails[j] in kept && trails[k] in kept;
      assert !TrailLess(KeyOfTrail(trails[k]), KeyOfTrail(trails[j]));
      TrailOrder(trails[k], trails[j]);
    }
  }

  /** Every item is the one made for an object of `names`, and every object of `names` has one. */
  ghost predicate Itemized(
    d: Direction, anchors: set<string>, s: Search, objects: map<string, ObjectRecord>, records: map<string, Row>,
    names: seq<string>, items: seq<Item>)
    requires Rooted(d, anchors, s)
  {
    && (forall i :: 0 <= i < |items| ==>
          var p := items[i].dependent.qualifiedName;
          p in names && p in s.distance && p in objects && items[i] == ItemOf(d, anchors, s, objects, records, p))
    && (forall p :: p in names ==> HasItem(items, p))
  }

  /** The objects one edge away. */
  ghost function DirectNames(items: seq<Item>): set<string> {
    set i | 0 <= i < |items| && items[i].distance == 1 :: items[i].dependent.qualifiedName
  }

  /** The packages the reported objects belong to, or are. */
  ghost function ReportedPackages(items: seq<Item>): set<(string, string)> {
    set i | 0 <= i < |items| && (items[i].dependent.owner != "" || items[i].dependent.isPackage) ::
      var o := items[i].dependent; (o.schemaName, if o.owner != "" then o.owner else o.name)
  }

  /** A step of a path that writes to a table. */
  ghost predicate WritesTo(i: Item, k: nat, m: nat, t: string) {
    && k < |i.paths| && m < |i.paths[k]|
    && var e := i.paths[k][m].edge;
    e.relationship == "WRITES" && e.targetIsTable && e.target == t
  }

  ghost predicate ShowsWrite(items: seq<Item>, t: string) {
    exists i, k: nat, m: nat :: 0 <= i < |items| && WritesTo(items[i], k, m, t)
  }

  /** The counts of a summary are those of its items. */
  ghost predicate SummaryTells(items: seq<Item>, summary: Summary) {
    && summary.direct == |DirectNames(items)|
    && summary.direct + summary.indirect == |items|
    && summary.packages == |ReportedPackages(items)|
    && exists tables: set<string> ::
         summary.tablesModified == |tables| && forall t :: t in tables <==> ShowsWrite(items, t)
  }

  lemma CountsTell(
    q: Query, hops: nat, s: Search, objects: map<string, ObjectRecord>, records: map<string, Row>, names: seq<string>,
    items: seq<Item>)
    requires Correct(q, s, hops) && Rooted(q.direction, q.anchors, s) && Described(objects)
    requires Recorded(s, records) && Indexed(q.table, q.rels, records)
    requires forall p :: p in names ==> p in s.distance && p in objects
    requires Itemized(q.direction, q.anchors, s, objects, records, names, items)
    ensures Nearest(s, names) == DirectNames(items) && PackagesOf(objects, names) == ReportedPackages(items)
    ensures forall t :: t in TablesOf(q.direction, q.anchors, s, names) <==> ShowsWrite(items, t)
  {
    hide Correct, Rooted, Recorded, Indexed, KeptRoutes, ShowsWrite, PathsOf;
    assert Described(objects);
    forall p | p in names
      ensures exists i :: 0 <= i < |items| && items[i].dependent == objects[p] && items[i].distance == s.distance[p]
    {
      var i :| 0 <= i < |items| && items[i].dependent.qualifiedName == p;
    }
    forall t
      ensures t in TablesOf(q.direction, q.anchors, s, names) <==> ShowsWrite(items, t)
    {
      TablesTell(q, hops, s, objects, records, names, items, t);
    }
  }

  lemma TablesTell(
    q: Query, hops: nat, s: Search, objects: map<string, ObjectRecord>, records: map<string, Row>, names: seq<string>,
    items: seq<Item>, t: string)
    requires Correct(q, s, hops) && Rooted(q.direction, q.anchors, s) && Described(objects)
    requires Recorded(s, records) && Indexed(q.table, q.rels, records)
    requires forall p :: p in names ==> p in s.distance && p in objects
    requires Itemized(q.direction, q.anchors, s, objects, records, names, items)
    ensures t in TablesOf(q.direction, q.anchors, s, names) <==> ShowsWrite(items, t)
  {
    hide *;
    if t in TablesOf(q.direction, q.anchors, s, names) {
      TableShown(q, hops, s, objects, records, names, items, t);
    }
    if ShowsWrite(items, t) {
      TableKept(q, hops, s, objects, records, names, items, t);
    }
  }

  lemma TableShown(
    q: Query, hops: nat, s: Search, objects: map<string, ObjectRecord>, records: map<string, Row>, names: seq<string>,
    items: seq<Item>, t: string)
    requires Correct(q, s, hops) && Rooted(q.direction, q.anchors, s) && Described(objects)
    requires Recorded(s, records) && Indexed(q.table, q.rels, records)
    requires forall p :: p in names ==> p in s.distance && p in objects
    requires Itemized(q.direction, q.anchors, s, objects, records, names, items)
    requires t in TablesOf(q.direction, q.anchors, s, names)
    ensures ShowsWrite(items, t)
  {
    hide Correct, Rooted, Recorded, Indexed, Described, KeptRoutes, ItemOf, Leads, EdgesOf, TrailBefore, DistanceIs;
    hide ItemTells;
    var p, r, e :| p in names && r in KeptRoutes(q.direction, q.anchors, s, p) && e in r && ModifiesTable(e)
                   && e.target == t;
    var i :| 0 <= i < |items| && items[i].dependent.qualifiedName == p;
    ItemTellsRoutes(q, hops, s, objects, records, p);
    var k: nat :| k < |items[i].paths| && EdgesOf(items[i].paths[k]) == r;
    var m: nat :| m < |r| && r[m] == e;
    EdgesIndex(items[i].paths[k]);
    assert WritesTo(items[i], k, m, t);
  }

  lemma TableKept(
    q: Query, hops: nat, s: Search, objects: map<string, ObjectRecord>, records: map<string, Row>, names: seq<string>,
    items: seq<Item>, t: string)
    requires Correct(q, s, hops) && Rooted(q.direction, q.anchors, s) && Described(objects)
    requires Recorded(s, records) && Indexed(q.table, q.rels, records)
    requires forall p :: p in names ==> p in s.distance && p in objects
    requires Itemized(q.direction, q.anchors, s, objects, records, names, items)
    requires ShowsWrite(items, t)
    ensures t in TablesOf(q.direction, q.anchors, s, names)
  {
    hide Correct, Rooted, Recorded, Indexed, Described, KeptRoutes, ItemOf, Leads, EdgesOf, TrailBefore, DistanceIs;
    hide ItemTells;
    var i, k: nat, m: nat :| 0 <= i < |items| && WritesTo(items[i], k, m, t);
    ItemTellsRoutes(q, hops, s, objects, records, items[i].dependent.qualifiedName);
    EdgesIndex(items[i].paths[k]);
    var r := EdgesOf(items[i].paths[k]);
    assert ShowsRoute(items[i], r) && r[m] == items[i].paths[k][m].edge;
    assert r[m] in r;
  }

  /** Everything a report says, in terms of the stored rows. */
  ghost predicate ReportTells(
    q: Query, hops: nat, changed: string, objects: map<string, ObjectRecord>, casefold: string -> string,
    items: seq<Item>, summary: Summary)
  {
    && (forall p :: HasItem(items, p) <==>
                    p != changed && p in objects && exists r :: Leads(q, p, r) && |r| <= hops)
    && (forall i :: 0 <= i < |items| ==>
          var p := items[i].dependent.qualifiedName;
          p in objects && items[i].dependent == objects[p] && ItemTells(q, items[i]))
    && (forall i, j :: 0 <= i < j < |items| ==>
          ItemBefore(casefold, items[i], items[j])
          && items[i].dependent.qualifiedName != items[j].dependent.qualifiedName)
    && SummaryTells(items, summary)
  }

  lemma ItemizedTells(
    q: Query, hops: nat, s: Search, objects: map<string, ObjectRecord>, records: map<string, Row>, names: seq<string>,
    items: seq<Item>, i: nat)
    requires Correct(q, s, hops) && Rooted(q.direction, q.anchors, s) && Described(objects)
    requires Recorded(s, records) && Indexed(q.table, q.rels, records)
    requires Itemized(q.direction, q.anchors, s, objects, records, names, items) && i < |items|
    ensures
      var p := items[i].dependent.qualifiedName;
      p in objects && items[i].dependent == objects[p] && ItemTells(q, items[i])
  {
    hide Correct, Rooted, Recorded, Indexed, Described, ItemTells, KeptRoutes, PathsOf;
    ItemTellsRoutes(q, hops, s, objects, records, items[i].dependent.qualifiedName);
  }

  lemma ReportsTell(
    q: Query, hops: nat, s: Search, changed: string, objects: map<string, ObjectRecord>, casefold: string -> string,
    items: seq<Item>, summary: Summary)
    requires Correct(q, s, hops) && Described(objects)
    requires Reports(q, s, changed, objects, casefold, items, summary)
    ensures ReportTells(q, hops, changed, objects, casefold, items, summary)
  {
    var records :| Indexed(q.table, q.rels, records)
                   && IsReport(q.direction, q.anchors, s, changed, objects, records, casefold, items, summary);
    var names := Reported(s.found, changed, objects);
    assert Rooted(q.direction, q.anchors, s) && Recorded(s, records);
    assert forall p :: p in names ==> p in s.distance && p in objects;
    assert items == SortBy(ItemsOf(q.direction, q.anchors, s, objects, records, names), KeyOfItem(casefold), ItemLess);
    assert summary.direct == |Nearest(s, names)| && summary.direct + summary.indirect == |items|;
    assert summary.packages == |PackagesOf(objects, names)|;
    assert summary.tablesModified == |TablesOf(q.direction, q.anchors, s, names)|;
    FoundWithin(q, s, hops, changed, objects);
    hide *;
    ItemsTheorem(q, hops, s, objects, records, names, casefold);
    CountsTell(q, hops, s, objects, records, names, items);
    SummaryFrom(items, summary, TablesOf(q.direction, q.anchors, s, names));
    forall p
      ensures HasItem(items, p) <==> p != changed && p in objects && exists r :: Leads(q, p, r) && |r| <= hops
    {
      WithinLeads(q, p, hops);
    }
    forall i | 0 <= i < |items|
      ensures
        var p := items[i].dependent.qualifiedName;
        p in objects && items[i].dependent == objects[p] && ItemTells(q, items[i])
    {
      ItemizedTells(q, hops, s, objects, records, names, items, i);
    }
    ReportFrom(q, hops, changed, objects, casefold, items, summary);
  }

  lemma SummaryFrom(items: seq<Item>, summary: Summary, tables: set<string>)
    requires summary.direct == |DirectNames(items)| && summary.direct + summary.indirect == |items|
    requires summary.packages == |ReportedPackages(items)| && summary.tablesModified == |tables|
    requires forall t :: t in tables <==> ShowsWrite(items, t)
    ensures SummaryTells(items, summary)
  {
    hide ShowsWrite, DirectNames, ReportedPackages;
  }

  lemma ReportFrom(
    q: Query, hops: nat, changed: string, objects: map<string, ObjectRecord>, casefold: string -> string,
    items: seq<Item>, summary: Summary)
    requires forall p :: HasItem(items, p) <==>
                         p != changed && p in objects && exists r :: Leads(q, p, r) && |r| <= hops
    requires forall i :: 0 <= i < |items| ==>
               var p := items[i].dependent.qualifiedName;
               p in objects && items[i].dependent == objects[p] && ItemTells(q, items[i])
    requires forall i, j :: 0 <= i < j < |items| ==>
               ItemBefore(casefold, items[i], items[j])
               && items[i].dependent.qualifiedName != items[j].dependent.qualifiedName
    requires SummaryTells(items, summary)
    ensures ReportTells(q, hops, changed, objects, casefold, items, summary)
  {
    hide HasItem, Leads, ItemTells, ItemBefore, SummaryTells;
  }

  // ----- what is promised of the whole computation -----

  /** The items are about exactly the describable objects within reach of an anchor, nearest first. */
  lemma ReportTheorem(
    table: seq<Row>, d: Direction, rels: set<string>, changed: ObjectRecord, hops: nat,
    objects: map<string, ObjectRecord>, casefold: string -> string, items: seq<Item>, summary: Summary)
    requires Described(objects)
    requires ImpactReported(table, d, rels, changed, hops, objects, casefold, items, summary)
    ensures
      var q := QueryOf(table, d, rels, changed);
      && (forall i :: 0 <= i < |items| ==> Explains(q, hops, items[i], items[i].dependent.qualifiedName))
      && (forall p :: Within(q, p, hops) && p != changed.qualifiedName && p in objects
                      <==> HasItem(items, p))
    ensures forall i, j :: 0 <= i < j < |items| ==>
              items[i].distance <= items[j].distance
              && items[i].dependent.qualifiedName != items[j].dependent.qualifiedName
    ensures ReportTells(
              QueryOf(table, d, rels, changed), hops, changed.qualifiedName, objects, casefold, items, summary)
  {
    hide Rounds, Described, Reports, Explains, Within, AnchorsOf, Correct, Reported, Reaches, ReportTells;
    var q := QueryOf(table, d, rels, changed);
    var anchors :| AnchorList(table, changed, anchors)
                   && Reports(q, Rounds(q, anchors, hops).search, changed.qualifiedName, objects, casefold, items,
                              summary);
    UnboundedCorrect(q, anchors, hops);
    var s := Rounds(q, anchors, hops).search;
    FoundWithin(q, s, hops, changed.qualifiedName, objects);
    ReportsTell(q, hops, s, changed.qualifiedName, objects, casefold, items, summary);
    ReportItems(q, hops, s, changed.qualifiedName, objects, casefold, items, summary);
    hide HasItem;
    forall p
      ensures Within(q, p, hops) && p != changed.qualifiedName && p in objects <==> HasItem(items, p)
    {
      assert p in Reported(s.found, changed.qualifiedName, objects) <==> HasItem(items, p);
    }
  }

  /**
    Two stores that hold the same rows in any two orders: the limit error together, or reports that differ in evidence
    only.
   */
  lemma ReportForgetsOrder(
    table: seq<Row>, table': seq<Row>, d: Direction, rels: set<string>, changed: ObjectRecord, hops: nat, budget: nat,
    objects: map<string, ObjectRecord>, casefold: string -> string)
    requires IdsAgree(table) && multiset(table') == multiset(table)
    ensures ImpactFits(table, d, rels, changed, hops, budget) <==> ImpactFits(table', d, rels, changed, hops, budget)
    ensures forall items, summary, items', summary' ::
              && ImpactReported(table, d, rels, changed, hops, objects, casefold, items, summary)
              && ImpactReported(table', d, rels, changed, hops, objects, casefold, items', summary')
              ==> BareAll(items) == BareAll(items') && summary == summary'
  {
    hide Rounds, Reports, AnchorsOf, IdsAgree, BareAll, Fits, AnchorsFit;
    var q := QueryOf(table, d, rels, changed);
    AnchorsForgetOrder(table, table', changed, budget);
    assert QueryOf(table', d, rels, changed) == q.(table := table');
    forall anchors
      ensures Fits(q.(table := table'), anchors, hops, budget) <==> Fits(q, anchors, hops, budget)
    {
      FitsForgetsOrder(q, table', anchors, hops, budget);
    }
    forall items, summary, items', summary' |
      && ImpactReported(table, d, rels, changed, hops, objects, casefold, items, summary)
      && ImpactReported(table', d, rels, changed, hops, objects, casefold, items', summary')
      ensures BareAll(items) == BareAll(items') && summary == summary'
    {
      var a :| AnchorList(table, changed, a)
               && Reports(q, Rounds(q, a, hops).search, changed.qualifiedName, objects, casefold, items, summary);
      var b :| AnchorList(table', changed, b)
               && var q' := q.(table := table');
               Reports(q', Rounds(q', b, hops).search, changed.qualifiedName, objects, casefold, items', summary');
      AnchorListUnique(table, changed, a, b);
      RoundsForgetOrder(q, table', a, hops);
      SameReport(q, table', Rounds(q, a, hops).search, changed.qualifiedName, objects, casefold, items, summary, items',
                 summary');
    }
  }

  lemma SameReport(
    q: Query, table: seq<Row>, s: Search, changed: string, objects: map<string, ObjectRecord>,
    casefold: string -> string, items: seq<Item>, summary: Summary, items': seq<Item>, summary': Summary)
    requires Reports(q, s, changed, objects, casefold, items, summary)
    requires Reports(q.(table := table), s, changed, objects, casefold, items', summary')
    ensures BareAll(items) == BareAll(items') && summary == summary'
  {
    hide Rooted, BareAll, SortBy, ItemsOf;
    BareReport(q, s, changed, objects, casefold, items, summary);
    BareReport(q.(table := table), s, changed, objects, casefold, items', summary');
  }
}
