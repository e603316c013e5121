/** The objects an impact search starts from: a package is searched through its member routines. */
module ImpactAnchors {
  import opened Wrappers
  import opened Ordering
  import opened EdgeStore
  import opened Impact

  datatype ObjectRecord = ObjectRecord(
    id: string, schemaName: string, name: string, qualifiedName: string, owner: string, isPackage: bool)

  // ----- dotted names -----

  function UpToDot(s: string): string {
    if s == "" || s[0] == '.' then "" else [s[0]] + UpToDot(s[1..])
  }

  function AfterDot(s: string): Option<string> {
    if s == "" then None else if s[0] == '.' then Some(s[1..]) else AfterDot(s[1..])
  }

  function SchemaOf(name: string): string { UpToDot(name) }

  /** The second of three or more parts: the package of a member routine. */
  function OwnerOf(name: string): Option<string> {
    match AfterDot(name)
    case None => None
    case Some(rest) => if AfterDot(rest).Some? then Some(UpToDot(rest)) else None
  }

  lemma {:induction false} DotSplits(s: string)
    ensures '.' !in UpToDot(s)
    ensures AfterDot(s).Some? ==> s == UpToDot(s) + "." + AfterDot(s).value
  {
    if s != "" && s[0] != '.' {
      DotSplits(s[1..]);
    }
  }

  lemma {:induction false} DotJoins(a: string, b: string)
    requires '.' !in a
    ensures UpToDot(a + "." + b) == a && AfterDot(a + "." + b) == Some(b)
  {
    if a == "" {
      assert ("." + b)[1..] == b;
    } else {
      DotJoins(a[1..], b);
      assert (a + "." + b)[1..] == a[1..] + "." + b;
    }
  }

  /** The names that start with a package's name and a dot are those of its schema and its owner name. */
  lemma PrefixExactly(schema: string, package: string, name: string)
    requires '.' !in schema && '.' !in package
    ensures schema + "." + package + "." <= name <==> SchemaOf(name) == schema && OwnerOf(name) == Some(package)
  {
    var prefix := schema + "." + package + ".";
    if prefix <= name {
      var member := name[|prefix|..];
      assert name == schema + "." + (package + "." + member);
      DotJoins(schema, package + "." + member);
      DotJoins(package, member);
    }
    if SchemaOf(name) == schema && OwnerOf(name) == Some(package) {
      DotSplits(name);
      var rest := AfterDot(name).value;
      DotSplits(rest);
      assert name == prefix + AfterDot(rest).value;
    }
  }

  // ----- the rows that touch a member -----

  const MEMBER_RELATIONSHIPS: set<string> :=
    {"READS", "WRITES", "TRIGGER_ON", "VIEW_DEPENDS_ON", "FOREIGN_KEY", "CALLS"}

  predicate Touches(row: Row, prefix: string) {
    row.edge.relationship in MEMBER_RELATIONSHIPS && (prefix <= row.edge.source || prefix <= row.edge.target)
  }

  function MemberRows(table: seq<Row>, prefix: string): seq<Row> {
    if table == [] then []
    else (if Touches(table[0], prefix) then [table[0]] else []) + MemberRows(table[1..], prefix)
  }

  function Ends(row: Row): seq<string> { [row.edge.source, row.edge.target] }

  /** The ends of some rows that belong to a package of the given name, in whatever schema. */
  function Members(rows: seq<Row>, package: string): set<string> {
    set row, name | row in rows && name in Ends(row) && OwnerOf(name) == Some(package) :: name
  }

  function PrefixOf(o: ObjectRecord): string { o.qualifiedName + "." }

  function AnchorsOf(table: seq<Row>, changed: ObjectRecord): set<string> {
    var members := Members(MemberRows(table, PrefixOf(changed)), changed.name);
    if !changed.isPackage || members == {} then {changed.qualifiedName} else members
  }

  /** The lookup of the members of a package has no more rows than the budget. */
  predicate AnchorsFit(table: seq<Row>, changed: ObjectRecord, budget: nat) {
    changed.isPackage ==> |MemberRows(table, PrefixOf(changed))| <= budget
  }

  /** The anchors as the search is given them: each once, in order. */
  ghost predicate AnchorList(table: seq<Row>, changed: ObjectRecord, anchors: seq<string>) {
    Distinct(anchors) && SetOf(anchors) == AnchorsOf(table, changed) && SortedBy(anchors, Identity, StringLess)
  }

  lemma {:induction false} MemberRowsMember(table: seq<Row>, prefix: string, row: Row)
    ensures row in MemberRows(table, prefix) <==> row in table && Touches(row, prefix)
  {
    if table != [] {
      MemberRowsMember(table[1..], prefix, row);
      assert table == [table[0]] + table[1..];
    }
  }

  lemma MembersNext(rows: seq<Row>, i: nat, package: string)
    requires i < |rows|
    ensures Members(rows[..i + 1], package) ==
            Members(rows[..i], package) + (set name | name in Ends(rows[i]) && OwnerOf(name) == Some(package))
  {
    assert rows[..i + 1] == rows[..i] + [rows[i]];
    forall name
      ensures name in Members(rows[..i + 1], package) <==>
              name in Members(rows[..i], package) || (name in Ends(rows[i]) && OwnerOf(name) == Some(package))
    {
      assert forall row :: row in rows[..i + 1] <==> row in rows[..i] || row == rows[i];
    }
  }

  lemma MembersBag(rows: seq<Row>, rows': seq<Row>, package: string)
    requires multiset(rows) == multiset(rows')
    ensures Members(rows, package) == Members(rows', package)
  {
    BagMember(rows, rows');
    BagMember(rows', rows);
  }

  method FindAnchors(table: seq<Row>, changed: ObjectRecord, budget: nat) returns (r: Result<seq<string>, Failure>)
    ensures r.Ok? <==> AnchorsFit(table, changed, budget)
    ensures r.Ok? ==> AnchorList(table, changed, r.value)
  {
    hide OwnerOf;
    if !changed.isPackage {
      return Ok([changed.qualifiedName]);
    }
    ghost var all := MemberRows(table, PrefixOf(changed));
    var rows := Limited(MemberRows(table, PrefixOf(changed)), budget + 1);
    BagSize(rows, all);
    if |rows| > budget {
      return Err(LimitExceeded);
    }
    BagSize(all, rows);
    MembersBag(rows, all, changed.name);
    var members: set<string> := {};
    assert Members(rows[..0], changed.name) == {};
    for i := 0 to |rows|
      invariant members == Members(rows[..i], changed.name)
    {
      MembersNext(rows, i, changed.name);
      var ends := Ends(rows[i]);
      members := members + (set name | name in ends && OwnerOf(name) == Some(changed.name));
    }
    assert rows[..|rows|] == rows;
    if members == {} {
      return Ok([changed.qualifiedName]);
    }
    var listed := ListOf(members);
    r := Ok(SortNames(listed));
    SortByContents(listed, Identity, StringLess);
    DistinctSort(listed, Identity, StringLess);
    StringStrictTotal();
    SortBySorted(listed, Identity, StringLess);
    assert SetOf(r.value) == members;
  }

  // ----- what the anchors are -----

  ghost predicate WellNamed(o: ObjectRecord) {
    '.' !in o.schemaName && '.' !in o.name && o.qualifiedName == o.schemaName + "." + o.name
  }

  /** `package` is the second of three or more dotted parts. */
  ghost predicate SecondPart(name: string, package: string) {
    '.' !in package && exists a: string, c: string :: '.' !in a && name == a + "." + package + "." + c
  }

  lemma OwnerExactly(name: string, package: string)
    ensures OwnerOf(name) == Some(package) <==> SecondPart(name, package)
  {
    if OwnerOf(name) == Some(package) {
      DotSplits(name);
      DotSplits(AfterDot(name).value);
      var a, c := UpToDot(name), AfterDot(AfterDot(name).value).value;
      assert name == a + "." + package + "." + c;
    }
    if SecondPart(name, package) {
      var a: string, c: string :| '.' !in a && name == a + "." + package + "." + c;
      assert name == a + "." + (package + "." + c);
      DotJoins(a, package + "." + c);
      DotJoins(package, c);
    }
  }

  /** A stored row between members, or with one, and an end of it in a package of that name. */
  ghost predicate MemberEnd(changed: ObjectRecord, row: Row, name: string) {
    && row.edge.relationship in {"READS", "WRITES", "TRIGGER_ON", "VIEW_DEPENDS_ON", "FOREIGN_KEY", "CALLS"}
    && (changed.qualifiedName + "." <= row.edge.source || changed.qualifiedName + "." <= row.edge.target)
    && (name == row.edge.source || name == row.edge.target) && SecondPart(name, changed.name)
  }

  ghost predicate MemberAnchor(table: seq<Row>, changed: ObjectRecord, name: string) {
    exists row :: row in table && MemberEnd(changed, row, name)
  }

  /** What the anchors are, on the stored rows and the parts of the names. */
  lemma AnchorsExactly(table: seq<Row>, changed: ObjectRecord, name: string)
    ensures name in AnchorsOf(table, changed) <==>
            if changed.isPackage && exists n :: MemberAnchor(table, changed, n)
            then MemberAnchor(table, changed, name)
            else name == changed.qualifiedName
  {
    hide OwnerOf, SecondPart, MemberRows;
    var rows := MemberRows(table, PrefixOf(changed));
    forall n
      ensures n in Members(rows, changed.name) <==> MemberAnchor(table, changed, n)
    {
      OwnerExactly(n, changed.name);
      forall row
        ensures row in rows && n in Ends(row) && OwnerOf(n) == Some(changed.name) <==>
                row in table && MemberEnd(changed, row, n)
      {
        MemberRowsMember(table, PrefixOf(changed), row);
      }
    }
    if Members(rows, changed.name) != {} {
      var n :| n in Members(rows, changed.name);
      assert MemberAnchor(table, changed, n);
    }
  }

  /** The positions of the rows that the lookup of a package's members finds. */
  ghost function Looked(table: seq<Row>, changed: ObjectRecord): set<nat> {
    set i | 0 <= i < |table|
            && table[i].edge.relationship in
               {"READS", "WRITES", "TRIGGER_ON", "VIEW_DEPENDS_ON", "FOREIGN_KEY", "CALLS"}
            && (changed.qualifiedName + "." <= table[i].edge.source
                || changed.qualifiedName + "." <= table[i].edge.target)
  }

  lemma LookedCount(table: seq<Row>, changed: ObjectRecord)
    ensures |MemberRows(table, PrefixOf(changed))| == |Looked(table, changed)|
  {
    MemberPositions(table, PrefixOf(changed));
    assert Looked(table, changed) == Positions(table, row => Touches(row, PrefixOf(changed)));
  }

  lemma {:induction false} MemberPositions(table: seq<Row>, prefix: string)
    ensures |MemberRows(table, prefix)| == |Positions(table, row => Touches(row, prefix))|
  {
    if table != [] {
      hide Touches, Positions;
      MemberPositions(table[1..], prefix);
      PositionsFirst(table, row => Touches(row, prefix));
    }
  }

  /** The lookup exceeds the budget exactly when more rows than that touch a member. */
  lemma AnchorsFitExactly(table: seq<Row>, changed: ObjectRecord, budget: nat)
    ensures AnchorsFit(table, changed, budget) <==> (changed.isPackage ==> |Looked(table, changed)| <= budget)
  {
    LookedCount(table, changed);
  }

  /**
    Every member routine on which the graph keeps an edge is an anchor; the package itself is one only if there is none.
   */
  lemma MembersAreAnchors(table: seq<Row>, changed: ObjectRecord)
    requires WellNamed(changed) && changed.isPackage
    ensures forall row, name | row in table && row.edge.relationship in MEMBER_RELATIONSHIPS && name in Ends(row) ::
              PrefixOf(changed) <= name ==> name in AnchorsOf(table, changed)
    ensures MemberRows(table, PrefixOf(changed)) == [] ==> AnchorsOf(table, changed) == {changed.qualifiedName}
    ensures MemberRows(table, PrefixOf(changed)) != [] ==> changed.qualifiedName !in AnchorsOf(table, changed)
  {
    hide OwnerOf;
    var prefix := PrefixOf(changed);
    var rows := MemberRows(table, prefix);
    forall row, name |
      row in table && row.edge.relationship in MEMBER_RELATIONSHIPS && name in Ends(row) && prefix <= name
      ensures row in rows && name in Members(rows, changed.name)
    {
      MemberRowsMember(table, prefix, row);
      PrefixExactly(changed.schemaName, changed.name, name);
    }
    if rows != [] {
      var row := rows[0];
      MemberRowsMember(table, prefix, row);
      var name := if prefix <= row.edge.source then row.edge.source else row.edge.target;
      assert name in Ends(row);
      assert name in Members(rows, changed.name);
      PackageHasNoOwner(changed);
    }
  }

  lemma PackageHasNoOwner(o: ObjectRecord)
    requires WellNamed(o)
    ensures OwnerOf(o.qualifiedName) == None
  {
    DotJoins(o.schemaName, o.name);
    NoDot(o.name);
  }

  lemma {:induction false} NoDot(s: string)
    requires '.' !in s
    ensures AfterDot(s) == None
  {
    if s != "" {
      NoDot(s[1..]);
    }
  }

  /**
    The anchors found on rows are members of the changed package exactly when no row that touches one has an end in a
    package of the same name in another schema: the lookup compares the package name only.
   */
  lemma OnlyMembersExactly(table: seq<Row>, changed: ObjectRecord)
    requires WellNamed(changed) && changed.isPackage && MemberRows(table, PrefixOf(changed)) != []
    ensures (forall name :: name in AnchorsOf(table, changed) ==> PrefixOf(changed) <= name) <==>
            (forall row :: row in table && Touches(row, PrefixOf(changed)) ==> NoNamesake(changed, row))
  {
    hide OwnerOf, SchemaOf, MemberRows, PrefixOf;
    var rows := MemberRows(table, PrefixOf(changed));
    MembersAreAnchors(table, changed);
    assert AnchorsOf(table, changed) == Members(rows, changed.name);
    forall row, name |
      row in table && Touches(row, PrefixOf(changed)) && name in Ends(row) && OwnerOf(name) == Some(changed.name)
      ensures name in AnchorsOf(table, changed) && (PrefixOf(changed) <= name <==> SchemaOf(name) == changed.schemaName)
    {
      MemberRowsMember(table, PrefixOf(changed), row);
      PrefixIs(changed, name);
    }
    forall name | name in AnchorsOf(table, changed)
      ensures exists row ::
                row in table && Touches(row, PrefixOf(changed)) && name in Ends(row)
                && OwnerOf(name) == Some(changed.name)
    {
      var row :| row in rows && name in Ends(row) && OwnerOf(name) == Some(changed.name);
      MemberRowsMember(table, PrefixOf(changed), row);
    }
  }

  /** Neither end of the row is in a package of the changed package's name in another schema. */
  ghost predicate NoNamesake(changed: ObjectRecord, row: Row) {
    forall name :: name in Ends(row) && OwnerOf(name) == Some(changed.name) ==> SchemaOf(name) == changed.schemaName
  }

  lemma PrefixIs(changed: ObjectRecord, name: string)
    requires WellNamed(changed)
    ensures PrefixOf(changed) <= name <==> SchemaOf(name) == changed.schemaName && OwnerOf(name) == Some(changed.name)
  {
    PrefixExactly(changed.schemaName, changed.name, name);
  }

  /** A routine of HR.PAY that calls one of FIN.PAY: changing package HR.PAY starts the search from both. */
  lemma ForeignAnchor()
    ensures
      var row := Row(Edge("1", "CALLS", "HR.PAY.RUN", "FIN.PAY.POST", false), "", true);
      "FIN.PAY.POST" in AnchorsOf([row], ObjectRecord("o", "HR", "PAY", "HR.PAY", "", true))
  {
    hide OwnerOf, MemberRows;
    var row := Row(Edge("1", "CALLS", "HR.PAY.RUN", "FIN.PAY.POST", false), "", true);
    OwnerOfPost();
    assert row in [row];
    MemberRowsMember([row], "HR.PAY" + ".", row);
    assert "HR.PAY" + "." <= "HR.PAY.RUN";
    assert row in MemberRows([row], "HR.PAY" + ".") && "FIN.PAY.POST" in Ends(row);
  }

  lemma OwnerOfPost()
    ensures OwnerOf("FIN.PAY.POST") == Some("PAY")
  {
    assert "FIN" + "." + "PAY" + "." <= "FIN.PAY.POST";
    PrefixExactly("FIN", "PAY", "FIN.PAY.POST");
  }

  // ----- row order cannot be seen -----

  lemma MemberRowsCons(row: Row, rest: seq<Row>, prefix: string)
    ensures MemberRows([row] + rest, prefix) == (if Touches(row, prefix) then [row] else []) + MemberRows(rest, prefix)
  {
    assert ([row] + rest)[1..] == rest;
  }

  lemma {:induction false} MemberRowsConcat(a: seq<Row>, b: seq<Row>, prefix: string)
    ensures MemberRows(a + b, prefix) == MemberRows(a, prefix) + MemberRows(b, prefix)
  {
    if a == [] {
      assert a + b == b;
      assert MemberRows(a, prefix) == [];
    } else {
      hide MemberRows, Touches;
      MemberRowsConcat(a[1..], b, prefix);
      assert a + b == [a[0]] + (a[1..] + b) && a == [a[0]] + a[1..];
      MemberRowsCons(a[0], a[1..] + b, prefix);
      MemberRowsCons(a[0], a[1..], prefix);
      Associate(if Touches(a[0], prefix) then [a[0]] else [], MemberRows(a[1..], prefix), MemberRows(b, prefix));
      assert MemberRows(a + b, prefix) == MemberRows(a, prefix) + MemberRows(b, prefix);
    }
  }

  lemma {:induction false} MemberRowsBag(a: seq<Row>, b: seq<Row>, prefix: string)
    requires multiset(a) == multiset(b)
    ensures multiset(MemberRows(a, prefix)) == multiset(MemberRows(b, prefix))
  {
    assert |multiset(a)| == |multiset(b)|;
    if a != [] {
      assert a[0] in multiset(b);
      var k :| 0 <= k < |b| && b[k] == a[0];
      var before, after := b[..k], b[k + 1..];
      RemoveOne(a, b, k);
      MemberRowsBag(a[1..], before + after, prefix);
      MemberRowsConcat(before, [b[k]] + after, prefix);
      MemberRowsConcat([b[k]], after, prefix);
      MemberRowsConcat(before, after, prefix);
      MemberRowsConcat([a[0]], a[1..], prefix);
      hide MemberRows;
    }
  }

  /** Two stores holding the same rows in any two orders give the same anchors, or the limit error together. */
  lemma AnchorsForgetOrder(table: seq<Row>, table': seq<Row>, changed: ObjectRecord, budget: nat)
    requires multiset(table) == multiset(table')
    ensures AnchorsOf(table, changed) == AnchorsOf(table', changed)
    ensures AnchorsFit(table, changed, budget) <==> AnchorsFit(table', changed, budget)
  {
    var rows, rows' := MemberRows(table, PrefixOf(changed)), MemberRows(table', PrefixOf(changed));
    MemberRowsBag(table, table', PrefixOf(changed));
    MembersBag(rows, rows', changed.name);
    BagSize(rows, rows');
    BagSize(rows', rows);
  }

  /** There is one list of anchors. */
  lemma AnchorListUnique(table: seq<Row>, changed: ObjectRecord, a: seq<string>, b: seq<string>)
    requires AnchorList(table, changed, a) && AnchorList(table, changed, b)
    ensures a == b
  {
    forall name
      ensures name in a <==> name in b
    {
      assert name in SetOf(a) <==> name in SetOf(b);
    }
    SameBag(a, b);
    StringStrictTotal();
    SortedUnique(a, b, Identity, StringLess);
  }
}
