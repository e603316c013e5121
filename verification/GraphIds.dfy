/** The opaque identifiers of graph objects and edges. */
module GraphIds {
  import opened Wrappers
  import opened Base64
  import opened EdgeStore

  /** UTF-8, of which only the round trip is used. */
  datatype Utf8 = Utf8(encode: string -> seq<byte>, decode: seq<byte> -> Option<string>)

  ghost predicate Lawful(u: Utf8) {
    forall s :: u.decode(u.encode(s)) == Some(s)
  }

  function B64E(u: Utf8, value: string): string { Encode(u.encode(value)) }

  function B64D(u: Utf8, value: string): Option<string> {
    match Decode(value)
    case None => None
    case Some(bs) => u.decode(bs)
  }

  lemma B64RoundTrip(u: Utf8, value: string)
    requires Lawful(u)
    ensures B64D(u, B64E(u, value)) == Some(value)
    ensures '/' !in B64E(u, value)
  {
    RoundTrip(u.encode(value));
  }

  // ----- splitting -----

  predicate At(s: string, marker: string, i: nat) { i + |marker| <= |s| && s[i..i + |marker|] == marker }

  /** Where `rsplit(marker, 1)` cuts: the last occurrence at or before `i`. */
  function LastAt(s: string, marker: string, i: nat): Option<nat> {
    if At(s, marker, i) then Some(i) else if i == 0 then None else LastAt(s, marker, i - 1)
  }

  /** What follows the last occurrence of the marker. */
  function AfterLast(s: string, marker: string): Option<string> {
    match LastAt(s, marker, |s|)
    case None => None
    case Some(i) => if At(s, marker, i) then Some(s[i + |marker|..]) else None
  }

  lemma {:induction false} LastAtIs(s: string, marker: string, i: nat, k: nat)
    requires k <= i && At(s, marker, k)
    requires forall j :: k < j <= i ==> !At(s, marker, j)
    ensures LastAt(s, marker, i) == Some(k)
  {
    if i > k {
      LastAtIs(s, marker, i - 1, k);
    }
  }

  /** A three-character marker ending in `/` is found where it was written when no `/` follows it. */
  lemma AfterLastIs(prefix: string, marker: string, tail: string)
    requires |marker| == 3 && marker[2] == '/' && '/' !in tail
    ensures AfterLast(prefix + marker + tail, marker) == Some(tail)
  {
    var s := prefix + marker + tail;
    assert s[|prefix|..|prefix| + 3] == marker;
    forall j | |prefix| < j <= |s|
      ensures !At(s, marker, j)
    {
      if j + 3 <= |s| {
        assert s[j..j + 3][2] == s[j + 2] == tail[j + 2 - |prefix| - 3];
        assert s[j + 2] in tail;
      }
    }
    LastAtIs(s, marker, |s|, |prefix|);
    assert s[|prefix| + 3..] == tail;
  }

  const SEPARATOR: char := 31 as char

  function Split(s: string): seq<string> {
    if s == [] then [[]]
    else
      var rest := Split(s[1..]);
      if s[0] == SEPARATOR then [[]] + rest
      else if rest == [] then [s] else [[s[0]] + rest[0]] + rest[1..]
  }

  function Separators(s: string): nat {
    if s == [] then 0 else (if s[0] == SEPARATOR then 1 else 0) + Separators(s[1..])
  }

  lemma {:induction false} SplitCount(s: string)
    ensures |Split(s)| == 1 + Separators(s)
  {
    if s != [] {
      SplitCount(s[1..]);
    }
  }

  lemma {:induction false} SeparatorsConcat(a: string, b: string)
    ensures Separators(a + b) == Separators(a) + Separators(b)
  {
    if a == [] {
      assert a + b == b;
    } else {
      assert (a + b)[1..] == a[1..] + b;
      SeparatorsConcat(a[1..], b);
    }
  }

  lemma {:induction false} SeparatorsNone(s: string)
    ensures Separators(s) == 0 <==> SEPARATOR !in s
  {
    if s != [] {
      SeparatorsNone(s[1..]);
      assert s == [s[0]] + s[1..];
    }
  }

  lemma {:induction false} SplitFirst(a: string, b: string)
    requires SEPARATOR !in a
    ensures Split(a + [SEPARATOR] + b) == [a] + Split(b)
    ensures Split(a) == [a]
  {
    var s := a + [SEPARATOR] + b;
    if a == [] {
      assert s == [SEPARATOR] + b;
      assert s[1..] == b;
    } else {
      assert s[1..] == a[1..] + [SEPARATOR] + b;
      SplitFirst(a[1..], b);
      assert [a[0]] + a[1..] == a;
    }
  }

  // ----- object ids -----

  function ObjectId(u: Utf8, project: string, name: string): string {
    "plsql://" + project + "/o/" + B64E(u, name)
  }

  function NameOfObjectId(u: Utf8, id: string): Option<string> {
    match AfterLast(id, "/o/")
    case None => None
    case Some(encoded) => B64D(u, encoded)
  }

  /** Decoding an object id gives back its qualified name, whatever the project is called. */
  lemma ObjectIdRoundTrip(u: Utf8, project: string, name: string)
    requires Lawful(u)
    ensures NameOfObjectId(u, ObjectId(u, project, name)) == Some(name)
  {
    B64RoundTrip(u, name);
    AfterLastIs("plsql://" + project, "/o/", B64E(u, name));
  }

  // ----- edge ids -----

  function Payload(relationship: string, source: string, target: string): string {
    relationship + [SEPARATOR] + (source + [SEPARATOR] + target)
  }

  function EdgeId(u: Utf8, project: string, relationship: string, source: string, target: string): string {
    "edge://" + project + "/e/" + B64E(u, Payload(relationship, source, target))
  }

  function EdgeParts(u: Utf8, id: string): Option<(string, string, string)> {
    match AfterLast(id, "/e/")
    case None => None
    case Some(encoded) =>
      match B64D(u, encoded)
      case None => None
      case Some(payload) =>
        var parts := Split(payload);
        if |parts| != 3 then None else Some((parts[0], parts[1], parts[2]))
  }

  predicate Plain(relationship: string, source: string, target: string) {
    SEPARATOR !in relationship && SEPARATOR !in source && SEPARATOR !in target
  }

  /** An edge id decodes to its triple exactly when the triple is free of U+001F; otherwise it is taken for foreign. */
  lemma EdgeIdRoundTrip(u: Utf8, project: string, relationship: string, source: string, target: string)
    requires Lawful(u)
    ensures EdgeParts(u, EdgeId(u, project, relationship, source, target)) ==
            if Plain(relationship, source, target) then Some((relationship, source, target)) else None
  {
    var payload := Payload(relationship, source, target);
    B64RoundTrip(u, payload);
    AfterLastIs("edge://" + project, "/e/", B64E(u, payload));
    if Plain(relationship, source, target) {
      SplitFirst(relationship, source + [SEPARATOR] + target);
      SplitFirst(source, target);
      SplitFirst(target, []);
      assert Split(payload) == [relationship, source, target];
    } else {
      PayloadSeparators(relationship, source, target);
      SplitCount(payload);
    }
  }

  lemma PayloadSeparators(relationship: string, source: string, target: string)
    ensures Separators(Payload(relationship, source, target)) ==
            2 + Separators(relationship) + Separators(source) + Separators(target)
    ensures Plain(relationship, source, target) <==> Separators(Payload(relationship, source, target)) == 2
  {
    SeparatorsConcat(relationship + [SEPARATOR], source + [SEPARATOR] + target);
    SeparatorsConcat(relationship, [SEPARATOR]);
    SeparatorsConcat(source + [SEPARATOR], target);
    SeparatorsConcat(source, [SEPARATOR]);
    assert Separators([SEPARATOR]) == 1;
    SeparatorsNone(relationship);
    SeparatorsNone(source);
    SeparatorsNone(target);
  }

  lemma EdgeIdInjective(u: Utf8, project: string, r: string, s: string, t: string, r': string, s': string, t': string)
    requires Lawful(u) && Plain(r, s, t)
    requires EdgeId(u, project, r, s, t) == EdgeId(u, project, r', s', t')
    ensures r == r' && s == s' && t == t'
  {
    EdgeIdRoundTrip(u, project, r, s, t);
    EdgeIdRoundTrip(u, project, r', s', t');
  }

  /** A string with a separator in it, cut at the first one. */
  lemma {:induction false} CutAtFirst(a: string) returns (before: string, after: string)
    requires SEPARATOR in a
    ensures a == before + [SEPARATOR] + after && |before| < |a|
  {
    if a[0] == SEPARATOR {
      before, after := [], a[1..];
    } else {
      before, after := CutAtFirst(a[1..]);
      before := [a[0]] + before;
    }
  }

  /** A triple that is not free of the separator has the payload of another one: the same text, cut elsewhere. */
  lemma AnotherCut(r: string, s: string, t: string) returns (r': string, s': string, t': string)
    requires !Plain(r, s, t)
    ensures Payload(r', s', t') == Payload(r, s, t) && (r', s', t') != (r, s, t)
  {
    if SEPARATOR in r {
      var before, after := CutAtFirst(r);
      r', s', t' := before, after, s + [SEPARATOR] + t;
      assert before + [SEPARATOR] + (after + [SEPARATOR] + (s + [SEPARATOR] + t)) ==
             (before + [SEPARATOR] + after) + [SEPARATOR] + (s + [SEPARATOR] + t);
    } else if SEPARATOR in s {
      var before, after := CutAtFirst(s);
      r', s', t' := r, before, after + [SEPARATOR] + t;
      assert before + [SEPARATOR] + (after + [SEPARATOR] + t) == (before + [SEPARATOR] + after) + [SEPARATOR] + t;
    } else {
      var before, after := CutAtFirst(t);
      r', s', t' := r, s + [SEPARATOR] + before, after;
      assert (s + [SEPARATOR] + before) + [SEPARATOR] + after == s + [SEPARATOR] + (before + [SEPARATOR] + after);
    }
  }

  /** An edge id belongs to no other triple exactly when its triple is free of U+001F. */
  lemma EdgeIdUniqueExactly(u: Utf8, project: string, r: string, s: string, t: string)
    requires Lawful(u)
    ensures (forall r', s', t' :: EdgeId(u, project, r', s', t') == EdgeId(u, project, r, s, t) ==>
                                    (r', s', t') == (r, s, t))
            <==> Plain(r, s, t)
  {
    if Plain(r, s, t) {
      forall r', s', t' | EdgeId(u, project, r', s', t') == EdgeId(u, project, r, s, t)
        ensures (r', s', t') == (r, s, t)
      {
        EdgeIdInjective(u, project, r, s, t, r', s', t');
      }
    } else {
      var r', s', t' := AnotherCut(r, s, t);
      assert EdgeId(u, project, r', s', t') == EdgeId(u, project, r, s, t);
    }
  }

  /** Two triples that share an id, so that traversals could take one edge for the other. */
  lemma EdgeIdCollision(u: Utf8, project: string)
    ensures EdgeId(u, project, "CALLS", ['a', SEPARATOR, 'b'], "c") ==
            EdgeId(u, project, "CALLS", "a", ['b', SEPARATOR, 'c'])
  {
    assert ['a', SEPARATOR, 'b'] + [SEPARATOR] + "c" == "a" + [SEPARATOR] + ['b', SEPARATOR, 'c'];
  }

  /** The store assumption of the traversals follows from the way edge ids are made. */
  lemma MadeIdsAgree(u: Utf8, project: string, table: seq<Row>, tables: set<string>)
    requires Lawful(u)
    requires forall r :: r in table && r.mappable ==>
                           && Plain(r.edge.relationship, r.edge.source, r.edge.target)
                           && r.edge.id == EdgeId(u, project, r.edge.relationship, r.edge.source, r.edge.target)
                           && (r.edge.targetIsTable <==> r.edge.target in tables)
    ensures IdsAgree(table)
  {
    forall r, r' | r in table && r' in table && r.mappable && r'.mappable && r.edge.id == r'.edge.id
      ensures r.edge == r'.edge
    {
      EdgeIdInjective(
        u, project, r.edge.relationship, r.edge.source, r.edge.target,
        r'.edge.relationship, r'.edge.source, r'.edge.target);
    }
  }
}
