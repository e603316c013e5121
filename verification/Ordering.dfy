/** Orders, sorting by a key, and why a sort has one answer.

  Python compares strings and tuples lexicographically and sorts stably by key. The traversals
  owe their determinism to the fact proved here: two sorted arrangements of the same elements
  are equal whenever the key tells the elements apart.
 */
module Ordering {
  ghost predicate StrictTotal<T(!new)>(less: (T, T) -> bool) {
    && (forall x :: !less(x, x))
    && (forall x, y, z :: less(x, y) && less(y, z) ==> less(x, z))
    && (forall x, y :: x != y ==> less(x, y) || less(y, x))
  }

  // ----- lexicographic order -----

  predicate LexLess<T(==)>(less: (T, T) -> bool, a: seq<T>, b: seq<T>) {
    |b| > 0 && (|a| == 0 || less(a[0], b[0]) || (a[0] == b[0] && LexLess(less, a[1..], b[1..])))
  }

  lemma {:induction false} LexTransitive<T(!new)>(less: (T, T) -> bool, a: seq<T>, b: seq<T>, c: seq<T>)
    requires StrictTotal(less)
    requires LexLess(less, a, b) && LexLess(less, b, c)
    ensures LexLess(less, a, c)
  {
    if |a| > 0 && a[0] == b[0] && b[0] == c[0] {
      LexTransitive(less, a[1..], b[1..], c[1..]);
    }
  }

  lemma {:induction false} LexTrichotomy<T(!new)>(less: (T, T) -> bool, a: seq<T>, b: seq<T>)
    requires StrictTotal(less)
    ensures !LexLess(less, a, a)
    ensures a != b ==> LexLess(less, a, b) || LexLess(less, b, a)
  {
    if |a| > 0 {
      LexTrichotomy(less, a[1..], a[1..]);
      if |b| > 0 && a[0] == b[0] {
        LexTrichotomy(less, a[1..], b[1..]);
        assert a == [a[0]] + a[1..] && b == [b[0]] + b[1..];
      }
    }
  }

  lemma LexStrictTotal<T(!new)>(less: (T, T) -> bool)
    requires StrictTotal(less)
    ensures StrictTotal((a: seq<T>, b: seq<T>) => LexLess(less, a, b))
  {
    forall a: seq<T>, b: seq<T> {
      LexTrichotomy(less, a, b);
    }
    forall a: seq<T>, b: seq<T>, c: seq<T> | LexLess(less, a, b) && LexLess(less, b, c)
      ensures LexLess(less, a, c)
    {
      LexTransitive(less, a, b, c);
    }
  }

  predicate CharLess(a: char, b: char) { a < b }

  predicate StringLess(a: string, b: string) { LexLess(CharLess, a, b) }

  lemma StringStrictTotal()
    ensures StrictTotal(StringLess)
  {
    LexStrictTotal(CharLess);
    var lex := (a: string, b: string) => LexLess(CharLess, a, b);
    assert StrictTotal(lex);
    assert forall a, b :: lex(a, b) == StringLess(a, b);
    assert forall x :: !StringLess(x, x) by { assert forall x :: !lex(x, x); }
    assert forall x, y :: x != y ==> StringLess(x, y) || StringLess(y, x) by {
      assert forall x, y :: x != y ==> lex(x, y) || lex(y, x);
    }
    forall x, y, z | StringLess(x, y) && StringLess(y, z)
      ensures StringLess(x, z)
    {
      assert lex(x, y) && lex(y, z);
      assert lex(x, z);
    }
  }

  predicate NamesLess(a: seq<string>, b: seq<string>) { LexLess(StringLess, a, b) }

  lemma NamesStrictTotal()
    ensures StrictTotal(NamesLess)
  {
    StringStrictTotal();
    LexStrictTotal(StringLess);
    var lex := (a: seq<string>, b: seq<string>) => LexLess(StringLess, a, b);
    forall a, b, c
      ensures !NamesLess(a, a)
      ensures a != b ==> NamesLess(a, b) || NamesLess(b, a)
      ensures NamesLess(a, b) && NamesLess(b, c) ==> NamesLess(a, c)
    {
      assert !lex(a, a) && (a != b ==> lex(a, b) || lex(b, a)) && (lex(a, b) && lex(b, c) ==> lex(a, c));
    }
  }

  // ----- lexicographic order, told position by position -----

  /** Nothing differs before `k`, and there `a` ends or has the lesser element. */
  ghost predicate DecidedAt<T>(less: (T, T) -> bool, a: seq<T>, b: seq<T>, k: nat) {
    k <= |a| && k < |b| && (forall j :: 0 <= j < k ==> a[j] == b[j]) && (k == |a| || less(a[k], b[k]))
  }

  lemma {:induction false} LexExactly<T(!new)>(less: (T, T) -> bool, a: seq<T>, b: seq<T>)
    ensures LexLess(less, a, b) <==> exists k: nat :: DecidedAt(less, a, b, k)
  {
    if |b| > 0 && (|a| == 0 || less(a[0], b[0])) {
      assert DecidedAt(less, a, b, 0);
    } else if |b| > 0 && a[0] == b[0] {
      LexExactly(less, a[1..], b[1..]);
      if k: nat :| DecidedAt(less, a[1..], b[1..], k) {
        assert forall j :: 0 < j < k + 1 ==> a[j] == a[1..][j - 1] && b[j] == b[1..][j - 1];
        assert DecidedAt(less, a, b, k + 1);
      }
      if k: nat :| DecidedAt(less, a, b, k) {
        assert forall j :: 0 <= j < k - 1 ==> a[1..][j] == a[j + 1] && b[1..][j] == b[j + 1];
        assert DecidedAt(less, a[1..], b[1..], k - 1);
      }
    }
  }

  /** Order by code points: at the first difference `a` ends or has the lesser one. */
  ghost predicate ComesBefore(a: string, b: string) {
    exists k: nat :: LesserAt(a, b, k)
  }

  ghost predicate LesserAt(a: string, b: string, k: nat) {
    k <= |a| && k < |b| && (forall j :: 0 <= j < k ==> a[j] == b[j]) && (k == |a| || a[k] < b[k])
  }

  lemma StringLessExactly(a: string, b: string)
    ensures StringLess(a, b) <==> ComesBefore(a, b)
  {
    LexExactly(CharLess, a, b);
    assert forall k: nat :: DecidedAt(CharLess, a, b, k) <==> LesserAt(a, b, k);
  }

  // ----- sorting by a key -----

  ghost predicate SortedBy<T, K>(s: seq<T>, key: T -> K, less: (K, K) -> bool) {
    forall i, j :: 0 <= i < j < |s| ==> !less(key(s[j]), key(s[i]))
  }

  function InsertBy<T, K>(x: T, s: seq<T>, key: T -> K, less: (K, K) -> bool): seq<T> {
    if s == [] then [x]
    else if less(key(s[0]), key(x)) then [s[0]] + InsertBy(x, s[1..], key, less)
    else [x] + s
  }

  /** Stable insertion sort, standing for `list.sort(key=...)` and `sorted`. */
  function SortBy<T, K>(s: seq<T>, key: T -> K, less: (K, K) -> bool): seq<T> {
    if s == [] then [] else InsertBy(s[0], SortBy(s[1..], key, less), key, less)
  }

  lemma {:induction false} InsertByContents<T, K>(x: T, s: seq<T>, key: T -> K, less: (K, K) -> bool)
    ensures multiset(InsertBy(x, s, key, less)) == multiset(s) + multiset{x}
  {
    if s != [] {
      InsertByContents(x, s[1..], key, less);
      assert s == [s[0]] + s[1..];
    }
  }

  lemma {:induction false} SortByBag<T, K>(s: seq<T>, key: T -> K, less: (K, K) -> bool)
    ensures multiset(SortBy(s, key, less)) == multiset(s)
  {
    if s != [] {
      SortByBag(s[1..], key, less);
      InsertByContents(s[0], SortBy(s[1..], key, less), key, less);
      assert s == [s[0]] + s[1..];
    }
  }

  /** A sort rearranges: same elements, as often. */
  lemma SortByContents<T, K>(s: seq<T>, key: T -> K, less: (K, K) -> bool)
    ensures multiset(SortBy(s, key, less)) == multiset(s)
    ensures |SortBy(s, key, less)| == |s|
    ensures forall x :: x in SortBy(s, key, less) <==> x in s
  {
    hide SortBy;
    SortByBag(s, key, less);
    BagSize(s, SortBy(s, key, less));
    BagSize(SortBy(s, key, less), s);
    BagMember(s, SortBy(s, key, less));
    BagMember(SortBy(s, key, less), s);
  }

  lemma {:induction false} InsertBySorted<T, K(!new)>(x: T, s: seq<T>, key: T -> K, less: (K, K) -> bool)
    requires StrictTotal(less) && SortedBy(s, key, less)
    ensures SortedBy(InsertBy(x, s, key, less), key, less)
  {
    if s != [] && less(key(s[0]), key(x)) {
      var rest := InsertBy(x, s[1..], key, less);
      InsertBySorted(x, s[1..], key, less);
      InsertByContents(x, s[1..], key, less);
      forall j | 0 <= j < |rest|
        ensures !less(key(rest[j]), key(s[0]))
      {
        assert rest[j] in multiset(rest);
        if rest[j] != x {
          assert rest[j] in s[1..];
        }
      }
    }
  }

  lemma {:induction false} SortBySorted<T, K(!new)>(s: seq<T>, key: T -> K, less: (K, K) -> bool)
    requires StrictTotal(less)
    ensures SortedBy(SortBy(s, key, less), key, less)
  {
    if s != [] {
      SortBySorted(s[1..], key, less);
      InsertBySorted(s[0], SortBy(s[1..], key, less), key, less);
    }
  }

  ghost predicate KeyInjective<T, K>(s: seq<T>, key: T -> K) {
    forall i, j :: 0 <= i < |s| && 0 <= j < |s| && key(s[i]) == key(s[j]) ==> s[i] == s[j]
  }

  lemma FirstOfSorted<T, K(!new)>(a: seq<T>, b: seq<T>, key: T -> K, less: (K, K) -> bool)
    requires StrictTotal(less) && KeyInjective(a, key)
    requires SortedBy(a, key, less) && SortedBy(b, key, less)
    requires |a| > 0 && |b| > 0 && a[0] in b && b[0] in a
    ensures a[0] == b[0]
  {
    var i :| 0 <= i < |b| && b[i] == a[0];
    var j :| 0 <= j < |a| && a[j] == b[0];
    assert key(a[0]) == key(a[j]);
  }

  /** A sorted arrangement of a given bag of elements is unique. */
  lemma {:induction false} SortedUnique<T, K(!new)>(a: seq<T>, b: seq<T>, key: T -> K, less: (K, K) -> bool)
    requires StrictTotal(less) && KeyInjective(a, key)
    requires SortedBy(a, key, less) && SortedBy(b, key, less)
    requires multiset(a) == multiset(b)
    ensures a == b
  {
    BagSize(a, b);
    BagSize(b, a);
    if a != [] {
      hide SortedBy, KeyInjective, StrictTotal;
      BagMember(a, b);
      BagMember(b, a);
      FirstOfSorted(a, b, key, less);
      assert multiset(a[1..]) == multiset(b[1..]) by {
        assert a == [a[0]] + a[1..] && b == [b[0]] + b[1..];
        assert multiset(a[1..]) == multiset(a) - multiset{a[0]};
        assert multiset(b[1..]) == multiset(b) - multiset{b[0]};
      }
      TailsSorted(a, b, key, less);
      SortedUnique(a[1..], b[1..], key, less);
      assert a == [a[0]] + a[1..] && b == [b[0]] + b[1..];
    }
  }

  lemma TailsSorted<T, K(!new)>(a: seq<T>, b: seq<T>, key: T -> K, less: (K, K) -> bool)
    requires |a| > 0 && |b| > 0 && KeyInjective(a, key) && SortedBy(a, key, less) && SortedBy(b, key, less)
    ensures KeyInjective(a[1..], key) && SortedBy(a[1..], key, less) && SortedBy(b[1..], key, less)
  {
  }

  lemma KeyInjectiveBag<T, K>(a: seq<T>, b: seq<T>, key: T -> K)
    requires KeyInjective(a, key) && multiset(a) == multiset(b)
    ensures KeyInjective(b, key)
  {
    forall i, j | 0 <= i < |b| && 0 <= j < |b| && key(b[i]) == key(b[j])
      ensures b[i] == b[j]
    {
      assert b[i] in multiset(a) && b[j] in multiset(a);
      var i' :| 0 <= i' < |a| && a[i'] == b[i];
      var j' :| 0 <= j' < |a| && a[j'] == b[j];
    }
  }

  /** Sorting forgets the order the elements arrived in. */
  lemma SortForgetsOrder<T, K(!new)>(a: seq<T>, b: seq<T>, key: T -> K, less: (K, K) -> bool)
    requires StrictTotal(less) && KeyInjective(a, key)
    requires multiset(a) == multiset(b)
    ensures SortBy(a, key, less) == SortBy(b, key, less)
  {
    var sa, sb := SortBy(a, key, less), SortBy(b, key, less);
    assert SortedBy(sa, key, less) && SortedBy(sb, key, less) by {
      SortBySorted(a, key, less);
      SortBySorted(b, key, less);
    }
    assert multiset(sa) == multiset(a) == multiset(b) == multiset(sb) by {
      SortByContents(a, key, less);
      SortByContents(b, key, less);
    }
    KeyInjectiveBag(a, sa, key);
    SortedUnique(sa, sb, key, less);
  }

  lemma Associate<T>(a: seq<T>, b: seq<T>, c: seq<T>)
    ensures (a + b) + c == a + (b + c)
  {
  }

  lemma UnionAssociates<T>(a: set<T>, b: set<T>, c: set<T>)
    ensures (a + b) + c == a + (b + c)
  {
  }

  // ----- sequences without repetition -----

  ghost predicate Distinct<T>(s: seq<T>) {
    forall i, j :: 0 <= i < j < |s| ==> s[i] != s[j]
  }

  lemma DistinctConcat<T>(a: seq<T>, b: seq<T>)
    requires Distinct(a) && Distinct(b)
    requires forall x :: x in a ==> x !in b
    ensures Distinct(a + b)
  {
    var s := a + b;
    forall i, j | 0 <= i < j < |s|
      ensures s[i] != s[j]
    {
      if j < |a| {
        assert s[i] == a[i] && s[j] == a[j];
      } else if i < |a| {
        assert s[i] == a[i] && s[j] == b[j - |a|];
        assert a[i] in a && b[j - |a|] in b;
      } else {
        assert s[i] == b[i - |a|] && s[j] == b[j - |a|];
      }
    }
  }

  lemma {:induction false} DistinctMultiset<T>(s: seq<T>)
    ensures Distinct(s) <==> forall x :: x in s ==> multiset(s)[x] == 1
  {
    if s != [] {
      var h, t := s[0], s[1..];
      assert s == [h] + t;
      DistinctMultiset(t);
      assert forall x :: multiset(s)[x] == multiset(t)[x] + (if x == h then 1 else 0);
      if Distinct(s) {
        assert forall i :: 0 <= i < |t| ==> t[i] == s[i + 1];
        assert h !in t;
        assert Distinct(t);
      }
      if forall x :: x in s ==> multiset(s)[x] == 1 {
        assert h !in t by { assert multiset(s)[h] == 1; }
        assert forall x :: x in t ==> x in s;
        assert Distinct(t);
        assert forall i :: 1 <= i < |s| ==> s[i] == t[i - 1];
      }
    }
  }

  lemma DistinctSort<T, K>(s: seq<T>, key: T -> K, less: (K, K) -> bool)
    requires Distinct(s)
    ensures Distinct(SortBy(s, key, less))
  {
    SortByContents(s, key, less);
    DistinctMultiset(s);
    DistinctMultiset(SortBy(s, key, less));
  }

  lemma {:induction false} DistinctLength<T>(s: seq<T>)
    requires Distinct(s)
    ensures |set x | x in s| == |s|
  {
    if s != [] {
      var t := s[1..];
      assert Distinct(t) && s[0] !in t by {
        assert forall i :: 0 <= i < |t| ==> t[i] == s[i + 1];
      }
      DistinctLength(t);
      assert (set x | x in s) == {s[0]} + (set x | x in t) by {
        assert s == [s[0]] + t;
      }
    }
  }

  // ----- bags -----

  lemma BagMember<T>(a: seq<T>, b: seq<T>)
    requires multiset(a) <= multiset(b)
    ensures forall x :: x in a ==> x in b
  {
    forall x | x in a
      ensures x in b
    {
      assert x in multiset(a);
      assert x in multiset(b);
    }
  }

  lemma BagSize<T>(a: seq<T>, b: seq<T>)
    requires multiset(a) <= multiset(b)
    ensures |a| <= |b|
  {
    var rest := multiset(b) - multiset(a);
    assert multiset(b) == multiset(a) + rest;
    assert |multiset(b)| == |multiset(a)| + |rest|;
  }

  lemma SameBag<T>(a: seq<T>, b: seq<T>)
    requires Distinct(a) && Distinct(b) && forall x :: x in a <==> x in b
    ensures multiset(a) == multiset(b)
  {
    DistinctMultiset(a);
    DistinctMultiset(b);
    forall x
      ensures multiset(a)[x] == multiset(b)[x]
    {
      if x !in a {
        assert x !in multiset(a) && x !in multiset(b);
      }
    }
  }

  /** The elements of a set, each once, in some order. */
  method ListOf<T(==)>(s: set<T>) returns (l: seq<T>)
    ensures Distinct(l) && forall x :: x in l <==> x in s
  {
    l := [];
    var rest := s;
    while rest != {}
      invariant Distinct(l) && rest <= s
      invariant forall x :: x in l <==> x in s && x !in rest
      decreases |rest|
    {
      var x :| x in rest;
      rest := rest - {x};
      DistinctConcat(l, [x]);
      l := l + [x];
    }
  }

  // ----- counting positions -----

  ghost function Positions<T>(s: seq<T>, f: T -> bool): set<nat> { set i | 0 <= i < |s| && f(s[i]) }

  lemma PositionsFirst<T>(s: seq<T>, f: T -> bool)
    requires s != []
    ensures |Positions(s, f)| == (if f(s[0]) then 1 else 0) + |Positions(s[1..], f)|
  {
    var tail := Positions(s[1..], f);
    var moved := set i | i in tail :: i + 1;
    Renumber(tail, moved);
    forall i
      ensures i in Positions(s, f) <==> i in (if f(s[0]) then {0} else {}) + moved
    {
      if i in Positions(s, f) && i > 0 {
        assert s[1..][i - 1] == s[i];
        assert i - 1 in tail;
      }
    }
    assert Positions(s, f) == (if f(s[0]) then {0} else {}) + moved;
  }

  lemma {:induction false} Renumber(a: set<nat>, b: set<nat>)
    requires forall i :: i in b <==> i > 0 && i - 1 in a
    ensures |a| == |b|
    decreases a
  {
    if a != {} {
      var x :| x in a;
      assert x + 1 in b;
      Renumber(a - {x}, b - {x + 1});
    } else {
      assert b == {};
    }
  }
}
