/** Sublists told by positions: what a filter keeps, and what is left when repetitions go. */
module Sublists {
  /** `ys` are the elements of `xs` at the positions `at`, in order. */
  ghost predicate Picks<T>(xs: seq<T>, ys: seq<T>, at: seq<nat>) {
    && |at| == |ys| && (forall j, k :: 0 <= j < k < |at| ==> at[j] < at[k])
    && forall k :: 0 <= k < |at| ==> at[k] < |xs| && ys[k] == xs[at[k]]
  }

  ghost predicate PicksKept<T>(xs: seq<T>, keep: T -> bool, ys: seq<T>, at: seq<nat>) {
    Picks(xs, ys, at) && forall i :: 0 <= i < |xs| ==> (i in at <==> keep(xs[i]))
  }

  /** `ys` are exactly the elements of `xs` to keep, in order. */
  ghost predicate Filtered<T>(xs: seq<T>, keep: T -> bool, ys: seq<T>) {
    exists at :: PicksKept(xs, keep, ys, at)
  }

  ghost predicate Earlier<T, K>(xs: seq<T>, id: T -> K, i: nat)
    requires i < |xs|
  {
    exists j :: 0 <= j < i && id(xs[j]) == id(xs[i])
  }

  ghost predicate PicksFirst<T, K>(xs: seq<T>, id: T -> K, ys: seq<T>, at: seq<nat>) {
    Picks(xs, ys, at) && forall i :: 0 <= i < |xs| ==> (i in at <==> !Earlier(xs, id, i))
  }

  /** `ys` are the elements of `xs` whose id has not come before, in order. */
  ghost predicate Firsts<T, K>(xs: seq<T>, id: T -> K, ys: seq<T>) {
    exists at :: PicksFirst(xs, id, ys, at)
  }

  lemma PicksNext<T>(xs: seq<T>, ys: seq<T>, at: seq<nat>, x: T)
    requires Picks(xs, ys, at)
    ensures Picks(xs + [x], ys, at) && Picks(xs + [x], ys + [x], at + [|xs|])
    ensures forall i :: i in at + [|xs|] <==> i in at || i == |xs|
    ensures |xs| !in at
  {
  }

  lemma FilteredNone<T>(keep: T -> bool)
    ensures Filtered([], keep, [])
  {
    assert PicksKept([], keep, [], []);
  }

  lemma FilteredNext<T>(xs: seq<T>, keep: T -> bool, ys: seq<T>, x: T)
    requires Filtered(xs, keep, ys)
    ensures Filtered(xs + [x], keep, ys + if keep(x) then [x] else [])
  {
    var at: seq<nat> :| PicksKept(xs, keep, ys, at);
    PicksNext(xs, ys, at, x);
    hide Picks;
    assert ys + [] == ys;
    assert PicksKept(xs + [x], keep, ys + if keep(x) then [x] else [], if keep(x) then at + [|xs|] else at);
  }

  lemma FirstsNone<T, K>(id: T -> K)
    ensures Firsts([], id, [])
  {
    assert PicksFirst([], id, [], []);
  }

  lemma FirstsNext<T, K>(xs: seq<T>, id: T -> K, ys: seq<T>, x: T)
    requires Firsts(xs, id, ys)
    ensures Firsts(xs + [x], id, ys + if exists y :: y in xs && id(y) == id(x) then [] else [x])
  {
    var at: seq<nat> :| PicksFirst(xs, id, ys, at);
    PicksNext(xs, ys, at, x);
    hide Picks;
    assert ys + [] == ys;
    var all := xs + [x];
    assert forall j :: 0 <= j < |xs| ==> all[j] == xs[j];
    assert forall i :: 0 <= i < |xs| ==> (Earlier(all, id, i) <==> Earlier(xs, id, i));
    assert Earlier(all, id, |xs|) <==> exists y :: y in xs && id(y) == id(x) by {
      if y :| y in xs && id(y) == id(x) {
        var j :| 0 <= j < |xs| && xs[j] == y;
        assert all[j] == y;
      }
    }
    var again := exists y :: y in xs && id(y) == id(x);
    assert PicksFirst(all, id, ys + if again then [] else [x], if again then at else at + [|xs|]);
  }

  /** Whatever comes once comes among the first. */
  lemma FirstsMember<T, K>(xs: seq<T>, id: T -> K, ys: seq<T>, k: K)
    requires Firsts(xs, id, ys)
    ensures (exists x :: x in xs && id(x) == k) <==> (exists y :: y in ys && id(y) == k)
  {
    var at: seq<nat> :| PicksFirst(xs, id, ys, at);
    if x :| x in xs && id(x) == k {
      var i :| 0 <= i < |xs| && xs[i] == x;
      var j := FirstWith(xs, id, k, i);
      assert j in at;
      var n :| 0 <= n < |at| && at[n] == j;
      assert ys[n] == xs[j];
    }
  }

  lemma {:induction false} FirstWith<T, K>(xs: seq<T>, id: T -> K, k: K, i: nat) returns (j: nat)
    requires i < |xs| && id(xs[i]) == k
    ensures j <= i && id(xs[j]) == k && !Earlier(xs, id, j)
  {
    if m :| 0 <= m < i && id(xs[m]) == id(xs[i]) {
      j := FirstWith(xs, id, k, m);
    } else {
      j := i;
    }
  }

  // ----- no repetition -----

  ghost predicate DistinctBy<T, K>(xs: seq<T>, id: T -> K) {
    forall i, j :: 0 <= i < j < |xs| ==> id(xs[i]) != id(xs[j])
  }

  lemma FirstsDistinct<T, K>(xs: seq<T>, id: T -> K, ys: seq<T>)
    requires Firsts(xs, id, ys)
    ensures DistinctBy(ys, id)
  {
    var at: seq<nat> :| PicksFirst(xs, id, ys, at);
    forall i, j | 0 <= i < j < |ys|
      ensures id(ys[i]) != id(ys[j])
    {
      assert at[j] in at && !Earlier(xs, id, at[j]);
    }
  }

  lemma FilteredDistinct<T, K>(xs: seq<T>, keep: T -> bool, ys: seq<T>, id: T -> K)
    requires Filtered(xs, keep, ys) && DistinctBy(xs, id)
    ensures DistinctBy(ys, id)
  {
    var at: seq<nat> :| PicksKept(xs, keep, ys, at);
  }

  lemma FilteredMember<T>(xs: seq<T>, keep: T -> bool, ys: seq<T>, x: T)
    requires Filtered(xs, keep, ys)
    ensures x in ys <==> x in xs && keep(x)
  {
    var at: seq<nat> :| PicksKept(xs, keep, ys, at);
    if x in xs && keep(x) {
      var i :| 0 <= i < |xs| && xs[i] == x;
      var k :| 0 <= k < |at| && at[k] == i;
      assert ys[k] == x;
    }
    if x in ys {
      var k :| 0 <= k < |ys| && ys[k] == x;
      assert at[k] in at;
    }
  }

  // ----- lists joined end to end -----

  ghost function Concat<T>(parts: seq<seq<T>>): seq<T> {
    if parts == [] then [] else Concat(parts[..|parts| - 1]) + parts[|parts| - 1]
  }

  lemma ConcatNext<T>(parts: seq<seq<T>>, part: seq<T>)
    ensures Concat(parts + [part]) == Concat(parts) + part
  {
    assert (parts + [part])[..|parts|] == parts;
  }
}
