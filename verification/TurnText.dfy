/** Exchanges, pruning and history told on the messages themselves: which pair up, which stay, which are handed on. */
module TurnText {
  import opened Wrappers
  import opened Sublists
  import opened Exchanges

  // ----- exchanges -----

  ghost predicate Completed(m: Message) { m.status == "completed" }

  /** Message `j` answers question `i`: both are completed, and no message between them is. */
  ghost predicate Answers(ms: seq<Message>, i: nat, j: nat) {
    && i < j < |ms| && ms[i].role == User && ms[j].role == Assistant && Completed(ms[i]) && Completed(ms[j])
    && forall k :: i < k < j ==> !Completed(ms[k])
  }

  /** Question `i` is the last completed message. */
  ghost predicate Waits(ms: seq<Message>, i: nat) {
    i < |ms| && ms[i].role == User && Completed(ms[i]) && forall k :: i < k < |ms| ==> !Completed(ms[k])
  }

  /** All the exchanges, in order. */
  ghost predicate Exchanged(ms: seq<Message>, pairs: seq<(nat, nat)>) {
    && (forall i: nat, j: nat :: Answers(ms, i, j) <==> (i, j) in pairs)
    && forall a, b :: 0 <= a < b < |pairs| ==> pairs[a].1 < pairs[b].0
  }

  lemma AnswersNext(ms: seq<Message>, m: Message)
    ensures
      forall i: nat, j: nat ::
        Answers(ms + [m], i, j) <==>
        Answers(ms, i, j) || (j == |ms| && Waits(ms, i) && m.role == Assistant && Completed(m))
    ensures
      forall i: nat ::
        Waits(ms + [m], i) <==> if Completed(m) then i == |ms| && m.role == User else Waits(ms, i)
  {
    var all := ms + [m];
    assert all[|ms|] == m;
    assert forall k :: 0 <= k < |ms| ==> all[k] == ms[k];
  }

  /** An exchange is a completed question whose next completed message is an answer. */
  lemma {:induction false} ExchangesExactly(ms: seq<Message>)
    ensures Exchanged(ms, ScanOf(ms).pairs)
    ensures forall i: nat :: ScanOf(ms).pending == Some(i) <==> Waits(ms, i)
    ensures |TalkOf(ms).exchanges| == |ScanOf(ms).pairs|
    ensures
      forall k :: 0 <= k < |ScanOf(ms).pairs| ==>
                    var pair := ScanOf(ms).pairs[k];
                    pair.1 < |ms| && pair.0 < |ms| && TalkOf(ms).exchanges[k] == (ms[pair.0], ms[pair.1])
  {
    ScansAgree(ms);
    ScanOrdered(ms);
    if ms != [] {
      var init, m := ms[..|ms| - 1], ms[|ms| - 1];
      ExchangesExactly(init);
      AnswersNext(init, m);
      assert ms == init + [m];
      hide Waits, Answers, TalkOf;
    }
  }


  // ----- pruning -----

  /** Message `i` belongs to an exchange older than the last `maxTurns`. */
  ghost predicate Outdated(pairs: seq<(nat, nat)>, maxTurns: nat, i: nat) {
    exists k :: 0 <= k < |pairs| - maxTurns && (i == pairs[k].0 || i == pairs[k].1)
  }

  ghost predicate KeepsRest(ms: seq<Message>, dropped: set<nat>, kept: seq<Message>, at: seq<nat>) {
    Picks(ms, kept, at) && forall i: nat :: i < |ms| ==> (i in at <==> i !in dropped)
  }

  lemma {:induction false} KeepTells(ms: seq<Message>, dropped: set<nat>) returns (at: seq<nat>)
    ensures KeepsRest(ms, dropped, Keep(ms, dropped), at)
  {
    if ms == [] {
      at := [];
    } else {
      var init, m := ms[..|ms| - 1], ms[|ms| - 1];
      var before := KeepTells(init, dropped);
      PicksNext(init, Keep(init, dropped), before, m);
      assert ms == init + [m];
      assert Keep(init, dropped) + [] == Keep(init, dropped);
      at := if |ms| - 1 in dropped then before else before + [|ms| - 1];
      hide Picks;
    }
  }

  /** Everything stays, in order, but the exchanges older than the last `maxTurns`. */
  ghost predicate Pruned(ms: seq<Message>, maxTurns: nat, kept: seq<Message>) {
    exists pairs, at ::
      && Exchanged(ms, pairs) && Picks(ms, kept, at)
      && forall i: nat :: i < |ms| ==> (i in at <==> !Outdated(pairs, maxTurns, i))
  }

  lemma PruneTells(ms: seq<Message>, maxTurns: nat)
    ensures Pruned(ms, maxTurns, Prune(ms, maxTurns))
  {
    var pairs, excess := ScanOf(ms).pairs, Excess(ms, maxTurns);
    ExchangesExactly(ms);
    DroppedAre(pairs, excess);
    var at := KeepTells(ms, Dropped(pairs, excess));
    hide ScanOf, TalkOf, Dropped, Keep, Exchanged, Picks;
    forall i: nat | i < |ms|
      ensures i in at <==> !Outdated(pairs, maxTurns, i)
    {
    }
  }

  // ----- history -----

  ghost function Length(ms: seq<Message>): nat {
    if ms == [] then 0 else Length(ms[..|ms| - 1]) + |ms[|ms| - 1].content|
  }

  /** The characters of one exchange. */
  ghost function Size(ms: seq<Message>, pair: (nat, nat)): nat
    requires pair.0 < |ms| && pair.1 < |ms|
  {
    |ms[pair.0].content| + |ms[pair.1].content|
  }

  ghost predicate Within(ms: seq<Message>, pairs: seq<(nat, nat)>) {
    forall k :: 0 <= k < |pairs| ==> pairs[k].0 < |ms| && pairs[k].1 < |ms|
  }

  /** The messages of these exchanges, each question before its answer. */
  ghost predicate Lists(ms: seq<Message>, pairs: seq<(nat, nat)>, history: seq<Message>)
    requires Within(ms, pairs)
  {
    |history| == 2 * |pairs|
    && forall k :: 0 <= k < |pairs| ==> history[2 * k] == ms[pairs[k].0] && history[2 * k + 1] == ms[pairs[k].1]
  }

  /** The exchange with which the window of turns begins: for a negative number of turns, so many are skipped. */
  ghost predicate Opens(n: nat, turns: int, first: nat) {
    && (turns > 0 && turns <= n ==> first == n - turns)
    && (turns > n ==> first == 0)
    && (turns <= 0 && -turns <= n ==> first == -turns)
    && (turns < 0 && -turns > n ==> first == n)
  }

  ghost predicate HandsOn(
    ms: seq<Message>, turns: int, maxChars: int, history: seq<Message>, pairs: seq<(nat, nat)>, first: nat, lo: nat,
    hi: nat)
  {
    && Exchanged(ms, pairs) && Within(ms, pairs) && Opens(|pairs|, turns, first)
    && first <= lo <= hi <= |pairs|
    && Lists(ms, pairs[lo..hi], history)
    && (forall k :: hi <= k < |pairs| ==> Size(ms, pairs[k]) > maxChars)
    && (lo < hi ==> Length(history) <= maxChars)
    && (lo == hi ==> lo == first)
    && (first < lo < hi ==> Size(ms, pairs[lo - 1]) + Length(history) > maxChars)
  }

  /**
    A history: among the last exchanges, those too long on their own are passed over at the end, and then as many are
    handed on as fit, one after the other.
   */
  ghost predicate HistoryTold(ms: seq<Message>, turns: int, maxChars: int, history: seq<Message>) {
    exists pairs, first, lo, hi :: HandsOn(ms, turns, maxChars, history, pairs, first, lo, hi)
  }

  lemma {:induction false} FlatTells(xs: seq<Exchange>)
    ensures |Flat(xs)| == 2 * |xs|
    ensures forall k :: 0 <= k < |xs| ==> Flat(xs)[2 * k] == xs[k].0 && Flat(xs)[2 * k + 1] == xs[k].1
    ensures Length(Flat(xs)) == TotalChars(xs)
  {
    if xs != [] {
      FlatTells(xs[1..]);
      LengthAdds([xs[0].0, xs[0].1], Flat(xs[1..]));
      LengthTwo(xs[0].0, xs[0].1);
      hide Length;
      var all, rest := Flat(xs), Flat(xs[1..]);
      forall k | 0 <= k < |xs|
        ensures all[2 * k] == xs[k].0 && all[2 * k + 1] == xs[k].1
      {
        if k > 0 {
          assert all[2 * k] == rest[2 * (k - 1)] && all[2 * k + 1] == rest[2 * (k - 1) + 1];
        }
      }
    }
  }

  lemma LengthTwo(x: Message, y: Message)
    ensures Length([x, y]) == |x.content| + |y.content|
  {
    var xs := [x, y];
    assert xs[..|xs| - 1] == [x];
    assert Length([x]) == |x.content|;
  }

  lemma {:induction false} LengthAdds(xs: seq<Message>, ys: seq<Message>)
    ensures Length(xs + ys) == Length(xs) + Length(ys)
  {
    if ys == [] {
      assert xs + ys == xs;
    } else {
      LengthAdds(xs, ys[..|ys| - 1]);
      assert (xs + ys)[..|xs + ys| - 1] == xs + ys[..|ys| - 1];
    }
  }

  /** The window of turns is the exchanges from `first` on. */
  lemma TurnsOpen(xs: seq<Exchange>, turns: int) returns (first: nat)
    ensures first <= |xs| && Opens(|xs|, turns, first) && LastTurns(xs, turns) == xs[first..]
  {
    first := if turns > 0 then (if turns <= |xs| then |xs| - turns else 0) else if -turns <= |xs| then -turns else |xs|;
  }

  lemma Listed(ms: seq<Message>, pairs: seq<(nat, nat)>, xs: seq<Exchange>)
    requires Within(ms, pairs) && |xs| == |pairs|
    requires forall k :: 0 <= k < |xs| ==> xs[k] == (ms[pairs[k].0], ms[pairs[k].1])
    ensures Lists(ms, pairs, Flat(xs))
  {
    FlatTells(xs);
  }

  /** What `GetHistory` returns is such a history. */
  lemma HistoryTheorem(ms: seq<Message>, turns: int, maxChars: int, history: seq<Message>)
    requires IsHistory(LastTurns(TalkOf(ms).exchanges, turns), maxChars, history)
    ensures HistoryTold(ms, turns, maxChars, history)
  {
    ExchangesExactly(ms);
    hide TalkOf, ScanOf, Exchanged, IsHistory;
    var all := TalkOf(ms).exchanges;
    var first := TurnsOpen(all, turns);
    hide LastTurns;
    HistoryFrom(ms, turns, maxChars, history, all, ScanOf(ms).pairs, first);
  }

  lemma HistoryFrom(
    ms: seq<Message>, turns: int, maxChars: int, history: seq<Message>, all: seq<Exchange>, pairs: seq<(nat, nat)>,
    first: nat)
    requires Exchanged(ms, pairs) && Within(ms, pairs) && Opens(|pairs|, turns, first) && first <= |pairs|
    requires |all| == |pairs| && forall k :: 0 <= k < |all| ==> all[k] == (ms[pairs[k].0], ms[pairs[k].1])
    requires IsHistory(all[first..], maxChars, history)
    ensures HistoryTold(ms, turns, maxChars, history)
  {
    hide Exchanged, Within, Opens, Flat, TotalChars, Chars, HandsOn;
    var xs := all[first..];
    var lo: nat, hi: nat :| Chosen(xs, maxChars, lo, hi) && history == Flat(xs[lo..hi]);
    Told(ms, turns, maxChars, all, pairs, first, lo, hi);
    var lo', hi' := first + lo, first + hi;
    assert HandsOn(ms, turns, maxChars, history, pairs, first, lo', hi');
  }

  lemma Told(
    ms: seq<Message>, turns: int, maxChars: int, all: seq<Exchange>, pairs: seq<(nat, nat)>, first: nat, lo: nat,
    hi: nat)
    requires Exchanged(ms, pairs) && Within(ms, pairs) && Opens(|pairs|, turns, first) && first <= |pairs|
    requires |all| == |pairs| && forall k :: 0 <= k < |all| ==> all[k] == (ms[pairs[k].0], ms[pairs[k].1])
    requires Chosen(all[first..], maxChars, lo, hi)
    ensures HandsOn(ms, turns, maxChars, Flat(all[first..][lo..hi]), pairs, first, first + lo, first + hi)
  {
    hide Exchanged, Opens, Flat, TotalChars, Length;
    var xs := all[first..];
    var part := xs[lo..hi];
    Listed(ms, pairs[first + lo..first + hi], part);
    FlatTells(part);
    hide Lists;
    forall k | first + hi <= k < |pairs|
      ensures Size(ms, pairs[k]) > maxChars
    {
      assert xs[k - first] == all[k];
    }
    if 0 < lo < hi {
      Prepended(xs, lo - 1, hi);
      assert xs[lo - 1] == all[first + lo - 1];
    }
  }
}
