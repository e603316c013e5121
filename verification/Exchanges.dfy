/** Pairing the messages of a conversation into exchanges, dropping the oldest exchanges, and choosing a history. */
module Exchanges {
  import opened Wrappers

  datatype Role = User | Assistant

  datatype Message = Message(id: string, role: Role, content: string, status: string, createdAt: int)

  predicate IsQuestion(m: Message) { m.role == User && m.status == "completed" }

  predicate IsAnswer(m: Message) { m.role == Assistant && m.status == "completed" }

  /** The indices of the exchanges found so far, and of the question that still waits for its answer. */
  datatype Scan = Scan(pairs: seq<(nat, nat)>, pending: Option<nat>)

  function Next(scan: Scan, m: Message, i: nat): Scan {
    if IsQuestion(m) then scan.(pending := Some(i))
    else if IsAnswer(m) && scan.pending.Some? then Scan(scan.pairs + [(scan.pending.value, i)], None)
    else scan
  }

  function ScanOf(ms: seq<Message>): Scan {
    if ms == [] then Scan([], None) else Next(ScanOf(ms[..|ms| - 1]), ms[|ms| - 1], |ms| - 1)
  }

  type Exchange = (Message, Message)

  /** The same scan over the messages themselves. */
  datatype Talk = Talk(exchanges: seq<Exchange>, waiting: Option<Message>)

  function Hear(talk: Talk, m: Message): Talk {
    if IsQuestion(m) then talk.(waiting := Some(m))
    else if IsAnswer(m) && talk.waiting.Some? then Talk(talk.exchanges + [(talk.waiting.value, m)], None)
    else talk
  }

  function TalkOf(ms: seq<Message>): Talk {
    if ms == [] then Talk([], None) else Hear(TalkOf(ms[..|ms| - 1]), ms[|ms| - 1])
  }

  method CompleteExchanges(ms: seq<Message>) returns (exchanges: seq<Exchange>)
    ensures exchanges == TalkOf(ms).exchanges
  {
    exchanges := [];
    var pending: Option<Message> := None;
    for i := 0 to |ms|
      invariant Talk(exchanges, pending) == TalkOf(ms[..i])
    {
      var m := ms[i];
      assert ms[..i + 1][..i] == ms[..i];
      if m.role == User && m.status == "completed" {
        pending := Some(m);
      } else if m.role == Assistant && m.status == "completed" && pending.Some? {
        exchanges := exchanges + [(pending.value, m)];
        pending := None;
      }
    }
    assert ms[..|ms|] == ms;
  }

  // ----- the two scans agree -----

  ghost predicate Matches(ms: seq<Message>, scan: Scan, talk: Talk) {
    && |scan.pairs| == |talk.exchanges|
    && (forall k :: 0 <= k < |scan.pairs| ==>
          scan.pairs[k].0 < scan.pairs[k].1 < |ms| && talk.exchanges[k] == (ms[scan.pairs[k].0], ms[scan.pairs[k].1]))
    && (scan.pending.Some? <==> talk.waiting.Some?)
    && (scan.pending.Some? ==> scan.pending.value < |ms| && talk.waiting.value == ms[scan.pending.value])
  }

  lemma {:induction false} ScansAgree(ms: seq<Message>)
    ensures Matches(ms, ScanOf(ms), TalkOf(ms))
  {
    if ms != [] {
      ScansAgree(ms[..|ms| - 1]);
    }
  }

  /**
    A question opens each pair and an answer closes it; pairs do not overlap, and the pending question follows them all.
   */
  ghost predicate Ordered(ms: seq<Message>, scan: Scan) {
    && (forall k :: 0 <= k < |scan.pairs| ==>
          && scan.pairs[k].0 < scan.pairs[k].1 < |ms|
          && IsQuestion(ms[scan.pairs[k].0]) && IsAnswer(ms[scan.pairs[k].1]))
    && (forall j, k :: 0 <= j < k < |scan.pairs| ==> scan.pairs[j].1 < scan.pairs[k].0)
    && (scan.pending.Some? ==>
          && scan.pending.value < |ms| && IsQuestion(ms[scan.pending.value])
          && forall k :: 0 <= k < |scan.pairs| ==> scan.pairs[k].1 < scan.pending.value)
  }

  lemma {:induction false} ScanOrdered(ms: seq<Message>)
    ensures Ordered(ms, ScanOf(ms))
  {
    if ms != [] {
      ScanOrdered(ms[..|ms| - 1]);
    }
  }

  /** The pairs of a prefix are those of the whole that close within it. */
  lemma {:induction false} PrefixPairs(ms: seq<Message>, i: nat)
    requires i <= |ms|
    ensures
      var whole, part := ScanOf(ms).pairs, ScanOf(ms[..i]).pairs;
      && |part| <= |whole| && part == whole[..|part|]
      && forall k :: |part| <= k < |whole| ==> whole[k].1 >= i
  {
    if i == |ms| {
      assert ms[..i] == ms;
    } else {
      var init := ms[..|ms| - 1];
      PrefixPairs(init, i);
      assert init[..i] == ms[..i];
    }
  }

  // ----- dropping the oldest exchanges -----

  function Excess(ms: seq<Message>, maxTurns: nat): nat {
    var n := |ScanOf(ms).pairs|;
    if n > maxTurns then n - maxTurns else 0
  }

  /** The indices of the first `m` pairs. */
  function Dropped(pairs: seq<(nat, nat)>, m: nat): set<nat>
    requires m <= |pairs|
  {
    if m == 0 then {} else Dropped(pairs, m - 1) + {pairs[m - 1].0, pairs[m - 1].1}
  }

  function Keep<T>(ms: seq<T>, dropped: set<nat>): seq<T> {
    if ms == [] then []
    else Keep(ms[..|ms| - 1], dropped) + (if |ms| - 1 in dropped then [] else [ms[|ms| - 1]])
  }

  function Prune(ms: seq<Message>, maxTurns: nat): seq<Message> {
    Keep(ms, Dropped(ScanOf(ms).pairs, Excess(ms, maxTurns)))
  }

  lemma {:induction false} DroppedAre(pairs: seq<(nat, nat)>, m: nat)
    requires m <= |pairs|
    ensures forall i :: i in Dropped(pairs, m) <==> exists k :: 0 <= k < m && (i == pairs[k].0 || i == pairs[k].1)
  {
    if m > 0 {
      DroppedAre(pairs, m - 1);
      forall i
        ensures i in Dropped(pairs, m) <==> exists k :: 0 <= k < m && (i == pairs[k].0 || i == pairs[k].1)
      {
        if i == pairs[m - 1].0 || i == pairs[m - 1].1 {
          assert 0 <= m - 1 < m;
        }
      }
    }
  }

  /** Where the first kept exchange begins. */
  function Boundary(ms: seq<Message>, m: nat): (b: nat)
    requires m <= |ScanOf(ms).pairs|
    ensures b <= |ms|
  {
    ScanOrdered(ms);
    if m < |ScanOf(ms).pairs| then ScanOf(ms).pairs[m].0 else |ms|
  }

  predicate Unpaired(ms: seq<Message>, i: nat) {
    var pairs := ScanOf(ms).pairs;
    forall k :: 0 <= k < |pairs| ==> i != pairs[k].0 && i != pairs[k].1
  }

  /** An unpaired question is followed by an unpaired answer before the first exchange that stays. */
  ghost predicate Stray(ms: seq<Message>, m: nat)
    requires m <= |ScanOf(ms).pairs|
  {
    exists x, y ::
      0 <= x < y < Boundary(ms, m) && IsQuestion(ms[x]) && Unpaired(ms, x) && IsAnswer(ms[y]) && Unpaired(ms, y)
  }

  /** Among the first `i` messages, those that are not dropped form an exchange. */
  ghost predicate Meets(ms: seq<Message>, dropped: set<nat>, i: nat)
    requires i <= |ms|
  {
    exists x, y :: 0 <= x < y < i && IsQuestion(ms[x]) && x !in dropped && IsAnswer(ms[y]) && y !in dropped
  }

  ghost predicate AsksBefore(ms: seq<Message>, dropped: set<nat>, i: nat)
    requires i <= |ms|
  {
    exists x :: 0 <= x < i && IsQuestion(ms[x]) && x !in dropped
  }

  /** Before anything is kept, new exchanges come exactly from strays. */
  lemma {:induction false} StraysPair(ms: seq<Message>, dropped: set<nat>, i: nat)
    requires i <= |ms|
    ensures
      var talk := TalkOf(Keep(ms[..i], dropped));
      && (talk.exchanges != [] <==> Meets(ms, dropped, i))
      && (!Meets(ms, dropped, i) ==> (talk.waiting.Some? <==> AsksBefore(ms, dropped, i)))
  {
    if i > 0 {
      var j := i - 1;
      StraysPair(ms, dropped, j);
      KeepNext(ms, dropped, j);
      var before := Keep(ms[..j], dropped);
      HearNext(before, ms[j]);
      if Meets(ms, dropped, j) {
        assert Meets(ms, dropped, i);
      } else {
        NewMeet(ms, dropped, j);
      }
    }
  }

  lemma NewMeet(ms: seq<Message>, dropped: set<nat>, j: nat)
    requires j < |ms| && !Meets(ms, dropped, j)
    ensures Meets(ms, dropped, j + 1) <==> j !in dropped && IsAnswer(ms[j]) && AsksBefore(ms, dropped, j)
    ensures AsksBefore(ms, dropped, j + 1) <==> AsksBefore(ms, dropped, j) || (IsQuestion(ms[j]) && j !in dropped)
  {
    if j !in dropped && IsAnswer(ms[j]) && AsksBefore(ms, dropped, j) {
      var x :| 0 <= x < j && IsQuestion(ms[x]) && x !in dropped;
      assert 0 <= x < j < j + 1;
    }
  }

  lemma KeepNext<T>(ms: seq<T>, dropped: set<nat>, j: nat)
    requires j < |ms|
    ensures Keep(ms[..j + 1], dropped) == Keep(ms[..j], dropped) + (if j in dropped then [] else [ms[j]])
  {
    assert ms[..j + 1][..j] == ms[..j];
  }

  lemma HearNext(ms: seq<Message>, m: Message)
    ensures TalkOf(ms + [m]) == Hear(TalkOf(ms), m)
    ensures ms + [] == ms
  {
    assert (ms + [m])[..|ms|] == ms;
  }

  /** `kept` is what `formed` had, and then what `whole` has beyond `early`. */
  ghost predicate Continues(kept: Talk, whole: Talk, formed: seq<Exchange>, early: seq<Exchange>) {
    && kept.waiting == whole.waiting
    && |early| <= |whole.exchanges| && whole.exchanges[..|early|] == early
    && kept.exchanges == formed + whole.exchanges[|early|..]
  }

  lemma ContinuesFirst(kept: Talk, whole: Talk, m: Message)
    requires IsQuestion(m)
    ensures Continues(Hear(kept, m), Hear(whole, m), kept.exchanges, whole.exchanges)
  {
    assert kept.exchanges + whole.exchanges[|whole.exchanges|..] == kept.exchanges;
  }

  lemma ContinuesNext(kept: Talk, whole: Talk, formed: seq<Exchange>, early: seq<Exchange>, m: Message)
    requires Continues(kept, whole, formed, early)
    ensures Continues(Hear(kept, m), Hear(whole, m), formed, early)
  {
    if IsAnswer(m) && whole.waiting.Some? {
      var pair := (whole.waiting.value, m);
      assert (whole.exchanges + [pair])[|early|..] == whole.exchanges[|early|..] + [pair];
    }
  }

  lemma RestNext(ms: seq<Message>, dropped: set<nat>, j: nat)
    requires j < |ms| && j !in dropped
    ensures TalkOf(Keep(ms[..j + 1], dropped)) == Hear(TalkOf(Keep(ms[..j], dropped)), ms[j])
    ensures TalkOf(ms[..j + 1]) == Hear(TalkOf(ms[..j]), ms[j])
  {
    KeepNext(ms, dropped, j);
    HearNext(Keep(ms[..j], dropped), ms[j]);
    assert ms[..j + 1] == ms[..j] + [ms[j]];
    HearNext(ms[..j], ms[j]);
    hide TalkOf, Keep, Hear;
  }

  /** After the boundary nothing is dropped, so the rest of the talk goes on as before. */
  lemma {:induction false} RestPairs(ms: seq<Message>, dropped: set<nat>, b: nat, i: nat)
    requires b < i <= |ms| && IsQuestion(ms[b]) && forall k :: b <= k < |ms| ==> k !in dropped
    ensures
      Continues(
        TalkOf(Keep(ms[..i], dropped)), TalkOf(ms[..i]), TalkOf(Keep(ms[..b], dropped)).exchanges,
        TalkOf(ms[..b]).exchanges)
  {
    hide *;
    var j := i - 1;
    RestNext(ms, dropped, j);
    if j == b {
      ContinuesFirst(TalkOf(Keep(ms[..b], dropped)), TalkOf(ms[..b]), ms[b]);
    } else {
      RestPairs(ms, dropped, b, j);
      ContinuesNext(
        TalkOf(Keep(ms[..j], dropped)), TalkOf(ms[..j]), TalkOf(Keep(ms[..b], dropped)).exchanges,
        TalkOf(ms[..b]).exchanges, ms[j]);
    }
  }

  predicate Below(k: nat, n: nat) { k < n }

  lemma SameCut(n: nat, a: nat, b: nat)
    requires a <= n && b <= n && forall k: nat :: k < n ==> (Below(k, a) <==> Below(k, b))
    ensures a == b
  {
    if a < b {
      assert Below(a, b);
    } else if b < a {
      assert Below(b, a);
    }
  }

  /** Exactly the dropped pairs close before the first kept one opens. */
  lemma ClosedBefore(ms: seq<Message>, m: nat)
    requires m < |ScanOf(ms).pairs|
    ensures |ScanOf(ms[..Boundary(ms, m)]).pairs| == m
  {
    var pairs, b := ScanOf(ms).pairs, Boundary(ms, m);
    var part := ScanOf(ms[..b]).pairs;
    PrefixPairs(ms, b);
    ScanOrdered(ms[..b]);
    ScanOrdered(ms);
    hide ScanOf;
    forall k: nat | k < |pairs|
      ensures Below(k, |part|) <==> Below(k, m)
    {
      assert Below(k, |part|) <==> pairs[k].1 < b by {
        if k < |part| {
          assert part[k] == pairs[k];
        }
      }
      assert Below(k, m) <==> pairs[k].1 < pairs[m].0;
    }
    SameCut(|pairs|, |part|, m);
  }

  /** What is left pairs up into what strays form, followed by the exchanges that were kept. */
  lemma PruneSplits(ms: seq<Message>, m: nat)
    requires m <= |ScanOf(ms).pairs|
    ensures
      var dropped := Dropped(ScanOf(ms).pairs, m);
      var formed := TalkOf(Keep(ms[..Boundary(ms, m)], dropped)).exchanges;
      && |TalkOf(ms).exchanges| == |ScanOf(ms).pairs|
      && TalkOf(Keep(ms, dropped)).exchanges == formed + TalkOf(ms).exchanges[m..]
      && (formed != [] <==> Meets(ms, dropped, Boundary(ms, m)))
  {
    var pairs := ScanOf(ms).pairs;
    var dropped := Dropped(pairs, m);
    var b := Boundary(ms, m);
    ScansAgree(ms);
    ScanOrdered(ms);
    StraysPair(ms, dropped, b);
    assert ms[..|ms|] == ms;
    if m < |pairs| {
      DroppedAre(pairs, m);
      ScansAgree(ms[..b]);
      ClosedBefore(ms, m);
      RestPairs(ms, dropped, b, |ms|);
    } else {
      assert TalkOf(ms).exchanges[m..] == [];
    }
  }

  lemma MeetsAreStrays(ms: seq<Message>, m: nat)
    requires m <= |ScanOf(ms).pairs|
    ensures Meets(ms, Dropped(ScanOf(ms).pairs, m), Boundary(ms, m)) <==> Stray(ms, m)
  {
    var pairs := ScanOf(ms).pairs;
    var dropped := Dropped(pairs, m);
    DroppedAre(pairs, m);
    ScanOrdered(ms);
    forall i | 0 <= i < Boundary(ms, m)
      ensures i !in dropped <==> Unpaired(ms, i)
    {
      if m < |pairs| {
        assert forall k :: m < k < |pairs| ==> pairs[m].1 < pairs[k].0;
      }
    }
  }

  /**
    Pruning leaves exactly the last exchanges, except when an unpaired question and a later unpaired answer precede
    them.
   */
  lemma PruneExactly(ms: seq<Message>, maxTurns: nat)
    ensures Excess(ms, maxTurns) <= |TalkOf(ms).exchanges|
    ensures TalkOf(Prune(ms, maxTurns)).exchanges == TalkOf(ms).exchanges[Excess(ms, maxTurns)..] <==>
            !Stray(ms, Excess(ms, maxTurns))
  {
    var m := Excess(ms, maxTurns);
    PruneSplits(ms, m);
    MeetsAreStrays(ms, m);
    var formed := TalkOf(Keep(ms[..Boundary(ms, m)], Dropped(ScanOf(ms).pairs, m))).exchanges;
    var kept := TalkOf(ms).exchanges[m..];
    hide *;
    Nothing(formed, kept);
  }

  lemma Nothing(formed: seq<Exchange>, kept: seq<Exchange>)
    ensures formed + kept == kept <==> formed == []
  {
    if formed == [] {
      assert formed + kept == kept;
    } else {
      assert |formed + kept| != |kept|;
    }
  }

  // ----- when every answer has its question -----

  /** Every completed assistant message arrives while a completed user message is waiting. */
  ghost predicate Paired(ms: seq<Message>) {
    forall i :: 0 <= i < |ms| && IsAnswer(ms[i]) ==> TalkOf(ms[..i]).waiting.Some?
  }

  lemma AnswersArePaired(ms: seq<Message>, y: nat)
    requires Paired(ms) && y < |ms| && IsAnswer(ms[y])
    ensures exists k :: 0 <= k < |ScanOf(ms).pairs| && ScanOf(ms).pairs[k].1 == y
  {
    ScansAgree(ms[..y]);
    var part, next := ScanOf(ms[..y]), ScanOf(ms[..y + 1]);
    assert ms[..y + 1][..y] == ms[..y];
    assert next.pairs == part.pairs + [(part.pending.value, y)];
    PrefixPairs(ms, y + 1);
    assert ScanOf(ms).pairs[|part.pairs|].1 == y;
  }

  /** With every answer paired there are no strays: pruning leaves exactly the last `maxTurns` exchanges. */
  lemma PairedPrune(ms: seq<Message>, maxTurns: nat)
    requires Paired(ms)
    ensures
      var all, n := TalkOf(ms).exchanges, |TalkOf(ms).exchanges|;
      TalkOf(Prune(ms, maxTurns)).exchanges == if n > maxTurns then all[n - maxTurns..] else all
  {
    var m := Excess(ms, maxTurns);
    PruneExactly(ms, maxTurns);
    ScansAgree(ms);
    hide ScanOf, TalkOf, Paired;
    forall y | 0 <= y < |ms| && IsAnswer(ms[y])
      ensures !Unpaired(ms, y)
    {
      AnswersArePaired(ms, y);
    }
    assert !Stray(ms, m);
  }

  /** Pruning keeps every answer paired, so it can be repeated after every answer. */
  lemma PrunePaired(ms: seq<Message>, maxTurns: nat)
    requires Paired(ms)
    ensures Paired(Prune(ms, maxTurns))
  {
    var pairs, m := ScanOf(ms).pairs, Excess(ms, maxTurns);
    var dropped, b := Dropped(pairs, m), Boundary(ms, m);
    DroppedAnswers(ms, m);
    ScanOrdered(ms);
    DroppedAre(pairs, m);
    assert m < |pairs| ==> forall k :: b <= k < |ms| ==> k !in dropped;
    hide ScanOf, TalkOf, Paired, Dropped;
    assert ms[..|ms|] == ms;
    if m < |pairs| {
      KeptPaired(ms, dropped, b, |ms|);
    } else {
      NoneKept(ms, dropped, |ms|);
    }
  }

  /** Before the first kept exchange every answer is dropped. */
  lemma DroppedAnswers(ms: seq<Message>, m: nat)
    requires Paired(ms) && m <= |ScanOf(ms).pairs|
    ensures forall y :: 0 <= y < Boundary(ms, m) && IsAnswer(ms[y]) ==> y in Dropped(ScanOf(ms).pairs, m)
  {
    var pairs := ScanOf(ms).pairs;
    DroppedAre(pairs, m);
    hide ScanOf, TalkOf, Paired, Dropped, Boundary;
    forall y | 0 <= y < Boundary(ms, m) && IsAnswer(ms[y])
      ensures y in Dropped(pairs, m)
    {
      AnswersArePaired(ms, y);
      var k :| 0 <= k < |pairs| && pairs[k].1 == y;
      EarlyPair(ms, m, k);
    }
  }

  /** A pair that closes before the boundary is one of the first. */
  lemma EarlyPair(ms: seq<Message>, m: nat, k: nat)
    requires m <= |ScanOf(ms).pairs| && k < |ScanOf(ms).pairs| && ScanOf(ms).pairs[k].1 < Boundary(ms, m)
    ensures k < m
  {
    ScanOrdered(ms);
    hide ScanOf;
  }

  lemma PairedNext(ms: seq<Message>, m: Message)
    ensures Paired(ms + [m]) <==> Paired(ms) && (IsAnswer(m) ==> TalkOf(ms).waiting.Some?)
  {
    hide TalkOf;
    var all := ms + [m];
    assert all[..|ms|] == ms;
    assert forall i :: 0 <= i <= |ms| ==> all[..i] == ms[..i];
    assert all[|ms|] == m;
    assert forall i :: 0 <= i < |ms| ==> all[i] == ms[i];
  }

  /** Where every answer is dropped, what is kept has no answer. */
  lemma {:induction false} NoneKept(ms: seq<Message>, dropped: set<nat>, i: nat)
    requires i <= |ms| && forall y :: 0 <= y < i && IsAnswer(ms[y]) ==> y in dropped
    ensures Paired(Keep(ms[..i], dropped))
  {
    hide Paired, TalkOf;
    if i == 0 {
      NothingPaired();
      assert ms[..0] == [];
    } else {
      NoneKept(ms, dropped, i - 1);
      KeepNext(ms, dropped, i - 1);
      PairedNext(Keep(ms[..i - 1], dropped), ms[i - 1]);
      assert Keep(ms[..i - 1], dropped) + [] == Keep(ms[..i - 1], dropped);
    }
  }

  lemma NothingPaired()
    ensures Paired([])
  {
  }

  lemma {:induction false} KeptPaired(ms: seq<Message>, dropped: set<nat>, b: nat, i: nat)
    requires b < i <= |ms| && IsQuestion(ms[b]) && (forall k :: b <= k < |ms| ==> k !in dropped) && Paired(ms)
    requires forall y :: 0 <= y < b && IsAnswer(ms[y]) ==> y in dropped
    ensures Paired(Keep(ms[..i], dropped))
  {
    var j := i - 1;
    KeepNext(ms, dropped, j);
    PairedNext(Keep(ms[..j], dropped), ms[j]);
    if j == b {
      hide Paired, TalkOf;
      NoneKept(ms, dropped, b);
    } else {
      KeptPaired(ms, dropped, b, j);
      RestPairs(ms, dropped, b, j);
    }
  }

  /** Questions and answers appended in turn keep every answer paired. */
  lemma TurnTaking(ms: seq<Message>, question: Message, answer: Message)
    requires Paired(ms) && IsQuestion(question) && answer.role == Assistant
    ensures Paired(ms + [question]) && Paired((ms + [question]) + [answer])
  {
    PairedNext(ms, question);
    PairedNext(ms + [question], answer);
    HearNext(ms, question);
  }

  // ----- when it goes wrong -----

  function Said(id: string, role: Role): Message { Message(id, role, "text", "completed", 0) }

  /** Two requests that overlap after a lease ran out: question, question, answer, answer, and then one more turn. */
  function Overlapping(): seq<Message> {
    [Said("u1", User), Said("u2", User), Said("a2", Assistant), Said("a1", Assistant), Said("u3", User),
     Said("a3", Assistant)]
  }

  lemma OverlapScanned()
    ensures ScanOf(Overlapping()) == Scan([(1, 2), (4, 5)], None)
  {
    var ms := Overlapping();
    assert forall n :: 0 < n <= 6 ==> ms[..n][..n - 1] == ms[..n - 1];
    assert ms[..6] == ms;
    assert ScanOf(ms[..1]) == Scan([], Some(0));
    assert ScanOf(ms[..2]) == Scan([], Some(1));
    assert ScanOf(ms[..3]) == Scan([(1, 2)], None);
    assert ScanOf(ms[..4]) == Scan([(1, 2)], None);
    assert ScanOf(ms[..5]) == Scan([(1, 2)], Some(4));
  }

  lemma OverlapPruned()
    ensures Prune(Overlapping(), 1) ==
            [Said("u1", User), Said("a1", Assistant), Said("u3", User), Said("a3", Assistant)]
  {
    OverlapScanned();
    hide ScanOf;
    var ms := Overlapping();
    assert forall n :: 0 < n <= 6 ==> ms[..n][..n - 1] == ms[..n - 1];
    assert ms[..6] == ms;
    var dropped := Dropped([(1, 2), (4, 5)], 1);
    assert dropped == {1, 2};
    assert Keep(ms[..1], dropped) == [ms[0]];
    assert Keep(ms[..2], dropped) == [ms[0]];
    assert Keep(ms[..3], dropped) == [ms[0]];
    assert Keep(ms[..4], dropped) == [ms[0], ms[3]];
    assert Keep(ms[..5], dropped) == [ms[0], ms[3], ms[4]];
  }

  /** Pruned to one turn, the first question and the stray answer become an exchange that never took place. */
  lemma OverlapFormsAnExchange()
    ensures TalkOf(Overlapping()).exchanges ==
            [(Said("u2", User), Said("a2", Assistant)), (Said("u3", User), Said("a3", Assistant))]
    ensures TalkOf(Prune(Overlapping(), 1)).exchanges ==
            [(Said("u1", User), Said("a1", Assistant)), (Said("u3", User), Said("a3", Assistant))]
    ensures Excess(Overlapping(), 1) == 1 && Stray(Overlapping(), 1)
  {
    OverlapScanned();
    OverlapPruned();
    hide ScanOf, TalkOf, Prune;
    var ms := Overlapping();
    ScansAgree(ms);
    TalkOfFour(ms[0], ms[3], ms[4], ms[5]);
    assert IsQuestion(ms[0]) && Unpaired(ms, 0) && IsAnswer(ms[3]) && Unpaired(ms, 3);
  }

  lemma NoTalk()
    ensures TalkOf([]) == Talk([], None)
  {
  }

  lemma TalkOfFour(q: Message, a: Message, q': Message, a': Message)
    requires IsQuestion(q) && IsAnswer(a) && IsQuestion(q') && IsAnswer(a')
    ensures TalkOf([q, a, q', a']).exchanges == [(q, a), (q', a')]
  {
    NoTalk();
    hide TalkOf;
    HearNext([], q);
    HearNext([q], a);
    HearNext([q, a], q');
    HearNext([q, a, q'], a');
    assert [] + [q] == [q] && [q] + [a] == [q, a] && [q, a] + [q'] == [q, a, q'] && [q, a, q'] + [a'] == [q, a, q', a'];
  }

  // ----- pruning by message id -----

  ghost predicate DistinctIds(ms: seq<Message>) { forall i, j :: 0 <= i < j < |ms| ==> ms[i].id != ms[j].id }

  /** The keys to remove are those at the dropped indices. */
  ghost predicate Marks<K(!new)>(keys: seq<K>, dropped: set<nat>, remove: set<K>) {
    && (forall i :: i in dropped ==> i < |keys|)
    && (forall k :: k in remove <==> exists i :: i in dropped && i < |keys| && keys[i] == k)
  }

  lemma MarksNext<K(!new)>(keys: seq<K>, pairs: seq<(nat, nat)>, m: nat, remove: set<K>)
    requires m < |pairs| && pairs[m].0 < |keys| && pairs[m].1 < |keys| && Marks(keys, Dropped(pairs, m), remove)
    ensures Marks(keys, Dropped(pairs, m + 1), remove + {keys[pairs[m].0], keys[pairs[m].1]})
  {
    var before, after := Dropped(pairs, m), Dropped(pairs, m + 1);
    var more := remove + {keys[pairs[m].0], keys[pairs[m].1]};
    assert after == before + {pairs[m].0, pairs[m].1};
    hide Dropped;
    forall k
      ensures k in more <==> exists i :: i in after && i < |keys| && keys[i] == k
    {
      if k in remove {
        var i :| i in before && i < |keys| && keys[i] == k;
        assert i in after;
      } else if k in more {
        assert pairs[m].0 in after && pairs[m].1 in after;
      }
    }
  }

  lemma Marked<K(!new)>(keys: seq<K>, dropped: set<nat>, remove: set<K>, i: nat)
    requires Marks(keys, dropped, remove) && i < |keys| && forall j, k :: 0 <= j < k < |keys| ==> keys[j] != keys[k]
    ensures keys[i] in remove <==> i in dropped
  {
  }

  function IdsOf(ms: seq<Message>): (ids: seq<string>)
    ensures |ids| == |ms| && forall i :: 0 <= i < |ms| ==> ids[i] == ms[i].id
  {
    seq(|ms|, i requires 0 <= i < |ms| => ms[i].id)
  }

  method IdsToRemove(ms: seq<Message>, exchanges: seq<Exchange>, excess: nat) returns (remove: set<string>)
    requires exchanges == TalkOf(ms).exchanges && excess <= |exchanges|
    ensures excess <= |ScanOf(ms).pairs| && Marks(IdsOf(ms), Dropped(ScanOf(ms).pairs, excess), remove)
  {
    ScansAgree(ms);
    ghost var pairs := ScanOf(ms).pairs;
    remove := {};
    hide ScanOf, TalkOf, Marks, Dropped;
    NothingMarked(IdsOf(ms), pairs);
    for i := 0 to excess
      invariant Marks(IdsOf(ms), Dropped(pairs, i), remove)
    {
      MarksNext(IdsOf(ms), pairs, i, remove);
      remove := remove + {exchanges[i].0.id, exchanges[i].1.id};
    }
  }

  method WithoutIds(ms: seq<Message>, remove: set<string>, ghost dropped: set<nat>) returns (kept: seq<Message>)
    requires DistinctIds(ms) && Marks(IdsOf(ms), dropped, remove)
    ensures kept == Keep(ms, dropped)
  {
    hide Marks, Keep;
    kept := [];
    NothingKept<Message>(dropped);
    for i := 0 to |ms|
      invariant kept == Keep(ms[..i], dropped)
    {
      KeepNext(ms, dropped, i);
      Marked(IdsOf(ms), dropped, remove, i);
      if ms[i].id !in remove {
        kept := kept + [ms[i]];
      }
    }
    assert ms[..|ms|] == ms;
  }

  /** Pruning as the in-memory store does it, by message id, drops the same messages. */
  method PruneById(ms: seq<Message>, maxTurns: nat) returns (kept: seq<Message>)
    requires DistinctIds(ms)
    ensures kept == Prune(ms, maxTurns)
  {
    var exchanges := CompleteExchanges(ms);
    ScansAgree(ms);
    var excess := |exchanges| - maxTurns;
    if excess <= 0 {
      NothingDropped(ms);
      return ms;
    }
    hide ScanOf, TalkOf, Marks, Dropped, Keep;
    var remove := IdsToRemove(ms, exchanges, excess);
    kept := WithoutIds(ms, remove, Dropped(ScanOf(ms).pairs, excess));
  }

  lemma NothingMarked<K(!new)>(keys: seq<K>, pairs: seq<(nat, nat)>)
    ensures Marks(keys, Dropped(pairs, 0), {})
  {
  }

  lemma NothingKept<T>(dropped: set<nat>)
    ensures Keep<T>([], dropped) == []
  {
  }

  lemma {:induction false} NothingDropped<T>(ms: seq<T>)
    ensures Keep(ms, {}) == ms
    ensures forall pairs: seq<(nat, nat)> :: Dropped(pairs, 0) == {}
  {
    if ms != [] {
      NothingDropped(ms[..|ms| - 1]);
    }
  }

  predicate HasId(ms: seq<Message>, id: string) { exists i :: 0 <= i < |ms| && ms[i].id == id }

  lemma DistinctNext(ms: seq<Message>, m: Message)
    ensures DistinctIds(ms + [m]) <==> DistinctIds(ms) && !HasId(ms, m.id)
    ensures forall id :: HasId(ms + [m], id) <==> HasId(ms, id) || id == m.id
  {
    var all := ms + [m];
    assert forall i :: 0 <= i < |ms| ==> all[i] == ms[i];
    assert all[|ms|] == m;
  }

  /** Pruning keeps ids distinct. */
  lemma {:induction false} KeepDistinct(ms: seq<Message>, dropped: set<nat>)
    requires DistinctIds(ms)
    ensures DistinctIds(Keep(ms, dropped))
    ensures forall id :: HasId(Keep(ms, dropped), id) ==> HasId(ms, id)
  {
    if ms != [] {
      hide Keep, DistinctIds, HasId;
      var init, m := ms[..|ms| - 1], ms[|ms| - 1];
      assert ms == init + [m];
      DistinctNext(init, m);
      KeepDistinct(init, dropped);
      KeepLast(ms, dropped);
      DistinctNext(Keep(init, dropped), m);
      assert Keep(init, dropped) + [] == Keep(init, dropped);
    } else {
      NothingKept<Message>(dropped);
    }
  }

  lemma PruneDistinct(ms: seq<Message>, maxTurns: nat)
    requires DistinctIds(ms)
    ensures DistinctIds(Prune(ms, maxTurns))
  {
    KeepDistinct(ms, Dropped(ScanOf(ms).pairs, Excess(ms, maxTurns)));
  }

  lemma KeepLast<T>(ms: seq<T>, dropped: set<nat>)
    requires ms != []
    ensures Keep(ms, dropped) == Keep(ms[..|ms| - 1], dropped) + (if |ms| - 1 in dropped then [] else [ms[|ms| - 1]])
  {
  }

  // ----- history -----

  /** The last exchanges, as a slice from a negative index takes them: all for 0, and for -k all but the first k. */
  function LastTurns(xs: seq<Exchange>, turns: int): seq<Exchange> {
    if turns > 0 then (if turns <= |xs| then xs[|xs| - turns..] else xs)
    else if -turns <= |xs| then xs[-turns..] else []
  }

  function Chars(x: Exchange): nat { |x.0.content| + |x.1.content| }

  function TotalChars(xs: seq<Exchange>): nat {
    if xs == [] then 0 else Chars(xs[0]) + TotalChars(xs[1..])
  }

  function Flat(xs: seq<Exchange>): seq<Message> {
    if xs == [] then [] else [xs[0].0, xs[0].1] + Flat(xs[1..])
  }

  /**
    Exchanges `lo` up to `hi` are chosen: newer ones are too long on their own, and one more older one would not fit.
   */
  ghost predicate Chosen(xs: seq<Exchange>, maxChars: int, lo: nat, hi: nat) {
    && lo <= hi <= |xs|
    && (forall k :: hi <= k < |xs| ==> Chars(xs[k]) > maxChars)
    && (lo < hi ==> TotalChars(xs[lo..hi]) <= maxChars)
    && (lo == hi ==> lo == 0)
    && (lo < hi && lo > 0 ==> TotalChars(xs[lo - 1..hi]) > maxChars)
  }

  ghost predicate IsHistory(xs: seq<Exchange>, maxChars: int, history: seq<Message>) {
    exists lo: nat, hi: nat :: Chosen(xs, maxChars, lo, hi) && history == Flat(xs[lo..hi])
  }

  /** There is only one such choice. */
  lemma ChosenUnique(xs: seq<Exchange>, maxChars: int, lo: nat, hi: nat, lo2: nat, hi2: nat)
    requires Chosen(xs, maxChars, lo, hi) && Chosen(xs, maxChars, lo2, hi2)
    ensures xs[lo..hi] == xs[lo2..hi2]
  {
    if lo == hi && lo2 < hi2 {
      TotalOne(xs, lo2, hi2);
    } else if lo2 == hi2 && lo < hi {
      TotalOne(xs, lo, hi);
    } else if lo < hi {
      TotalOne(xs, lo, hi);
      TotalOne(xs, lo2, hi2);
      assert hi == hi2;
      if lo < lo2 {
        TotalGrows(xs, lo, lo2 - 1, hi);
      } else if lo2 < lo {
        TotalGrows(xs, lo2, lo - 1, hi);
      }
    }
  }

  lemma {:induction false} TotalOne(xs: seq<Exchange>, lo: nat, hi: nat)
    requires lo < hi <= |xs|
    ensures TotalChars(xs[lo..hi]) >= Chars(xs[hi - 1])
    decreases hi - lo
  {
    assert xs[lo..hi][1..] == xs[lo + 1..hi];
    if lo + 1 < hi {
      TotalOne(xs, lo + 1, hi);
    }
  }

  lemma {:induction false} TotalGrows(xs: seq<Exchange>, lo: nat, mid: nat, hi: nat)
    requires lo <= mid <= hi <= |xs|
    ensures TotalChars(xs[lo..hi]) >= TotalChars(xs[mid..hi])
    decreases mid - lo
  {
    if lo < mid {
      assert xs[lo..hi][1..] == xs[lo + 1..hi];
      TotalGrows(xs, lo + 1, mid, hi);
    }
  }

  lemma Prepended(xs: seq<Exchange>, i: nat, hi: nat)
    requires i < hi <= |xs|
    ensures TotalChars(xs[i..hi]) == Chars(xs[i]) + TotalChars(xs[i + 1..hi])
    ensures Flat(xs[i..hi]) == [xs[i].0, xs[i].1] + Flat(xs[i + 1..hi])
    ensures i + 1 == hi ==> xs[i + 1..hi] == []
  {
    assert xs[i..hi][1..] == xs[i + 1..hi];
  }

  /** The history a request is given: newest first, skipping what is too long, stopping at what no longer fits. */
  method GetHistory(ms: seq<Message>, maxTurns: int, maxChars: int) returns (history: seq<Message>)
    ensures IsHistory(LastTurns(TalkOf(ms).exchanges, maxTurns), maxChars, history)
  {
    var exchanges := CompleteExchanges(ms);
    var xs := LastTurns(exchanges, maxTurns);
    history := [];
    ghost var lo: nat, hi: nat := |xs|, |xs|;
    var i, used, selected := |xs|, 0, false;
    assert xs[lo..hi] == [];
    assert TotalChars([]) == 0 && Flat([]) == [];
    hide TalkOf, TotalChars, Flat, Chars;
    while i > 0
      invariant 0 <= i <= |xs| && lo == (if selected then i else hi) && lo <= hi <= |xs|
      invariant selected <==> lo < hi
      invariant !selected ==> hi == i && used == 0
      invariant forall k :: hi <= k < |xs| ==> Chars(xs[k]) > maxChars
      invariant used == TotalChars(xs[lo..hi]) && (selected ==> used <= maxChars)
      invariant history == Flat(xs[lo..hi])
      decreases i
    {
      var chars := Chars(xs[i - 1]);
      Prepended(xs, i - 1, if selected then hi else i);
      if selected && used + chars > maxChars {
        assert Chosen(xs, maxChars, lo, hi);
        return;
      }
      i := i - 1;
      if chars > maxChars {
        hi := i;
        lo := i;
      } else {
        selected := true;
        used := used + chars;
        history := [xs[i].0, xs[i].1] + history;
        lo := i;
      }
    }
    assert Chosen(xs, maxChars, lo, hi);
  }
}
