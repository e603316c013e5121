/** Requests that ask and answer on one lease: why every completed answer has its question, over whole runs. */
module LeaseTurns {
  import opened Wrappers
  import opened Exchanges
  import opened Conversations

  /** Something a request does to the store at a time. */
  datatype Act = Act(request: string, op: Op, at: int)

  function ClockAt(acts: seq<Act>, clock: int, k: nat): int
    requires k <= |acts|
  {
    if k == 0 then clock else acts[k - 1].at
  }

  ghost predicate Possible(s: Store, act: Act, clock: int) {
    clock <= act.at && (act.op.OpCreate? ==> act.op.c !in s)
  }

  /** `trace[k]` is the store before act `k`; time does not run backwards and a new conversation has a new id. */
  ghost predicate Happens(acts: seq<Act>, trace: seq<Store>, clock: int, cfg: Config) {
    && |trace| == |acts| + 1 && Settled(trace[0], clock, cfg)
    && forall k :: 0 <= k < |acts| ==>
                     Possible(trace[k], acts[k], ClockAt(acts, clock, k))
                     && trace[k + 1] == Apply(trace[k], acts[k].op, acts[k].at, cfg)
  }

  predicate Asks(act: Act, c: Id) { act.op.OpAppend? && act.op.c == c && IsQuestion(act.op.m) }

  predicate Answers(act: Act, c: Id) { act.op.OpAppend? && act.op.c == c && IsAnswer(act.op.m) }

  /** The request that acts holds the conversation at that time. */
  predicate OnLease(s: Store, act: Act, c: Id) {
    c in s && Leased(s[c], act.at) && s[c].lease.value.request == act.request
  }

  /**
    Act `j` answers the question that the same request asked in act `i`. The lease it had then reaches beyond its
    answer, and in between it neither releases the lease nor answers, and nobody deletes the project.
   */
  ghost predicate InTime(acts: seq<Act>, trace: seq<Store>, c: Id, i: nat, j: nat)
    requires |trace| == |acts| + 1
  {
    && i < j < |acts| && acts[i].request == acts[j].request
    && Asks(acts[i], c) && OnLease(trace[i], acts[i], c) && trace[i][c].owner == acts[i].op.owner
    && trace[i][c].lease.value.until > acts[j].at
    && forall k :: i < k < j ==>
                     Spares(acts[k].op, c, trace[i][c].project, acts[j].request)
                     && !(Answers(acts[k], c) && acts[k].request == acts[j].request)
  }

  /** Every completed answer is given by the holder of the conversation, in time after a question of its own. */
  ghost predicate Disciplined(acts: seq<Act>, trace: seq<Store>, c: Id)
    requires |trace| == |acts| + 1
  {
    forall j :: 0 <= j < |acts| && Answers(acts[j], c) ==>
                  OnLease(trace[j], acts[j], c) && exists i :: InTime(acts, trace, c, i, j)
  }

  ghost predicate PairedIn(s: Store, c: Id) { c in s ==> Paired(s[c].messages) }

  /** A question of the conversation waits for its answer. */
  ghost predicate Waiting(s: Store, c: Id) { c in s && TalkOf(s[c].messages).waiting.Some? }

  // ----- one step -----

  lemma HappensAt(acts: seq<Act>, trace: seq<Store>, clock: int, cfg: Config, k: nat)
    requires Happens(acts, trace, clock, cfg) && k < |acts|
    ensures Settled(trace[0], clock, cfg)
    ensures Possible(trace[k], acts[k], ClockAt(acts, clock, k))
    ensures trace[k + 1] == Apply(trace[k], acts[k].op, acts[k].at, cfg)
  {
    hide Apply, Settled, Possible;
  }

  lemma {:induction false} HappensSettled(acts: seq<Act>, trace: seq<Store>, clock: int, cfg: Config, k: nat)
    requires Happens(acts, trace, clock, cfg) && k < |acts|
    ensures Settled(trace[k], ClockAt(acts, clock, k), cfg)
  {
    assert |trace| == |acts| + 1;
    hide Settled, Apply, Happens;
    HappensAt(acts, trace, clock, cfg, k);
    if k > 0 {
      HappensSettled(acts, trace, clock, cfg, k - 1);
      HappensAt(acts, trace, clock, cfg, k - 1);
      StepSettled(trace[k - 1], acts[k - 1].op, acts[k - 1].at, ClockAt(acts, clock, k - 1), cfg);
    }
  }

  /** A question that waits still waits after pruning, when every answer is paired. */
  lemma PruneKeepsWaiting(ms: seq<Message>, maxTurns: nat)
    requires Paired(ms) && TalkOf(ms).waiting.Some?
    ensures TalkOf(Prune(ms, maxTurns)).waiting.Some?
  {
    var pairs, m := ScanOf(ms).pairs, Excess(ms, maxTurns);
    var dropped, b := Dropped(pairs, m), Boundary(ms, m);
    ScanOrdered(ms);
    ScansAgree(ms);
    DroppedAre(pairs, m);
    assert ms[..|ms|] == ms;
    if m < |pairs| {
      RestPairs(ms, dropped, b, |ms|);
    } else {
      var x := ScanOf(ms).pending.value;
      assert x !in dropped;
      assert AsksBefore(ms, dropped, |ms|);
      hide TalkOf, ScanOf, Paired;
      forall y | 0 <= y < |ms| && IsAnswer(ms[y])
        ensures y in dropped
      {
        AnswersArePaired(ms, y);
      }
      StraysPair(ms, dropped, |ms|);
    }
  }

  /** Only an answer ends the wait of a question on a conversation that stays. */
  lemma StepWaiting(s: Store, act: Act, cfg: Config, c: Id)
    requires Waiting(s, c) && PairedIn(s, c) && !Answers(act, c) && c in Apply(s, act.op, act.at, cfg)
    requires act.op.OpCreate? ==> act.op.c !in s
    ensures Waiting(Apply(s, act.op, act.at, cfg), c)
  {
    hide TalkOf, Paired, Prune;
    if act.op.OpPrune? && act.op.c == c {
      PruneKeepsWaiting(s[c].messages, cfg.maxTurns);
    } else if act.op.OpAppend? && act.op.c == c {
      HearNext(s[c].messages, act.op.m);
    }
  }

  /** No step unpairs an answer, except an answer that no question waits for. */
  lemma StepPaired(s: Store, act: Act, cfg: Config, c: Id)
    requires PairedIn(s, c) && (Answers(act, c) ==> Waiting(s, c))
    ensures PairedIn(Apply(s, act.op, act.at, cfg), c)
  {
    hide TalkOf, Paired, Prune;
    NothingPaired();
    if act.op.OpPrune? && act.op.c == c && c in s {
      PrunePaired(s[c].messages, cfg.maxTurns);
    } else if act.op.OpAppend? && act.op.c == c && c in s {
      PairedNext(s[c].messages, act.op.m);
    }
  }

  lemma AskWaits(s: Store, act: Act, clock: int, cfg: Config, c: Id, until: int)
    requires Settled(s, clock, cfg) && clock <= act.at < until && Asks(act, c)
    requires OnLease(s, act, c) && s[c].owner == act.op.owner && s[c].lease.value.until >= until
    ensures HeldBy(s, c, s[c].project, act.request, until)
    ensures HeldBy(Apply(s, act.op, act.at, cfg), c, s[c].project, act.request, until)
    ensures Waiting(Apply(s, act.op, act.at, cfg), c)
  {
    hide TalkOf;
    HearNext(s[c].messages, act.op.m);
  }

  // ----- whole runs -----

  lemma {:induction false} TimeOrdered(acts: seq<Act>, trace: seq<Store>, clock: int, cfg: Config, k: nat, j: nat)
    requires Happens(acts, trace, clock, cfg) && k <= j < |acts|
    ensures acts[k].at <= acts[j].at
  {
    hide Apply, Settled, Happens;
    if k < j {
      TimeOrdered(acts, trace, clock, cfg, k, j - 1);
      HappensAt(acts, trace, clock, cfg, j);
    }
  }

  /** One step between the question and the answer. */
  lemma WaitStep(s: Store, act: Act, clock: int, cfg: Config, c: Id, project: string, request: string, until: int)
    requires Settled(s, clock, cfg) && Possible(s, act, clock) && act.at < until && PairedIn(s, c)
    requires HeldBy(s, c, project, request, until) && Waiting(s, c)
    requires Spares(act.op, c, project, request) && (Answers(act, c) ==> OnLease(s, act, c) && act.request != request)
    ensures HeldBy(Apply(s, act.op, act.at, cfg), c, project, request, until)
    ensures Waiting(Apply(s, act.op, act.at, cfg), c)
  {
    hide Waiting, PairedIn, Settled, Apply;
    StepHeld(s, act.op, act.at, clock, cfg, c, project, request, until);
    StepWaiting(s, act, cfg, c);
  }

  lemma InTimeStart(acts: seq<Act>, trace: seq<Store>, c: Id, i: nat, j: nat)
    requires |trace| == |acts| + 1 && InTime(acts, trace, c, i, j)
    ensures i < j < |acts| && acts[i].request == acts[j].request && Asks(acts[i], c) && OnLease(trace[i], acts[i], c)
    ensures c in trace[i] && trace[i][c].lease.Some?
    ensures trace[i][c].owner == acts[i].op.owner && trace[i][c].lease.value.until > acts[j].at
  {
  }

  lemma InTimeBetween(acts: seq<Act>, trace: seq<Store>, c: Id, i: nat, j: nat, k: nat)
    requires |trace| == |acts| + 1 && InTime(acts, trace, c, i, j) && i < k < j
    ensures c in trace[i] && Spares(acts[k].op, c, trace[i][c].project, acts[j].request)
    ensures !(Answers(acts[k], c) && acts[k].request == acts[j].request)
  {
    hide Spares, Answers;
  }

  lemma AnsweredOnLease(acts: seq<Act>, trace: seq<Store>, c: Id, j: nat)
    requires |trace| == |acts| + 1 && Disciplined(acts, trace, c) && j < |acts|
    ensures Answers(acts[j], c) ==> OnLease(trace[j], acts[j], c) && exists i :: InTime(acts, trace, c, i, j)
  {
    hide Answers, OnLease, InTime;
  }

  lemma HappensLength(acts: seq<Act>, trace: seq<Store>, clock: int, cfg: Config)
    requires Happens(acts, trace, clock, cfg)
    ensures |trace| == |acts| + 1
  {
  }

  /** From its question to its answer a request holds the conversation, and the question waits. */
  lemma {:induction false} QuestionWaits(
    acts: seq<Act>, trace: seq<Store>, clock: int, cfg: Config, c: Id, i: nat, j: nat, k: nat)
    requires Happens(acts, trace, clock, cfg) && Disciplined(acts, trace, c) && PairedIn(trace[0], c)
    requires InTime(acts, trace, c, i, j) && i < k <= j
    ensures c in trace[i] && trace[i][c].lease.Some?
    ensures HeldBy(trace[k], c, trace[i][c].project, acts[j].request, trace[i][c].lease.value.until)
    ensures Waiting(trace[k], c)
    decreases k, 0
  {
    hide *;
    HappensLength(acts, trace, clock, cfg);
    InTimeStart(acts, trace, c, i, j);
    var act, before, now := acts[k - 1], trace[k - 1], ClockAt(acts, clock, k - 1);
    var project, until := trace[i][c].project, trace[i][c].lease.value.until;
    HappensSettled(acts, trace, clock, cfg, k - 1);
    TimeOrdered(acts, trace, clock, cfg, k - 1, j);
    HappensAt(acts, trace, clock, cfg, k - 1);
    if k == i + 1 {
      assert now <= act.at by {
        PossibleTime(before, act, now);
      }
      AskWaits(before, act, now, cfg, c, until);
    } else {
      QuestionWaits(acts, trace, clock, cfg, c, i, j, k - 1);
      RunPaired(acts, trace, clock, cfg, c, k - 1);
      AnsweredOnLease(acts, trace, c, k - 1);
      InTimeBetween(acts, trace, c, i, j, k - 1);
      WaitStep(before, act, now, cfg, c, project, acts[j].request, until);
    }
  }

  lemma PossibleTime(s: Store, act: Act, clock: int)
    requires Possible(s, act, clock)
    ensures clock <= act.at
  {
  }

  /**
    Over any run, of any requests on any conversations, in which the answers to a conversation are given on a lease that
    has not run out since the question, every completed answer of that conversation is paired with a question.
   */
  lemma {:induction false} RunPaired(acts: seq<Act>, trace: seq<Store>, clock: int, cfg: Config, c: Id, n: nat)
    requires Happens(acts, trace, clock, cfg) && Disciplined(acts, trace, c) && n <= |acts| && PairedIn(trace[0], c)
    ensures PairedIn(trace[n], c)
    decreases n, 1
  {
    if n > 0 {
      hide *;
      HappensLength(acts, trace, clock, cfg);
      RunPaired(acts, trace, clock, cfg, c, n - 1);
      AnsweredOnLease(acts, trace, c, n - 1);
      if Answers(acts[n - 1], c) {
        var i: nat :| InTime(acts, trace, c, i, n - 1);
        InTimeStart(acts, trace, c, i, n - 1);
        QuestionWaits(acts, trace, clock, cfg, c, i, n - 1, n - 1);
      }
      HappensAt(acts, trace, clock, cfg, n - 1);
      StepPaired(trace[n - 1], acts[n - 1], cfg, c);
    }
  }

  /** ... so whenever a conversation is pruned exactly its last exchanges are left. */
  lemma RunPruned(acts: seq<Act>, trace: seq<Store>, clock: int, cfg: Config, c: Id, n: nat)
    requires Happens(acts, trace, clock, cfg) && Disciplined(acts, trace, c) && n <= |acts| && PairedIn(trace[0], c)
    requires c in trace[n]
    ensures
      var all, pruned := TalkOf(trace[n][c].messages).exchanges, PruneAt(trace[n], c, cfg.maxTurns);
      && c in pruned
      && TalkOf(pruned[c].messages).exchanges == if |all| > cfg.maxTurns then all[|all| - cfg.maxTurns..] else all
  {
    HappensLength(acts, trace, clock, cfg);
    RunPaired(acts, trace, clock, cfg, c, n);
    hide TalkOf, Paired, Prune, Happens, Disciplined, Apply, Settled;
    PairedPrune(trace[n][c].messages, cfg.maxTurns);
  }
}
