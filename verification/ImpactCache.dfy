/** The impact cache: a small LRU map with expiry, shared in-flight computations, and requests that await them.

  Each method is one stretch of code between two awaits, so any interleaving of requests is a
  sequence of calls. Time is an integer clock; nothing is assumed about its values.
 */
module ImpactCache {
  import opened Wrappers

  datatype Entry<K, V> = Entry(key: K, expires: int, value: V)

  /** A computation; once done, its completion callback has or has not yet run. */
  datatype Task<K, V, E> = Running(key: K) | Done(key: K, result: Result<V, E>, calledBack: bool)

  /** `waiting` says which computation each suspended request awaits. */
  datatype State<K, V, E> =
    State(entries: seq<Entry<K, V>>, inflight: map<K, nat>, tasks: seq<Task<K, V, E>>, waiting: map<nat, nat>)

  datatype Reply<V, E> = Hit(value: V) | Suspended | Answer(result: Result<V, E>) | Cancelled

  datatype Config = Config(ttl: int, maxEntries: nat)

  // ----- the ordered map -----

  function Lookup<K(==), V>(es: seq<Entry<K, V>>, key: K): Option<Entry<K, V>> {
    if es == [] then None else if es[0].key == key then Some(es[0]) else Lookup(es[1..], key)
  }

  function Without<K(==), V>(es: seq<Entry<K, V>>, key: K): seq<Entry<K, V>> {
    if es == [] then [] else (if es[0].key == key then [] else [es[0]]) + Without(es[1..], key)
  }

  /** The newest entries, no more than the maximum. */
  function Trim<K, V>(es: seq<Entry<K, V>>, maxEntries: nat): seq<Entry<K, V>> {
    if |es| <= maxEntries then es else es[|es| - maxEntries..]
  }

  // ----- the five steps -----

  function Ask<K(==), V, E>(c: Config, s: State<K, V, E>, req: nat, key: K, now: int): (State<K, V, E>, Reply<V, E>) {
    if c.ttl <= 0 then
      (s.(tasks := s.tasks + [Running(key)], waiting := s.waiting[req := |s.tasks|]), Suspended)
    else
      var rest := Without(s.entries, key);
      match Lookup(s.entries, key)
      case Some(e) =>
        if e.expires > now then (s.(entries := rest + [e]), Hit(e.value)) else Await(s.(entries := rest), req, key)
      case None => Await(s.(entries := rest), req, key)
  }

  function Await<K(==), V, E>(s: State<K, V, E>, req: nat, key: K): (State<K, V, E>, Reply<V, E>) {
    if key in s.inflight then (s.(waiting := s.waiting[req := s.inflight[key]]), Suspended)
    else
      (State(s.entries, s.inflight[key := |s.tasks|], s.tasks + [Running(key)], s.waiting[req := |s.tasks|]), Suspended)
  }

  function Finish<K(==), V, E>(s: State<K, V, E>, t: nat, result: Result<V, E>): State<K, V, E>
    requires t < |s.tasks|
  {
    s.(tasks := s.tasks[t := Done(s.tasks[t].key, result, false)])
  }

  /** The key is unregistered, whoever is registered under it. */
  function Callback<K(==), V, E>(c: Config, s: State<K, V, E>, t: nat): State<K, V, E>
    requires t < |s.tasks| && s.tasks[t].Done?
  {
    var done := s.(tasks := s.tasks[t := s.tasks[t].(calledBack := true)]);
    if c.ttl <= 0 then done else done.(inflight := s.inflight - {s.tasks[t].key})
  }

  function Wake<K(==), V, E>(c: Config, s: State<K, V, E>, req: nat, now: int): (State<K, V, E>, Reply<V, E>)
    requires req in s.waiting && s.waiting[req] < |s.tasks| && s.tasks[s.waiting[req]].Done?
  {
    var task := s.tasks[s.waiting[req]];
    var rest := s.(waiting := s.waiting - {req});
    if task.result.Err? || c.ttl <= 0 then (rest, Answer(task.result))
    else
      var entry := Entry(task.key, now + c.ttl, task.result.value);
      (rest.(entries := Trim(Without(s.entries, task.key) + [entry], c.maxEntries)),
       Answer(task.result))
  }

  /**
    A suspended request is cancelled. The computation it awaited is shielded, goes on, and stays registered. With
    caching off it is the request's own and nobody looks at it again, so it makes no difference whether it goes on.
   */
  function Cancel<K(==), V, E>(s: State<K, V, E>, req: nat): State<K, V, E>
    requires req in s.waiting
  {
    s.(waiting := s.waiting - {req})
  }

  // ----- runs -----

  datatype Step<K, V, E> =
    | AskStep(req: nat, key: K, now: int)
    | FinishStep(task: nat, result: Result<V, E>)
    | CallbackStep(task: nat)
    | WakeStep(req: nat, now: int)
    | CancelStep(req: nat)

  /** What can happen next. A computation ends with its value over the unchanging graph, or fails (a timeout, say). */
  ghost predicate Enabled<K, V, E>(compute: K -> Result<V, E>, s: State<K, V, E>, step: Step<K, V, E>) {
    match step
    case AskStep(req, _, _) => req !in s.waiting
    case FinishStep(t, result) =>
      t < |s.tasks| && s.tasks[t].Running? && (result.Err? || result == compute(s.tasks[t].key))
    case CallbackStep(t) => t < |s.tasks| && s.tasks[t].Done? && !s.tasks[t].calledBack
    case WakeStep(req, _) => req in s.waiting && s.waiting[req] < |s.tasks| && s.tasks[s.waiting[req]].Done?
    case CancelStep(req) => req in s.waiting
  }

  ghost function After<K, V, E>(
    c: Config, compute: K -> Result<V, E>, s: State<K, V, E>, step: Step<K, V, E>): (State<K, V, E>, Reply<V, E>)
    requires Enabled(compute, s, step)
  {
    match step
    case AskStep(req, key, now) => Ask(c, s, req, key, now)
    case FinishStep(t, result) => (Finish(s, t, result), Suspended)
    case CallbackStep(t) => (Callback(c, s, t), Suspended)
    case WakeStep(req, now) => Wake(c, s, req, now)
    case CancelStep(req) => (Cancel(s, req), Cancelled)
  }

  /** `trace[i]` is the state before step `i`. */
  ghost predicate Run<K, V, E>(
    c: Config, compute: K -> Result<V, E>, steps: seq<Step<K, V, E>>, trace: seq<State<K, V, E>>)
  {
    && |trace| == |steps| + 1
    && trace[0] == State([], map[], [], map[])
    && (forall i :: 0 <= i < |steps| ==>
                      Enabled(compute, trace[i], steps[i]) && trace[i + 1] == After(c, compute, trace[i], steps[i]).0)
  }

  // ----- the invariant -----

  ghost predicate Keyed<K, V>(es: seq<Entry<K, V>>) {
    forall i, j :: 0 <= i < j < |es| ==> es[i].key != es[j].key
  }

  ghost predicate Good<K, V, E>(c: Config, compute: K -> Result<V, E>, s: State<K, V, E>) {
    && Keyed(s.entries) && |s.entries| <= c.maxEntries
    && AllValues(compute, s.entries)
    && (forall t :: 0 <= t < |s.tasks| && s.tasks[t].Done? ==>
                      s.tasks[t].result.Err? || s.tasks[t].result == compute(s.tasks[t].key))
    && (forall req :: req in s.waiting ==> s.waiting[req] < |s.tasks|)
    && Registered(c, s)
  }

  /** While caching is on, the registered task of a key is exactly its one task whose callback has not run. */
  ghost predicate Registered<K, V, E>(c: Config, s: State<K, V, E>) {
    && (c.ttl <= 0 ==> s.inflight == map[])
    && (c.ttl > 0 ==>
          forall k :: k in s.inflight ==>
                        s.inflight[k] < |s.tasks| && s.tasks[s.inflight[k]].key == k && Pending(s.tasks[s.inflight[k]]))
    && (c.ttl > 0 ==>
          forall t :: 0 <= t < |s.tasks| && Pending(s.tasks[t]) ==>
                        s.tasks[t].key in s.inflight && s.inflight[s.tasks[t].key] == t)
  }

  predicate Pending<K, V, E>(t: Task<K, V, E>) { t.Running? || !t.calledBack }

  ghost predicate AllValues<K, V, E>(compute: K -> Result<V, E>, es: seq<Entry<K, V>>) {
    forall i :: 0 <= i < |es| ==> compute(es[i].key) == Ok(es[i].value)
  }

  ghost predicate Absent<K, V>(es: seq<Entry<K, V>>, key: K) {
    forall i :: 0 <= i < |es| ==> es[i].key != key
  }

  lemma {:induction false} WithoutKeyed<K, V>(es: seq<Entry<K, V>>, key: K)
    requires Keyed(es)
    ensures Keyed(Without(es, key)) && Absent(Without(es, key), key)
    ensures forall k :: Absent(es, k) ==> Absent(Without(es, key), k)
    ensures |Without(es, key)| <= |es|
    ensures Lookup(es, key).Some? ==> |Without(es, key)| < |es| && Lookup(es, key).value.key == key
  {
    if es != [] {
      var t := es[1..];
      WithoutKeyed(t, key);
      assert Absent(t, es[0].key);
      forall k | Absent(es, k)
        ensures Absent(Without(es, key), k)
      {
        assert Absent(t, k) by {
          assert forall i :: 0 <= i < |t| ==> t[i] == es[i + 1];
        }
      }
    }
  }

  lemma {:induction false} WithoutValues<K, V, E>(compute: K -> Result<V, E>, es: seq<Entry<K, V>>, key: K)
    requires AllValues(compute, es)
    ensures AllValues(compute, Without(es, key))
    ensures Lookup(es, key).Some? ==> compute(Lookup(es, key).value.key) == Ok(Lookup(es, key).value.value)
  {
    if es != [] {
      assert AllValues(compute, es[1..]) by {
        assert forall i :: 0 <= i < |es[1..]| ==> es[1..][i] == es[i + 1];
      }
      WithoutValues(compute, es[1..], key);
    }
  }

  lemma KeyedAppend<K, V>(es: seq<Entry<K, V>>, e: Entry<K, V>)
    requires Keyed(es) && Absent(es, e.key)
    ensures Keyed(es + [e])
  {
  }

  lemma TrimKeeps<K, V, E>(compute: K -> Result<V, E>, es: seq<Entry<K, V>>, n: nat)
    requires Keyed(es) && AllValues(compute, es)
    ensures AllValues(compute, Trim(es, n))
    ensures Keyed(Trim(es, n)) && |Trim(es, n)| <= n
  {
  }

  lemma AskGood<K, V, E>(c: Config, compute: K -> Result<V, E>, s: State<K, V, E>, req: nat, key: K, now: int)
    requires Good(c, compute, s)
    ensures Good(c, compute, Ask(c, s, req, key, now).0)
    ensures
      var reply := Ask(c, s, req, key, now).1;
      reply == Suspended || (reply.Hit? && compute(key) == Ok(reply.value))
  {
    var rest := Without(s.entries, key);
    WithoutKeyed(s.entries, key);
    WithoutValues(compute, s.entries, key);
    if c.ttl <= 0 {
      RegisteredGrows(c, s, Running(key));
    } else {
      var s1 := s.(entries := rest);
      if Lookup(s.entries, key).Some? && Lookup(s.entries, key).value.expires > now {
        KeyedAppend(rest, Lookup(s.entries, key).value);
      } else {
        AwaitGood(c, compute, s1, req, key);
      }
    }
  }

  lemma RegisteredGrows<K, V, E>(c: Config, s: State<K, V, E>, task: Task<K, V, E>)
    requires Registered(c, s) && c.ttl <= 0
    ensures Registered(c, s.(tasks := s.tasks + [task]))
  {
  }

  lemma AwaitGood<K, V, E>(c: Config, compute: K -> Result<V, E>, s: State<K, V, E>, req: nat, key: K)
    requires Good(c, compute, s) && c.ttl > 0
    ensures Good(c, compute, Await(s, req, key).0)
  {
  }

  lemma FinishGood<K, V, E>(c: Config, compute: K -> Result<V, E>, s: State<K, V, E>, t: nat, result: Result<V, E>)
    requires Good(c, compute, s) && Enabled(compute, s, FinishStep(t, result))
    ensures Good(c, compute, Finish(s, t, result))
  {
    var s' := Finish(s, t, result);
    assert forall i :: 0 <= i < |s.tasks| ==>
                         s'.tasks[i].key == s.tasks[i].key && (Pending(s'.tasks[i]) <==> Pending(s.tasks[i]));
  }

  lemma CallbackGood<K, V, E>(c: Config, compute: K -> Result<V, E>, s: State<K, V, E>, t: nat)
    requires Good(c, compute, s) && Enabled(compute, s, CallbackStep(t))
    ensures Good(c, compute, Callback(c, s, t))
    ensures c.ttl > 0 ==> s.tasks[t].key in s.inflight && s.inflight[s.tasks[t].key] == t
  {
    var s' := Callback(c, s, t);
    assert forall i :: 0 <= i < |s.tasks| && i != t ==> s'.tasks[i] == s.tasks[i];
    assert !Pending(s'.tasks[t]) && s'.tasks[t].key == s.tasks[t].key && s'.tasks[t].result == s.tasks[t].result;
  }

  lemma WakeGood<K, V, E>(c: Config, compute: K -> Result<V, E>, s: State<K, V, E>, req: nat, now: int)
    requires Good(c, compute, s) && Enabled(compute, s, WakeStep(req, now))
    ensures Good(c, compute, Wake(c, s, req, now).0)
    ensures
      var result := Wake(c, s, req, now).1.result;
      result.Err? || result == compute(s.tasks[s.waiting[req]].key)
  {
    hide Keyed, Absent, AllValues, Without, Trim, Registered;
    var task := s.tasks[s.waiting[req]];
    if task.result.Ok? && c.ttl > 0 {
      StoreGood(c, compute, s.entries, Entry(task.key, now + c.ttl, task.result.value));
    }
    RegisteredSame(c, s, Wake(c, s, req, now).0);
  }

  lemma CancelGood<K, V, E>(c: Config, compute: K -> Result<V, E>, s: State<K, V, E>, req: nat)
    requires Good(c, compute, s) && req in s.waiting
    ensures Good(c, compute, Cancel(s, req))
  {
    RegisteredSame(c, s, Cancel(s, req));
    hide Registered, Keyed, AllValues;
  }

  lemma RegisteredSame<K, V, E>(c: Config, s: State<K, V, E>, s': State<K, V, E>)
    requires Registered(c, s) && s'.inflight == s.inflight && s'.tasks == s.tasks
    ensures Registered(c, s')
  {
  }

  /** Storing a computed value keeps one entry a key and no more than the maximum. */
  lemma StoreGood<K, V, E>(c: Config, compute: K -> Result<V, E>, es: seq<Entry<K, V>>, e: Entry<K, V>)
    requires Keyed(es) && AllValues(compute, es) && compute(e.key) == Ok(e.value)
    ensures
      var stored := Trim(Without(es, e.key) + [e], c.maxEntries);
      Keyed(stored) && AllValues(compute, stored) && |stored| <= c.maxEntries
  {
    WithoutKeyed(es, e.key);
    WithoutValues(compute, es, e.key);
    KeyedAppend(Without(es, e.key), e);
    TrimKeeps(compute, Without(es, e.key) + [e], c.maxEntries);
  }

  lemma StepGood<K, V, E>(c: Config, compute: K -> Result<V, E>, s: State<K, V, E>, step: Step<K, V, E>)
    requires Good(c, compute, s) && Enabled(compute, s, step)
    ensures Good(c, compute, After(c, compute, s, step).0)
  {
    hide Good;
    match step
    case AskStep(req, key, now) => AskGood(c, compute, s, req, key, now);
    case FinishStep(t, result) => FinishGood(c, compute, s, t, result);
    case CallbackStep(t) => CallbackGood(c, compute, s, t);
    case WakeStep(req, now) => WakeGood(c, compute, s, req, now);
    case CancelStep(req) => CancelGood(c, compute, s, req);
  }

  lemma {:induction false} RunGood<K, V, E>(
    c: Config, compute: K -> Result<V, E>, steps: seq<Step<K, V, E>>, trace: seq<State<K, V, E>>, n: nat)
    requires Run(c, compute, steps, trace) && n <= |steps|
    ensures Good(c, compute, trace[n])
  {
    if n > 0 {
      RunGood(c, compute, steps, trace, n - 1);
      StepGood(c, compute, trace[n - 1], steps[n - 1]);
    }
  }

  /** The key a reply is about: the one asked for, or the one whose computation the request awaited. */
  ghost function KeyOf<K, V, E>(compute: K -> Result<V, E>, s: State<K, V, E>, step: Step<K, V, E>): K
    requires Enabled(compute, s, step) && (step.AskStep? || step.WakeStep?)
  {
    if step.AskStep? then step.key else s.tasks[s.waiting[step.req]].key
  }

  lemma ReplyCorrect<K, V, E>(c: Config, compute: K -> Result<V, E>, s: State<K, V, E>, step: Step<K, V, E>)
    requires Good(c, compute, s) && Enabled(compute, s, step) && (step.AskStep? || step.WakeStep?)
    ensures
      var reply := After(c, compute, s, step).1;
      var key := KeyOf(compute, s, step);
      && (reply.Hit? ==> compute(key) == Ok(reply.value))
      && (reply.Answer? && reply.result.Ok? ==> compute(key) == reply.result)
  {
    hide Good;
    match step
    case AskStep(req, key, now) => AskGood(c, compute, s, req, key, now);
    case WakeStep(req, now) => WakeGood(c, compute, s, req, now);
  }

  /** Request `req` asks at step `m`, is suspended there, and is neither woken nor cancelled before step `n`. */
  ghost predicate Waits<K, V, E>(
    c: Config, compute: K -> Result<V, E>, steps: seq<Step<K, V, E>>, trace: seq<State<K, V, E>>, m: nat, n: nat,
    req: nat)
    requires Run(c, compute, steps, trace)
  {
    && m < n <= |steps|
    && steps[m].AskStep? && steps[m].req == req && After(c, compute, trace[m], steps[m]).1.Suspended?
    && forall i :: m < i < n ==> !((steps[i].WakeStep? || steps[i].CancelStep?) && steps[i].req == req)
  }

  /**
    Over any interleaving of requests, cancellations, failures, expiries and evictions: a request that is answered with
    a value, at once or after waiting, is answered with what the computation gives for the key it asked for.
   */
  lemma CacheTransparent<K, V, E>(
    c: Config, compute: K -> Result<V, E>, steps: seq<Step<K, V, E>>, trace: seq<State<K, V, E>>, m: nat, n: nat)
    requires Run(c, compute, steps, trace) && m <= n < |steps| && steps[m].AskStep?
    ensures |trace[n + 1].entries| <= c.maxEntries
    ensures
      var reply := After(c, compute, trace[m], steps[m]).1;
      reply.Suspended? || (reply.Hit? && compute(steps[m].key) == Ok(reply.value))
    ensures steps[n].WakeStep? && Waits(c, compute, steps, trace, m, n, steps[n].req) ==>
              var reply := After(c, compute, trace[n], steps[n]).1;
              reply.Answer? && (reply.result.Ok? ==> compute(steps[m].key) == reply.result)
  {
    RunGood(c, compute, steps, trace, m);
    RunGood(c, compute, steps, trace, n);
    RunGood(c, compute, steps, trace, n + 1);
    AskGood(c, compute, trace[m], steps[m].req, steps[m].key, steps[m].now);
    if steps[n].WakeStep? && Waits(c, compute, steps, trace, m, n, steps[n].req) {
      AwaitsOwnKey(c, compute, steps, trace, m, n, steps[n].req);
      ReplyCorrect(c, compute, trace[n], steps[n]);
    }
  }

  /** What a request awaits is a computation for its own key, until it wakes or is cancelled. */
  lemma {:induction false} AwaitsOwnKey<K, V, E>(
    c: Config, compute: K -> Result<V, E>, steps: seq<Step<K, V, E>>, trace: seq<State<K, V, E>>, m: nat, n: nat,
    req: nat)
    requires Run(c, compute, steps, trace) && Waits(c, compute, steps, trace, m, n, req)
    ensures req in trace[n].waiting && trace[n].waiting[req] < |trace[n].tasks|
    ensures trace[n].tasks[trace[n].waiting[req]].key == steps[m].key
  {
    RunGood(c, compute, steps, trace, n - 1);
    if n > m + 1 {
      AwaitsOwnKey(c, compute, steps, trace, m, n - 1, req);
      assert Enabled(compute, trace[n - 1], steps[n - 1]);
      StepKeepsWait(c, compute, trace[n - 1], steps[n - 1], req);
    } else {
      AskWaits(c, compute, trace[m], req, steps[m].key, steps[m].now);
    }
  }

  lemma AskWaits<K, V, E>(c: Config, compute: K -> Result<V, E>, s: State<K, V, E>, req: nat, key: K, now: int)
    requires Good(c, compute, s) && Ask(c, s, req, key, now).1.Suspended?
    ensures
      var s' := Ask(c, s, req, key, now).0;
      req in s'.waiting && s'.waiting[req] < |s'.tasks| && s'.tasks[s'.waiting[req]].key == key
  {
  }

  lemma StepKeepsWait<K, V, E>(c: Config, compute: K -> Result<V, E>, s: State<K, V, E>, step: Step<K, V, E>, req: nat)
    requires Good(c, compute, s) && Enabled(compute, s, step)
    requires req in s.waiting && !((step.WakeStep? || step.CancelStep?) && step.req == req)
    ensures
      var s' := After(c, compute, s, step).0;
      req in s'.waiting && s'.waiting[req] == s.waiting[req] < |s'.tasks|
      && s'.tasks[s.waiting[req]].key == s.tasks[s.waiting[req]].key
  {
  }

  // ----- the object -----

  class ImpactCacheClient<K(==), V, E> {
    const config: Config
    var cache: seq<Entry<K, V>>
    var inflight: map<K, nat>
    var tasks: seq<Task<K, V, E>>
    var waiting: map<nat, nat>

    constructor (ttl: int, maxEntries: int)
      ensures View() == State([], map[], [], map[])
      ensures config == Config(if ttl < 0 then 0 else ttl, if maxEntries < 1 then 1 else maxEntries)
    {
      config := Config(if ttl < 0 then 0 else ttl, if maxEntries < 1 then 1 else maxEntries);
      cache, inflight, tasks, waiting := [], map[], [], map[];
    }

    function View(): State<K, V, E>
      reads this
    {
      State(cache, inflight, tasks, waiting)
    }

    /** A request up to its first suspension. */
    method Request(req: nat, key: K, now: int) returns (reply: Reply<V, E>)
      requires req !in waiting
      modifies this
      ensures (View(), reply) == Ask(config, old(View()), req, key, now)
    {
      if config.ttl <= 0 {
        waiting := waiting[req := |tasks|];
        tasks := tasks + [Running(key)];
        return Suspended;
      }
      var cached := Lookup(cache, key);
      if cached.Some? && cached.value.expires > now {
        cache := Without(cache, key) + [cached.value];
        return Hit(cached.value.value);
      }
      cache := Without(cache, key);
      if key !in inflight {
        inflight := inflight[key := |tasks|];
        tasks := tasks + [Running(key)];
      }
      waiting := waiting[req := inflight[key]];
      reply := Suspended;
    }

    method Complete(t: nat, result: Result<V, E>)
      requires t < |tasks|
      modifies this`tasks
      ensures View() == Finish(old(View()), t, result)
    {
      tasks := tasks[t := Done(tasks[t].key, result, false)];
    }

    method CompletionCallback(t: nat)
      requires t < |tasks| && tasks[t].Done?
      modifies this`tasks, this`inflight
      ensures View() == Callback(config, old(View()), t)
    {
      tasks := tasks[t := tasks[t].(calledBack := true)];
      if config.ttl > 0 {
        inflight := inflight - {tasks[t].key};
      }
    }

    /** A suspended request after its computation is done. */
    method Resume(req: nat, now: int) returns (reply: Reply<V, E>)
      requires req in waiting && waiting[req] < |tasks| && tasks[waiting[req]].Done?
      modifies this`cache, this`waiting
      ensures (View(), reply) == Wake(config, old(View()), req, now)
    {
      var task := tasks[waiting[req]];
      waiting := waiting - {req};
      if task.result.Err? || config.ttl <= 0 {
        return Answer(task.result);
      }
      var stored := Without(cache, task.key) + [Entry(task.key, now + config.ttl, task.result.value)];
      cache := stored;
      while |cache| > config.maxEntries
        invariant waiting == old(waiting) - {req}
        invariant Trim(cache, config.maxEntries) == Trim(stored, config.maxEntries)
        decreases |cache|
      {
        cache := cache[1..];
      }
      reply := Answer(task.result);
    }

    /** A request that is cancelled while it waits takes nothing with it. */
    method Abandon(req: nat)
      requires req in waiting
      modifies this`waiting
      ensures View() == Cancel(old(View()), req)
    {
      waiting := waiting - {req};
    }
  }
}
