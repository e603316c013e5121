/** What each step of the impact cache does to its fields, and where a served value comes from. */
module CacheText {
  import opened Wrappers
  import opened Sublists
  import opened ImpactCache

  // ----- the ordered map -----

  /** The entry found under a key: the first. */
  ghost predicate FoundAt<K, V>(es: seq<Entry<K, V>>, key: K, i: nat) {
    i < |es| && es[i].key == key && forall j :: 0 <= j < i ==> es[j].key != key
  }

  ghost function Other<K, V>(key: K): Entry<K, V> -> bool { (e: Entry<K, V>) => e.key != key }

  /** `rest` are the entries under other keys, in order. */
  ghost predicate Others<K, V>(es: seq<Entry<K, V>>, key: K, rest: seq<Entry<K, V>>) {
    Filtered(es, Other(key), rest)
  }

  /** The last entries, as many as there is room for. */
  ghost predicate Newest<K, V>(all: seq<Entry<K, V>>, room: nat, kept: seq<Entry<K, V>>) {
    && (|all| <= room ==> |kept| == |all|) && (|all| > room ==> |kept| == room)
    && forall k :: 0 <= k < |kept| ==> kept[k] == all[|all| - |kept| + k]
  }

  lemma {:induction false} LookupExactly<K, V>(es: seq<Entry<K, V>>, key: K)
    ensures forall i: nat :: FoundAt(es, key, i) ==> Lookup(es, key) == Some(es[i])
    ensures Lookup(es, key).Some? ==> exists i: nat :: FoundAt(es, key, i)
  {
    if es != [] {
      var rest := es[1..];
      LookupExactly(rest, key);
      assert forall j :: 0 < j < |es| ==> es[j] == rest[j - 1];
      if es[0].key == key {
        assert FoundAt(es, key, 0);
      } else {
        forall i: nat | FoundAt(es, key, i)
          ensures Lookup(es, key) == Some(es[i])
        {
          var j := i - 1;
          assert FoundAt(rest, key, j);
        }
        if Lookup(es, key).Some? {
          var j: nat :| FoundAt(rest, key, j);
          var i := j + 1;
          assert FoundAt(es, key, i);
        }
      }
    }
  }

  lemma {:induction false} WithoutNext<K, V>(es: seq<Entry<K, V>>, e: Entry<K, V>, key: K)
    ensures Without(es + [e], key) == Without(es, key) + (if e.key == key then [] else [e])
  {
    if es == [] {
      assert es + [e] == [e] && [e][1..] == [];
    } else {
      assert (es + [e])[1..] == es[1..] + [e];
      WithoutNext(es[1..], e, key);
    }
  }

  lemma {:induction false} WithoutExactly<K, V>(es: seq<Entry<K, V>>, key: K)
    ensures Others(es, key, Without(es, key))
  {
    if es == [] {
      FilteredNone(Other<K, V>(key));
    } else {
      var init, e := es[..|es| - 1], es[|es| - 1];
      WithoutExactly(init, key);
      WithoutNext(init, e, key);
      FilteredNext(init, Other(key), Without(init, key), e);
      assert es == init + [e];
      hide Without, Filtered;
    }
  }

  lemma TrimExactly<K, V>(es: seq<Entry<K, V>>, room: nat)
    ensures Newest(es, room, Trim(es, room))
  {
  }

  // ----- the steps -----

  /** An entry that expires later than now. */
  ghost predicate Live<K, V>(es: seq<Entry<K, V>>, key: K, now: int, i: nat) {
    FoundAt(es, key, i) && now < es[i].expires
  }

  ghost predicate OnlyAsked<K, V, E>(s: State<K, V, E>, t: State<K, V, E>, req: nat, task: nat) {
    req in t.waiting && t.waiting[req] == task && t.waiting.Keys == s.waiting.Keys + {req}
    && forall r :: r in s.waiting && r != req ==> t.waiting[r] == s.waiting[r]
  }

  /** A new computation for the key is the last task. */
  ghost predicate Starts<K, V, E>(s: State<K, V, E>, t: State<K, V, E>, key: K) {
    |t.tasks| == |s.tasks| + 1 && t.tasks[|s.tasks|] == Running(key)
    && forall i :: 0 <= i < |s.tasks| ==> t.tasks[i] == s.tasks[i]
  }

  /** With caching off every request has a computation of its own. */
  lemma AskUncached<K, V, E>(c: Config, s: State<K, V, E>, req: nat, key: K, now: int)
    requires c.ttl <= 0
    ensures
      var (t, reply) := Ask(c, s, req, key, now);
      && reply == Suspended && t.entries == s.entries && t.inflight == s.inflight
      && Starts(s, t, key) && OnlyAsked(s, t, req, |s.tasks|)
  {
  }

  /** A request is served from the cache exactly when there is a live entry, and makes that entry the newest. */
  lemma AskHits<K, V, E>(c: Config, s: State<K, V, E>, req: nat, key: K, now: int)
    requires c.ttl > 0
    ensures
      var (t, reply) := Ask(c, s, req, key, now);
      && (reply.Hit? <==> exists i: nat :: Live(s.entries, key, now, i))
      && (reply.Hit? || reply == Suspended)
      && forall i: nat :: Live(s.entries, key, now, i) ==>
                            && reply == Hit(s.entries[i].value)
                            && |t.entries| > 0 && t.entries[|t.entries| - 1] == s.entries[i]
                            && Others(s.entries, key, t.entries[..|t.entries| - 1])
                            && t.inflight == s.inflight && t.tasks == s.tasks && t.waiting == s.waiting
  {
    LookupExactly(s.entries, key);
    WithoutExactly(s.entries, key);
    hide Lookup, Without, Others;
    forall i: nat | Live(s.entries, key, now, i)
      ensures
        var (t, reply) := Ask(c, s, req, key, now);
        && reply == Hit(s.entries[i].value)
        && t.entries == Without(s.entries, key) + [s.entries[i]]
    {
    }
    var (t, reply) := Ask(c, s, req, key, now);
    if reply.Hit? {
      var i: nat :| FoundAt(s.entries, key, i);
      assert Live(s.entries, key, now, i);
      assert t.entries[..|t.entries| - 1] == Without(s.entries, key);
    }
  }

  /** Otherwise an expired entry goes, and the request waits for the computation in flight for its key, or a new one. */
  lemma AskMisses<K, V, E>(c: Config, s: State<K, V, E>, req: nat, key: K, now: int)
    requires c.ttl > 0 && Ask(c, s, req, key, now).1 == Suspended
    ensures
      var t := Ask(c, s, req, key, now).0;
      && Others(s.entries, key, t.entries)
      && (key in s.inflight ==>
            t.inflight == s.inflight && t.tasks == s.tasks && OnlyAsked(s, t, req, s.inflight[key]))
      && (key !in s.inflight ==>
            && Starts(s, t, key) && OnlyAsked(s, t, req, |s.tasks|)
            && t.inflight.Keys == s.inflight.Keys + {key} && t.inflight[key] == |s.tasks|
            && forall k :: k in s.inflight ==> t.inflight[k] == s.inflight[k])
  {
    WithoutExactly(s.entries, key);
    hide Without, Others;
  }

  lemma FinishTells<K, V, E>(s: State<K, V, E>, t: nat, result: Result<V, E>)
    requires t < |s.tasks|
    ensures
      var u := Finish(s, t, result);
      && u.entries == s.entries && u.inflight == s.inflight && u.waiting == s.waiting
      && |u.tasks| == |s.tasks| && u.tasks[t] == Done(s.tasks[t].key, result, false)
      && forall i :: 0 <= i < |s.tasks| && i != t ==> u.tasks[i] == s.tasks[i]
  {
  }

  lemma CallbackTells<K, V, E>(c: Config, s: State<K, V, E>, t: nat)
    requires t < |s.tasks| && s.tasks[t].Done?
    ensures
      var u := Callback(c, s, t);
      && u.entries == s.entries && u.waiting == s.waiting
      && |u.tasks| == |s.tasks| && u.tasks[t] == Done(s.tasks[t].key, s.tasks[t].result, true)
      && (forall i :: 0 <= i < |s.tasks| && i != t ==> u.tasks[i] == s.tasks[i])
      && (forall k :: k in u.inflight <==> k in s.inflight && (c.ttl <= 0 || k != s.tasks[t].key))
      && forall k :: k in u.inflight ==> u.inflight[k] == s.inflight[k]
  {
  }

  /** The entry takes the place of any under its key, as the newest, and the oldest make room. */
  ghost predicate Stores<K(!new), V(!new)>(es: seq<Entry<K, V>>, e: Entry<K, V>, room: nat, after: seq<Entry<K, V>>) {
    exists rest :: Others(es, e.key, rest) && Newest(rest + [e], room, after)
  }

  lemma StoreTells<K(!new), V(!new)>(es: seq<Entry<K, V>>, e: Entry<K, V>, room: nat)
    ensures Stores(es, e, room, Trim(Without(es, e.key) + [e], room))
  {
    WithoutExactly(es, e.key);
    TrimExactly(Without(es, e.key) + [e], room);
    hide Without, Trim, Others, Newest;
  }

  /** A request that wakes takes its task's result, and with caching on stores a value as the newest entry. */
  lemma WakeTells<K(!new), V(!new), E>(c: Config, s: State<K, V, E>, req: nat, now: int)
    requires req in s.waiting && s.waiting[req] < |s.tasks| && s.tasks[s.waiting[req]].Done?
    ensures
      var ((t, reply), task) := (Wake(c, s, req, now), s.tasks[s.waiting[req]]);
      && reply == Answer(task.result)
      && t.inflight == s.inflight && t.tasks == s.tasks
      && (forall r :: r in t.waiting <==> r in s.waiting && r != req)
      && (forall r :: r in t.waiting ==> t.waiting[r] == s.waiting[r])
      && (task.result.Err? || c.ttl <= 0 ==> t.entries == s.entries)
      && (task.result.Ok? && c.ttl > 0 ==>
            Stores(s.entries, Entry(task.key, now + c.ttl, task.result.value), c.maxEntries, t.entries))
  {
    hide Without, Trim, Stores;
    var task := s.tasks[s.waiting[req]];
    if task.result.Ok? && c.ttl > 0 {
      StoreTells(s.entries, Entry(task.key, now + c.ttl, task.result.value), c.maxEntries);
    }
  }

  lemma CancelTells<K, V, E>(s: State<K, V, E>, req: nat)
    requires req in s.waiting
    ensures
      var t := Cancel(s, req);
      && t.entries == s.entries && t.inflight == s.inflight && t.tasks == s.tasks
      && (forall r :: r in t.waiting <==> r in s.waiting && r != req)
      && forall r :: r in t.waiting ==> t.waiting[r] == s.waiting[r]
  {
  }

  // ----- where a served value comes from -----

  /** Step `w` wakes a request with this value for the key, and stores it until `expires`. */
  ghost predicate StoredBy<K, V, E>(
    c: Config, steps: seq<Step<K, V, E>>, trace: seq<State<K, V, E>>, w: nat, e: Entry<K, V>)
  {
    && w < |steps| && w < |trace| && steps[w].WakeStep?
    && var s, req := trace[w], steps[w].req;
    && req in s.waiting && s.waiting[req] < |s.tasks|
    && var task := s.tasks[s.waiting[req]];
    task.Done? && task.key == e.key && task.result == Ok(e.value) && e.expires == steps[w].now + c.ttl
  }

  ghost predicate AllStored<K, V, E>(
    c: Config, steps: seq<Step<K, V, E>>, trace: seq<State<K, V, E>>, n: nat, es: seq<Entry<K, V>>)
  {
    forall e :: e in es ==> exists w: nat :: w < n && StoredBy(c, steps, trace, w, e)
  }

  /** A step brings in no entry but the one a wake stores. */
  lemma StepEntries<K, V, E>(
    c: Config, compute: K -> Result<V, E>, s: State<K, V, E>, step: Step<K, V, E>, f: Entry<K, V>)
    requires Enabled(compute, s, step) && f in After(c, compute, s, step).0.entries && f !in s.entries
    ensures step.WakeStep? && c.ttl > 0 && s.tasks[s.waiting[step.req]].result.Ok?
    ensures f == Entry(s.tasks[s.waiting[step.req]].key, step.now + c.ttl, s.tasks[s.waiting[step.req]].result.value)
  {
    if step.AskStep? && c.ttl > 0 {
      WithoutExactly(s.entries, step.key);
      FilteredMember(s.entries, Other(step.key), Without(s.entries, step.key), f);
      LookupExactly(s.entries, step.key);
      hide Without, Lookup, Filtered;
    } else if step.WakeStep? {
      var task := s.tasks[s.waiting[step.req]];
      WithoutExactly(s.entries, task.key);
      FilteredMember(s.entries, Other(task.key), Without(s.entries, task.key), f);
      hide Without, Filtered;
    }
  }

  lemma {:induction false} EntriesStored<K, V, E>(
    c: Config, compute: K -> Result<V, E>, steps: seq<Step<K, V, E>>, trace: seq<State<K, V, E>>, n: nat)
    requires Run(c, compute, steps, trace) && n <= |steps|
    ensures AllStored(c, steps, trace, n, trace[n].entries)
  {
    if n > 0 {
      var m := n - 1;
      EntriesStored(c, compute, steps, trace, m);
      var s, t, step := trace[m], trace[n], steps[m];
      assert Enabled(compute, s, step) && t == After(c, compute, s, step).0;
      hide Run, After;
      forall f | f in t.entries
        ensures exists w: nat :: w < n && StoredBy(c, steps, trace, w, f)
      {
        if f in s.entries {
          var w: nat :| w < m && StoredBy(c, steps, trace, w, f);
        } else {
          StepEntries(c, compute, s, step, f);
          assert StoredBy(c, steps, trace, m, f);
        }
      }
    }
  }

  /**
    Over any interleaving, a value served from the cache was computed for the key asked for and stored less than the
    time to live before it is served: nothing expired is ever served.
   */
  lemma HitsAreFresh<K, V, E>(
    c: Config, compute: K -> Result<V, E>, steps: seq<Step<K, V, E>>, trace: seq<State<K, V, E>>, m: nat)
    requires Run(c, compute, steps, trace) && m < |steps| && steps[m].AskStep?
    requires After(c, compute, trace[m], steps[m]).1.Hit?
    ensures exists w: nat, e ::
              && w < m && StoredBy(c, steps, trace, w, e) && e.key == steps[m].key
              && After(c, compute, trace[m], steps[m]).1 == Hit(e.value) && steps[m].now < steps[w].now + c.ttl
  {
    EntriesStored(c, compute, steps, trace, m);
    var s, key, now := trace[m], steps[m].key, steps[m].now;
    assert c.ttl > 0;
    AskHits(c, s, steps[m].req, key, now);
    hide Run, Ask;
    var i: nat :| Live(s.entries, key, now, i);
    var e := s.entries[i];
    assert e in s.entries;
    var w: nat :| w < m && StoredBy(c, steps, trace, w, e);
  }
}
