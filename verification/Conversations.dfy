/** What a conversation store promises: ownership, archiving, request leases and messages, whichever way it is kept. */
module Conversations {
  import opened Wrappers
  import opened Exchanges

  type Id = string

  datatype Lease = Lease(request: string, until: int)

  /** A conversation without a name takes one from the next question. */
  datatype Conversation = Conversation(
    name: Option<string>, project: string, version: Option<string>, owner: string, createdAt: int, updatedAt: int,
    archivedAt: Option<int>, lease: Option<Lease>, messages: seq<Message>)

  type Store = map<Id, Conversation>

  datatype Refusal = NotFound | Busy(holder: string) | WrongState

  /** How names are trimmed, and derived from a question. */
  datatype Naming = Naming(strip: string -> string, derive: string -> string)

  const NEW_CONVERSATION := "New conversation"

  /** `marksUnnamed`: the store tells an unnamed conversation by its name being the default one. */
  datatype Config = Config(maxTurns: nat, leaseSeconds: nat, retention: int, naming: Naming, marksUnnamed: bool)

  /** What is recorded of a name. */
  function Record(name: string, marksUnnamed: bool): Option<string> {
    if marksUnnamed && name == NEW_CONVERSATION then None else Some(name)
  }

  /** The name after a message: the first question of an unnamed conversation names it. */
  function NameAfter(v: Conversation, m: Message, naming: Naming, marksUnnamed: bool): Option<string> {
    if m.role == User && v.name.None? then Record(naming.derive(m.content), marksUnnamed) else v.name
  }

  predicate Owned(s: Store, c: Id, owner: string, activeOnly: bool) {
    c in s && s[c].owner == owner && (activeOnly ==> s[c].archivedAt.None?)
  }

  predicate Leased(v: Conversation, now: int) { v.lease.Some? && v.lease.value.until > now }

  function Create(s: Store, c: Id, project: string, version: Option<string>, owner: string, now: int): Store {
    s[c := Conversation(None, project, version, owner, now, now, None, None, [])]
  }

  function Rename(s: Store, c: Id, owner: string, name: string, now: int, cfg: Config): Result<Store, Refusal> {
    if !Owned(s, c, owner, true) then Err(NotFound)
    else if Leased(s[c], now) then Err(Busy(s[c].lease.value.request))
    else Ok(s[c := s[c].(name := Record(cfg.naming.strip(name), cfg.marksUnnamed), updatedAt := now)])
  }

  function Archive(s: Store, c: Id, owner: string, now: int): Result<Store, Refusal> {
    if !Owned(s, c, owner, true) then Err(NotFound)
    else if Leased(s[c], now) then Err(Busy(s[c].lease.value.request))
    else Ok(s[c := s[c].(archivedAt := Some(now), updatedAt := now)])
  }

  function Restore(s: Store, c: Id, owner: string, now: int): Result<Store, Refusal> {
    if !Owned(s, c, owner, false) || s[c].archivedAt.None? then Err(NotFound)
    else if Leased(s[c], now) then Err(Busy(s[c].lease.value.request))
    else Ok(s[c := s[c].(archivedAt := None, updatedAt := now)])
  }

  function Purge(s: Store, c: Id, owner: string, now: int): Result<Store, Refusal> {
    if !Owned(s, c, owner, false) then Err(NotFound)
    else if s[c].archivedAt.None? then Err(WrongState)
    else if Leased(s[c], now) then Err(Busy(s[c].lease.value.request))
    else Ok(s - {c})
  }

  function DeleteProject(s: Store, project: string): Store { map c | c in s && s[c].project != project :: s[c] }

  /** Archived longer ago than the retention. */
  predicate Stale(v: Conversation, cutoff: int) { v.archivedAt.Some? && v.archivedAt.value < cutoff }

  function Cleanup(s: Store, cutoff: int): Store { map c | c in s && !Stale(s[c], cutoff) :: s[c] }

  function Acquire(s: Store, c: Id, request: string, owner: string, now: int, seconds: nat): Result<Store, Refusal> {
    if !Owned(s, c, owner, true) then Err(NotFound)
    else if Leased(s[c], now) && s[c].lease.value.request != request then Err(Busy(s[c].lease.value.request))
    else Ok(s[c := s[c].(lease := Some(Lease(request, now + seconds)))])
  }

  function Release(s: Store, c: Id, request: string, owner: string): Result<Store, Refusal> {
    if !Owned(s, c, owner, false) then Err(NotFound)
    else if s[c].lease.Some? && s[c].lease.value.request == request then Ok(s[c := s[c].(lease := None)])
    else Ok(s)
  }

  function Append(s: Store, c: Id, owner: string, m: Message, now: int, cfg: Config): Result<Store, Refusal> {
    if !Owned(s, c, owner, true) then Err(NotFound)
    else
      var name := NameAfter(s[c], m, cfg.naming, cfg.marksUnnamed);
      Ok(s[c := s[c].(name := name, messages := s[c].messages + [m], updatedAt := now)])
  }

  function PruneAt(s: Store, c: Id, maxTurns: nat): Store {
    if c in s then s[c := s[c].(messages := Prune(s[c].messages, maxTurns))] else s
  }

  lemma DeleteProjectIs(s: Store, project: string, gone: set<Id>)
    requires forall c :: c in gone <==> c in s && s[c].project == project
    ensures gone <= s.Keys && DeleteProject(s, project) == s - gone
  {
  }

  lemma CleanupIs(s: Store, cutoff: int, gone: set<Id>)
    requires forall c :: c in gone <==> c in s && Stale(s[c], cutoff)
    ensures gone <= s.Keys && Cleanup(s, cutoff) == s - gone
  {
  }

  /** How many conversations there are less. */
  function Fewer(before: Store, after: Store): int { |before| - |after| }

  lemma CountRemoved(s: Store, gone: set<Id>)
    requires gone <= s.Keys
    ensures Fewer(s, s - gone) == |gone|
  {
    assert |s.Keys| == |s| && |(s - gone).Keys| == |s - gone|;
    assert (s - gone).Keys == s.Keys - gone;
    assert |s.Keys - gone| == |s.Keys| - |gone|;
  }

  /** What an operation reports and leaves behind: the specified store, or the refusal and the store as it was. */
  ghost predicate Did(specified: Result<Store, Refusal>, before: Store, after: Store, refused: Option<Refusal>) {
    match specified
    case Ok(t) => refused == None && after == t
    case Err(e) => refused == Some(e) && after == before
  }

  // ----- runs -----

  datatype Op =
    | OpCreate(c: Id, project: string, version: Option<string>, owner: string)
    | OpRename(c: Id, owner: string, name: string)
    | OpArchive(c: Id, owner: string)
    | OpRestore(c: Id, owner: string)
    | OpPurge(c: Id, owner: string)
    | OpDeleteProject(project: string)
    | OpCleanup
    | OpAcquire(c: Id, request: string, owner: string)
    | OpRelease(c: Id, request: string, owner: string)
    | OpAppend(c: Id, owner: string, m: Message)
    | OpPrune(c: Id)

  function Try(s: Store, r: Result<Store, Refusal>): Store { if r.Ok? then r.value else s }

  function Apply(s: Store, op: Op, now: int, cfg: Config): Store {
    match op
    case OpCreate(c, project, version, owner) => Create(s, c, project, version, owner, now)
    case OpRename(c, owner, name) => Try(s, Rename(s, c, owner, name, now, cfg))
    case OpArchive(c, owner) => Try(s, Archive(s, c, owner, now))
    case OpRestore(c, owner) => Try(s, Restore(s, c, owner, now))
    case OpPurge(c, owner) => Try(s, Purge(s, c, owner, now))
    case OpDeleteProject(project) => DeleteProject(s, project)
    case OpCleanup => Cleanup(s, now - cfg.retention)
    case OpAcquire(c, request, owner) => Try(s, Acquire(s, c, request, owner, now, cfg.leaseSeconds))
    case OpRelease(c, request, owner) => Try(s, Release(s, c, request, owner))
    case OpAppend(c, owner, m) => Try(s, Append(s, c, owner, m, now, cfg))
    case OpPrune(c) => PruneAt(s, c, cfg.maxTurns)
  }

  function ErrorOf(r: Result<Store, Refusal>): Option<Refusal> { if r.Ok? then None else Some(r.error) }

  /** What the caller of an operation is told. */
  function Answer(s: Store, op: Op, now: int, cfg: Config): Option<Refusal> {
    match op
    case OpRename(c, owner, name) => ErrorOf(Rename(s, c, owner, name, now, cfg))
    case OpArchive(c, owner) => ErrorOf(Archive(s, c, owner, now))
    case OpRestore(c, owner) => ErrorOf(Restore(s, c, owner, now))
    case OpPurge(c, owner) => ErrorOf(Purge(s, c, owner, now))
    case OpAcquire(c, request, owner) => ErrorOf(Acquire(s, c, request, owner, now, cfg.leaseSeconds))
    case OpRelease(c, request, owner) => ErrorOf(Release(s, c, request, owner))
    case OpAppend(c, owner, m) => ErrorOf(Append(s, c, owner, m, now, cfg))
    case _ => None
  }

  /** Something that happens at a time. */
  datatype Event = Event(op: Op, at: int)

  /** Time does not run backwards, and a new conversation has a new id. */
  ghost predicate Runs(s: Store, events: seq<Event>, clock: int, cfg: Config)
    decreases |events|
  {
    events == []
    || (clock <= events[0].at && (events[0].op.OpCreate? ==> events[0].op.c !in s)
        && Runs(Apply(s, events[0].op, events[0].at, cfg), events[1..], events[0].at, cfg))
  }

  function Run(s: Store, events: seq<Event>, cfg: Config): Store
    decreases |events|
  {
    if events == [] then s else Run(Apply(s, events[0].op, events[0].at, cfg), events[1..], cfg)
  }

  /**
    An archived conversation has no lease that is still running, and no lease reaches further than its length from now.
   */
  ghost predicate Settled(s: Store, clock: int, cfg: Config) {
    forall c :: c in s ==>
                  && (s[c].archivedAt.Some? ==> !Leased(s[c], clock))
                  && (s[c].lease.Some? ==> s[c].lease.value.until <= clock + cfg.leaseSeconds)
  }

  lemma StepSettled(s: Store, op: Op, now: int, clock: int, cfg: Config)
    requires Settled(s, clock, cfg) && clock <= now
    ensures Settled(Apply(s, op, now, cfg), now, cfg)
  {
    hide Prune;
  }

  lemma {:induction false} RunSettled(s: Store, events: seq<Event>, clock: int, cfg: Config)
    requires Settled(s, clock, cfg) && Runs(s, events, clock, cfg)
    ensures Settled(Run(s, events, cfg), if events == [] then clock else events[|events| - 1].at, cfg)
    decreases |events|
  {
    if events != [] {
      var op, at := events[0].op, events[0].at;
      StepSettled(s, op, at, clock, cfg);
      hide Settled, Apply;
      RunSettled(Apply(s, op, at, cfg), events[1..], at, cfg);
    }
  }

  // ----- leases are kept -----

  /** The request holds the conversation until at least some time, and the conversation is active. */
  ghost predicate HeldBy(s: Store, c: Id, project: string, request: string, until: int) {
    && c in s && s[c].project == project && s[c].archivedAt.None?
    && s[c].lease.Some? && s[c].lease.value.request == request && s[c].lease.value.until >= until
  }

  /** Neither the request releasing its lease nor its project being deleted. */
  predicate Spares(op: Op, c: Id, project: string, request: string) {
    && (op.OpRelease? ==> op.c != c || op.request != request)
    && (op.OpDeleteProject? ==> op.project != project)
  }

  lemma AcquireHolds(s: Store, c: Id, request: string, owner: string, now: int, cfg: Config)
    requires Acquire(s, c, request, owner, now, cfg.leaseSeconds).Ok?
    ensures
      var t := Acquire(s, c, request, owner, now, cfg.leaseSeconds).value;
      HeldBy(t, c, s[c].project, request, now + cfg.leaseSeconds) && t[c].lease.value.until == now + cfg.leaseSeconds
  {
  }

  lemma StepHeld(
    s: Store, op: Op, now: int, clock: int, cfg: Config, c: Id, project: string, request: string, until: int)
    requires Settled(s, clock, cfg) && clock <= now < until && HeldBy(s, c, project, request, until)
    requires Spares(op, c, project, request) && (op.OpCreate? ==> op.c !in s)
    ensures HeldBy(Apply(s, op, now, cfg), c, project, request, until)
  {
    hide Prune;
  }

  /** While a lease runs no other request takes it, and its conversation stays, active, whatever happens to it. */
  lemma {:induction false} LeaseKept(
    s: Store, events: seq<Event>, clock: int, cfg: Config, c: Id, project: string, request: string, until: int)
    requires Settled(s, clock, cfg) && Runs(s, events, clock, cfg) && HeldBy(s, c, project, request, until)
    requires forall i :: 0 <= i < |events| ==> events[i].at < until && Spares(events[i].op, c, project, request)
    ensures HeldBy(Run(s, events, cfg), c, project, request, until)
    decreases |events|
  {
    if events != [] {
      var op, at, rest := events[0].op, events[0].at, events[1..];
      StepSettled(s, op, at, clock, cfg);
      StepHeld(s, op, at, clock, cfg, c, project, request, until);
      assert forall i :: 0 <= i < |rest| ==> rest[i] == events[i + 1];
      hide Settled, Apply, HeldBy, Spares;
      LeaseKept(Apply(s, op, at, cfg), rest, at, cfg, c, project, request, until);
    }
  }

  /** A request that acquires at `at` holds the conversation until `at + leaseSeconds`, whatever happens in between. */
  lemma AcquiredKept(
    s: Store, c: Id, request: string, owner: string, at: int, clock: int, events: seq<Event>, cfg: Config)
    requires Settled(s, clock, cfg) && clock <= at && Acquire(s, c, request, owner, at, cfg.leaseSeconds).Ok?
    requires Runs(Apply(s, OpAcquire(c, request, owner), at, cfg), events, at, cfg)
    requires forall i :: 0 <= i < |events| ==>
                           events[i].at < at + cfg.leaseSeconds && Spares(events[i].op, c, s[c].project, request)
    ensures
      var end := Run(Apply(s, OpAcquire(c, request, owner), at, cfg), events, cfg);
      HeldBy(end, c, s[c].project, request, at + cfg.leaseSeconds)
  {
    AcquireHolds(s, c, request, owner, at, cfg);
    StepSettled(s, OpAcquire(c, request, owner), at, clock, cfg);
    hide Settled, Runs, HeldBy, Spares;
    var t := Apply(s, OpAcquire(c, request, owner), at, cfg);
    LeaseKept(t, events, at, cfg, c, s[c].project, request, at + cfg.leaseSeconds);
  }

  /** Meanwhile every other request is told who holds it, and archiving, renaming and purging are refused. */
  lemma OthersRefused(
    s: Store, c: Id, project: string, request: string, until: int, other: string, owner: string, name: string, now: int,
    cfg: Config)
    requires HeldBy(s, c, project, request, until) && now < until && other != request && s[c].owner == owner
    ensures Acquire(s, c, other, owner, now, cfg.leaseSeconds) == Err(Busy(request))
    ensures Archive(s, c, owner, now) == Err(Busy(request)) && Rename(s, c, owner, name, now, cfg) == Err(Busy(request))
    ensures Purge(s, c, owner, now) == Err(WrongState) && Restore(s, c, owner, now) == Err(NotFound)
  {
  }
}
