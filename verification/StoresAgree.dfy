/** The two conversation stores, fed the same operations: where they answer alike and stay alike, and where not. */
module StoresAgree {
  import opened Wrappers
  import E = Exchanges
  import S = Conversations
  import M = MemoryStore
  import Q = SqlStore

  /** What the caller of an operation gets: a refusal or none, and how many conversations were removed. */
  datatype Reply = Reply(refused: Option<S.Refusal>, removed: nat)

  /** Ids given to new conversations and messages are new. */
  predicate NewIds(s: S.Store, op: S.Op) {
    match op
    case OpCreate(c, _, _, _) => c !in s
    case OpAppend(c, _, m) => c in s ==> !E.HasId(s[c].messages, m.id)
    case _ => true
  }

  function OnMemoryConfig(cfg: S.Config): S.Config { cfg.(marksUnnamed := true) }

  function OnSqlConfig(cfg: S.Config): S.Config { cfg.(marksUnnamed := false) }

  ghost predicate MemoryIs(memory: M.InMemoryConversationStore, s: S.Store, cfg: S.Config)
    reads memory
  {
    memory.Valid() && memory.View() == s && memory.Settings() == OnMemoryConfig(cfg)
  }

  ghost predicate SqlIs(sql: Q.SQLAlchemyConversationStore, s: S.Store, cfg: S.Config)
    reads sql
  {
    sql.Valid() && sql.View() == s && sql.Settings() == OnSqlConfig(cfg)
  }

  /** The specified reply, but for pruning: a conversation that is gone is an error only in the process-local store. */
  ghost predicate Replied(s: S.Store, op: S.Op, now: int, cfg: S.Config, gone: Option<S.Refusal>, reply: Reply) {
    && reply.refused == (if op.OpPrune? && op.c !in s then gone else S.Answer(s, op, now, cfg))
    && reply.removed == (if op.OpDeleteProject? || op.OpCleanup? then S.Fewer(s, S.Apply(s, op, now, cfg)) else 0)
  }

  method OnMemory(memory: M.InMemoryConversationStore, op: S.Op, now: int, ghost s: S.Store, ghost cfg: S.Config)
    returns (reply: Reply)
    requires MemoryIs(memory, s, cfg) && NewIds(s, op)
    modifies memory
    ensures MemoryIs(memory, S.Apply(s, op, now, OnMemoryConfig(cfg)), cfg)
    ensures Replied(s, op, now, OnMemoryConfig(cfg), Some(S.NotFound), reply)
  {
    hide NewIds, MemoryIs, Replied, S.Apply;
    if op.OpAcquire? || op.OpRelease? || op.OpAppend? || op.OpPrune? {
      reply := RequestOnMemory(memory, op, now, s, cfg);
    } else if op.OpCreate? {
      reply := CreateOnMemory(memory, op, now, s, cfg);
    } else if op.OpDeleteProject? || op.OpCleanup? {
      reply := CountedOnMemory(memory, op, now, s, cfg);
    } else {
      reply := StateOnMemory(memory, op, now, s, cfg);
    }
  }

  /** What a request does while it talks. */
  method RequestOnMemory(memory: M.InMemoryConversationStore, op: S.Op, now: int, ghost s: S.Store, ghost cfg: S.Config)
    returns (reply: Reply)
    requires MemoryIs(memory, s, cfg) && NewIds(s, op)
    requires op.OpAcquire? || op.OpRelease? || op.OpAppend? || op.OpPrune?
    modifies memory
    ensures MemoryIs(memory, S.Apply(s, op, now, OnMemoryConfig(cfg)), cfg)
    ensures Replied(s, op, now, OnMemoryConfig(cfg), Some(S.NotFound), reply)
  {
    M.Known(memory.items, memory.leases, memory.versions, memory.owners);
    hide M.Aligned, M.Assembled, E.HasId, E.DistinctIds, M.Whole, M.LeaseOf;
    hide S.Acquire, S.Release, S.Append, S.PruneAt;
    var refused: Option<S.Refusal> := None;
    match op {
      case OpAcquire(c, request, owner) => refused := memory.AcquireRequest(c, request, owner, now);
      case OpRelease(c, request, owner) => refused := memory.ReleaseRequest(c, request, owner);
      case OpAppend(c, owner, m) => refused := memory.Append(c, owner, m, now);
      case OpPrune(c) => refused := memory.PruneMessages(c);
    }
    reply := Reply(refused, 0);
  }

  /** What can be refused of a conversation as a whole. */
  method StateOnMemory(memory: M.InMemoryConversationStore, op: S.Op, now: int, ghost s: S.Store, ghost cfg: S.Config)
    returns (reply: Reply)
    requires MemoryIs(memory, s, cfg) && (op.OpRename? || op.OpArchive? || op.OpRestore? || op.OpPurge?)
    modifies memory
    ensures MemoryIs(memory, S.Apply(s, op, now, OnMemoryConfig(cfg)), cfg)
    ensures Replied(s, op, now, OnMemoryConfig(cfg), Some(S.NotFound), reply)
  {
    hide M.Aligned, M.Assembled, E.HasId, E.DistinctIds, M.Whole, M.LeaseOf;
    hide S.Rename, S.Archive, S.Restore, S.Purge;
    var refused: Option<S.Refusal>;
    match op {
      case OpRename(c, owner, name) => refused := memory.Rename(c, owner, name, now);
      case OpArchive(c, owner) => refused := memory.Archive(c, owner, now);
      case OpRestore(c, owner) => refused := memory.Restore(c, owner, now);
      case OpPurge(c, owner) => refused := memory.Purge(c, owner, now);
    }
    reply := Reply(refused, 0);
  }

  method CreateOnMemory(memory: M.InMemoryConversationStore, op: S.Op, now: int, ghost s: S.Store, ghost cfg: S.Config)
    returns (reply: Reply)
    requires MemoryIs(memory, s, cfg) && NewIds(s, op) && op.OpCreate?
    modifies memory
    ensures MemoryIs(memory, S.Apply(s, op, now, OnMemoryConfig(cfg)), cfg)
    ensures Replied(s, op, now, OnMemoryConfig(cfg), Some(S.NotFound), reply)
  {
    M.AssembledKeys(memory.items, memory.leases, memory.versions, memory.owners);
    hide M.Aligned, M.Assembled, E.HasId, E.DistinctIds, M.Whole, M.LeaseOf;
    hide S.Create;
    memory.Create(op.c, op.project, op.version, op.owner, now);
    reply := Reply(None, 0);
  }

  /** What is never refused, and says how much it removed. */
  method CountedOnMemory(memory: M.InMemoryConversationStore, op: S.Op, now: int, ghost s: S.Store, ghost cfg: S.Config)
    returns (reply: Reply)
    requires MemoryIs(memory, s, cfg) && (op.OpDeleteProject? || op.OpCleanup?)
    modifies memory
    ensures MemoryIs(memory, S.Apply(s, op, now, OnMemoryConfig(cfg)), cfg)
    ensures Replied(s, op, now, OnMemoryConfig(cfg), Some(S.NotFound), reply)
  {
    hide M.Aligned, M.Assembled, E.HasId, E.DistinctIds, M.Whole, M.LeaseOf;
    hide S.DeleteProject, S.Cleanup, S.Fewer;
    var removed;
    if op.OpDeleteProject? {
      removed := memory.DeleteProject(op.project);
    } else {
      removed := memory.Cleanup(now);
    }
    reply := Reply(None, removed);
  }

  method OnSql(sql: Q.SQLAlchemyConversationStore, op: S.Op, now: int, ghost s: S.Store, ghost cfg: S.Config)
    returns (reply: Reply)
    requires SqlIs(sql, s, cfg) && NewIds(s, op)
    modifies sql
    ensures SqlIs(sql, S.Apply(s, op, now, OnSqlConfig(cfg)), cfg)
    ensures Replied(s, op, now, OnSqlConfig(cfg), None, reply)
  {
    hide NewIds, SqlIs, Replied, S.Apply;
    if op.OpAcquire? || op.OpRelease? || op.OpAppend? || op.OpPrune? {
      reply := RequestOnSql(sql, op, now, s, cfg);
    } else if op.OpCreate? {
      reply := CreateOnSql(sql, op, now, s, cfg);
    } else if op.OpDeleteProject? || op.OpCleanup? {
      reply := CountedOnSql(sql, op, now, s, cfg);
    } else {
      reply := StateOnSql(sql, op, now, s, cfg);
    }
  }

  /** What a request does while it talks. */
  method RequestOnSql(sql: Q.SQLAlchemyConversationStore, op: S.Op, now: int, ghost s: S.Store, ghost cfg: S.Config)
    returns (reply: Reply)
    requires SqlIs(sql, s, cfg) && NewIds(s, op) && (op.OpAcquire? || op.OpRelease? || op.OpAppend? || op.OpPrune?)
    modifies sql
    ensures SqlIs(sql, S.Apply(s, op, now, OnSqlConfig(cfg)), cfg)
    ensures Replied(s, op, now, OnSqlConfig(cfg), None, reply)
  {
    Q.Known(sql.rows, sql.nextRowId);
    hide Q.AllGood, Q.Assembled, E.HasId, Q.Whole, Q.RowGood;
    hide S.Acquire, S.Release, S.Append, S.PruneAt;
    var refused: Option<S.Refusal> := None;
    match op {
      case OpAcquire(c, request, owner) => refused := sql.AcquireRequest(c, request, owner, now);
      case OpRelease(c, request, owner) => refused := sql.ReleaseRequest(c, request, owner);
      case OpAppend(c, owner, m) => refused := sql.Append(c, owner, m, now);
      case OpPrune(c) => sql.PruneMessages(c);
    }
    reply := Reply(refused, 0);
  }

  /** What can be refused of a conversation as a whole. */
  method StateOnSql(sql: Q.SQLAlchemyConversationStore, op: S.Op, now: int, ghost s: S.Store, ghost cfg: S.Config)
    returns (reply: Reply)
    requires SqlIs(sql, s, cfg) && (op.OpRename? || op.OpArchive? || op.OpRestore? || op.OpPurge?)
    modifies sql
    ensures SqlIs(sql, S.Apply(s, op, now, OnSqlConfig(cfg)), cfg)
    ensures Replied(s, op, now, OnSqlConfig(cfg), None, reply)
  {
    hide Q.AllGood, Q.Assembled, E.HasId, Q.Whole, Q.RowGood;
    hide S.Rename, S.Archive, S.Restore, S.Purge;
    var refused: Option<S.Refusal>;
    match op {
      case OpRename(c, owner, name) => refused := sql.Rename(c, owner, name, now);
      case OpArchive(c, owner) => refused := sql.Archive(c, owner, now);
      case OpRestore(c, owner) => refused := sql.Restore(c, owner, now);
      case OpPurge(c, owner) => refused := sql.Purge(c, owner, now);
    }
    reply := Reply(refused, 0);
  }

  method CreateOnSql(sql: Q.SQLAlchemyConversationStore, op: S.Op, now: int, ghost s: S.Store, ghost cfg: S.Config)
    returns (reply: Reply)
    requires SqlIs(sql, s, cfg) && NewIds(s, op) && op.OpCreate?
    modifies sql
    ensures SqlIs(sql, S.Apply(s, op, now, OnSqlConfig(cfg)), cfg)
    ensures Replied(s, op, now, OnSqlConfig(cfg), None, reply)
  {
    Q.AssembledKeys(sql.rows);
    hide Q.AllGood, Q.Assembled, E.HasId, Q.Whole, Q.RowGood;
    hide S.Create;
    sql.Create(op.c, op.project, op.version, op.owner, now);
    reply := Reply(None, 0);
  }

  /** What is never refused, and says how much it removed. */
  method CountedOnSql(sql: Q.SQLAlchemyConversationStore, op: S.Op, now: int, ghost s: S.Store, ghost cfg: S.Config)
    returns (reply: Reply)
    requires SqlIs(sql, s, cfg) && (op.OpDeleteProject? || op.OpCleanup?)
    modifies sql
    ensures SqlIs(sql, S.Apply(s, op, now, OnSqlConfig(cfg)), cfg)
    ensures Replied(s, op, now, OnSqlConfig(cfg), None, reply)
  {
    hide Q.AllGood, Q.Assembled, E.HasId, Q.Whole, Q.RowGood;
    hide S.DeleteProject, S.Cleanup, S.Fewer;
    var removed;
    if op.OpDeleteProject? {
      removed := sql.DeleteProject(op.project);
    } else {
      removed := sql.Cleanup(now);
    }
    reply := Reply(None, removed);
  }

  // ----- names -----

  /** The operation goes through and names a conversation with the very words that mark an unnamed one. */
  predicate NamesDefault(s: S.Store, op: S.Op, now: int, cfg: S.Config) {
    match op
    case OpRename(c, owner, name) =>
      S.Rename(s, c, owner, name, now, cfg).Ok? && cfg.naming.strip(name) == S.NEW_CONVERSATION
    case OpAppend(c, owner, m) =>
      S.Append(s, c, owner, m, now, cfg).Ok? && m.role == E.User && s[c].name.None?
      && cfg.naming.derive(m.content) == S.NEW_CONVERSATION
    case _ => false
  }

  /** From one state the two stores go to one state, except exactly where a conversation is given the default name. */
  lemma SameStateExactly(s: S.Store, op: S.Op, now: int, cfg: S.Config)
    ensures S.Apply(s, op, now, OnMemoryConfig(cfg)) == S.Apply(s, op, now, OnSqlConfig(cfg)) <==>
            !NamesDefault(s, op, now, cfg)
  {
    hide E.Prune;
    var t, u := S.Apply(s, op, now, OnMemoryConfig(cfg)), S.Apply(s, op, now, OnSqlConfig(cfg));
    if NamesDefault(s, op, now, cfg) {
      assert t[op.c].name == None && u[op.c].name == Some(S.NEW_CONVERSATION);
    }
  }

  lemma SameAnswer(s: S.Store, op: S.Op, now: int, cfg: S.Config)
    ensures S.Answer(s, op, now, OnMemoryConfig(cfg)) == S.Answer(s, op, now, OnSqlConfig(cfg)) ==
            S.Answer(s, op, now, cfg)
  {
  }

  /** Named by that default, a conversation is named again after its next question in one store and not in the other. */
  lemma DefaultNameForgotten(
    s: S.Store, c: S.Id, owner: string, name: string, now: int, m: E.Message, later: int, cfg: S.Config)
    requires S.Rename(s, c, owner, name, now, cfg).Ok? && cfg.naming.strip(name) == S.NEW_CONVERSATION
    requires m.role == E.User
    requires cfg.naming.derive(m.content) != S.NEW_CONVERSATION
    ensures
      var ask := S.OpAppend(c, owner, m);
      var local := S.Apply(S.Apply(s, S.OpRename(c, owner, name), now, OnMemoryConfig(cfg)), ask, later,
                           OnMemoryConfig(cfg));
      var durable := S.Apply(S.Apply(s, S.OpRename(c, owner, name), now, OnSqlConfig(cfg)), ask, later,
                             OnSqlConfig(cfg));
      && c in local && local[c].name == Some(cfg.naming.derive(m.content))
      && c in durable && durable[c].name == Some(S.NEW_CONVERSATION)
  {
  }

  // ----- both at once -----

  /**
    One operation on both: the same reply, and, unless it names a conversation by the default, the same state after it.
   */
  method Both(
    memory: M.InMemoryConversationStore, sql: Q.SQLAlchemyConversationStore, op: S.Op, now: int, ghost s: S.Store,
    ghost cfg: S.Config)
    returns (a: Reply, b: Reply)
    requires MemoryIs(memory, s, cfg) && SqlIs(sql, s, cfg) && NewIds(s, op)
    modifies memory, sql
    ensures MemoryIs(memory, S.Apply(s, op, now, OnMemoryConfig(cfg)), cfg)
    ensures SqlIs(sql, S.Apply(s, op, now, OnSqlConfig(cfg)), cfg)
    ensures memory.View() == sql.View() <==> !NamesDefault(s, op, now, cfg)
    ensures a == b <==> !(op.OpPrune? && op.c !in s)
    ensures !(op.OpPrune? && op.c !in s) ==> a.refused == S.Answer(s, op, now, cfg)
    ensures op.OpPrune? && op.c !in s ==> a.refused == Some(S.NotFound) && b.refused == None
  {
    SameStateExactly(s, op, now, cfg);
    SameAnswer(s, op, now, cfg);
    SameCount(s, op, now, cfg);
    NoAnswer(s, op, now, cfg);
    hide MemoryIs, SqlIs, NewIds, S.Apply, S.Answer, NamesDefault, S.Fewer;
    a := OnMemory(memory, op, now, s, cfg);
    b := OnSql(sql, op, now, s, cfg);
    MemoryView(memory, S.Apply(s, op, now, OnMemoryConfig(cfg)), cfg);
    SqlView(sql, S.Apply(s, op, now, OnSqlConfig(cfg)), cfg);
  }

  lemma MemoryView(memory: M.InMemoryConversationStore, s: S.Store, cfg: S.Config)
    requires MemoryIs(memory, s, cfg)
    ensures memory.Valid() && memory.View() == s
  {
  }

  lemma SqlView(sql: Q.SQLAlchemyConversationStore, s: S.Store, cfg: S.Config)
    requires SqlIs(sql, s, cfg)
    ensures sql.Valid() && sql.View() == s
  {
  }

  lemma SameCount(s: S.Store, op: S.Op, now: int, cfg: S.Config)
    ensures op.OpDeleteProject? || op.OpCleanup? ==>
              S.Apply(s, op, now, OnMemoryConfig(cfg)) == S.Apply(s, op, now, OnSqlConfig(cfg))
  {
  }

  lemma NoAnswer(s: S.Store, op: S.Op, now: int, cfg: S.Config)
    ensures op.OpPrune? ==> S.Answer(s, op, now, cfg) == None
  {
  }

  // ----- whole runs -----

  /** Ids are new, and no conversation is given the default name. */
  ghost predicate Agreeable(s: S.Store, events: seq<S.Event>, cfg: S.Config)
    decreases |events|
  {
    events == []
    || (NewIds(s, events[0].op) && !NamesDefault(s, events[0].op, events[0].at, cfg)
        && Agreeable(S.Apply(s, events[0].op, events[0].at, OnSqlConfig(cfg)), events[1..], cfg))
  }

  /** A whole run on both ends in the specified state on both. */
  method Replay(
    memory: M.InMemoryConversationStore, sql: Q.SQLAlchemyConversationStore, events: seq<S.Event>, ghost s: S.Store,
    ghost cfg: S.Config)
    requires MemoryIs(memory, s, cfg) && SqlIs(sql, s, cfg) && Agreeable(s, events, cfg)
    modifies memory, sql
    ensures var t := S.Run(s, events, OnSqlConfig(cfg)); MemoryIs(memory, t, cfg) && SqlIs(sql, t, cfg)
  {
    ghost var t := s;
    assert events[0..] == events;
    hide S.Apply, MemoryIs, SqlIs, NewIds, NamesDefault;
    for i := 0 to |events|
      invariant MemoryIs(memory, t, cfg) && SqlIs(sql, t, cfg) && Agreeable(t, events[i..], cfg)
      invariant S.Run(t, events[i..], OnSqlConfig(cfg)) == S.Run(s, events, OnSqlConfig(cfg))
    {
      assert events[i..][1..] == events[i + 1..];
      SameStateExactly(t, events[i].op, events[i].at, cfg);
      var a, b := Both(memory, sql, events[i].op, events[i].at, t, cfg);
      t := S.Apply(t, events[i].op, events[i].at, OnSqlConfig(cfg));
    }
  }
}
