/** What each conversation operation does, field by field: when it is refused, what changes, what stays. */
module ConversationRows {
  import opened Wrappers
  import opened Exchanges
  import opened Conversations
  import opened Rows

  /** The conversation is there and is the owner's. */
  ghost predicate Has(s: Store, c: Id, owner: string) { c in s && s[c].owner == owner }

  /** It is also not archived. */
  ghost predicate HasOpen(s: Store, c: Id, owner: string) { Has(s, c, owner) && s[c].archivedAt == None }

  /** A request holds the conversation: its lease ends later than now. */
  ghost predicate HeldNow(v: Conversation, request: string, now: int) {
    exists until: int :: until > now && v.lease == Some(Lease(request, until))
  }

  ghost predicate Free(v: Conversation, now: int) { forall request :: !HeldNow(v, request, now) }

  lemma FreeExactly(v: Conversation, now: int)
    ensures Free(v, now) <==> v.lease == None || v.lease.value.until <= now
    ensures forall request :: HeldNow(v, request, now) <==> !Free(v, now) && v.lease.value.request == request
  {
    if v.lease.Some? {
      assert v.lease == Some(Lease(v.lease.value.request, v.lease.value.until));
      if v.lease.value.until > now {
        assert HeldNow(v, v.lease.value.request, now);
      }
    }
  }

  /** The fields no operation changes. */
  ghost predicate SameOrigin(x: Conversation, y: Conversation) {
    y.project == x.project && y.version == x.version && y.owner == x.owner && y.createdAt == x.createdAt
  }

  ghost predicate Told(v: Conversation, now: int, answer: Refusal) {
    answer.Busy? && HeldNow(v, answer.holder, now)
  }

  lemma CreateRows(s: Store, c: Id, project: string, version: Option<string>, owner: string, now: int)
    ensures
      var t := Create(s, c, project, version, owner, now);
      && OnlyRow(s, t, c)
      && t[c].project == project && t[c].version == version && t[c].owner == owner
      && t[c].createdAt == now && t[c].updatedAt == now
      && t[c].name == None && t[c].archivedAt == None && t[c].lease == None && t[c].messages == []
  {
  }

  lemma RenameRows(s: Store, c: Id, owner: string, name: string, now: int, cfg: Config)
    ensures
      var r, given := Rename(s, c, owner, name, now, cfg), cfg.naming.strip(name);
      && (r == Err(NotFound) <==> !HasOpen(s, c, owner))
      && (r.Ok? <==> HasOpen(s, c, owner) && Free(s[c], now))
      && (r.Err? && r.error != NotFound ==> Told(s[c], now, r.error))
      && (r.Ok? ==>
            var t := r.value;
            && OnlyRow(s, t, c) && SameOrigin(s[c], t[c])
            && t[c].name == (if cfg.marksUnnamed && given == "New conversation" then None else Some(given))
            && t[c].updatedAt == now && t[c].archivedAt == None && t[c].lease == s[c].lease
            && t[c].messages == s[c].messages)
  {
    if HasOpen(s, c, owner) {
      FreeExactly(s[c], now);
    }
  }

  lemma ArchiveRows(s: Store, c: Id, owner: string, now: int)
    ensures
      var r := Archive(s, c, owner, now);
      && (r == Err(NotFound) <==> !HasOpen(s, c, owner))
      && (r.Ok? <==> HasOpen(s, c, owner) && Free(s[c], now))
      && (r.Err? && r.error != NotFound ==> Told(s[c], now, r.error))
      && (r.Ok? ==>
            var t := r.value;
            && OnlyRow(s, t, c) && SameOrigin(s[c], t[c])
            && t[c].archivedAt == Some(now) && t[c].updatedAt == now
            && t[c].name == s[c].name && t[c].lease == s[c].lease && t[c].messages == s[c].messages)
  {
    if HasOpen(s, c, owner) {
      FreeExactly(s[c], now);
    }
  }

  lemma RestoreRows(s: Store, c: Id, owner: string, now: int)
    ensures
      var r := Restore(s, c, owner, now);
      && (r == Err(NotFound) <==> !Has(s, c, owner) || s[c].archivedAt == None)
      && (r.Ok? <==> Has(s, c, owner) && s[c].archivedAt != None && Free(s[c], now))
      && (r.Err? && r.error != NotFound ==> Told(s[c], now, r.error))
      && (r.Ok? ==>
            var t := r.value;
            && OnlyRow(s, t, c) && SameOrigin(s[c], t[c])
            && t[c].archivedAt == None && t[c].updatedAt == now
            && t[c].name == s[c].name && t[c].lease == s[c].lease && t[c].messages == s[c].messages)
  {
    if Has(s, c, owner) {
      FreeExactly(s[c], now);
    }
  }

  lemma PurgeRows(s: Store, c: Id, owner: string, now: int)
    ensures
      var r := Purge(s, c, owner, now);
      && (r == Err(NotFound) <==> !Has(s, c, owner))
      && (r == Err(WrongState) <==> HasOpen(s, c, owner))
      && (r.Ok? <==> Has(s, c, owner) && s[c].archivedAt != None && Free(s[c], now))
      && (r.Err? && r.error != NotFound && r.error != WrongState ==> Told(s[c], now, r.error))
      && (r.Ok? ==> c !in r.value && OnlyRow(r.value, s, c))
  {
    if Has(s, c, owner) {
      FreeExactly(s[c], now);
    }
  }

  /** Exactly the project's conversations go. */
  lemma DeleteProjectRows(s: Store, project: string)
    ensures
      var t := DeleteProject(s, project);
      && (forall c :: c in t <==> c in s && s[c].project != project)
      && forall c :: c in t ==> t[c] == s[c]
  {
  }

  /** Exactly what was archived before the cutoff goes. */
  lemma CleanupRows(s: Store, cutoff: int)
    ensures
      var t := Cleanup(s, cutoff);
      && (forall c :: c in t <==> c in s && (s[c].archivedAt == None || cutoff <= s[c].archivedAt.value))
      && forall c :: c in t ==> t[c] == s[c]
  {
  }

  /** A request acquires an open conversation of its user unless another one holds it, and then is told which. */
  lemma AcquireRows(s: Store, c: Id, request: string, owner: string, now: int, seconds: nat)
    ensures
      var r := Acquire(s, c, request, owner, now, seconds);
      && (r == Err(NotFound) <==> !HasOpen(s, c, owner))
      && (r.Ok? <==> HasOpen(s, c, owner) && (Free(s[c], now) || HeldNow(s[c], request, now)))
      && (r.Err? && r.error != NotFound ==> Told(s[c], now, r.error) && r.error.holder != request)
      && (r.Ok? ==>
            var t := r.value;
            && OnlyRow(s, t, c) && SameOrigin(s[c], t[c])
            && t[c].lease == Some(Lease(request, now + seconds))
            && t[c].name == s[c].name && t[c].updatedAt == s[c].updatedAt && t[c].archivedAt == None
            && t[c].messages == s[c].messages)
  {
    if HasOpen(s, c, owner) {
      FreeExactly(s[c], now);
    }
  }

  /** A request takes away its own lease and no other's, run out or not, of an archived conversation too. */
  lemma ReleaseRows(s: Store, c: Id, request: string, owner: string)
    ensures
      var r := Release(s, c, request, owner);
      && (r.Ok? <==> Has(s, c, owner))
      && (r.Err? ==> r.error == NotFound)
      && (r.Ok? ==>
            var t := r.value;
            && OnlyRow(s, t, c) && SameOrigin(s[c], t[c])
            && (t[c].lease == None <==> s[c].lease == None || s[c].lease.value.request == request)
            && (t[c].lease != None ==> t[c].lease == s[c].lease)
            && t[c].name == s[c].name && t[c].updatedAt == s[c].updatedAt && t[c].archivedAt == s[c].archivedAt
            && t[c].messages == s[c].messages)
  {
  }

  /** Once the holder releases it, anybody's next request for an open conversation acquires it, whenever that is. */
  lemma ReleaseFrees(
    s: Store, c: Id, holder: string, owner: string, before: int, other: string, now: int, seconds: nat)
    requires HasOpen(s, c, owner) && HeldNow(s[c], holder, before)
    ensures Release(s, c, holder, owner).Ok?
    ensures
      var t := Release(s, c, holder, owner).value;
      && Free(t[c], now)
      && var u := Acquire(t, c, other, owner, now, seconds);
      u.Ok? && u.value[c].lease == Some(Lease(other, now + seconds))
  {
    ReleaseRows(s, c, holder, owner);
    var t := Release(s, c, holder, owner).value;
    FreeExactly(s[c], before);
    FreeExactly(t[c], now);
    AcquireRows(t, c, other, owner, now, seconds);
  }

  /** Without a release it is free again when the lease runs out, and only then. */
  lemma ExpiryFrees(s: Store, c: Id, holder: string, owner: string, at: int, other: string, now: int, seconds: nat)
    requires Acquire(s, c, holder, owner, at, seconds).Ok? && other != holder
    ensures
      var t := Acquire(s, c, holder, owner, at, seconds).value;
      && (Acquire(t, c, other, owner, now, seconds).Ok? <==> at + seconds <= now)
      && (now < at + seconds ==> Acquire(t, c, other, owner, now, seconds) == Err(Busy(holder)))
  {
    AcquireRows(s, c, holder, owner, at, seconds);
    var t := Acquire(s, c, holder, owner, at, seconds).value;
    AcquireRows(t, c, other, owner, now, seconds);
    FreeExactly(t[c], now);
  }

  /** The first question names a conversation without a name, and every message goes last. */
  lemma AppendRows(s: Store, c: Id, owner: string, m: Message, now: int, cfg: Config)
    ensures
      var r, derived := Append(s, c, owner, m, now, cfg), cfg.naming.derive(m.content);
      && (r.Ok? <==> HasOpen(s, c, owner))
      && (r.Err? ==> r.error == NotFound)
      && (r.Ok? ==>
            var t := r.value;
            && OnlyRow(s, t, c) && SameOrigin(s[c], t[c])
            && t[c].messages == s[c].messages + [m] && t[c].updatedAt == now
            && t[c].lease == s[c].lease && t[c].archivedAt == None
            && (m.role == User && s[c].name == None ==>
                  t[c].name == if cfg.marksUnnamed && derived == "New conversation" then None else Some(derived))
            && (m.role != User || s[c].name != None ==> t[c].name == s[c].name))
  {
  }

  lemma PruneRows(s: Store, c: Id, maxTurns: nat)
    ensures
      var t := PruneAt(s, c, maxTurns);
      && (c !in s ==> t == s)
      && (c in s ==>
            && OnlyRow(s, t, c) && SameOrigin(s[c], t[c]) && t[c].messages == Prune(s[c].messages, maxTurns)
            && t[c].name == s[c].name && t[c].updatedAt == s[c].updatedAt && t[c].archivedAt == s[c].archivedAt
            && t[c].lease == s[c].lease)
  {
    hide Prune;
  }
}
