/** The process-local store: separate maps for items, leases, versions and owners. */
module MemoryStore {
  import opened Wrappers
  import opened Exchanges
  import S = Conversations

  type Id = S.Id

  datatype Item = Item(
    name: string, project: string, createdAt: int, updatedAt: int, archivedAt: Option<int>, messages: seq<Message>)

  ghost predicate Aligned(
    items: map<Id, Item>, leases: map<Id, (string, int)>, versions: map<Id, Option<string>>, owners: map<Id, string>)
  {
    && items.Keys == versions.Keys == owners.Keys && leases.Keys <= items.Keys
    && forall c :: c in items ==> DistinctIds(items[c].messages)
  }

  function LeaseOf(leases: map<Id, (string, int)>, c: Id): Option<S.Lease> {
    if c in leases then Some(S.Lease(leases[c].0, leases[c].1)) else None
  }

  function Whole(item: Item, lease: Option<S.Lease>, version: Option<string>, owner: string): S.Conversation {
    S.Conversation(
      S.Record(item.name, true), item.project, version, owner, item.createdAt, item.updatedAt, item.archivedAt,
      lease, item.messages)
  }

  /** The conversations put together from the four maps. */
  ghost function Assembled(
    items: map<Id, Item>, leases: map<Id, (string, int)>, versions: map<Id, Option<string>>,
    owners: map<Id, string>): S.Store
    requires Aligned(items, leases, versions, owners)
  {
    map c | c in items :: Whole(items[c], LeaseOf(leases, c), versions[c], owners[c])
  }

  lemma PutItem(
    items: map<Id, Item>, leases: map<Id, (string, int)>, versions: map<Id, Option<string>>, owners: map<Id, string>,
    c: Id, item: Item)
    requires Aligned(items, leases, versions, owners) && c in items && DistinctIds(item.messages)
    ensures Aligned(items[c := item], leases, versions, owners)
    ensures
      Assembled(items[c := item], leases, versions, owners) ==
      Assembled(items, leases, versions, owners)[c := Whole(item, LeaseOf(leases, c), versions[c], owners[c])]
  {
    hide DistinctIds;
  }

  lemma PutLease(
    items: map<Id, Item>, leases: map<Id, (string, int)>, versions: map<Id, Option<string>>, owners: map<Id, string>,
    c: Id, leases': map<Id, (string, int)>)
    requires Aligned(items, leases, versions, owners) && c in items && leases'.Keys <= items.Keys
    requires forall d :: d != c ==> LeaseOf(leases', d) == LeaseOf(leases, d)
    ensures Aligned(items, leases', versions, owners)
    ensures
      Assembled(items, leases', versions, owners) ==
      Assembled(items, leases, versions, owners)[c := Whole(items[c], LeaseOf(leases', c), versions[c], owners[c])]
  {
    hide DistinctIds, LeaseOf;
  }

  lemma Removed(
    items: map<Id, Item>, leases: map<Id, (string, int)>, versions: map<Id, Option<string>>, owners: map<Id, string>,
    gone: set<Id>)
    requires Aligned(items, leases, versions, owners)
    ensures Aligned(items - gone, leases - gone, versions - gone, owners - gone)
    ensures Assembled(items - gone, leases - gone, versions - gone, owners - gone) ==
            Assembled(items, leases, versions, owners) - gone
  {
    hide DistinctIds;
  }

  lemma Known(
    items: map<Id, Item>, leases: map<Id, (string, int)>, versions: map<Id, Option<string>>, owners: map<Id, string>)
    requires Aligned(items, leases, versions, owners)
    ensures
      var s := Assembled(items, leases, versions, owners);
      && s.Keys == items.Keys == versions.Keys == owners.Keys && leases.Keys <= items.Keys
      && forall c :: c in s ==>
             s[c] == Whole(items[c], LeaseOf(leases, c), versions[c], owners[c]) && DistinctIds(items[c].messages)
  {
    hide DistinctIds;
  }

  lemma AssembledKeys(
    items: map<Id, Item>, leases: map<Id, (string, int)>, versions: map<Id, Option<string>>, owners: map<Id, string>)
    requires Aligned(items, leases, versions, owners)
    ensures Assembled(items, leases, versions, owners).Keys == items.Keys
  {
    hide DistinctIds, Whole;
  }

  /** What has been archived beyond the retention, and what belongs to a project, map by map. */
  function ExpiredIds(items: map<Id, Item>, cutoff: int): set<Id> {
    set c | c in items && items[c].archivedAt.Some? && items[c].archivedAt.value < cutoff
  }

  function ProjectIds(items: map<Id, Item>, project: string): set<Id> {
    set c | c in items && items[c].project == project
  }

  lemma ExpiredAre(
    items: map<Id, Item>, leases: map<Id, (string, int)>, versions: map<Id, Option<string>>, owners: map<Id, string>,
    cutoff: int)
    requires Aligned(items, leases, versions, owners)
    ensures ExpiredIds(items, cutoff) <= items.Keys
    ensures
      var s := Assembled(items, leases, versions, owners);
      S.Cleanup(s, cutoff) == s - ExpiredIds(items, cutoff)
  {
    hide DistinctIds, LeaseOf, S.Record, S.Cleanup;
    S.CleanupIs(Assembled(items, leases, versions, owners), cutoff, ExpiredIds(items, cutoff));
  }

  lemma ProjectAre(
    items: map<Id, Item>, leases: map<Id, (string, int)>, versions: map<Id, Option<string>>, owners: map<Id, string>,
    project: string)
    requires Aligned(items, leases, versions, owners)
    ensures ProjectIds(items, project) <= items.Keys
    ensures
      var s := Assembled(items, leases, versions, owners);
      S.DeleteProject(s, project) == s - ProjectIds(items, project)
  {
    hide DistinctIds, LeaseOf, S.Record, S.DeleteProject;
    S.DeleteProjectIs(Assembled(items, leases, versions, owners), project, ProjectIds(items, project));
  }

  lemma Added(
    items: map<Id, Item>, leases: map<Id, (string, int)>, versions: map<Id, Option<string>>, owners: map<Id, string>,
    c: Id, item: Item, version: Option<string>, owner: string)
    requires Aligned(items, leases, versions, owners) && c !in items && item.messages == []
    ensures Aligned(items[c := item], leases, versions[c := version], owners[c := owner])
    ensures
      Assembled(items[c := item], leases, versions[c := version], owners[c := owner]) ==
      Assembled(items, leases, versions, owners)[c := Whole(item, None, version, owner)]
  {
    assert DistinctIds(item.messages);
    hide DistinctIds;
  }

  class InMemoryConversationStore {
    var items: map<Id, Item>
    var leases: map<Id, (string, int)>
    var versions: map<Id, Option<string>>
    var owners: map<Id, string>
    const maxTurns: nat
    const leaseSeconds: nat
    const retention: int
    const naming: S.Naming

    ghost function Settings(): S.Config { S.Config(maxTurns, leaseSeconds, retention, naming, true) }

    ghost predicate Valid()
      reads this
    {
      Aligned(items, leases, versions, owners)
    }

    ghost function View(): S.Store
      reads this
      requires Valid()
    {
      Assembled(items, leases, versions, owners)
    }

    constructor (maxTurns: nat, leaseSeconds: nat, retention: int, naming: S.Naming)
      ensures Valid() && View() == map[]
      ensures Settings() == S.Config(maxTurns, leaseSeconds, retention, naming, true)
    {
      items, leases, versions, owners := map[], map[], map[], map[];
      this.maxTurns, this.leaseSeconds, this.retention, this.naming := maxTurns, leaseSeconds, retention, naming;
    }

    predicate Owned(c: Id, owner: string, activeOnly: bool)
      reads this
    {
      c in items && c in owners && owners[c] == owner && (activeOnly ==> items[c].archivedAt.None?)
    }

    /** The holder of a lease that is still running. */
    function Holder(c: Id, now: int): Option<string>
      reads this
    {
      if c in leases && leases[c].1 > now then Some(leases[c].0) else None
    }

    method Create(c: Id, project: string, version: Option<string>, owner: string, now: int)
      requires Valid() && c !in items
      modifies this
      ensures Valid() && View() == S.Create(old(View()), c, project, version, owner, now)
    {
      Added(items, leases, versions, owners, c, Item(S.NEW_CONVERSATION, project, now, now, None, []), version, owner);
      hide Aligned, Assembled;
      items := items[c := Item(S.NEW_CONVERSATION, project, now, now, None, [])];
      versions := versions[c := version];
      owners := owners[c := owner];
    }

    method Rename(c: Id, owner: string, name: string, now: int) returns (refused: Option<S.Refusal>)
      requires Valid()
      modifies this
      ensures Valid() && S.Did(S.Rename(old(View()), c, owner, name, now, Settings()), old(View()), View(), refused)
    {
      Known(items, leases, versions, owners);
      hide Aligned, Assembled, DistinctIds;
      if !Owned(c, owner, true) {
        return Some(S.NotFound);
      }
      var holder := Holder(c, now);
      if holder.Some? {
        return Some(S.Busy(holder.value));
      }
      var item := items[c].(name := naming.strip(name), updatedAt := now);
      PutItem(items, leases, versions, owners, c, item);
      items := items[c := item];
      refused := None;
    }

    method Archive(c: Id, owner: string, now: int) returns (refused: Option<S.Refusal>)
      requires Valid()
      modifies this
      ensures Valid() && S.Did(S.Archive(old(View()), c, owner, now), old(View()), View(), refused)
    {
      Known(items, leases, versions, owners);
      hide Aligned, Assembled, DistinctIds;
      if !Owned(c, owner, true) {
        return Some(S.NotFound);
      }
      var holder := Holder(c, now);
      if holder.Some? {
        return Some(S.Busy(holder.value));
      }
      PutItem(items, leases, versions, owners, c, items[c].(archivedAt := Some(now), updatedAt := now));
      items := items[c := items[c].(archivedAt := Some(now), updatedAt := now)];
      refused := None;
    }

    method Restore(c: Id, owner: string, now: int) returns (refused: Option<S.Refusal>)
      requires Valid()
      modifies this
      ensures Valid() && S.Did(S.Restore(old(View()), c, owner, now), old(View()), View(), refused)
    {
      Known(items, leases, versions, owners);
      hide Aligned, Assembled, DistinctIds;
      if !Owned(c, owner, false) {
        return Some(S.NotFound);
      }
      if items[c].archivedAt.None? {
        return Some(S.NotFound);
      }
      var holder := Holder(c, now);
      if holder.Some? {
        return Some(S.Busy(holder.value));
      }
      PutItem(items, leases, versions, owners, c, items[c].(archivedAt := None, updatedAt := now));
      items := items[c := items[c].(archivedAt := None, updatedAt := now)];
      refused := None;
    }

    method Purge(c: Id, owner: string, now: int) returns (refused: Option<S.Refusal>)
      requires Valid()
      modifies this
      ensures Valid() && S.Did(S.Purge(old(View()), c, owner, now), old(View()), View(), refused)
    {
      Known(items, leases, versions, owners);
      hide Aligned, Assembled, DistinctIds;
      if !Owned(c, owner, false) {
        return Some(S.NotFound);
      }
      if items[c].archivedAt.None? {
        return Some(S.WrongState);
      }
      var holder := Holder(c, now);
      if holder.Some? {
        return Some(S.Busy(holder.value));
      }
      Removed(items, leases, versions, owners, {c});
      items := items - {c};
      versions := versions - {c};
      owners := owners - {c};
      leases := leases - {c};
      refused := None;
    }

    /** Removes some conversations from all four maps. */
    method Forget(gone: set<Id>) returns (n: nat)
      requires Valid() && gone <= View().Keys
      modifies this
      ensures Valid() && View() == old(View()) - gone && n == S.Fewer(old(View()), View())
    {
      Removed(items, leases, versions, owners, gone);
      Known(items, leases, versions, owners);
      S.CountRemoved(View(), gone);
      hide Aligned, Assembled;
      items := items - gone;
      leases := leases - gone;
      versions := versions - gone;
      owners := owners - gone;
      n := |gone|;
    }

    method DeleteProject(project: string) returns (n: nat)
      requires Valid()
      modifies this
      ensures Valid() && View() == S.DeleteProject(old(View()), project) && n == S.Fewer(old(View()), View())
    {
      ProjectAre(items, leases, versions, owners, project);
      AssembledKeys(items, leases, versions, owners);
      hide Aligned, Assembled, S.DeleteProject, ProjectIds, S.Fewer;
      n := Forget(ProjectIds(items, project));
    }

    method Cleanup(now: int) returns (n: nat)
      requires Valid()
      modifies this
      ensures Valid() && View() == S.Cleanup(old(View()), now - retention) && n == S.Fewer(old(View()), View())
    {
      var cutoff := now - retention;
      ExpiredAre(items, leases, versions, owners, cutoff);
      AssembledKeys(items, leases, versions, owners);
      hide Aligned, Assembled, S.Cleanup, ExpiredIds, S.Fewer;
      var expired := ExpiredIds(items, cutoff);
      n := Forget(expired);
    }

    /** What an owner sees of a conversation and of its lease, told on the store as a whole. */
    lemma Looks(c: Id, owner: string, now: int)
      requires Valid()
      ensures forall active :: S.Owned(View(), c, owner, active) <==> Owned(c, owner, active)
      ensures c in items <==> c in View()
      ensures c in items ==>
                && (S.Leased(View()[c], now) <==> c in leases && leases[c].1 > now)
                && (c in leases ==> View()[c].lease.Some? && View()[c].lease.value.request == leases[c].0)
    {
      Known(items, leases, versions, owners);
      hide Aligned, Assembled, DistinctIds, S.Record;
    }

    lemma Leased(c: Id, lease: (string, int))
      requires Valid() && c in items
      ensures Aligned(items, leases[c := lease], versions, owners) && c in View()
      ensures
        Assembled(items, leases[c := lease], versions, owners) ==
        View()[c := View()[c].(lease := Some(S.Lease(lease.0, lease.1)))]
    {
      Known(items, leases, versions, owners);
      PutLease(items, leases, versions, owners, c, leases[c := lease]);
      hide Aligned, Assembled, DistinctIds, S.Record;
    }

    method AcquireRequest(c: Id, request: string, owner: string, now: int) returns (refused: Option<S.Refusal>)
      requires Valid()
      modifies this
      ensures Valid()
      ensures S.Did(S.Acquire(old(View()), c, request, owner, now, leaseSeconds), old(View()), View(), refused)
    {
      Looks(c, owner, now);
      hide Aligned, Assembled, S.Owned, S.Leased;
      if !Owned(c, owner, true) {
        return Some(S.NotFound);
      }
      if c in leases && leases[c].0 != request && leases[c].1 > now {
        return Some(S.Busy(leases[c].0));
      }
      Leased(c, (request, now + leaseSeconds));
      leases := leases[c := (request, now + leaseSeconds)];
      refused := None;
    }

    method ReleaseRequest(c: Id, request: string, owner: string) returns (refused: Option<S.Refusal>)
      requires Valid()
      modifies this
      ensures Valid() && S.Did(S.Release(old(View()), c, request, owner), old(View()), View(), refused)
    {
      Known(items, leases, versions, owners);
      hide Aligned, Assembled, DistinctIds;
      if !Owned(c, owner, false) {
        return Some(S.NotFound);
      }
      if c in leases && leases[c].0 == request {
        PutLease(items, leases, versions, owners, c, leases - {c});
        leases := leases - {c};
      }
      refused := None;
    }

    method Append(c: Id, owner: string, m: Message, now: int) returns (refused: Option<S.Refusal>)
      requires Valid() && (c in items ==> !HasId(items[c].messages, m.id))
      modifies this
      ensures Valid() && S.Did(S.Append(old(View()), c, owner, m, now, Settings()), old(View()), View(), refused)
    {
      Known(items, leases, versions, owners);
      hide Aligned, Assembled, DistinctIds;
      if !Owned(c, owner, true) {
        return Some(S.NotFound);
      }
      DistinctNext(items[c].messages, m);
      hide DistinctIds, HasId;
      var item := items[c].(messages := items[c].messages + [m], updatedAt := now);
      if m.role == User && item.name == S.NEW_CONVERSATION {
        item := item.(name := naming.derive(m.content));
      }
      PutItem(items, leases, versions, owners, c, item);
      items := items[c := item];
      refused := None;
    }

    /** Run after every answer; here a conversation that is gone by then is an error. */
    method PruneMessages(c: Id) returns (refused: Option<S.Refusal>)
      requires Valid()
      modifies this
      ensures Valid() && View() == S.PruneAt(old(View()), c, maxTurns)
      ensures refused == if c in old(items) then None else Some(S.NotFound)
    {
      Known(items, leases, versions, owners);
      hide Aligned, Assembled, DistinctIds, Prune;
      if c !in items {
        return Some(S.NotFound);
      }
      PruneDistinct(items[c].messages, maxTurns);
      var kept := PruneById(items[c].messages, maxTurns);
      PutItem(items, leases, versions, owners, c, items[c].(messages := kept));
      items := items[c := items[c].(messages := kept)];
      refused := None;
    }
  }
}
