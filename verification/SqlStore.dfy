/** The durable store: one row per conversation, with its lease in two columns, and message rows in ordinal order. */
module SqlStore {
  import opened Wrappers
  import opened Exchanges
  import S = Conversations

  type Id = S.Id

  datatype MessageRow = MessageRow(rowId: nat, ordinal: nat, message: Message)

  datatype Row = Row(
    name: Option<string>, project: string, version: Option<string>, owner: string, createdAt: int, updatedAt: int,
    archivedAt: Option<int>, activeRequest: Option<string>, leaseUntil: Option<int>, messages: seq<MessageRow>)

  function MessagesOf(rows: seq<MessageRow>): (ms: seq<Message>)
    ensures |ms| == |rows| && forall i :: 0 <= i < |rows| ==> ms[i] == rows[i].message
  {
    seq(|rows|, i requires 0 <= i < |rows| => rows[i].message)
  }

  function RowIds(rows: seq<MessageRow>): (ids: seq<nat>)
    ensures |ids| == |rows| && forall i :: 0 <= i < |rows| ==> ids[i] == rows[i].rowId
  {
    seq(|rows|, i requires 0 <= i < |rows| => rows[i].rowId)
  }

  /** Row ids grow and so do ordinals, so reading by ordinal reads in the order of writing. */
  ghost predicate InOrder(rows: seq<MessageRow>, nextRowId: nat) {
    && (forall i :: 0 <= i < |rows| ==> rows[i].rowId < nextRowId)
    && (forall i, j :: 0 <= i < j < |rows| ==> rows[i].rowId < rows[j].rowId && rows[i].ordinal < rows[j].ordinal)
  }

  ghost predicate RowGood(row: Row, nextRowId: nat) {
    (row.activeRequest.Some? <==> row.leaseUntil.Some?) && InOrder(row.messages, nextRowId)
  }

  function Whole(row: Row): S.Conversation {
    S.Conversation(
      row.name, row.project, row.version, row.owner, row.createdAt, row.updatedAt, row.archivedAt,
      if row.activeRequest.Some? && row.leaseUntil.Some?
      then Some(S.Lease(row.activeRequest.value, row.leaseUntil.value))
      else None,
      MessagesOf(row.messages))
  }

  function Assembled(rows: map<Id, Row>): S.Store { map c | c in rows :: Whole(rows[c]) }

  ghost predicate AllGood(rows: map<Id, Row>, nextRowId: nat) { forall c :: c in rows ==> RowGood(rows[c], nextRowId) }

  lemma PutRow(rows: map<Id, Row>, n: nat, c: Id, row: Row, n': nat)
    requires AllGood(rows, n) && n <= n' && RowGood(row, n')
    ensures AllGood(rows[c := row], n')
    ensures Assembled(rows[c := row]) == Assembled(rows)[c := Whole(row)]
  {
    hide Whole;
  }

  lemma Known(rows: map<Id, Row>, n: nat)
    requires AllGood(rows, n)
    ensures Assembled(rows).Keys == rows.Keys
    ensures forall c :: c in rows ==> Assembled(rows)[c] == Whole(rows[c]) && RowGood(rows[c], n)
  {
    hide Whole;
  }

  lemma AssembledKeys(rows: map<Id, Row>)
    ensures Assembled(rows).Keys == rows.Keys
  {
    hide Whole;
  }

  function ExpiredIds(rows: map<Id, Row>, cutoff: int): set<Id> {
    set c | c in rows && rows[c].archivedAt.Some? && rows[c].archivedAt.value < cutoff
  }

  function ProjectIds(rows: map<Id, Row>, project: string): set<Id> { set c | c in rows && rows[c].project == project }

  lemma ExpiredAre(rows: map<Id, Row>, cutoff: int)
    ensures ExpiredIds(rows, cutoff) <= Assembled(rows).Keys
    ensures S.Cleanup(Assembled(rows), cutoff) == Assembled(rows) - ExpiredIds(rows, cutoff)
  {
    hide MessagesOf, S.Cleanup;
    S.CleanupIs(Assembled(rows), cutoff, ExpiredIds(rows, cutoff));
  }

  lemma ProjectAre(rows: map<Id, Row>, project: string)
    ensures ProjectIds(rows, project) <= Assembled(rows).Keys
    ensures S.DeleteProject(Assembled(rows), project) == Assembled(rows) - ProjectIds(rows, project)
  {
    hide MessagesOf, S.DeleteProject;
    S.DeleteProjectIs(Assembled(rows), project, ProjectIds(rows, project));
  }

  // ----- pruning by row id -----

  method CompleteExchangeRowIds(rows: seq<MessageRow>) returns (exchanges: seq<(nat, nat)>)
    ensures Named(rows, ScanOf(MessagesOf(rows)).pairs, exchanges)
  {
    exchanges := [];
    var pending: Option<MessageRow> := None;
    ghost var ms := MessagesOf(rows);
    for i := 0 to |rows|
      invariant Named(rows, ScanOf(ms[..i]).pairs, exchanges)
      invariant pending.Some? <==> ScanOf(ms[..i]).pending.Some?
      invariant pending.Some? ==>
                  ScanOf(ms[..i]).pending.value < |rows| && pending.value == rows[ScanOf(ms[..i]).pending.value]
    {
      var row := rows[i];
      assert ms[..i + 1][..i] == ms[..i];
      if row.message.role == User && row.message.status == "completed" {
        pending := Some(row);
      } else if row.message.role == Assistant && row.message.status == "completed" && pending.Some? {
        exchanges := exchanges + [(pending.value.rowId, row.rowId)];
        pending := None;
      }
    }
    assert ms[..|ms|] == ms;
  }

  /** The same pairs, by row id. */
  ghost predicate Named(rows: seq<MessageRow>, pairs: seq<(nat, nat)>, exchanges: seq<(nat, nat)>) {
    && |exchanges| == |pairs|
    && forall k :: 0 <= k < |pairs| ==>
                     && pairs[k].0 < |rows| && pairs[k].1 < |rows|
                     && exchanges[k] == (rows[pairs[k].0].rowId, rows[pairs[k].1].rowId)
  }

  method RowIdsToRemove(rows: seq<MessageRow>, exchanges: seq<(nat, nat)>, excess: nat) returns (remove: set<nat>)
    requires Named(rows, ScanOf(MessagesOf(rows)).pairs, exchanges) && excess <= |exchanges|
    ensures excess <= |ScanOf(MessagesOf(rows)).pairs|
    ensures Marks(RowIds(rows), Dropped(ScanOf(MessagesOf(rows)).pairs, excess), remove)
  {
    ghost var pairs := ScanOf(MessagesOf(rows)).pairs;
    remove := {};
    hide ScanOf, Marks, Dropped;
    NothingMarked(RowIds(rows), pairs);
    for i := 0 to excess
      invariant Marks(RowIds(rows), Dropped(pairs, i), remove)
    {
      MarksNext(RowIds(rows), pairs, i, remove);
      remove := remove + {exchanges[i].0, exchanges[i].1};
    }
  }

  method WithoutRowIds(rows: seq<MessageRow>, remove: set<nat>, ghost dropped: set<nat>, ghost n: nat)
    returns (kept: seq<MessageRow>)
    requires InOrder(rows, n) && Marks(RowIds(rows), dropped, remove)
    ensures kept == Keep(rows, dropped)
  {
    hide Marks, Keep;
    kept := [];
    NothingKept<MessageRow>(dropped);
    for i := 0 to |rows|
      invariant kept == Keep(rows[..i], dropped)
    {
      KeepNext(rows, dropped, i);
      Marked(RowIds(rows), dropped, remove, i);
      if rows[i].rowId !in remove {
        kept := kept + [rows[i]];
      }
    }
    assert rows[..|rows|] == rows;
  }

  lemma {:induction false} KeepMessages(rows: seq<MessageRow>, dropped: set<nat>)
    ensures MessagesOf(Keep(rows, dropped)) == Keep(MessagesOf(rows), dropped)
  {
    if rows != [] {
      var init := rows[..|rows| - 1];
      KeepMessages(init, dropped);
      KeepLast(rows, dropped);
      KeepLast(MessagesOf(rows), dropped);
      assert MessagesOf(rows)[..|rows| - 1] == MessagesOf(init);
    }
  }

  lemma {:induction false} KeepInOrder(rows: seq<MessageRow>, dropped: set<nat>, n: nat)
    requires InOrder(rows, n)
    ensures InOrder(Keep(rows, dropped), n)
    ensures forall i :: 0 <= i < |Keep(rows, dropped)| ==>
                          && |rows| > 0 && Keep(rows, dropped)[i].rowId <= rows[|rows| - 1].rowId
                          && Keep(rows, dropped)[i].ordinal <= rows[|rows| - 1].ordinal
  {
    if rows != [] {
      var init := rows[..|rows| - 1];
      KeepInOrder(init, dropped, n);
      KeepLast(rows, dropped);
      hide Keep;
      assert init != [] ==> init[|init| - 1] == rows[|rows| - 2];
    }
  }

  /** Pruning by row id drops the same messages as pruning by message id. */
  method PruneByRowId(rows: seq<MessageRow>, maxTurns: nat, ghost n: nat) returns (kept: seq<MessageRow>)
    requires InOrder(rows, n)
    ensures MessagesOf(kept) == Prune(MessagesOf(rows), maxTurns) && InOrder(kept, n)
  {
    var exchanges := CompleteExchangeRowIds(rows);
    var excess := |exchanges| - maxTurns;
    if excess <= 0 {
      NothingDropped(MessagesOf(rows));
      return rows;
    }
    hide ScanOf, Marks, Dropped, Keep, InOrder;
    var remove := RowIdsToRemove(rows, exchanges, excess);
    ghost var dropped := Dropped(ScanOf(MessagesOf(rows)).pairs, excess);
    kept := WithoutRowIds(rows, remove, dropped, n);
    KeepMessages(rows, dropped);
    KeepInOrder(rows, dropped, n);
  }

  class SQLAlchemyConversationStore {
    var rows: map<Id, Row>
    var nextRowId: nat
    const maxTurns: nat
    const leaseSeconds: nat
    const retention: int
    const naming: S.Naming

    ghost function Settings(): S.Config { S.Config(maxTurns, leaseSeconds, retention, naming, false) }

    ghost predicate Valid()
      reads this
    {
      AllGood(rows, nextRowId)
    }

    ghost function View(): S.Store
      reads this
    {
      Assembled(rows)
    }

    constructor (maxTurns: nat, leaseSeconds: nat, retention: int, naming: S.Naming)
      ensures Valid() && View() == map[]
      ensures Settings() == S.Config(maxTurns, leaseSeconds, retention, naming, false)
    {
      rows, nextRowId := map[], 0;
      this.maxTurns, this.leaseSeconds, this.retention, this.naming := maxTurns, leaseSeconds, retention, naming;
    }

    /** The row of an owner's conversation, if there is one. */
    function GetRow(c: Id, owner: string, activeOnly: bool): Option<Row>
      reads this
    {
      if c in rows && rows[c].owner == owner && (activeOnly ==> rows[c].archivedAt.None?) then Some(rows[c]) else None
    }

    static function ActiveLease(row: Row, now: int): Option<string> {
      if row.activeRequest.Some? && row.leaseUntil.Some? && row.leaseUntil.value > now then row.activeRequest else None
    }

    method Create(c: Id, project: string, version: Option<string>, owner: string, now: int)
      requires Valid() && c !in rows
      modifies this
      ensures Valid() && View() == S.Create(old(View()), c, project, version, owner, now)
    {
      var row := Row(None, project, version, owner, now, now, None, None, None, []);
      PutRow(rows, nextRowId, c, row, nextRowId);
      hide AllGood, Assembled;
      rows := rows[c := row];
    }

    method Rename(c: Id, owner: string, name: string, now: int) returns (refused: Option<S.Refusal>)
      requires Valid()
      modifies this
      ensures Valid() && S.Did(S.Rename(old(View()), c, owner, name, now, Settings()), old(View()), View(), refused)
    {
      Known(rows, nextRowId);
      hide AllGood, Assembled, InOrder;
      var row := GetRow(c, owner, true);
      if row.None? {
        return Some(S.NotFound);
      }
      var holder := ActiveLease(row.value, now);
      if holder.Some? {
        return Some(S.Busy(holder.value));
      }
      var updated := row.value.(name := Some(naming.strip(name)), updatedAt := now);
      PutRow(rows, nextRowId, c, updated, nextRowId);
      rows := rows[c := updated];
      refused := None;
    }

    method Archive(c: Id, owner: string, now: int) returns (refused: Option<S.Refusal>)
      requires Valid()
      modifies this
      ensures Valid() && S.Did(S.Archive(old(View()), c, owner, now), old(View()), View(), refused)
    {
      Known(rows, nextRowId);
      hide AllGood, Assembled, InOrder;
      var row := GetRow(c, owner, true);
      if row.None? {
        return Some(S.NotFound);
      }
      var holder := ActiveLease(row.value, now);
      if holder.Some? {
        return Some(S.Busy(holder.value));
      }
      PutRow(rows, nextRowId, c, row.value.(archivedAt := Some(now), updatedAt := now), nextRowId);
      rows := rows[c := row.value.(archivedAt := Some(now), updatedAt := now)];
      refused := None;
    }

    method Restore(c: Id, owner: string, now: int) returns (refused: Option<S.Refusal>)
      requires Valid()
      modifies this
      ensures Valid() && S.Did(S.Restore(old(View()), c, owner, now), old(View()), View(), refused)
    {
      Known(rows, nextRowId);
      hide AllGood, Assembled, InOrder;
      var row := GetRow(c, owner, false);
      if row.None? {
        return Some(S.NotFound);
      }
      if row.value.archivedAt.None? {
        return Some(S.NotFound);
      }
      var holder := ActiveLease(row.value, now);
      if holder.Some? {
        return Some(S.Busy(holder.value));
      }
      PutRow(rows, nextRowId, c, row.value.(archivedAt := None, updatedAt := now), nextRowId);
      rows := rows[c := row.value.(archivedAt := None, updatedAt := now)];
      refused := None;
    }

    method Purge(c: Id, owner: string, now: int) returns (refused: Option<S.Refusal>)
      requires Valid()
      modifies this
      ensures Valid() && S.Did(S.Purge(old(View()), c, owner, now), old(View()), View(), refused)
    {
      Known(rows, nextRowId);
      Filtered(rows, nextRowId, {c});
      hide AllGood, Assembled, InOrder;
      var row := GetRow(c, owner, false);
      if row.None? {
        return Some(S.NotFound);
      }
      if row.value.archivedAt.None? {
        return Some(S.WrongState);
      }
      var holder := ActiveLease(row.value, now);
      if holder.Some? {
        return Some(S.Busy(holder.value));
      }
      rows := rows - {c};
      refused := None;
    }

    /** One delete statement; the database says how many rows it removed. */
    method Forget(gone: set<Id>) returns (n: nat)
      requires Valid() && gone <= View().Keys
      modifies this
      ensures Valid() && View() == old(View()) - gone && n == S.Fewer(old(View()), View())
    {
      Filtered(rows, nextRowId, gone);
      S.CountRemoved(View(), gone);
      hide AllGood, Assembled;
      rows := rows - gone;
      n := |gone|;
    }

    method DeleteProject(project: string) returns (n: nat)
      requires Valid()
      modifies this
      ensures Valid() && View() == S.DeleteProject(old(View()), project) && n == S.Fewer(old(View()), View())
    {
      ProjectAre(rows, project);
      hide AllGood, Assembled, S.DeleteProject, ProjectIds, S.Fewer;
      n := Forget(ProjectIds(rows, project));
    }

    method Cleanup(now: int) returns (n: nat)
      requires Valid()
      modifies this
      ensures Valid() && View() == S.Cleanup(old(View()), now - retention) && n == S.Fewer(old(View()), View())
    {
      ExpiredAre(rows, now - retention);
      hide AllGood, Assembled, S.Cleanup, ExpiredIds, S.Fewer;
      n := Forget(ExpiredIds(rows, now - retention));
    }

    /** One conditional update; only when it matches nothing is the reason looked up. */
    method AcquireRequest(c: Id, request: string, owner: string, now: int) returns (refused: Option<S.Refusal>)
      requires Valid()
      modifies this
      ensures Valid()
      ensures S.Did(S.Acquire(old(View()), c, request, owner, now, leaseSeconds), old(View()), View(), refused)
    {
      Known(rows, nextRowId);
      hide AllGood, Assembled, InOrder;
      var row := GetRow(c, owner, true);
      if row.Some? && (row.value.activeRequest.None? || row.value.leaseUntil.None? || row.value.leaseUntil.value <= now
                       || row.value.activeRequest.value == request) {
        var updated := row.value.(activeRequest := Some(request), leaseUntil := Some(now + leaseSeconds));
        PutRow(rows, nextRowId, c, updated, nextRowId);
        rows := rows[c := updated];
        return None;
      }
      var active := if row.Some? then row.value.activeRequest else None;
      if active.None? {
        return Some(S.NotFound);
      }
      refused := Some(S.Busy(active.value));
    }

    method ReleaseRequest(c: Id, request: string, owner: string) returns (refused: Option<S.Refusal>)
      requires Valid()
      modifies this
      ensures Valid() && S.Did(S.Release(old(View()), c, request, owner), old(View()), View(), refused)
    {
      Known(rows, nextRowId);
      hide AllGood, Assembled, InOrder;
      var row := GetRow(c, owner, false);
      if row.Some? && row.value.activeRequest == Some(request) {
        var updated := row.value.(activeRequest := None, leaseUntil := None);
        PutRow(rows, nextRowId, c, updated, nextRowId);
        rows := rows[c := updated];
        return None;
      }
      if row.None? {
        return Some(S.NotFound);
      }
      refused := None;
    }

    method Append(c: Id, owner: string, m: Message, now: int) returns (refused: Option<S.Refusal>)
      requires Valid()
      modifies this
      ensures Valid() && S.Did(S.Append(old(View()), c, owner, m, now, Settings()), old(View()), View(), refused)
    {
      Known(rows, nextRowId);
      hide AllGood, Assembled;
      var row := GetRow(c, owner, true);
      if row.None? {
        return Some(S.NotFound);
      }
      var messages := row.value.messages;
      var ordinal := LastOrdinal(messages) + 1;
      LastOrdinalIs(messages);
      var added := MessageRow(nextRowId, ordinal, m);
      assert MessagesOf(messages + [added]) == MessagesOf(messages) + [m];
      assert InOrder(messages + [added], nextRowId + 1);
      hide InOrder, MessagesOf;
      var updated := row.value.(messages := messages + [added], updatedAt := now);
      if m.role == User && updated.name.None? {
        updated := updated.(name := Some(naming.derive(m.content)));
      }
      PutRow(rows, nextRowId, c, updated, nextRowId + 1);
      rows := rows[c := updated];
      nextRowId := nextRowId + 1;
      refused := None;
    }

    /** Run after every answer; here a conversation that is gone by then has no messages to prune. */
    method PruneMessages(c: Id)
      requires Valid()
      modifies this
      ensures Valid() && View() == S.PruneAt(old(View()), c, maxTurns)
    {
      Known(rows, nextRowId);
      hide AllGood, Assembled, InOrder, Prune, MessagesOf;
      if c in rows {
        var kept := PruneByRowId(rows[c].messages, maxTurns, nextRowId);
        PutRow(rows, nextRowId, c, rows[c].(messages := kept), nextRowId);
        rows := rows[c := rows[c].(messages := kept)];
      }
    }
  }

  lemma Filtered(rows: map<Id, Row>, n: nat, gone: set<Id>)
    requires AllGood(rows, n)
    ensures AllGood(rows - gone, n) && Assembled(rows - gone) == Assembled(rows) - gone
  {
    hide Whole;
  }

  /** The largest ordinal, 0 if there is none. */
  function LastOrdinal(rows: seq<MessageRow>): nat {
    if rows == [] then 0
    else if rows[0].ordinal > LastOrdinal(rows[1..]) then rows[0].ordinal
    else LastOrdinal(rows[1..])
  }

  lemma {:induction false} LastOrdinalIs(rows: seq<MessageRow>)
    ensures forall i :: 0 <= i < |rows| ==> rows[i].ordinal <= LastOrdinal(rows)
  {
    if rows != [] {
      LastOrdinalIs(rows[1..]);
      assert forall i :: 1 <= i < |rows| ==> rows[i] == rows[1..][i - 1];
    }
  }
}
