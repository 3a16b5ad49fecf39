/** The phone's message table (Entities.kt, Daos.kt): one pure function per SQL statement,
    and the data access object that runs them in place. */
module MessageTable {
  import opened Wrappers
  import opened Identity

  datatype Status = Pending | Uploading | Synced | Failed | Quarantined | Excluded

  datatype Row = Row(sms: Sms, status: Status, syncedAt: Option<int>, attempts: nat, lastError: Option<string>)

  type Table = map<Id, Row>

  /** Every row is filed under the id its own content derives. */
  ghost predicate Keyed(t: Table) {
    forall id | id in t :: id == Of(t[id].sms)
  }

  /** `later` still holds every row of `earlier`, with the same content; statuses may differ. */
  ghost predicate Extends(earlier: Table, later: Table) {
    forall id | id in earlier :: id in later && later[id].sms == earlier[id].sms
  }

  predicate Queued(r: Row) {
    r.status.Pending? || r.status.Failed?
  }

  function Queue(t: Table): set<Id> {
    set id | id in t && Queued(t[id])
  }

  function Fresh(m: Sms): Row {
    Row(m, Pending, None, 0, None)
  }

  // ---- statements that change the table ----

  function Inserted(t: Table, m: Sms): Table {
    if Of(m) in t then t else t[Of(m) := Fresh(m)]
  }

  function MarkedUploading(t: Table, ids: seq<Id>): Table {
    map id | id in t :: if id in ids then t[id].(status := Uploading) else t[id]
  }

  function MarkedSynced(t: Table, ids: seq<Id>, at: int): Table {
    map id | id in t ::
      if id in ids then t[id].(status := Synced, syncedAt := Some(at), lastError := None) else t[id]
  }

  function MarkedFailed(t: Table, ids: seq<Id>, error: Option<string>): Table {
    map id | id in t ::
      if id in ids then t[id].(status := Failed, attempts := t[id].attempts + 1, lastError := error) else t[id]
  }

  function SetAside(t: Table, ids: seq<Id>, error: Option<string>): Table {
    map id | id in t ::
      if id in ids then t[id].(status := Quarantined, attempts := t[id].attempts + 1, lastError := error) else t[id]
  }

  predicate InWindow(m: Sms, from: int, to: int) {
    from <= m.receivedAt <= to
  }

  function WithheldBetween(t: Table, from: int, to: int): Table {
    map id | id in t ::
      if Queued(t[id]) && InWindow(t[id].sms, from, to) then t[id].(status := Excluded) else t[id]
  }

  function Requeued(t: Table): Table {
    map id | id in t :: if t[id].status.Uploading? then t[id].(status := Pending) else t[id]
  }

  predicate Prunable(r: Row, cutoff: int) {
    r.status.Synced? && r.syncedAt.Some? && r.syncedAt.value < cutoff
  }

  function Pruned(t: Table, cutoff: int): Table {
    map id | id in t && !Prunable(t[id], cutoff) :: t[id]
  }

  // ---- queries ----

  /** The ids of stored rows with this text received within the window (idsNear). */
  function Near(t: Table, m: Sms, window: nat): set<Id> {
    set id | id in t && t[id].sms.sender == m.sender && t[id].sms.body == m.body
             && InWindow(t[id].sms, m.receivedAt - window, m.receivedAt + window)
  }

  ghost predicate OldestFirst(t: Table, ids: seq<Id>) {
    && (forall id | id in ids :: id in t)
    && forall i, j | 0 <= i < j < |ids| :: t[ids[i]].sms.receivedAt <= t[ids[j]].sms.receivedAt
  }

  /** What `ORDER BY received_at LIMIT n` promises about a set of rows. SQL leaves the
      order of equal timestamps open, so this is a relation and not a function. */
  ghost predicate IsOldest(t: Table, from: set<Id>, limit: nat, ids: seq<Id>) {
    && NoDuplicates(ids)
    && (forall id | id in ids :: id in from)
    && |ids| == Min(limit, |from|)
    && OldestFirst(t, ids)
    && forall id, k | id in from && id in t && id !in ids && 0 <= k < |ids| ::
         t[ids[k]].sms.receivedAt <= t[id].sms.receivedAt
  }

  ghost predicate IsPendingBatch(t: Table, limit: nat, batch: seq<Id>) {
    IsOldest(t, Queue(t), limit, batch)
  }

  lemma BatchSize(t: Table, limit: nat, batch: seq<Id>)
    requires IsPendingBatch(t, limit, batch)
    ensures NoDuplicates(batch) && Elements(batch) <= Queue(t)
    ensures |Elements(batch)| == |batch| == Min(limit, |Queue(t)|)
    ensures |Queue(t) - Elements(batch)| == |Queue(t)| - |batch|
  {
    DistinctSize(batch);
    assert Queue(t) == Elements(batch) + (Queue(t) - Elements(batch));
  }

  lemma OldestRow(t: Table, from: set<Id>) returns (oldest: Id)
    requires from != {} && from <= t.Keys
    ensures oldest in from && forall id | id in from :: t[oldest].sms.receivedAt <= t[id].sms.receivedAt
  {
    var weight := (id: Id) => if id in t then t[id].sms.receivedAt else 0;
    oldest := LeastExists(from, weight);
    assert forall id | id in from :: weight(oldest) <= weight(id);
  }

  /** Whatever the ties, a batch can always be chosen. */
  lemma {:induction false} OldestExists(t: Table, from: set<Id>, limit: nat) returns (ids: seq<Id>)
    requires from <= t.Keys
    ensures IsOldest(t, from, limit, ids)
    decreases limit
  {
    if limit == 0 || from == {} {
      ids := [];
    } else {
      var first := OldestRow(t, from);
      var rest := OldestExists(t, from - {first}, limit - 1);
      ids := [first] + rest;
    }
  }

  /** Marking rows never touches what they say, which rows there are, or any other row. */
  lemma EditsKeepContent(t: Table, ids: seq<Id>, at: int, error: Option<string>)
    ensures Extends(t, MarkedUploading(t, ids)) && MarkedUploading(t, ids).Keys == t.Keys
    ensures Extends(t, MarkedSynced(t, ids, at)) && MarkedSynced(t, ids, at).Keys == t.Keys
    ensures Extends(t, MarkedFailed(t, ids, error)) && MarkedFailed(t, ids, error).Keys == t.Keys
    ensures Extends(t, SetAside(t, ids, error)) && SetAside(t, ids, error).Keys == t.Keys
  {
  }

  /** The data access object: the table is a field its statements reassign. */
  class MessageDao {
    var rows: Table

    constructor ()
      ensures rows == map[]
    {
      rows := map[];
    }

    /** OnConflictStrategy.IGNORE: an id already stored keeps its row, whatever its status. */
    method Insert(m: Sms) returns (stored: bool)
      modifies this
      ensures rows == Inserted(old(rows), m)
      ensures stored <==> Of(m) !in old(rows)
    {
      stored := Of(m) !in rows;
      if stored {
        rows := rows[Of(m) := Fresh(m)];
      }
    }

    /** The named rows leave the queue; what they say, and every other row, stays. */
    method MarkUploading(ids: seq<Id>)
      modifies this
      ensures rows.Keys == old(rows).Keys && Queue(rows) == Queue(old(rows)) - Elements(ids)
      ensures forall id | id in rows && id in ids :: rows[id] == old(rows)[id].(status := Uploading)
      ensures forall id | id in rows && id !in ids :: rows[id] == old(rows)[id]
      ensures rows == MarkedUploading(old(rows), ids)
    {
      rows := MarkedUploading(rows, ids);
    }

    /** The named rows leave the queue, confirmed at `at` and without an error. */
    method MarkSynced(ids: seq<Id>, at: int)
      modifies this
      ensures rows.Keys == old(rows).Keys && Queue(rows) == Queue(old(rows)) - Elements(ids)
      ensures forall id | id in rows && id in ids ::
                rows[id].status.Synced? && rows[id].syncedAt == Some(at) && rows[id].lastError.None?
                && rows[id].sms == old(rows)[id].sms && rows[id].attempts == old(rows)[id].attempts
      ensures forall id | id in rows && id !in ids :: rows[id] == old(rows)[id]
      ensures rows == MarkedSynced(old(rows), ids, at)
    {
      rows := MarkedSynced(rows, ids, at);
    }

    /** The named rows are back in the queue, one more attempt behind them. */
    method MarkFailed(ids: seq<Id>, error: Option<string>)
      modifies this
      ensures rows.Keys == old(rows).Keys
      ensures Queue(rows) == Queue(old(rows)) + Elements(ids) * rows.Keys
      ensures forall id | id in rows && id in ids ::
                rows[id].status.Failed? && rows[id].attempts == old(rows)[id].attempts + 1
                && rows[id].lastError == error && rows[id].sms == old(rows)[id].sms
                && rows[id].syncedAt == old(rows)[id].syncedAt
      ensures forall id | id in rows && id !in ids :: rows[id] == old(rows)[id]
      ensures rows == MarkedFailed(old(rows), ids, error)
    {
      rows := MarkedFailed(rows, ids, error);
    }

    /** The named rows leave the queue for good, with the reason on record. */
    method Quarantine(ids: seq<Id>, error: Option<string>)
      modifies this
      ensures rows.Keys == old(rows).Keys && Queue(rows) == Queue(old(rows)) - Elements(ids)
      ensures forall id | id in rows && id in ids ::
                rows[id].status.Quarantined? && rows[id].attempts == old(rows)[id].attempts + 1
                && rows[id].lastError == error && rows[id].sms == old(rows)[id].sms
                && rows[id].syncedAt == old(rows)[id].syncedAt
      ensures forall id | id in rows && id !in ids :: rows[id] == old(rows)[id]
      ensures rows == SetAside(old(rows), ids, error)
    {
      rows := SetAside(rows, ids, error);
    }

    method ExcludeReceivedBetween(from: int, to: int) returns (held: nat)
      modifies this
      ensures rows == WithheldBetween(old(rows), from, to)
      ensures held == |Queue(old(rows)) - Queue(rows)|
    {
      held := |set id | id in rows && Queued(rows[id]) && InWindow(rows[id].sms, from, to)|;
      ghost var before := rows;
      rows := WithheldBetween(rows, from, to);
      assert Queue(before) - Queue(rows)
          == set id | id in before && Queued(before[id]) && InWindow(before[id].sms, from, to);
    }

    /** No row is left in UPLOADING: those that were are queued again. */
    method RequeueStranded()
      modifies this
      ensures rows.Keys == old(rows).Keys && forall id | id in rows :: !rows[id].status.Uploading?
      ensures Queue(rows) == Queue(old(rows)) + set id | id in old(rows) && old(rows)[id].status.Uploading?
      ensures forall id | id in rows && !old(rows)[id].status.Uploading? :: rows[id] == old(rows)[id]
      ensures forall id | id in rows :: rows[id].(status := Pending) == old(rows)[id].(status := Pending)
      ensures rows == Requeued(old(rows))
    {
      rows := Requeued(rows);
    }

    method DeleteSyncedBefore(cutoff: int) returns (removed: nat)
      modifies this
      ensures rows == Pruned(old(rows), cutoff)
      ensures removed == |old(rows)| - |rows|
    {
      var before := rows;
      rows := Pruned(rows, cutoff);
      removed := |before.Keys - rows.Keys|;
      assert before.Keys == rows.Keys + (before.Keys - rows.Keys);
    }

    /** `ORDER BY received_at ASC LIMIT :limit` over any set of rows. */
    method SelectOldest(from: set<Id>, limit: nat) returns (ids: seq<Id>)
      requires from <= rows.Keys
      ensures IsOldest(rows, from, limit, ids)
    {
      ids := [];
      var rest := from;
      while |ids| < limit && rest != {}
        invariant rest <= from
        invariant forall id :: id in from <==> id in rest || id in ids
        invariant forall id | id in ids :: id !in rest
        invariant |ids| + |rest| == |from| && |ids| <= limit
        invariant NoDuplicates(ids) && OldestFirst(rows, ids)
        invariant forall id, k | id in rest && 0 <= k < |ids| ::
                    rows[ids[k]].sms.receivedAt <= rows[id].sms.receivedAt
        decreases rest
      {
        ghost var oldest := OldestRow(rows, rest);
        var next :| next in rest && forall id | id in rest :: rows[next].sms.receivedAt <= rows[id].sms.receivedAt;
        ids, rest := ids + [next], rest - {next};
      }
    }

    method PendingBatch(limit: nat) returns (batch: seq<Id>)
      ensures IsPendingBatch(rows, limit, batch)
    {
      batch := SelectOldest(Queue(rows), limit);
    }

    method IdsNear(m: Sms, window: nat) returns (ids: seq<Id>)
      ensures Elements(ids) == Near(rows, m, window)
      ensures OldestFirst(rows, ids) && NoDuplicates(ids)
    {
      var near := Near(rows, m, window);
      ids := SelectOldest(near, |near|);
      DistinctSize(ids);
      SubsetSize(Elements(ids), near);
    }
  }
}
