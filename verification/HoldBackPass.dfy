/** Which messages of a paused session the pass that applies its window holds back
    (TsunagiRepository.sync), and which ones slip past it. */
module HoldBackPass {
  import opened Wrappers
  import opened Identity
  import opened MessageTable
  import opened UploadPass
  import opened SyncEngine
  import Delivery
  import InboxSweep
  import SweepCatchUp

  /** The table a pass uploads from, given what its sweep read and the window it applies. */
  ghost function Prepared(t: Table, read: InboxRead, window: Option<(int, int)>): Table {
    Withholding(Requeued(SweptTable(t, read)), window)
  }

  ghost predicate HeldBack(t: Table, m: Sms) {
    Delivery.OnPhone(t, m) && t[Of(m)].status.Excluded?
  }

  /** Still on its way to the server, whether queued or stranded in an upload. */
  ghost predicate Outgoing(t: Table, m: Sms) {
    Delivery.OnPhone(t, m) && (Queued(t[Of(m)]) || t[Of(m)].status.Uploading?)
  }

  ghost predicate StoredBySweep(t: Table, read: InboxRead, m: Sms) {
    Of(m) !in t && Delivery.OnPhone(SweptTable(t, read), m)
  }

  lemma SweptRows(t: Table, read: InboxRead)
    ensures t.Keys <= SweptTable(t, read).Keys
    ensures forall id | id in t :: SweptTable(t, read)[id] == t[id]
    ensures forall id | id in SweptTable(t, read) && id !in t :: SweptTable(t, read)[id].status == Pending
    ensures Keyed(t) ==> Keyed(SweptTable(t, read))
  {
    if read.Read? {
      InboxSweep.SweepOnlyAdds(InboxSweep.Begin(t), Messages(read.messages));
    }
  }

  /** Before anything is uploaded, a message of the window is held back exactly when it was on
      its way or held back already, or the sweep of this very pass stored it. */
  lemma PreparedExactly(t: Table, read: InboxRead, window: (int, int), m: Sms)
    requires InWindow(m, window.0, window.1)
    ensures HeldBack(Prepared(t, read, Some(window)), m)
       <==> Outgoing(t, m) || HeldBack(t, m) || StoredBySweep(t, read, m)
  {
    hide Of, SweptTable;
    SweptRows(t, read);
  }

  /** The sweep stores a message that is not on hand exactly when it comes upon it, at one of its
      places in what was read, with every row it could be taken for claimed before. */
  lemma StoredBySweepExactly(t: Table, read: InboxRead, m: Sms)
    requires Delivery.GenuineRows(t) && NulFree(m.sender)
    requires read.Read? ==> forall c | c in Messages(read.messages) :: NulFree(c.sender)
    ensures StoredBySweep(t, read, m)
       <==> && Of(m) !in t && read.Read?
            && exists k: nat :: InboxSweep.FindsNothing(t, Messages(read.messages), k, Of(m))
  {
    if read.Read? && Of(m) !in t {
      var candidates := Messages(read.messages);
      InboxSweep.StoredExactlyWhen(t, candidates, Of(m));
      Delivery.SweptIsGenuine(InboxSweep.Begin(t), candidates);
      if Of(m) in SweptTable(t, read) {
        Injective(m, SweptTable(t, read)[Of(m)].sms);
      }
    }
  }

  // ---- through the upload ----

  ghost predicate SameExcluded(t: Table, after: Table) {
    && after.Keys == t.Keys && Extends(t, after)
    && forall id | id in t :: after[id].status.Excluded? <==> t[id].status.Excluded?
  }

  /** The answers refuse only messages they were sent; against the server of this project they
      always do. */
  ghost predicate RefusalsInBatch(turns: seq<Turn>) {
    forall turn | turn in turns :: RefusedBy(turn) <= Elements(turn.batch)
  }

  lemma TurnKeepsExcluded(p: Pass, turn: Turn)
    requires Legal(p, turn) && RefusedBy(turn) <= Elements(turn.batch)
    ensures SameExcluded(p.table, Take(p, turn).table)
  {
    hide Take, IsPendingBatch, RefusedBy;
    TurnEffect(p, turn);
    BatchSize(p.table, p.width, turn.batch);
    assert forall id | id in Elements(turn.batch) :: id in Queue(p.table);
  }

  lemma {:induction false} UploadKeepsExcluded(t: Table, turns: seq<Turn>)
    requires LegalRun(Start(t), turns) && RefusalsInBatch(turns)
    ensures SameExcluded(t, Final(Start(t), turns).table)
  {
    hide Take, Legal, RefusedBy;
    if turns != [] {
      var before, last := turns[..|turns| - 1], turns[|turns| - 1];
      assert forall turn | turn in before :: turn in turns;
      UploadKeepsExcluded(t, before);
      TurnKeepsExcluded(Final(Start(t), before), last);
    }
  }

  /** However the pass goes on, a message is held back after it exactly when it was held back
      before the first upload: nothing is released, and nothing else is withheld. */
  lemma PassKeepsExcluded(queued: Table, turns: seq<Turn>, rows: Table, outcome: SyncOutcome,
                          retentionDays: int, now: int, m: Sms)
    requires Passed(queued, turns, rows, outcome, retentionDays, now) && RefusalsInBatch(turns)
    ensures HeldBack(rows, m) <==> HeldBack(queued, m)
  {
    hide Final, LegalRun, RefusalsInBatch, Of, Queue;
    if !Stopped(queued, turns, rows, outcome) {
      UploadKeepsExcluded(queued, turns);
    }
  }

  /** The whole pass: a message received inside the window is EXCLUDED after it if and only if
      it was queued, stranded or held back on the phone, or the pass's sweep read and stored it. */
  lemma HeldBackExactlyWhen(t: Table, read: InboxRead, window: (int, int), turns: seq<Turn>, rows: Table,
                            outcome: SyncOutcome, retentionDays: int, now: int, m: Sms)
    requires Passed(Prepared(t, read, Some(window)), turns, rows, outcome, retentionDays, now)
    requires RefusalsInBatch(turns) && InWindow(m, window.0, window.1)
    ensures HeldBack(rows, m) <==> Outgoing(t, m) || HeldBack(t, m) || StoredBySweep(t, read, m)
  {
    hide Passed, Prepared, HeldBack, Outgoing, StoredBySweep, RefusalsInBatch;
    PassKeepsExcluded(Prepared(t, read, Some(window)), turns, rows, outcome, retentionDays, now, m);
    PreparedExactly(t, read, window, m);
  }

  /** Said by the list that was read: EXCLUDED after the pass if and only if it was on its way or
      held back already, or was not on hand and the sweep came upon it with no free row near. */
  lemma HeldBackByList(t: Table, read: InboxRead, window: (int, int), turns: seq<Turn>, rows: Table,
                       outcome: SyncOutcome, retentionDays: int, now: int, m: Sms)
    requires Delivery.GenuineRows(t) && NulFree(m.sender)
    requires read.Read? ==> forall c | c in Messages(read.messages) :: NulFree(c.sender)
    requires Passed(Prepared(t, read, Some(window)), turns, rows, outcome, retentionDays, now)
    requires RefusalsInBatch(turns) && InWindow(m, window.0, window.1)
    ensures HeldBack(rows, m)
       <==> || Outgoing(t, m) || HeldBack(t, m)
            || (&& Of(m) !in t && read.Read?
                && exists k: nat :: InboxSweep.FindsNothing(t, Messages(read.messages), k, Of(m)))
  {
    hide *;
    HeldBackExactlyWhen(t, read, window, turns, rows, outcome, retentionDays, now, m);
    StoredBySweepExactly(t, read, m);
  }

  // ---- what slips past the window ----

  /** The window is gone after one pass. A message that pass neither had nor stored is queued
      for upload as soon as a later sweep stores it. */
  lemma MissedIsQueued(rows: Table, later: InboxRead, m: Sms)
    requires StoredBySweep(rows, later, m)
    ensures Of(m) in Queue(Prepared(rows, later, None))
  {
    hide Of, SweptTable;
    SweptRows(rows, later);
  }

  /** A sweep that finds a message and no other row of its text stores it. */
  lemma LoneMessageIsStored(t: Table, m: Sms, storedAt: int)
    requires Of(m) !in t && forall id | id in t :: t[id].sms.sender != m.sender
    ensures StoredBySweep(t, Read([InboxMessage(0, m, storedAt)]), m)
  {
    hide Of;
    assert Messages([InboxMessage(0, m, storedAt)]) == [m];
    assert [m][..0] == [] && InboxSweep.Swept(InboxSweep.Begin(t), []) == InboxSweep.Begin(t);
    assert Near(t, m, InboxSweep.MATCH_WINDOW) - {} == {};
  }

  /** First way past: the inbox could not be read in the pass that applied the window. The next
      sweep stores the message and it goes up, though it arrived in the session. */
  lemma UnreadableSweepLetsThrough(m: Sms, window: (int, int), storedAt: int)
    requires InWindow(m, window.0, window.1)
    ensures var rows := Prepared(map[], Unavailable, Some(window));
            !HeldBack(rows, m) && Of(m) in Queue(Prepared(rows, Read([InboxMessage(0, m, storedAt)]), None))
  {
    var rows := Prepared(map[], Unavailable, Some(window));
    assert rows == map[];
    LoneMessageIsStored(rows, m, storedAt);
    MissedIsQueued(rows, Read([InboxMessage(0, m, storedAt)]), m);
  }

  const STEP: int := 1000000

  /** Five hundred messages, more than the overlap apart. */
  function Backlog(): seq<InboxMessage> {
    seq(SCAN_LIMIT, (i: nat) => InboxMessage(i, Sms("backlog", "", i * STEP), (i + 1) * STEP))
  }

  /** Second way past: a backlog of 500 rows cuts the sweep short before the message. */
  lemma CutSweepLetsThrough(m: Sms, window: (int, int), now: int)
    requires m.sender == "late" && InWindow(m, window.0, window.1)
    ensures var first, second := Backlogged(m)[..500], Backlogged(m)[499..];
            var rows := Prepared(map[], Read(first), Some(window));
            && SweepCatchUp.IsRead(Elements(Backlogged(m)), Cutoff(Some(0), now), SCAN_LIMIT, first)
            && Latest(first, 500 * STEP)
            && SweepCatchUp.IsRead(Elements(Backlogged(m)), Cutoff(Some(500 * STEP), now), SCAN_LIMIT, second)
            && !HeldBack(rows, m) && Of(m) in Queue(Prepared(rows, Read(second), None))
  {
    hide Of, Prepared, HeldBack, Queue, Cutoff, SweepCatchUp.IsRead, Latest, Backlog, Elements;
    ReadsOfBacklog(m, now);
    BacklogHides(m, window);
    BacklogThenMessage(Prepared(map[], Read(Backlog()), Some(window)), m);
    MissedIsQueued(Prepared(map[], Read(Backlog()), Some(window)), Read(Backlogged(m)[499..]), m);
  }

  /** The backlog and one message after it, in store order. */
  function Backlogged(m: Sms): (inbox: seq<InboxMessage>)
    ensures |inbox| == 501 && forall i | 0 <= i < 501 :: inbox[i].storedAt == (i + 1) * STEP
    ensures inbox[..500] == Backlog() && inbox[499..] == [Backlog()[499], InboxMessage(500, m, 501 * STEP)]
  {
    Backlog() + [InboxMessage(500, m, 501 * STEP)]
  }

  lemma ReadsOfBacklog(m: Sms, now: int)
    ensures SweepCatchUp.IsRead(Elements(Backlogged(m)), Cutoff(Some(0), now), SCAN_LIMIT, Backlogged(m)[..500])
    ensures SweepCatchUp.IsRead(Elements(Backlogged(m)), Cutoff(Some(500 * STEP), now), SCAN_LIMIT,
            Backlogged(m)[499..])
    ensures Latest(Backlogged(m)[..500], 500 * STEP)
  {
    hide Backlog, Elements, SweepCatchUp.IsRead;
    var inbox := Backlogged(m);
    SweepCatchUp.ReadOfList(inbox, 0, Cutoff(Some(0), now), SCAN_LIMIT);
    SweepCatchUp.ReadOfList(inbox, 499, Cutoff(Some(500 * STEP), now), SCAN_LIMIT);
    assert inbox[0..0 + Min(SCAN_LIMIT, 501)] == inbox[..500] && inbox[499..499 + Min(SCAN_LIMIT, 2)] == inbox[499..];
    assert inbox[..500][499].storedAt == 500 * STEP;
  }

  lemma BacklogIsNulFree(candidates: seq<Sms>)
    requires candidates == Messages(Backlog())
    ensures forall c | c in candidates :: c.sender == "backlog" && NulFree(c.sender)
  {
    forall i | 0 <= i < |candidates|
      ensures candidates[i].sender == "backlog"
    {
      assert candidates[i] == Backlog()[i].sms;
    }
  }

  lemma SweptBacklog(m: Sms)
    requires m.sender == "late"
    ensures var swept := SweptTable(map[], Read(Backlog()));
            && Of(m) !in swept && Of(Backlog()[499].sms) in swept
            && forall id | id in swept :: swept[id].sms.sender == "backlog"
  {
    hide Of, NulFree, InboxSweep.Swept, InboxSweep.Grew, Near;
    var candidates := Messages(Backlog());
    var swept := InboxSweep.Swept(InboxSweep.Begin(map[]), candidates).table;
    BacklogIsNulFree(candidates);
    InboxSweep.SweepOnlyAdds(InboxSweep.Begin(map[]), candidates);
    Delivery.SweptIsGenuine(InboxSweep.Begin(map[]), candidates);
    EmptyHoldsNoCopies(candidates);
    InboxSweep.KeepsEveryCandidate(map[], candidates);
    NulFreeMeans(m.sender);
    forall id | id in swept
      ensures swept[id].sms.sender == "backlog" && id != Of(m)
    {
      var i :| 0 <= i < |candidates| && id == Of(candidates[i]);
      assert candidates[i] in candidates;
      Injective(candidates[i], swept[id].sms);
      Injective(candidates[i], m);
    }
    assert candidates[499] == Backlog()[499].sms;
    assert Of(candidates[499]) in InboxSweep.Ids(candidates);
  }

  lemma EmptyHoldsNoCopies(candidates: seq<Sms>)
    ensures InboxSweep.OnlyOwnCopies(map[], candidates)
  {
  }

  /** What the phone holds after sweeping the backlog is the backlog's, and not the message. */
  lemma BacklogHides(m: Sms, window: (int, int))
    requires m.sender == "late"
    ensures var rows := Prepared(map[], Read(Backlog()), Some(window));
            && Of(m) !in rows && !HeldBack(rows, m) && Of(Backlog()[499].sms) in rows
            && forall id | id in rows :: rows[id].sms.sender == "backlog"
  {
    hide Of, SweptTable, Backlog;
    SweptBacklog(m);
  }

  lemma NulFreeMeans(s: string)
    ensures NulFree(s) <==> forall c | c in s :: c != SEPARATOR
  {
  }

  /** The next sweep recognises the row it re-reads, and stores the message after it. */
  lemma BacklogThenMessage(rows: Table, m: Sms)
    requires m.sender == "late" && Of(m) !in rows && Of(Backlog()[499].sms) in rows
    requires forall id | id in rows :: rows[id].sms.sender == "backlog"
    ensures StoredBySweep(rows, Read([Backlog()[499], InboxMessage(500, m, 501 * STEP)]), m)
  {
    hide Of, Backlog;
    var b := Backlog()[499].sms;
    var found := [Backlog()[499], InboxMessage(500, m, 501 * STEP)];
    var begin := InboxSweep.Begin(rows);
    assert Messages(found) == [b, m] && [b, m][..1] == [b] && [b][..0] == [];
    assert InboxSweep.Swept(begin, []) == begin;
    var one := InboxSweep.Examined(begin, b);
    assert InboxSweep.Swept(begin, [b]) == one;
    assert Near(rows, m, InboxSweep.MATCH_WINDOW) - one.claimed == {};
    assert InboxSweep.Swept(begin, [b, m]) == InboxSweep.Examined(one, m);
  }
}
