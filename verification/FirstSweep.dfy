/** What a sweep reads, in milliseconds (TsunagiRepository.backfill): on a phone that has never
    swept, the last day and the overlap, and not the phone's whole history; afterwards, what was
    stored since ten minutes before the watermark. */
module FirstSweep {
  import opened Wrappers
  import opened Identity
  import opened MessageTable
  import opened UploadPass
  import opened SyncEngine
  import opened SweepCatchUp
  import HoldBackPass
  import InboxSweep

  /** The inbox rows a sweep goes over, whether or not they fit its limit: those stored after
      1970 and, without a watermark, in the last 24 hours and 10 minutes; else since 10 minutes
      before the watermark. */
  function Eligible(inbox: Inbox, mark: Option<int>, now: int): Inbox {
    set e | e in inbox && e.storedAt > 0
            && e.storedAt > (match mark case None => now - 87000000 case Some(w) => w - 600000)
  }

  /** A sweep reads eligible rows only, at most 500, and leaves one out only when it has read 500
      that were stored no later. */
  lemma ReadsEligible(inbox: Inbox, mark: Option<int>, now: int, read: seq<Entry>)
    requires IsRead(inbox, Cutoff(mark, now), SCAN_LIMIT, read)
    ensures |read| <= 500 && forall e | e in read :: e in Eligible(inbox, mark, now)
    ensures forall e | e in Eligible(inbox, mark, now) && e !in read ::
              |read| == 500 && forall r | r in read :: r.storedAt <= e.storedAt
  {
    assert SweepCatchUp.After(inbox, Cutoff(mark, now)) == Eligible(inbox, mark, now);
    ShortReadIsWhole(inbox, Cutoff(mark, now), read);
  }

  /** Nothing is stored but what an eligible row says. */
  lemma StoresEligible(t: Table, inbox: Inbox, mark: Option<int>, now: int, read: seq<Entry>, id: Id)
    requires IsRead(inbox, Cutoff(mark, now), SCAN_LIMIT, read)
    requires id in SweptTable(t, Read(read)) && id !in t
    ensures exists e :: e in Eligible(inbox, mark, now) && Of(e.sms) == id
  {
    hide Of, IsRead, Eligible;
    InboxSweep.SweepOnlyAdds(InboxSweep.Begin(t), Messages(read));
    var i :| 0 <= i < |read| && Of(Messages(read)[i]) == id;
    ReadsEligible(inbox, mark, now, read);
    assert read[i] in Eligible(inbox, mark, now);
  }

  /** No row of this text that the message could be taken for. */
  ghost predicate NoneNear(t: Table, m: Sms) {
    forall id | id in t && t[id].sms.sender == m.sender && t[id].sms.body == m.body ::
      t[id].sms.receivedAt < m.receivedAt - 600000 || t[id].sms.receivedAt > m.receivedAt + 600000
  }

  /** An eligible row is read when no more than 500 were stored up to it. */
  lemma EarlyIsRead(inbox: Inbox, mark: Option<int>, now: int, read: seq<Entry>, e: Entry)
    requires IsRead(inbox, Cutoff(mark, now), SCAN_LIMIT, read) && e in Eligible(inbox, mark, now)
    requires |set r | r in Eligible(inbox, mark, now) && r.storedAt <= e.storedAt| <= 500
    ensures e in read
  {
    ReadsEligible(inbox, mark, now, read);
    ShortReadIsWhole(inbox, Cutoff(mark, now), read);
    hide IsRead, Eligible;
    if e !in read {
      var upTo := set r | r in Eligible(inbox, mark, now) && r.storedAt <= e.storedAt;
      SubsetSize(Elements(read) + {e}, upTo);
    }
  }

  /** And what it says is then stored, if it was missing and no row was near. */
  lemma MissingIsRecovered(t: Table, inbox: Inbox, mark: Option<int>, now: int, read: seq<Entry>, e: Entry)
    requires IsRead(inbox, Cutoff(mark, now), SCAN_LIMIT, read) && e in Eligible(inbox, mark, now)
    requires |set r | r in Eligible(inbox, mark, now) && r.storedAt <= e.storedAt| <= 500
    requires Of(e.sms) !in t && NoneNear(t, e.sms)
    ensures Of(e.sms) in SweptTable(t, Read(read))
  {
    EarlyIsRead(inbox, mark, now, read, e);
    hide IsRead, Eligible;
    var i :| 0 <= i < |read| && read[i] == e;
    InboxSweep.FarRowsDoNotCount(t, Messages(read), i);
  }

  /** So nothing leaves a newly installed phone but what it had captured and the last day and ten
      minutes of its inbox, whatever the server answers and however long the pass. */
  lemma OldHistoryStaysHome(t: Table, inbox: Inbox, now: int, read: seq<Entry>, window: Option<(int, int)>,
                            turns: seq<Turn>, turn: Turn, id: Id)
    requires IsRead(inbox, Cutoff(None, now), SCAN_LIMIT, read)
    requires LegalRun(Start(HoldBackPass.Prepared(t, Read(read), window)), turns)
    requires turn in turns && id in turn.batch
    ensures id in t || exists e :: e in inbox && e.storedAt > now - 87000000 && Of(e.sms) == id
  {
    hide Of, IsRead, LegalRun, SweptTable;
    UploadsAreStored(HoldBackPass.Prepared(t, Read(read), window), turns, turn, id);
    if id !in t {
      StoresEligible(t, inbox, None, now, read, id);
    }
  }

  lemma {:induction false} UploadsAreStored(t: Table, turns: seq<Turn>, turn: Turn, id: Id)
    requires LegalRun(Start(t), turns) && turn in turns && id in turn.batch
    ensures id in t
  {
    hide Take, IsPendingBatch;
    var n := |turns| - 1;
    if turn in turns[..n] {
      UploadsAreStored(t, turns[..n], turn, id);
    } else {
      var p := Final(Start(t), turns[..n]);
      BatchSize(p.table, p.width, turn.batch);
      QueueIsStored(p.table);
      KeepsRows(t, turns[..n]);
      assert turns == turns[..n] + [turns[n]];
    }
  }

  lemma {:induction false} KeepsRows(t: Table, turns: seq<Turn>)
    ensures Final(Start(t), turns).table.Keys == t.Keys
  {
    hide Take;
    if turns != [] {
      KeepsRows(t, turns[..|turns| - 1]);
      TurnEffect(Final(Start(t), turns[..|turns| - 1]), turns[|turns| - 1]);
    }
  }
}
