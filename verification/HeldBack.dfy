/** Messages withheld from upload because they arrived while sync was paused
    (SettingsStore.pauseSync / resumeSync, excludeReceivedBetween, sync). */
module HeldBack {
  import opened Wrappers
  import opened Identity
  import opened Wire
  import opened MessageTable
  import opened Delivery
  import opened Settlement
  import UploadPass
  import InboxSweep
  import Exchange

  // ---- the window ----

  /** The stored preferences that decide what is held back. Times are milliseconds, and a
      value that is not positive reads as absent. */
  class SettingsStore {
    var syncEnabled: bool
    var excludePaused: bool
    var pausedSince: int
    var excludeFrom: int
    var excludeTo: int
    var setupKey: string

    constructor ()
      ensures syncEnabled && !excludePaused && pausedSince == 0 && Window().None? && setupKey == ""
    {
      syncEnabled, excludePaused, pausedSince, excludeFrom, excludeTo := true, false, 0, 0, 0;
      setupKey := "";
    }

    /** A key that has been spent is not kept. */
    method ClearEnrolmentCode()
      modifies this`setupKey
      ensures Blank(setupKey)
    {
      setupKey := "";
    }

    /** The finished pause still to be applied, if any. */
    function Window(): (window: Option<(int, int)>)
      reads this
      ensures window.Some? <==> excludeFrom > 0 && excludeTo > 0
      ensures window.Some? ==> window.value == (excludeFrom, excludeTo)
    {
      WindowOf(excludeFrom, excludeTo)
    }

    method PauseSync(now: int)
      modifies this`syncEnabled, this`pausedSince
      ensures !syncEnabled && pausedSince == now && Window() == old(Window())
    {
      syncEnabled, pausedSince := false, now;
    }

    method ResumeSync(now: int)
      modifies this`syncEnabled, this`pausedSince, this`excludeFrom, this`excludeTo
      ensures syncEnabled && pausedSince == 0
      ensures Window() == AfterResume(old(Window()), excludePaused, old(pausedSince), now)
      ensures excludePaused && old(pausedSince) > 0 ==> excludeFrom == old(pausedSince) && excludeTo == now
      ensures !(excludePaused && old(pausedSince) > 0) ==>
              excludeFrom == old(excludeFrom) && excludeTo == old(excludeTo)
    {
      var since := pausedSince;
      syncEnabled, pausedSince := true, 0;
      if excludePaused && since > 0 {
        excludeFrom, excludeTo := since, now;
      }
    }

    method ClearExclusionWindow()
      modifies this`excludeFrom, this`excludeTo
      ensures Window().None? && excludeFrom == 0 && excludeTo == 0
    {
      excludeFrom, excludeTo := 0, 0;
    }
  }

  function WindowOf(from: int, to: int): Option<(int, int)> {
    if from > 0 && to > 0 then Some((from, to)) else None
  }

  function AfterResume(window: Option<(int, int)>, excludePaused: bool, since: int, now: int): Option<(int, int)> {
    if excludePaused && since > 0 then WindowOf(since, now) else window
  }

  /** A message is inside some session the user asked to hold back. */
  predicate InSession(m: Sms, session: (int, int)) {
    InWindow(m, session.0, session.1)
  }

  /** Only one window is remembered. Of two sessions that end before any pass runs, the
      first is still applied in full exactly when the second covers it. */
  lemma EarlierSessionApplied(first: (int, int), second: (int, int))
    requires 0 < first.0 <= first.1 && 0 < second.0 && 0 < second.1
    ensures (forall m: Sms | InSession(m, first) ::
               InSession(m, AfterResume(Some(first), true, second.0, second.1).value))
       <==> second.0 <= first.0 && first.1 <= second.1
  {
    var a, b := Sms("", "", first.0), Sms("", "", first.1);
    assert InSession(a, first) && InSession(b, first);
  }

  // ---- one pass ----

  /** In the pass that applies a window, no upload carries a message received inside it,
      whatever the server answers. */
  lemma {:induction false} NoUploadFromWindow(t: Table, from: int, to: int, turns: seq<UploadPass.Turn>)
    requires UploadPass.LegalRun(UploadPass.Start(WithheldBetween(Requeued(t), from, to)), turns)
    ensures NoneOffered(UploadPass.Final(UploadPass.Start(WithheldBetween(Requeued(t), from, to)), turns).table,
                        from, to)
    ensures forall turn, id | turn in turns && id in turn.batch :: id in t && !InWindow(t[id].sms, from, to)
    ensures Extends(t, UploadPass.Final(UploadPass.Start(WithheldBetween(Requeued(t), from, to)), turns).table)
    ensures UploadPass.Final(UploadPass.Start(WithheldBetween(Requeued(t), from, to)), turns).table.Keys == t.Keys
  {
    hide UploadPass.Take, IsPendingBatch;
    if turns != [] {
      var n := |turns| - 1;
      var before := UploadPass.Final(UploadPass.Start(WithheldBetween(Requeued(t), from, to)), turns[..n]);
      NoUploadFromWindow(t, from, to, turns[..n]);
      BatchSize(before.table, before.width, turns[n].batch);
      UploadPass.TurnEffect(before, turns[n]);
      NoneOfferedAfter(before.table, UploadPass.Take(before, turns[n]).table, Elements(turns[n].batch),
                       UploadPass.RefusedBy(turns[n]), UploadPass.Becomes(turns[n]), from, to);
      assert forall id | id in turns[n].batch :: id in Queue(before.table);
    }
  }

  ghost predicate NoneOffered(t: Table, from: int, to: int) {
    forall id | id in t && InWindow(t[id].sms, from, to) :: !Queued(t[id])
  }

  lemma NoneOfferedAfter(t: Table, after: Table, ids: set<Id>, refused: set<Id>, to': Status, from: int, to: int)
    requires NoneOffered(t, from, to) && ids <= Queue(t)
    requires UploadPass.Moved(t, after, ids, refused, to')
    ensures NoneOffered(after, from, to)
  {
  }

  // ---- every later run ----

  ghost predicate Withheld(w: World, id: Id) {
    id in w.phone && w.phone[id].status.Excluded?
  }

  /** Some pass has this row in hand: in a batch it has chosen and not yet marked, in an upload
      whose answer it awaits, or in what it has left to do about an answer. */
  ghost predicate Carried(w: World, id: Id) {
    || (exists n :: n in w.chosen && id in Exchange.IdsOf(w.chosen[n]))
    || (exists n :: n in w.waiting && n in w.sent && id in Exchange.IdsOf(w.sent[n]))
    || (exists n, i: nat :: n in w.settling && i < |w.settling[n]| && id in w.settling[n][i].ids)
  }

  /** The step is a pass marking or settling a batch it has in hand with this row in it. */
  ghost predicate Touches(w: World, e: Event, id: Id) {
    || (e.Mark? && e.n in w.chosen && id in Exchange.IdsOf(w.chosen[e.n]))
    || (e.Apply? && e.n in w.settling && w.settling[e.n] != [] && id in w.settling[e.n][0].ids)
  }

  ghost predicate KeepsWithheld(t: Table, after: Table) {
    forall id | id in t && t[id].status.Excluded? ::
      id in after && after[id].status.Excluded? && after[id].sms == t[id].sms
  }

  lemma LocalStatements(t: Table, m: Sms, from: int, to: int, cutoff: int)
    ensures KeepsWithheld(t, Inserted(t, m)) && KeepsWithheld(t, Requeued(t)) && KeepsWithheld(t, Pruned(t, cutoff))
    ensures KeepsWithheld(t, WithheldBetween(t, from, to))
  {
    hide Of;
  }

  lemma SweepStatement(t: Table, candidates: seq<Sms>)
    ensures KeepsWithheld(t, InboxSweep.Swept(InboxSweep.Begin(t), candidates).table)
  {
    InboxSweep.SweepOnlyAdds(InboxSweep.Begin(t), candidates);
  }

  lemma ChosenWereQueued(t: Table, limit: nat, batch: seq<Id>)
    requires IsPendingBatch(t, limit, batch)
    ensures forall id | id in batch :: id in t && Queued(t[id])
  {
    assert forall id | id in batch :: id in Queue(t);
  }

  /** A withheld row is never dropped, re-stored or offered again, and a step changes its
      status exactly when a pass marks or settles a batch with the row in it. */
  lemma WithheldUntilTouched(w: World, e: Event, id: Id)
    requires Enabled(w, e) && Withheld(w, id)
    ensures id in Next(w, e).phone && Next(w, e).phone[id].sms == w.phone[id].sms
    ensures Withheld(Next(w, e), id) <==> !Touches(w, e, id)
    ensures e.Select? ==> id !in e.batch
  {
    hide Inserted, Requeued, Pruned, WithheldBetween, InboxSweep.Swept, Executed, IsPendingBatch, Of, Plan, RequestOf;
    match e
    case Apply(n) => ExecutedEffect(w.phone, w.settling[n][0]);
    case SweepInbox(candidates) => SweepStatement(w.phone, candidates);
    case Select(n, batch) =>
      ChosenWereQueued(w.phone, if IsPendingBatch(w.phone, 1, batch) then 1 else UploadPass.BATCH_SIZE, batch);
    case Capture(m) => LocalStatements(w.phone, m, 0, 0, 0);
    case Requeue => LocalStatements(w.phone, Sms("", "", 0), 0, 0, 0);
    case Withhold(from, to) => LocalStatements(w.phone, Sms("", "", 0), from, to, 0);
    case Prune(cutoff) => LocalStatements(w.phone, Sms("", "", 0), 0, 0, cutoff);
    case _ =>
  }

  /** A truthful answer leads to statements about the batch that was sent, and no other row. */
  lemma PlanStaysInBatch(w: World, n: nat, answer: Answer, now: int, id: Id)
    requires n in w.sent && Truthful(w.sent[n], answer, w.taken)
    requires id !in Exchange.IdsOf(w.sent[n])
    ensures forall i: nat | i < |Plan(Exchange.IdsOf(w.sent[n]), answer, now)| ::
              id !in Plan(Exchange.IdsOf(w.sent[n]), answer, now)[i].ids
  {
    var batch := Exchange.IdsOf(w.sent[n]);
    forall i: nat | i < |Plan(batch, answer, now)|
      ensures id !in Plan(batch, answer, now)[i].ids
    {
      PlanNames(batch, answer, now, Plan(batch, answer, now)[i]);
      assert UploadPass.RefusedBy(UploadPass.Turn(batch, answer, now))
        == UploadPass.RefusedBy(UploadPass.Turn(batch, answer, 0));
    }
  }

  /** Only choosing a batch takes up a row that no pass has in hand. */
  lemma NotTakenUp(w: World, e: Event, id: Id)
    requires Inv(w) && Enabled(w, e) && !Carried(w, id)
    requires e.Select? ==> id !in e.batch
    ensures !Carried(Next(w, e), id)
  {
    hide Inserted, Requeued, Pruned, WithheldBetween, MarkedUploading, InboxSweep.Swept, Executed, IsPendingBatch, Of,
      Truthful, Plan, GenuineRows, NothingLost, SyncedCommitted, Exchange.StoreAfter, Exchange.Reply, Rows, IdsIn,
      PlansTruthful, GenuineBatches;
    match e
    case Deliver(n, answer, now) => PlanStaysInBatch(w, n, answer, now, id);
    case GiveUp(n) =>
      NoAnswerIsTruthful(w.sent[n], w.taken);
      PlanStaysInBatch(w, n, NetworkError, 0, id);
    case Select(n, batch) =>
      ChosenWereQueued(w.phone, if IsPendingBatch(w.phone, 1, batch) then 1 else UploadPass.BATCH_SIZE, batch);
      SentIds(w.phone, batch);
    case _ =>
  }

  lemma NoAnswerIsTruthful(sent: seq<Upload>, ids: set<Id>)
    ensures Truthful(sent, NetworkError, ids)
  {
  }

  /** Held-back messages never leave: a row withheld while no pass has it in hand stays EXCLUDED
      with its content through every later step of every run, and no later batch holds it. */
  lemma {:induction false} HeldBackForever(events: seq<Event>, run: seq<Event>, id: Id)
    requires Legal(run) && events <= run
    requires Legal(events) && Withheld(After(events), id) && !Carried(After(events), id)
    ensures Withheld(After(run), id) && !Carried(After(run), id)
    ensures After(run).phone[id].sms == After(events).phone[id].sms
    ensures forall j | |events| <= j < |run| && run[j].Select? :: id !in run[j].batch
    decreases |run|
  {
    hide Legal, After, Inv, Next, Enabled, Carried, Withheld, Touches;
    if |run| == |events| {
      assert run == events;
    } else {
      var before, last := run[..|run| - 1], run[|run| - 1];
      LastStep(run);
      HeldBackForever(events, before, id);
      EveryRunKeeps(before);
      StaysWithheld(After(before), last, id);
    }
  }

  lemma StaysWithheld(w: World, e: Event, id: Id)
    requires Inv(w) && Enabled(w, e) && Withheld(w, id) && !Carried(w, id)
    ensures Withheld(Next(w, e), id) && !Carried(Next(w, e), id)
    ensures id in w.phone && id in Next(w, e).phone && Next(w, e).phone[id].sms == w.phone[id].sms
    ensures e.Select? ==> id !in e.batch
  {
    hide Inv, Next, Enabled;
    WithheldUntilTouched(w, e, id);
    NotTakenUp(w, e, id);
  }

  lemma LastStep(events: seq<Event>)
    requires Legal(events) && events != []
    ensures Legal(events[..|events| - 1]) && Enabled(After(events[..|events| - 1]), events[|events| - 1])
    ensures After(events) == Next(After(events[..|events| - 1]), events[|events| - 1])
  {
    hide Next, Enabled;
  }

  // ---- and only then ----

  /** A pass with statements left about the row gets to the one that releases it. */
  lemma {:induction false} SettlingReleases(events: seq<Event>, n: nat, i: nat, id: Id) returns (run: seq<Event>)
    requires Legal(events) && Withheld(After(events), id)
    requires n in After(events).settling && i < |After(events).settling[n]| && id in After(events).settling[n][i].ids
    ensures Legal(run) && events <= run && !Withheld(After(run), id)
    decreases i
  {
    hide Legal, After, Enabled, Executed;
    var w := After(events);
    assert Enabled(w, Apply(n)) by {
      CanApply(w, n);
    }
    Step(events, Apply(n));
    WithheldUntilTouched(w, Apply(n), id);
    run := events + [Apply(n)];
    if Withheld(After(run), id) {
      assert i > 0 && After(run).settling[n][i - 1] == w.settling[n][i];
      run := SettlingReleases(run, n, i - 1, id);
    }
  }

  lemma CanApply(w: World, n: nat)
    requires n in w.settling && w.settling[n] != []
    ensures Enabled(w, Apply(n))
  {
  }

  /** Any pass with the row in hand can release it. */
  lemma CarrierReleases(events: seq<Event>, id: Id) returns (run: seq<Event>)
    requires Legal(events) && Withheld(After(events), id) && Carried(After(events), id)
    ensures Legal(run) && events <= run && !Withheld(After(run), id)
  {
    hide Legal, After, MarkedUploading, Executed;
    var w := After(events);
    if n :| n in w.chosen && id in Exchange.IdsOf(w.chosen[n]) {
      WithheldUntilTouched(w, Mark(n), id);
      Step(events, Mark(n));
      run := events + [Mark(n)];
    } else if n :| n in w.waiting && n in w.sent && id in Exchange.IdsOf(w.sent[n]) {
      WithheldUntilTouched(w, GiveUp(n), id);
      Step(events, GiveUp(n));
      var given := events + [GiveUp(n)];
      assert After(given).settling[n][0] == ToFailed(Exchange.IdsOf(w.sent[n]));
      run := SettlingReleases(given, n, 0, id);
    } else {
      var n, i: nat :| n in w.settling && i < |w.settling[n]| && id in w.settling[n][i].ids;
      run := SettlingReleases(events, n, i, id);
    }
  }

  /** Exactly when a withheld message can still leave: from any reachable state some run
      releases the row if and only if a pass has it in hand. */
  lemma ReleasableExactlyWhenCarried(events: seq<Event>, id: Id)
    requires Legal(events) && Withheld(After(events), id)
    ensures (exists run :: Legal(run) && events <= run && !Withheld(After(run), id)) <==> Carried(After(events), id)
  {
    hide Legal, After, Withheld, Carried;
    if Carried(After(events), id) {
      var run := CarrierReleases(events, id);
    }
    if run :| Legal(run) && events <= run && !Withheld(After(run), id) {
      if !Carried(After(events), id) {
        HeldBackForever(events, run, id);
      }
    }
  }

  // ---- two runs that release a message ----

  /** The statements of a pass on a table of one row. */
  lemma OneRow(id: Id, r: Row)
    ensures MarkedUploading(map[id := r], [id]) == map[id := r.(status := Uploading)]
    ensures r.status.Uploading? ==> Requeued(map[id := r]) == map[id := r.(status := Pending)]
    ensures Queued(r) ==>
              WithheldBetween(map[id := r], r.sms.receivedAt, r.sms.receivedAt) == map[id := r.(status := Excluded)]
    ensures Executed(map[id := r], ToFailed([id]))
         == map[id := r.(status := Failed, attempts := r.attempts + 1, lastError := None)]
    ensures Queued(r) ==> IsPendingBatch(map[id := r], UploadPass.BATCH_SIZE, [id])
  {
    if Queued(r) {
      assert Queue(map[id := r]) == {id};
    }
  }

  /** Two overlapping passes: the first awaits an answer about a row that the second requeues
      and withholds; the first then gives up, marks the row FAILED, and the next batch holds
      the withheld message. */
  lemma OverlappingPassesRelease(m: Sms) returns (events: seq<Event>)
    requires NulFree(m.sender)
    ensures Legal(events) && |events| == 8
    ensures Legal(events[..5]) && Withheld(After(events[..5]), Of(m))
    ensures events[7] == Select(1, [Of(m)])
  {
    hide Of, MarkedUploading, Requeued, WithheldBetween, Executed, IsPendingBatch, NulFree, Legal, After;
    var id, r := Of(m), Fresh(m).(status := Uploading);
    NothingHappened();
    var posted := Posted([], m);
    OneRow(id, r);
    Step(posted, Requeue);
    var held := posted + [Requeue];
    OneRow(id, r.(status := Pending));
    Step(held, Withhold(m.receivedAt, m.receivedAt));
    held := held + [Withhold(m.receivedAt, m.receivedAt)];
    assert After(held).phone == map[id := r.(status := Excluded)];
    var released := AfterGivingUp(held, id, r.(status := Excluded));
    OneRow(id, After(released).phone[id]);
    Step(released, Select(1, [id]));
    events := released + [Select(1, [id])];
    assert events[..5] == held;
  }

  lemma AfterGivingUp(events: seq<Event>, id: Id, r: Row) returns (run: seq<Event>)
    requires Legal(events) && After(events).phone == map[id := r]
    requires After(events).waiting == {0} && After(events).chosen == map[] && After(events).sent.Keys == {0}
    requires Exchange.IdsOf(After(events).sent[0]) == [id]
    ensures run == events + [GiveUp(0), Apply(0)] && Legal(run)
    ensures After(run).phone == map[id := r.(status := Failed, attempts := r.attempts + 1, lastError := None)]
    ensures After(run).chosen == map[] && After(run).sent.Keys == {0}
  {
    hide Legal, After, Executed;
    Step(events, GiveUp(0));
    run := events + [GiveUp(0)];
    OneRow(id, r);
    Step(run, Apply(0));
    run := run + [Apply(0)];
    assert run == events + [GiveUp(0), Apply(0)];
  }

  /** And with no answer awaited at all: the first pass has chosen its batch when the second
      withholds the row; marking the batch takes the row out of EXCLUDED, and its text goes up. */
  lemma ChosenBatchReleases(m: Sms) returns (events: seq<Event>)
    requires NulFree(m.sender)
    ensures Legal(events) && |events| == 4 && events[3].Mark?
    ensures Legal(events[..3]) && Withheld(After(events[..3]), Of(m))
    ensures After(events[..3]).waiting == {} && After(events[..3]).settling == map[]
    ensures !Withheld(After(events), Of(m)) && After(events).waiting == {0}
    ensures After(events).sent == map[0 := [Upload(Of(m), m)]]
  {
    hide Of, MarkedUploading, WithheldBetween, IsPendingBatch, NulFree, Legal, After;
    var id, r := Of(m), Fresh(m);
    NothingHappened();
    Step([], Capture(m));
    events := [] + [Capture(m)];
    assert After(events).phone == map[id := r];
    OneRow(id, r);
    OnlyRow(id, r);
    Step(events, Select(0, [id]));
    events := events + [Select(0, [id])];
    Step(events, Withhold(m.receivedAt, m.receivedAt));
    var held := events + [Withhold(m.receivedAt, m.receivedAt)];
    assert After(held).phone == map[id := r.(status := Excluded)];
    OneRow(id, r.(status := Excluded));
    Step(held, Mark(0));
    events := held + [Mark(0)];
    assert events[..3] == held;
  }
}
