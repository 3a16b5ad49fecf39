/** The sync engine inside the protocol: every pass SyncEngine.Repository.Sync makes is a run
    of Delivery's steps, so what holds of all runs holds of the engine. */
module EngineRuns {
  import opened Wrappers
  import opened Identity
  import opened Wire
  import opened MessageTable
  import opened UploadPass
  import D = Delivery
  import Exchange
  import HeldBack
  import Ingest
  import InboxSweep
  import opened Settlement
  import SyncEngine

  /** How requests fare: to which device they belong, whether the server reports per message,
      and which of those left unanswered, or answered by an error, were stored all the same. */
  datatype Route = Route(device: string, partial: bool, landed: nat -> bool)

  ghost predicate Within(t: Table, turns: seq<Turn>) {
    forall turn, id | turn in turns && id in turn.batch :: id in t
  }

  predicate Reaches(route: Route, k: nat, turn: Turn) {
    turn.answer.Accepted? || route.landed(k)
  }

  /** The server's rows after these turns. */
  ghost function StoreAt(s: Ingest.Store, route: Route, t: Table, turns: seq<Turn>): Ingest.Store
    requires Within(t, turns)
  {
    if turns == [] then s else
      var n := |turns| - 1;
      var before := StoreAt(s, route, t, turns[..n]);
      if Reaches(route, n, turns[n])
      then Exchange.StoreAfter(before, route.device, SyncEngine.RequestFor(t, turns[n].batch), route.partial)
        else before
  }

  /** Every 200 is the server's own answer; errors and silence can come from anywhere. */
  ghost predicate Honest(s: Ingest.Store, route: Route, t: Table, turns: seq<Turn>)
    requires Within(t, turns)
  {
    turns == []
    || (var n := |turns| - 1;
        && Honest(s, route, t, turns[..n])
        && (turns[n].answer.Accepted? ==>
              turns[n].answer == Exchange.Reply(StoreAt(s, route, t, turns[..n]), route.device,
                                                SyncEngine.RequestFor(t, turns[n].batch), route.partial)))
  }

  // ---- extending a run ----

  /** The batch is chosen, marked, and the request leaves the phone. */
  lemma {:induction false} Sending(events: seq<D.Event>, batch: seq<Id>, width: nat) returns (n: nat, run: seq<D.Event>)
    requires D.Legal(events) && batch != [] && (width == 1 || width == BATCH_SIZE)
    requires IsPendingBatch(D.After(events).phone, width, batch)
    ensures forall id | id in batch :: id in D.After(events).phone
    ensures events <= run && D.Legal(run) && D.After(run).phone == MarkedUploading(D.After(events).phone, batch)
    ensures D.After(run).store == D.After(events).store && n in D.After(run).waiting
    ensures n in D.After(run).sent && D.After(run).sent[n] == D.RequestOf(D.After(events).phone, batch)
  {
    hide IsPendingBatch, D.Legal, D.After, MarkedUploading;
    n := UnusedNumber(D.After(events).sent.Keys + D.After(events).chosen.Keys);
    BatchIsStored(D.After(events).phone, width, batch);
    D.SentIds(D.After(events).phone, batch);
    D.Step(events, D.Select(n, batch));
    run := events + [D.Select(n, batch)];
    D.Step(run, D.Mark(n));
    run := run + [D.Mark(n)];
  }

  lemma BatchIsStored(t: Table, width: nat, batch: seq<Id>)
    requires IsPendingBatch(t, width, batch)
    ensures forall id | id in batch :: id in t
  {
  }

  /** What these steps add to the run is the sending and settling of an upload. */
  ghost predicate OnlySettles(events: seq<D.Event>, run: seq<D.Event>) {
    && events <= run
    && forall j | |events| <= j < |run| ::
         run[j].Mark? || run[j].Serve? || run[j].Refuse? || run[j].Deliver? || run[j].GiveUp? || run[j].Apply?
  }

  /** It may reach the server, which may answer; and something may answer in its place. */
  lemma {:induction false} Answering(events: seq<D.Event>, n: nat, reaches: bool, route: Route, answer: Answer)
    returns (run: seq<D.Event>)
    requires D.Legal(events) && n in D.After(events).sent && n in D.After(events).waiting
    requires answer.Accepted? ==>
               reaches && answer == Exchange.Reply(D.After(events).store, route.device,
                                                   Exchange.Request(D.After(events).sent[n]), route.partial)
    ensures OnlySettles(events, run) && D.Legal(run) && D.After(run).phone == D.After(events).phone
    ensures D.After(run).sent == D.After(events).sent && D.After(run).waiting == D.After(events).waiting
    ensures D.After(run).store == if reaches then Exchange.StoreAfter(D.After(events).store, route.device,
                                    Exchange.Request(D.After(events).sent[n]), route.partial) else D.After(events).store
    ensures !answer.NetworkError? ==> (n, answer) in D.After(run).answers
  {
    hide D.Legal, D.After;
    run := events;
    if reaches {
      D.Step(run, D.Serve(n, route.device, route.partial));
      run := run + [D.Serve(n, route.device, route.partial)];
    }
    if answer.HttpError? {
      D.Step(run, D.Refuse(n, answer.code));
      run := run + [D.Refuse(n, answer.code)];
    }
  }

  /** The statements of a settlement, one after another. */
  lemma {:induction false} Applying(events: seq<D.Event>, n: nat) returns (run: seq<D.Event>)
    requires D.Legal(events) && n in D.After(events).settling
    ensures OnlySettles(events, run) && D.Legal(run) && D.After(run).store == D.After(events).store
    ensures D.After(run).phone == Ran(D.After(events).phone, D.After(events).settling[n])
    decreases |D.After(events).settling[n]|
  {
    hide D.Legal, D.After, Executed;
    var plan := D.After(events).settling[n];
    run := events;
    if plan != [] {
      D.Step(events, D.Apply(n));
      RanFirst(D.After(events).phone, plan);
      run := Applying(events + [D.Apply(n)], n);
    }
  }

  /** The phone acts on the answer, or on its absence. */
  lemma {:induction false} Settling(events: seq<D.Event>, n: nat, answer: Answer, now: int, p: Pass)
    returns (run: seq<D.Event>)
    requires D.Legal(events) && n in D.After(events).sent && n in D.After(events).waiting
    requires !answer.NetworkError? ==> (n, answer) in D.After(events).answers
    requires p.table == D.After(events).phone
    ensures OnlySettles(events, run) && D.Legal(run) && D.After(run).store == D.After(events).store
    ensures D.After(run).phone == Settle(p, Exchange.IdsOf(D.After(events).sent[n]), answer, now).table
  {
    hide D.Legal, D.After, Ran, Settle;
    var batch := Exchange.IdsOf(D.After(events).sent[n]);
    var e := if answer.NetworkError? then D.GiveUp(n) else D.Deliver(n, answer, now);
    PlanSettles(p, batch, answer, now);
    D.Step(events, e);
    assert D.After(events + [e]).settling[n] == Plan(batch, answer, now);
    run := Applying(events + [e], n);
  }

  // ---- a pass as a run ----

  lemma {:induction false} TurnIsARun(events: seq<D.Event>, p: Pass, turn: Turn, k: nat, route: Route)
    returns (run: seq<D.Event>)
    requires D.Legal(events) && D.After(events).phone == p.table
    requires Legal(p, turn) && (p.width == 1 || p.width == BATCH_SIZE)
    requires forall id | id in turn.batch :: id in p.table
    requires turn.answer.Accepted? ==>
               turn.answer == Exchange.Reply(D.After(events).store, route.device,
                 SyncEngine.RequestFor(p.table, turn.batch), route.partial)
    ensures events <= run && D.Legal(run) && D.After(run).phone == Take(p, turn).table
    ensures D.After(run).store
         == if Reaches(route, k, turn) then Exchange.StoreAfter(D.After(events).store, route.device,
                                              SyncEngine.RequestFor(p.table, turn.batch), route.partial)
                                                else D.After(events).store
  {
    hide D.Legal, D.After, Settle, IsPendingBatch, Exchange.StoreAfter, Exchange.Reply;
    var n, sending := Sending(events, turn.batch, p.width);
    var answering := Answering(sending, n, Reaches(route, k, turn), route, turn.answer);
    D.SentIds(p.table, turn.batch);
    run := Settling(answering, n, turn.answer, turn.now, p.(table := MarkedUploading(p.table, turn.batch)));
  }

  /** A pass uploads in full batches or one at a time, and never changes what is stored. */
  lemma {:induction false} PassShape(t: Table, turns: seq<Turn>)
    requires LegalRun(Start(t), turns)
    ensures Final(Start(t), turns).width == 1 || Final(Start(t), turns).width == BATCH_SIZE
    ensures Final(Start(t), turns).table.Keys == t.Keys && Extends(t, Final(Start(t), turns).table)
    ensures Within(t, turns)
  {
    hide Take, IsPendingBatch;
    if turns != [] {
      var n := |turns| - 1;
      var p := Final(Start(t), turns[..n]);
      PassShape(t, turns[..n]);
      TurnControl(p, turns[n]);
      TurnEffect(p, turns[n]);
      BatchIsStored(p.table, p.width, turns[n].batch);
      assert turns == turns[..n] + [turns[n]];
    }
  }

  lemma {:induction false} UploadsAreARun(events: seq<D.Event>, t: Table, turns: seq<Turn>, route: Route)
    returns (run: seq<D.Event>)
    requires D.Legal(events) && D.After(events).phone == t
    requires LegalRun(Start(t), turns) && Within(t, turns) && Honest(D.After(events).store, route, t, turns)
    ensures events <= run && D.Legal(run) && D.After(run).phone == Final(Start(t), turns).table
    ensures D.After(run).store == StoreAt(D.After(events).store, route, t, turns)
  {
    hide D.Legal, D.After, Take, Legal, Exchange.StoreAfter, Exchange.Reply, SyncEngine.RequestFor;
    if turns == [] {
      run := events;
    } else {
      var n := |turns| - 1;
      var before := UploadsAreARun(events, t, turns[..n], route);
      PassShape(t, turns[..n]);
      SyncEngine.SameRequest(t, Final(Start(t), turns[..n]).table, turns[n].batch);
      run := TurnIsARun(before, Final(Start(t), turns[..n]), turns[n], n, route);
    }
  }

  /** Sweep, requeue, and hold back the window of a finished pause. */
  lemma {:induction false} PreparationIsARun(events: seq<D.Event>, read: SyncEngine.InboxRead,
                                             window: Option<(int, int)>)
    returns (run: seq<D.Event>)
    requires D.Legal(events)
    requires read.Read? ==> forall m | m in SyncEngine.Messages(read.messages) :: NulFree(m.sender)
    ensures events <= run && D.Legal(run) && D.After(run).store == D.After(events).store
    ensures D.After(run).phone
         == SyncEngine.Withholding(Requeued(SyncEngine.SweptTable(D.After(events).phone, read)), window)
  {
    hide D.Legal, D.After, InboxSweep.Swept, NulFree;
    run := events;
    if read.Read? {
      D.Step(run, D.SweepInbox(SyncEngine.Messages(read.messages)));
      run := run + [D.SweepInbox(SyncEngine.Messages(read.messages))];
    }
    D.Step(run, D.Requeue);
    run := run + [D.Requeue];
    if window.Some? {
      D.Step(run, D.Withhold(window.value.0, window.value.1));
      run := run + [D.Withhold(window.value.0, window.value.1)];
    }
  }

  /** A whole pass of the engine: from any state the protocol can be in, against a server that
      answers for itself, the table `Sync` leaves is one a run of the protocol leaves. */
  lemma {:induction false} SyncPassIsARun(events: seq<D.Event>, read: SyncEngine.InboxRead, window: Option<(int, int)>,
                       queued: Table, turns: seq<Turn>, rows: Table, outcome: SyncEngine.SyncOutcome,
                       retentionDays: int, now: int, route: Route)
    returns (run: seq<D.Event>)
    requires D.Legal(events)
    requires read.Read? ==> forall m | m in SyncEngine.Messages(read.messages) :: NulFree(m.sender)
    requires queued == SyncEngine.Withholding(Requeued(SyncEngine.SweptTable(D.After(events).phone, read)), window)
    requires SyncEngine.Passed(queued, turns, rows, outcome, retentionDays, now)
    requires Within(queued, turns) && Honest(D.After(events).store, route, queued, turns)
    ensures events <= run && D.Legal(run) && D.After(run).phone == rows
    ensures D.After(run).store == StoreAt(D.After(events).store, route, queued, turns)
  {
    hide D.Legal, D.After, Honest, Within, NulFree, Queue;
    run := PreparationIsARun(events, read, window);
    if !SyncEngine.Stopped(queued, turns, rows, outcome) {
      hide LegalRun, Final, StoreAt;
      run := UploadsAreARun(run, queued, turns, route);
      if Final(Start(queued), turns).halted.None? && retentionDays > 0 {
        var prune := D.Prune(now - retentionDays * SyncEngine.DAY);
        D.Step(run, prune);
        run := run + [prune];
      }
    }
  }

  /** A run never forgets a message it captured. */
  lemma {:induction false} CapturedGrows(events: seq<D.Event>, run: seq<D.Event>)
    requires D.Legal(run) && events <= run
    ensures D.Legal(events) && D.After(events).captured <= D.After(run).captured
    decreases |run|
  {
    if events != run {
      var before := run[..|run| - 1];
      assert D.Legal(before) && D.After(run) == D.Next(D.After(before), run[|run| - 1]);
      CapturedGrows(events, before);
    } else {
      assert events == run;
    }
  }

  /** So after any pass, from any reachable state: every message captured before is still on
      the phone or its id was committed, and so was the id of every row called SYNCED. */
  lemma {:induction false} NoPassLosesAMessage(
      events: seq<D.Event>, read: SyncEngine.InboxRead, window: Option<(int, int)>,
      queued: Table, turns: seq<Turn>, rows: Table, outcome: SyncEngine.SyncOutcome,
      retentionDays: int, now: int, route: Route)
    returns (run: seq<D.Event>)
    requires D.Legal(events)
    requires read.Read? ==> forall m | m in SyncEngine.Messages(read.messages) :: NulFree(m.sender)
    requires queued == SyncEngine.Withholding(Requeued(SyncEngine.SweptTable(D.After(events).phone, read)), window)
    requires SyncEngine.Passed(queued, turns, rows, outcome, retentionDays, now)
    requires Within(queued, turns) && Honest(D.After(events).store, route, queued, turns)
    ensures events <= run && D.Legal(run) && D.After(run).phone == rows
    ensures forall m | m in D.After(events).captured :: D.OnPhone(rows, m) || Of(m) in D.IdsIn(D.After(run).committed)
    ensures forall id | id in rows && rows[id].status.Synced? :: id in D.IdsIn(D.After(run).committed)
  {
    run := SyncPassIsARun(events, read, window, queued, turns, rows, outcome, retentionDays, now, route);
    hide *;
    CapturedGrows(events, run);
    D.NoIdIsEverLost(run);
  }

  // ---- from the method to the run ----

  /** The api is the server: a 200 to the k-th call is what the server, holding what the calls
      before it stored, answers to that very request. */
  ghost predicate Serves(api: (nat, seq<Payload>) -> Answer, s: Ingest.Store, route: Route, t: Table, turns: seq<Turn>)
    requires Within(t, turns)
  {
    forall k, payloads | 0 <= k < |turns| && api(k, payloads).Accepted? ::
      Within(t, turns[..k])
      && api(k, payloads) == Exchange.Reply(StoreAt(s, route, t, turns[..k]), route.device, payloads, route.partial)
  }

  /** What `Sync` promises of its calls is what the runs above need of them. */
  lemma {:induction false} AskedIsHonest(t: Table, turns: seq<Turn>, n: nat, api: (nat, seq<Payload>) -> Answer,
                                         clock: nat -> int, s: Ingest.Store, route: Route)
    requires n <= |turns| && SyncEngine.Asked(t, turns, api, clock)
    requires Within(t, turns) && Serves(api, s, route, t, turns)
    ensures Within(t, turns[..n]) && Honest(s, route, t, turns[..n])
  {
    assert Within(t, turns[..n]) by {
      WithinPrefix(t, turns, n);
    }
    if n > 0 {
      AskedIsHonest(t, turns, n - 1, api, clock, s, route);
      assert turns[..n][..n - 1] == turns[..n - 1];
      assert turns[n - 1].answer == api(n - 1, SyncEngine.RequestFor(t, turns[n - 1].batch));
    }
  }

  lemma WithinPrefix(t: Table, turns: seq<Turn>, n: nat)
    requires n <= |turns| && Within(t, turns)
    ensures Within(t, turns[..n])
  {
    assert forall turn | turn in turns[..n] :: turn in turns;
  }

  lemma AskedIsWithin(t: Table, turns: seq<Turn>, api: (nat, seq<Payload>) -> Answer, clock: nat -> int)
    requires SyncEngine.Asked(t, turns, api, clock)
    ensures Within(t, turns)
  {
  }

  /** A pass of the engine at any point of a run: `Sync` itself, on the phone's own table. If
      the calls it made were answered by the server, the run goes on with it, and no message
      captured before is lost. */
  method SyncInARun(repository: SyncEngine.Repository, ghost events: seq<D.Event>, ghost route: Route,
                    now: int, inbox: (int, nat) -> SyncEngine.InboxRead,
                    register: SyncEngine.RegisterAnswer, api: (nat, seq<Payload>) -> Answer, clock: nat -> int,
                    retentionDays: int, checkIn: SyncEngine.CallAnswer, heartbeat: SyncEngine.CallAnswer)
    returns (outcome: SyncEngine.SyncOutcome, ghost queued: Table, ghost turns: seq<Turn>)
    requires D.Legal(events) && repository.messages.rows == D.After(events).phone
    requires forall cutoff, limit | inbox(cutoff, limit).Read? ::
               forall m | m in SyncEngine.Messages(inbox(cutoff, limit).messages) :: NulFree(m.sender)
    modifies repository.messages, repository.settings`excludeFrom, repository.settings`excludeTo,
      repository.settings`setupKey
    modifies repository`token, repository`lastBackfillAt, repository`lastSweptAt
    ensures repository.settings.syncEnabled ==> Within(queued, turns)
    ensures repository.settings.syncEnabled && Serves(api, D.After(events).store, route, queued, turns) ==>
              exists run :: ContinuesWith(events, run, repository.messages.rows)
    ensures !repository.settings.syncEnabled ==> repository.messages.rows == D.After(events).phone
  {
    D.EveryRunKeeps(events);
    ghost var read := inbox(SyncEngine.Cutoff(repository.lastBackfillAt, now), SyncEngine.SCAN_LIMIT);
    ghost var window := repository.settings.Window();
    var calls;
    outcome, calls, queued, turns :=
      repository.Sync(now, inbox, register, api, clock, retentionDays, checkIn, heartbeat);
    if repository.settings.syncEnabled {
      AskedIsWithin(queued, turns, api, clock);
      if Serves(api, D.After(events).store, route, queued, turns) {
        AskedIsHonest(queued, turns, |turns|, api, clock, D.After(events).store, route);
        assert turns[..|turns|] == turns;
        ghost var run := NoPassLosesAMessage(events, read, window, queued, turns, repository.messages.rows, outcome,
                                             retentionDays, now, route);
        assert ContinuesWith(events, run, repository.messages.rows);
      }
    }
  }

  /** The run goes on to a state with these rows, and nothing captured before is lost in it. */
  ghost predicate ContinuesWith(events: seq<D.Event>, run: seq<D.Event>, rows: Table) {
    && D.Legal(events) && D.Legal(run) && events <= run && D.After(run).phone == rows
    && (forall m | m in D.After(events).captured :: D.OnPhone(rows, m) || Of(m) in D.IdsIn(D.After(run).committed))
    && (forall id | id in rows && rows[id].status.Synced? :: id in D.IdsIn(D.After(run).committed))
  }
}
