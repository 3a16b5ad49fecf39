/** Which messages end up in quarantine. A status in the 400s counts against the message when
    the batch is a single one (blamesTheMessage and the upload loop in TsunagiRepository.kt),
    but not every such status comes from the server: a proxy's 404 looks the same. */
module StrayErrors {
  import opened Wrappers
  import opened Identity
  import opened Wire
  import opened MessageTable
  import opened Settlement
  import opened Delivery
  import U = UploadPass
  import InboxSweep
  import Ingest
  import Exchange

  /** The step has something other than the server blame a request with this message alone. */
  ghost predicate Stray(w: World, e: Event, m: Sms) {
    e.Refuse? && U.BlamesTheMessage(e.code) && e.n in w.sent && Exchange.IdsOf(w.sent[e.n]) == [Of(m)]
  }

  /** The answer does not hold this message at fault. */
  ghost predicate Spares(sent: seq<Upload>, a: Answer, id: Id) {
    && id !in U.RefusedBy(U.Turn(Exchange.IdsOf(sent), a, 0))
    && (a.HttpError? && U.BlamesTheMessage(a.code) ==> Exchange.IdsOf(sent) != [id])
  }

  ghost predicate SparesRow(s: Statement, id: Id) {
    s.ToQuarantine? ==> id !in s.ids
  }

  ghost predicate PlansSpare(w: World, id: Id) {
    forall n, s | n in w.settling && s in w.settling[n] :: SparesRow(s, id)
  }

  ghost predicate AnswersSpare(w: World, id: Id) {
    forall n, a | (n, a) in w.answers :: n in w.sent && Spares(w.sent[n], a, id)
  }

  ghost predicate Spared(w: World, id: Id) {
    (id in w.phone ==> !w.phone[id].status.Quarantined?) && PlansSpare(w, id) && AnswersSpare(w, id)
  }

  /** The server itself never holds an acceptable message at fault. */
  lemma ServerSpares(s: Ingest.Store, device: string, sent: seq<Upload>, partial: bool, m: Sms)
    requires GenuineBatch(sent) && NulFree(m.sender) && Exchange.Acceptable(m)
    ensures Spares(sent, Exchange.Reply(s, device, Exchange.Request(sent), partial), Of(m))
  {
    var payloads := Exchange.Request(sent);
    var answer := Exchange.Reply(s, device, payloads, partial);
    forall u | u in sent && u.id == Of(m)
      ensures u.sms == m
    {
      assert Genuine(u);
      Injective(u.sms, m);
    }
    hide Of, NulFree, Ingest.Response;
    if answer.Accepted? {
      Exchange.RefusedAreUnacceptable(s, device, sent, partial, 0);
      assert forall k | 0 <= k < |sent| :: sent[k] in sent;
    } else if Exchange.IdsOf(sent) == [Of(m)] {
      assert |sent| == 1 && Exchange.IdsOf(sent)[0] == Of(m) && sent[0] in sent;
      Exchange.ValidRequest(sent, 0);
    }
  }

  /** An answer that spares the message leads to no statement that quarantines it. */
  lemma PlanSpares(sent: seq<Upload>, a: Answer, now: int, id: Id)
    requires Spares(sent, a, id)
    ensures forall s | s in Plan(Exchange.IdsOf(sent), a, now) :: SparesRow(s, id)
  {
    var batch := Exchange.IdsOf(sent);
    if a.Accepted? && a.response.results.Some? {
      var refused := U.Refused(batch, a.response.results.value);
      forall s | s in Plan(batch, a, now)
        ensures SparesRow(s, id)
      {
        if s.ToQuarantine? {
          assert s in Quarantines(refused);
          var i :| 0 <= i < |refused| && s == ToQuarantine([refused[i].0], refused[i].1);
          assert refused[i].0 in U.RefusedBy(U.Turn(batch, a, 0));
        }
      }
    } else if a.HttpError? && U.BlamesTheMessage(a.code) && |batch| == 1 {
      assert batch == [batch[0]];
    }
  }

  lemma RowSpared(w: World, e: Event, id: Id)
    requires Enabled(w, e) && Spared(w, id)
    ensures id in Next(w, e).phone ==> !Next(w, e).phone[id].status.Quarantined?
  {
    hide Of, IsPendingBatch, Plan, RequestOf;
    match e
    case SweepInbox(candidates) => InboxSweep.SweepOnlyAdds(InboxSweep.Begin(w.phone), candidates);
    case Apply(n) =>
      assert SparesRow(w.settling[n][0], id);
      ExecutedEffect(w.phone, w.settling[n][0]);
    case _ =>
  }

  lemma PlansStillSpare(w: World, e: Event, id: Id)
    requires Enabled(w, e) && PlansSpare(w, id) && AnswersSpare(w, id)
    ensures PlansSpare(Next(w, e), id)
  {
    match e
    case Deliver(n, answer, now) => PlanSpares(w.sent[n], answer, now, id);
    case GiveUp(n) => PlanSpares(w.sent[n], NetworkError, 0, id);
    case Apply(n) => assert forall s | s in w.settling[n][1..] :: s in w.settling[n];
    case _ =>
    hide SparesRow, Spares, Plan, Executed, InboxSweep.Swept, IsPendingBatch, Exchange.Reply, Exchange.StoreAfter, Of;
  }

  lemma AnswersStillSpare(w: World, e: Event, m: Sms)
    requires Enabled(w, e) && AnswersSpare(w, Of(m)) && NulFree(m.sender) && Exchange.Acceptable(m) && !Stray(w, e, m)
    requires GenuineBatches(w.sent) && w.chosen.Keys !! w.sent.Keys
    ensures AnswersSpare(Next(w, e), Of(m))
  {
    match e
    case Serve(n, device, partial) => ServerSpares(w.store, device, w.sent[n], partial, m);
    case Refuse(n, code) => assert Spares(w.sent[n], HttpError(code), Of(m));
    case _ =>
    hide Spares, Of, NulFree, Exchange.Acceptable, Exchange.Reply, Exchange.StoreAfter, Plan, Executed,
      InboxSweep.Swept,
      IsPendingBatch, GenuineBatches;
  }

  lemma StepSpares(w: World, e: Event, m: Sms)
    requires Inv(w) && Enabled(w, e) && NulFree(m.sender) && Exchange.Acceptable(m)
    requires Spared(w, Of(m)) && !Stray(w, e, m)
    ensures Spared(Next(w, e), Of(m))
  {
    RowSpared(w, e, Of(m));
    hide Next, Enabled;
    PlansStillSpare(w, e, Of(m));
    AnswersStillSpare(w, e, m);
  }

  ghost predicate StrayAt(events: seq<Event>, j: nat, m: Sms) {
    j < |events| && Legal(events[..j]) && Stray(After(events[..j]), events[j], m)
  }

  lemma {:induction false} RunSpares(events: seq<Event>, m: Sms)
    requires Legal(events) && NulFree(m.sender) && Exchange.Acceptable(m)
    requires forall j: nat :: !StrayAt(events, j, m)
    ensures Spared(After(events), Of(m))
  {
    hide Inv, Next, Enabled, Spared, Stray, Of, NulFree, Exchange.Acceptable;
    if events == [] {
      assert Spared(EMPTY, Of(m)) by {
        EmptySpares(Of(m));
      }
    } else {
      var n := |events| - 1;
      forall j: nat
        ensures !StrayAt(events[..n], j, m)
      {
        assert !StrayAt(events, j, m);
        if j < n {
          assert events[..n][..j] == events[..j];
        }
      }
      assert !StrayAt(events, n, m);
      RunSpares(events[..n], m);
      EveryRunKeeps(events[..n]);
      StepSpares(After(events[..n]), events[n], m);
    }
  }

  lemma EmptySpares(id: Id)
    ensures Spared(EMPTY, id)
  {
  }

  /** In every run, a message the server would take is quarantined only if something other than
      the server blamed a request that held it alone. */
  lemma QuarantinedOnlyByStrays(events: seq<Event>, m: Sms)
    requires Legal(events) && NulFree(m.sender) && Exchange.Acceptable(m)
    requires Of(m) in After(events).phone && After(events).phone[Of(m)].status.Quarantined?
    ensures exists j: nat :: StrayAt(events, j, m)
  {
    if forall j: nat :: !StrayAt(events, j, m) {
      RunSpares(events, m);
    }
  }

  lemma BlamedPlan(code: int, id: Id)
    requires U.BlamesTheMessage(code)
    ensures Plan([id], HttpError(code), 0) == [ToQuarantine([id], U.PERMANENT)]
  {
  }

  lemma QuarantineApplies(events: seq<Event>, n: nat, id: Id)
    requires Legal(events) && id in After(events).phone
    requires n in After(events).settling && After(events).settling[n] == [ToQuarantine([id], U.PERMANENT)]
    ensures Legal(events + [Apply(n)]) && id in After(events + [Apply(n)]).phone
    ensures After(events + [Apply(n)]).phone[id].status.Quarantined?
  {
    hide Legal, After, Executed;
    ExecutedEffect(After(events).phone, ToQuarantine([id], U.PERMANENT));
    Step(events, Apply(n));
  }

  /** And then it is: once such an answer reaches a pass that awaits it, the message is set aside
      for good, however acceptable. */
  lemma StrayQuarantines(events: seq<Event>, n: nat, code: int, m: Sms) returns (run: seq<Event>)
    requires Legal(events) && Of(m) in After(events).phone && U.BlamesTheMessage(code)
    requires n in After(events).sent && Exchange.IdsOf(After(events).sent[n]) == [Of(m)] && n in After(events).waiting
    ensures Legal(run) && run == events + [Refuse(n, code), Deliver(n, HttpError(code), 0), Apply(n)]
    ensures Of(m) in After(run).phone && After(run).phone[Of(m)].status.Quarantined?
  {
    BlamedPlan(code, Of(m));
    hide Of, Legal, After, Executed, Plan;
    Step(events, Refuse(n, code));
    run := events + [Refuse(n, code)];
    Step(run, Deliver(n, HttpError(code), 0));
    run := run + [Deliver(n, HttpError(code), 0)];
    QuarantineApplies(run, n, Of(m));
    run := run + [Apply(n)];
    assert run == events + [Refuse(n, code), Deliver(n, HttpError(code), 0), Apply(n)];
  }

  /** A 404 from a proxy is enough: for any message at all, from the first upload on. */
  lemma ProxyQuarantines(m: Sms) returns (run: seq<Event>)
    requires NulFree(m.sender)
    ensures run == [Capture(m), Select(0, [Of(m)]), Mark(0)] + [Refuse(0, 404), Deliver(0, HttpError(404), 0), Apply(0)]
    ensures Legal(run) && Of(m) in After(run).phone && After(run).phone[Of(m)].status.Quarantined?
  {
    hide Of, Legal, After, NulFree;
    NothingHappened();
    var posted := Posted([], m);
    run := StrayQuarantines(posted, 0, 404, m);
    assert posted == [Capture(m), Select(0, [Of(m)]), Mark(0)];
  }
}
