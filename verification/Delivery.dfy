/** The whole delivery protocol as one stepped system: a phone, a network that loses,
    delays and repeats, and a server.

    Upload passes may overlap (the immediate and the periodic worker are not exclusive). A
    pass chooses a batch, marks it, posts it and settles the answer in separate statements,
    with anything in between. A request may reach the server any number of times or never,
    an answer may be lost, and the phone's process may die between any two steps. */
module Delivery {
  import opened Wrappers
  import opened Identity
  import opened Wire
  import opened MessageTable
  import opened Settlement
  import UploadPass
  import InboxSweep
  import Ingest
  import Exchange

  /** `chosen` are batches read from the queue and not yet marked, `waiting` the posted ones
      whose answer is awaited, `settling` what is left to do about an answer. `committed`
      holds every row the server has ever committed, `taken` every id it has answered a 200
      for, and `captured` every message the phone has ever stored; these only record, nothing
      reads them. */
  datatype World = World(
    phone: Table,
    chosen: map<nat, seq<Upload>>,
    sent: map<nat, seq<Upload>>,
    waiting: set<nat>,
    settling: map<nat, seq<Statement>>,
    answers: set<(nat, Answer)>,
    store: Ingest.Store,
    committed: set<Upload>,
    taken: set<Id>,
    captured: set<Sms>)

  datatype Event =
    | Capture(m: Sms)
    | SweepInbox(candidates: seq<Sms>)
    | Requeue
    | Withhold(from: int, to: int)
    | Prune(cutoff: int)
    | Select(n: nat, batch: seq<Id>)
    | Mark(n: nat)
    | Serve(n: nat, device: string, partial: bool)
    | Refuse(n: nat, code: int)
    | Deliver(n: nat, answer: Answer, now: int)
    | GiveUp(n: nat)
    | Apply(n: nat)
    | Cancel(n: nat)
    | Crash
    | ClearDevice(device: string)
    | OtherPhone(device: string, uploads: seq<Upload>)

  const EMPTY: World := World(map[], map[], map[], {}, map[], {}, map[], {}, {}, {})

  /** The id is the one the phone derives from the content. */
  ghost predicate Genuine(u: Upload) {
    u.id == Of(u.sms) && NulFree(u.sms.sender)
  }

  ghost predicate Enabled(w: World, e: Event) {
    match e
    case Capture(m) => NulFree(m.sender)
    case SweepInbox(candidates) => forall m | m in candidates :: NulFree(m.sender)
    case Select(n, batch) =>
      n !in w.chosen && n !in w.sent && batch != []
      && (IsPendingBatch(w.phone, UploadPass.BATCH_SIZE, batch) || IsPendingBatch(w.phone, 1, batch))
    case Mark(n) => n in w.chosen
    case Serve(n, _, _) => n in w.sent
    case Refuse(n, _) => n in w.sent
    case Deliver(n, answer, _) => n in w.waiting && n in w.sent && (n, answer) in w.answers
    case GiveUp(n) => n in w.waiting && n in w.sent
    case Apply(n) => n in w.settling && w.settling[n] != []
    case _ => true
  }

  function Rows(s: Ingest.Store): set<Upload> {
    set id | id in s :: Upload(id, s[id].sms)
  }

  function IdsIn(rows: set<Upload>): set<Id> {
    set u | u in rows :: u.id
  }

  /** The request a batch becomes: each row's id and content. */
  function RequestOf(t: Table, batch: seq<Id>): (sent: seq<Upload>)
    requires forall id | id in batch :: id in t
  {
    seq(|batch|, k requires 0 <= k < |batch| => Upload(batch[k], t[batch[k]].sms))
  }

  lemma SentIds(t: Table, batch: seq<Id>)
    requires forall id | id in batch :: id in t
    ensures Exchange.IdsOf(RequestOf(t, batch)) == batch
  {
  }

  /** What the phone will take a 200 to have accepted. */
  function TakenBy(sent: seq<Upload>, answer: Answer): set<Id> {
    if answer.Accepted?
    then Elements(Exchange.IdsOf(sent)) - UploadPass.RefusedBy(UploadPass.Turn(Exchange.IdsOf(sent), answer, 0))
    else {}
  }

  function Settling(w: World, n: nat, answer: Answer, now: int): World
    requires n in w.sent
  {
    w.(waiting := w.waiting - {n}, settling := w.settling[n := Plan(Exchange.IdsOf(w.sent[n]), answer, now)])
  }

  ghost function Next(w: World, e: Event): World
    requires Enabled(w, e)
  {
    match e
    case Capture(m) => w.(phone := Inserted(w.phone, m), captured := w.captured + {m})
    case SweepInbox(candidates) =>
      var phone := InboxSweep.Swept(InboxSweep.Begin(w.phone), candidates).table;
      w.(phone := phone, captured := w.captured + set m | m in candidates && Of(m) in phone)
    case Requeue => w.(phone := Requeued(w.phone))
    case Withhold(from, to) => w.(phone := WithheldBetween(w.phone, from, to))
    case Prune(cutoff) => w.(phone := Pruned(w.phone, cutoff))
    case Select(n, batch) => w.(chosen := w.chosen[n := RequestOf(w.phone, batch)])
    case Mark(n) =>
      w.(phone := MarkedUploading(w.phone, Exchange.IdsOf(w.chosen[n])), sent := w.sent[n := w.chosen[n]],
         waiting := w.waiting + {n}, chosen := w.chosen - {n})
    case Serve(n, device, partial) =>
      var payloads := Exchange.Request(w.sent[n]);
      var store := Exchange.StoreAfter(w.store, device, payloads, partial);
      var answer := Exchange.Reply(w.store, device, payloads, partial);
      w.(store := store, committed := w.committed + Rows(store), taken := w.taken + TakenBy(w.sent[n], answer),
         answers := w.answers + {(n, answer)})
    case Refuse(n, code) => w.(answers := w.answers + {(n, HttpError(code))})
    case Deliver(n, answer, now) => Settling(w, n, answer, now)
    case GiveUp(n) => Settling(w, n, NetworkError, 0)
    case Apply(n) =>
      w.(phone := Executed(w.phone, w.settling[n][0]), settling := w.settling[n := w.settling[n][1..]])
    case Cancel(n) => w.(chosen := w.chosen - {n}, waiting := w.waiting - {n}, settling := w.settling - {n})
    case Crash => w.(chosen := map[], waiting := {}, settling := map[])
    case ClearDevice(device) =>
      w.(store := map id | id in w.store && w.store[id].device != device :: w.store[id])
    case OtherPhone(device, uploads) =>
      var store := Ingest.Ingested(w.store, device, uploads);
      w.(store := store, committed := w.committed + Rows(store))
  }

  // ---- runs ----

  ghost predicate Legal(events: seq<Event>)
    decreases |events|, 0
  {
    events == []
    || (Legal(events[..|events| - 1]) && Enabled(After(events[..|events| - 1]), events[|events| - 1]))
  }

  ghost function After(events: seq<Event>): World
    requires Legal(events)
    decreases |events|, 1
  {
    if events == [] then EMPTY else Next(After(events[..|events| - 1]), events[|events| - 1])
  }

  // ---- what every step keeps ----

  ghost predicate GenuineRows(t: Table) {
    Keyed(t) && forall id | id in t :: NulFree(t[id].sms.sender)
  }

  ghost predicate GenuineBatch(uploads: seq<Upload>) {
    forall u | u in uploads :: Genuine(u)
  }

  /** A 200 vouches for the id of everything it does not refuse, and refuses nothing it was
      not sent. */
  ghost predicate Truthful(sent: seq<Upload>, answer: Answer, ids: set<Id>) {
    var refused := UploadPass.RefusedBy(UploadPass.Turn(Exchange.IdsOf(sent), answer, 0));
    answer.Accepted? ==>
      && refused <= Elements(Exchange.IdsOf(sent))
      && forall id | id in Exchange.IdsOf(sent) && id !in refused :: id in ids
  }

  ghost predicate Confirms(s: Statement, ids: set<Id>) {
    s.ToSynced? ==> forall id | id in s.ids :: id in ids
  }

  ghost predicate OnPhone(t: Table, m: Sms) {
    Of(m) in t && t[Of(m)].sms == m
  }

  ghost predicate SyncedCommitted(t: Table, ids: set<Id>) {
    forall id | id in t && t[id].status.Synced? :: id in ids
  }

  ghost predicate NothingLost(w: World) {
    forall m | m in w.captured :: NulFree(m.sender) && (OnPhone(w.phone, m) || Of(m) in w.taken)
  }

  ghost predicate AnswersTruthful(w: World) {
    forall n, a | (n, a) in w.answers :: n in w.sent && Truthful(w.sent[n], a, w.taken)
  }

  ghost predicate PlansTruthful(w: World) {
    forall n, s | n in w.settling && s in w.settling[n] :: Confirms(s, w.taken)
  }

  ghost predicate GenuineBatches(batches: map<nat, seq<Upload>>) {
    forall n | n in batches :: GenuineBatch(batches[n])
  }

  ghost predicate Inv(w: World) {
    && GenuineRows(w.phone)
    && Rows(w.store) <= w.committed && w.taken <= IdsIn(w.committed)
    && GenuineBatches(w.chosen) && GenuineBatches(w.sent) && w.chosen.Keys !! w.sent.Keys
    && AnswersTruthful(w) && PlansTruthful(w)
    && SyncedCommitted(w.phone, w.taken)
    && NothingLost(w)
  }

  /** Statuses may change freely, except that only a committed id may become SYNCED. */
  lemma StatusChange(w: World, t: Table)
    requires Inv(w) && t.Keys == w.phone.Keys && Extends(w.phone, t)
    requires forall id | id in t && t[id].status.Synced? :: w.phone[id].status.Synced? || id in w.taken
    ensures Inv(w.(phone := t))
  {
    hide Of, Truthful, Genuine, NulFree, Rows, IdsIn, Confirms, GenuineBatches;
    assert forall m | OnPhone(w.phone, m) :: OnPhone(t, m);
  }

  /** New rows may appear on the phone, none of them SYNCED. */
  lemma RowsAdded(w: World, t: Table, taken: set<Sms>)
    requires Inv(w) && w.phone.Keys <= t.Keys && Extends(w.phone, t) && GenuineRows(t)
    requires forall id | id in t && t[id].status.Synced? :: id in w.phone && w.phone[id].status.Synced?
    requires forall m | m in taken :: NulFree(m.sender) && Of(m) in t
    ensures Inv(w.(phone := t, captured := w.captured + taken))
  {
    forall m | m in taken
      ensures OnPhone(t, m)
    {
      Injective(m, t[Of(m)].sms);
    }
    hide Of, Truthful, Genuine, NulFree, Rows, IdsIn, Confirms, GenuineBatches;
    assert forall m | OnPhone(w.phone, m) :: OnPhone(t, m);
  }

  lemma PruneKeeps(w: World, cutoff: int)
    requires Inv(w)
    ensures Inv(w.(phone := Pruned(w.phone, cutoff)))
  {
    hide Of, Truthful, Genuine, NulFree, Rows, IdsIn, Confirms, GenuineBatches;
    var t := Pruned(w.phone, cutoff);
    forall m | m in w.captured
      ensures OnPhone(t, m) || Of(m) in w.taken
    {
      if OnPhone(w.phone, m) && Of(m) !in t {
        assert w.phone[Of(m)].status.Synced?;
      }
    }
  }

  lemma SelectKeeps(w: World, n: nat, batch: seq<Id>)
    requires Inv(w) && Enabled(w, Select(n, batch))
    ensures Inv(Next(w, Select(n, batch)))
  {
    assert Elements(batch) <= w.phone.Keys;
    RequestIsGenuine(w.phone, batch);
    hide Of, Truthful, GenuineBatch, NulFree, Rows, IdsIn, IsPendingBatch, Confirms, OnPhone;
  }

  lemma RequestIsGenuine(t: Table, batch: seq<Id>)
    requires GenuineRows(t) && forall id | id in batch :: id in t
    ensures GenuineBatch(RequestOf(t, batch))
  {
    forall u | u in RequestOf(t, batch)
      ensures Genuine(u)
    {
      assert u.id in batch && u.sms == t[u.id].sms;
    }
  }

  /** What was chosen is marked and posted as it was chosen, whatever became of the rows. */
  lemma MarkKeeps(w: World, n: nat)
    requires Inv(w) && n in w.chosen
    ensures Inv(Next(w, Mark(n)))
  {
    StatusChange(w, MarkedUploading(w.phone, Exchange.IdsOf(w.chosen[n])));
    hide Of, GenuineBatch, NulFree, Rows, IdsIn, OnPhone, Confirms, MarkedUploading, GenuineRows, NothingLost,
      SyncedCommitted;
  }

  /** The server may commit more, and take more in, as long as what it takes in is committed. */
  lemma CommitMore(w: World, store: Ingest.Store, more: set<Id>)
    requires Inv(w) && more <= IdsIn(Rows(store))
    ensures Inv(w.(store := store, committed := w.committed + Rows(store), taken := w.taken + more))
  {
    hide Of, Genuine, NulFree, Rows, OnPhone, GenuineRows, GenuineBatches, Confirms;
    assert IdsIn(w.committed) + IdsIn(Rows(store)) == IdsIn(w.committed + Rows(store));
    hide IdsIn;
    var taken := w.taken + more;
    forall n, a | (n, a) in w.answers
      ensures Truthful(w.sent[n], a, taken)
    {
      assert Truthful(w.sent[n], a, w.taken);
    }
    forall n, s | n in w.settling && s in w.settling[n]
      ensures Confirms(s, taken)
    {
      ConfirmsMore(s, w.taken, taken);
    }
  }

  lemma ConfirmsMore(s: Statement, ids: set<Id>, more: set<Id>)
    requires Confirms(s, ids) && ids <= more
    ensures Confirms(s, more)
  {
  }

  lemma AnswerAdded(w: World, n: nat, a: Answer)
    requires Inv(w) && n in w.sent && Truthful(w.sent[n], a, w.taken)
    ensures Inv(w.(answers := w.answers + {(n, a)}))
  {
    hide Of, Genuine, NulFree, Rows, IdsIn, OnPhone, Truthful, Confirms, GenuineBatches;
  }

  /** Serving a request commits the ids the answer vouches for. */
  lemma ServeKeeps(w: World, n: nat, device: string, partial: bool)
    requires Inv(w) && n in w.sent
    ensures Inv(Next(w, Serve(n, device, partial)))
  {
    hide Inv, Truthful, TakenBy, Exchange.StoreAfter, Exchange.Reply, Rows, IdsIn;
    var payloads := Exchange.Request(w.sent[n]);
    var store := Exchange.StoreAfter(w.store, device, payloads, partial);
    var answer := Exchange.Reply(w.store, device, payloads, partial);
    ReplyIsTruthful(w.store, w.sent[n], device, partial, w.taken);
    CommitMore(w, store, TakenBy(w.sent[n], answer));
    var taken := w.taken + TakenBy(w.sent[n], answer);
    AnswerAdded(w.(store := store, committed := w.committed + Rows(store), taken := taken), n, answer);
  }

  lemma ReplyIsTruthful(s: Ingest.Store, sent: seq<Upload>, device: string, partial: bool, ids: set<Id>)
    ensures var answer := Exchange.Reply(s, device, Exchange.Request(sent), partial);
            && Truthful(sent, answer, ids + TakenBy(sent, answer))
            && TakenBy(sent, answer) <= IdsIn(Rows(Exchange.StoreAfter(s, device, Exchange.Request(sent), partial)))
  {
    var turn := Exchange.Exchanged(s, device, sent, partial, 0);
    var store := Exchange.StoreAfter(s, device, Exchange.Request(sent), partial);
    if turn.answer.Accepted? {
      Exchange.RefusedAreUnacceptable(s, device, sent, partial, 0);
      UnacceptableWereSent(sent);
      forall id | id in turn.batch && id !in UploadPass.RefusedBy(turn)
        ensures id in IdsIn(Rows(store))
      {
        var k :| 0 <= k < |sent| && sent[k].id == id;
        Exchange.NotRefusedIsStored(s, device, sent, partial, k);
        assert Upload(id, store[id].sms) in Rows(store);
      }
    }
  }

  lemma UnacceptableWereSent(sent: seq<Upload>)
    ensures Exchange.Unacceptable(sent) <= Elements(Exchange.IdsOf(sent))
  {
    forall id | id in Exchange.Unacceptable(sent)
      ensures id in Exchange.IdsOf(sent)
    {
      var k :| 0 <= k < |sent| && !Exchange.Acceptable(sent[k].sms) && sent[k].id == id;
      assert Exchange.IdsOf(sent)[k] == id;
    }
  }

  /** A truthful answer leads only to statements that confirm committed ids. */
  lemma SettlingKeeps(w: World, n: nat, answer: Answer, now: int)
    requires Inv(w) && n in w.sent && Truthful(w.sent[n], answer, w.taken)
    ensures Inv(Settling(w, n, answer, now))
  {
    var batch := Exchange.IdsOf(w.sent[n]);
    forall s | s in Plan(batch, answer, now)
      ensures Confirms(s, w.taken)
    {
      PlanNames(batch, answer, now, s);
      assert UploadPass.RefusedBy(UploadPass.Turn(batch, answer, now))
        == UploadPass.RefusedBy(UploadPass.Turn(batch, answer, 0));
    }
    hide Of, Genuine, NulFree, Rows, IdsIn, OnPhone, Truthful, Confirms, GenuineBatches, Plan;
  }

  /** Each statement, run whenever, marks as SYNCED only what the server has committed. */
  lemma ApplyKeeps(w: World, n: nat)
    requires Inv(w) && Enabled(w, Apply(n))
    ensures Inv(Next(w, Apply(n)))
  {
    var s := w.settling[n][0];
    assert Confirms(s, w.taken);
    ExecutedEffect(w.phone, s);
    hide Executed;
    StatusChange(w, Executed(w.phone, s));
    hide Of, Genuine, NulFree, Rows, IdsIn, OnPhone, Truthful, Confirms, GenuineBatches;
    assert forall r | r in w.settling[n][1..] :: r in w.settling[n];
  }

  lemma CrashKeeps(w: World)
    requires Inv(w)
    ensures Inv(Next(w, Crash))
  {
    hide Of, Genuine, NulFree, Rows, IdsIn, OnPhone, Truthful, Confirms, GenuineBatch;
  }

  lemma CancelKeeps(w: World, n: nat)
    requires Inv(w) && Enabled(w, Cancel(n))
    ensures Inv(Next(w, Cancel(n)))
  {
    hide Of, Genuine, NulFree, Rows, IdsIn, OnPhone, Truthful, Confirms, GenuineBatch;
  }

  lemma ClearKeeps(w: World, device: string)
    requires Inv(w)
    ensures Inv(Next(w, ClearDevice(device)))
  {
    hide Of, Genuine, NulFree, OnPhone, Truthful, Confirms, GenuineBatches, IdsIn;
  }

  lemma SweepKeeps(w: World, candidates: seq<Sms>)
    requires Inv(w) && Enabled(w, SweepInbox(candidates))
    ensures Inv(Next(w, SweepInbox(candidates)))
  {
    var t := InboxSweep.Swept(InboxSweep.Begin(w.phone), candidates).table;
    SweptIsGenuine(InboxSweep.Begin(w.phone), candidates);
    InboxSweep.SweepOnlyAdds(InboxSweep.Begin(w.phone), candidates);
    RowsAdded(w, t, set m | m in candidates && Of(m) in t);
  }

  lemma {:induction false} SweptIsGenuine(s: InboxSweep.Sweep, candidates: seq<Sms>)
    requires GenuineRows(s.table) && forall m | m in candidates :: NulFree(m.sender)
    ensures GenuineRows(InboxSweep.Swept(s, candidates).table)
  {
    if candidates != [] {
      SweptIsGenuine(s, candidates[..|candidates| - 1]);
    }
  }

  lemma CaptureKeeps(w: World, m: Sms)
    requires Inv(w) && NulFree(m.sender)
    ensures Inv(Next(w, Capture(m)))
  {
    RowsAdded(w, Inserted(w.phone, m), {m});
  }

  lemma RequeueKeeps(w: World)
    requires Inv(w)
    ensures Inv(Next(w, Requeue))
  {
    StatusChange(w, Requeued(w.phone));
  }

  lemma WithholdKeeps(w: World, from: int, to: int)
    requires Inv(w)
    ensures Inv(Next(w, Withhold(from, to)))
  {
    StatusChange(w, WithheldBetween(w.phone, from, to));
  }

  lemma RefuseKeeps(w: World, n: nat, code: int)
    requires Inv(w) && n in w.sent
    ensures Inv(Next(w, Refuse(n, code)))
  {
    AnswerAdded(w, n, HttpError(code));
  }

  lemma DeliverKeeps(w: World, n: nat, answer: Answer, now: int)
    requires Inv(w) && Enabled(w, Deliver(n, answer, now))
    ensures Inv(Next(w, Deliver(n, answer, now)))
  {
    SettlingKeeps(w, n, answer, now);
  }

  lemma OtherKeeps(w: World, device: string, uploads: seq<Upload>)
    requires Inv(w)
    ensures Inv(Next(w, OtherPhone(device, uploads)))
  {
    hide Inv;
    CommitMore(w, Ingest.Ingested(w.store, device, uploads), {});
    assert w.taken + {} == w.taken;
  }

  /** Every step of every party keeps the invariant. */
  lemma StepKeeps(w: World, e: Event)
    requires Inv(w) && Enabled(w, e)
    ensures Inv(Next(w, e))
  {
    hide Inv, Settling;
    match e
    case Capture(m) => CaptureKeeps(w, m);
    case SweepInbox(candidates) => SweepKeeps(w, candidates);
    case Requeue => RequeueKeeps(w);
    case Withhold(from, to) => WithholdKeeps(w, from, to);
    case Prune(cutoff) => PruneKeeps(w, cutoff);
    case Select(n, batch) => SelectKeeps(w, n, batch);
    case Mark(n) => MarkKeeps(w, n);
    case Serve(n, device, partial) => ServeKeeps(w, n, device, partial);
    case Refuse(n, code) => RefuseKeeps(w, n, code);
    case Deliver(n, answer, now) => DeliverKeeps(w, n, answer, now);
    case GiveUp(n) => SettlingKeeps(w, n, NetworkError, 0);
    case Apply(n) => ApplyKeeps(w, n);
    case Cancel(n) => CancelKeeps(w, n);
    case Crash => CrashKeeps(w);
    case ClearDevice(device) => ClearKeeps(w, device);
    case OtherPhone(device, uploads) => OtherKeeps(w, device, uploads);
  }

  lemma {:induction false} EveryRunKeeps(events: seq<Event>)
    requires Legal(events)
    ensures Inv(After(events))
  {
    hide Inv, Next, Enabled;
    if events == [] {
      EmptyIsFine();
    } else {
      EveryRunKeeps(events[..|events| - 1]);
      StepKeeps(After(events[..|events| - 1]), events[|events| - 1]);
    }
  }

  lemma EmptyIsFine()
    ensures Inv(EMPTY)
  {
  }

  /** No loss and no false confirmation, over every run and whatever other devices upload:
      each message the phone ever stored is still a row of the phone or its id has been
      committed by the server, and the id of each SYNCED row has been committed. */
  lemma NoIdIsEverLost(events: seq<Event>)
    requires Legal(events)
    ensures var w := After(events);
            && (forall m | m in w.captured :: OnPhone(w.phone, m) || Of(m) in IdsIn(w.committed))
            && (forall id | id in w.phone && w.phone[id].status.Synced? :: id in IdsIn(w.committed))
  {
    EveryRunKeeps(events);
  }

  /** A run grows by any step its last state enables. */
  lemma Step(events: seq<Event>, e: Event)
    requires Legal(events) && Enabled(After(events), e)
    ensures Legal(events + [e]) && After(events + [e]) == Next(After(events), e)
  {
    assert (events + [e])[..|events|] == events;
  }

  // ---- what was ever captured ----

  ghost predicate AllCaptured(w: World) {
    forall id | id in w.phone :: w.phone[id].sms in w.captured
  }

  /** Rows only come of broadcasts and sweeps; any other step keeps or drops those there are. */
  lemma RowsComeOfCapture(w: World, e: Event)
    requires Inv(w) && Enabled(w, e) && !e.SweepInbox? && AllCaptured(w)
    ensures AllCaptured(Next(w, e))
  {
    hide Of, Plan, RequestOf, Exchange.StoreAfter, Exchange.Reply, Ingest.Ingested, Rows, TakenBy, InboxSweep.Swept,
      IsPendingBatch;
  }

  lemma SweepCaptures(w: World, candidates: seq<Sms>)
    requires Inv(w) && Enabled(w, SweepInbox(candidates)) && AllCaptured(w)
    ensures AllCaptured(Next(w, SweepInbox(candidates)))
  {
    hide Of, NulFree, InboxSweep.Swept;
    var t := InboxSweep.Swept(InboxSweep.Begin(w.phone), candidates).table;
    SweptIsGenuine(InboxSweep.Begin(w.phone), candidates);
    InboxSweep.SweepOnlyAdds(InboxSweep.Begin(w.phone), candidates);
    forall id | id in t && id !in w.phone
      ensures t[id].sms in candidates
    {
      var i :| 0 <= i < |candidates| && id == Of(candidates[i]);
      Injective(candidates[i], t[id].sms);
    }
  }

  /** The record of captures leaves nothing out: in every run, what a row of the phone says was
      captured, so that what is never lost is everything the phone ever held. */
  lemma {:induction false} EveryRowWasCaptured(events: seq<Event>)
    requires Legal(events)
    ensures forall id | id in After(events).phone :: After(events).phone[id].sms in After(events).captured
  {
    hide Inv, Next, Enabled;
    if events != [] {
      var before, last := events[..|events| - 1], events[|events| - 1];
      EveryRunKeeps(before);
      EveryRowWasCaptured(before);
      if last.SweepInbox? {
        SweepCaptures(After(before), last.candidates);
      } else {
        RowsComeOfCapture(After(before), last);
      }
    }
  }

  // ---- one answer for each upload ----

  /** The pass that posted this request is done waiting. */
  ghost predicate Over(w: World, n: nat) {
    n in w.sent && n !in w.waiting && n !in w.chosen
  }

  ghost predicate ActsOn(e: Event, n: nat) {
    (e.Deliver? || e.GiveUp?) && e.n == n
  }

  lemma OverStays(w: World, e: Event, n: nat)
    requires Enabled(w, e) && Over(w, n)
    ensures Over(Next(w, e), n) && !ActsOn(e, n)
  {
    hide Inserted, Requeued, Pruned, WithheldBetween, InboxSweep.Swept, Executed, IsPendingBatch, Of, Plan, RequestOf,
      MarkedUploading, Exchange.StoreAfter, Exchange.Reply, Ingest.Ingested, Rows, TakenBy;
  }

  lemma ActingEndsIt(w: World, e: Event, n: nat)
    requires Enabled(w, e) && ActsOn(e, n) && w.chosen.Keys !! w.sent.Keys
    ensures Over(Next(w, e), n)
  {
  }

  /** However often the server answers one upload, the phone acts on one answer at most, or on the
      absence of one, and never on both. */
  lemma {:induction false} ActsOnce(events: seq<Event>, i: nat, j: nat, n: nat)
    requires Legal(events) && i < j < |events| && ActsOn(events[i], n)
    ensures !ActsOn(events[j], n)
  {
    var before := events[..j];
    LegalPrefix(events, j + 1);
    assert events[..j + 1][..j] == before;
    OverSince(before, i, n);
    OverStays(After(before), events[j], n);
  }

  lemma {:induction false} LegalPrefix(events: seq<Event>, k: nat)
    requires Legal(events) && k <= |events|
    ensures Legal(events[..k])
  {
    if k < |events| {
      assert events[..|events| - 1][..k] == events[..k];
      LegalPrefix(events[..|events| - 1], k);
    } else {
      assert events[..k] == events;
    }
  }

  lemma {:induction false} OverSince(events: seq<Event>, i: nat, n: nat)
    requires Legal(events) && i < |events| && ActsOn(events[i], n)
    ensures Over(After(events), n)
  {
    hide Next, Enabled, Over, ActsOn, Inv;
    var before, last := events[..|events| - 1], events[|events| - 1];
    if i < |before| {
      OverSince(before, i, n);
      OverStays(After(before), last, n);
    } else {
      EveryRunKeeps(before);
      NamesApart(After(before));
      ActingEndsIt(After(before), last, n);
    }
  }

  lemma NamesApart(w: World)
    requires Inv(w)
    ensures w.chosen.Keys !! w.sent.Keys
  {
  }

  /** Clearing a device deletes its rows and no other, and the server forgets their ids: sent
      again, such a message is created anew. */
  lemma ClearsOwnRows(w: World, device: string, m: Sms, sender: string)
    ensures var after := Next(w, ClearDevice(device));
            && (forall id :: id in after.store <==> id in w.store && w.store[id].device != device)
            && (forall id | id in after.store :: after.store[id] == w.store[id])
            && after.phone == w.phone && after.committed == w.committed
            && (Of(m) in w.store && w.store[Of(m)].device == device ==>
                  Ingest.Ingested(after.store, sender, [Upload(Of(m), m)])
                  == after.store[Of(m) := Ingest.Stored(sender, m)])
  {
    hide Of;
    assert [Upload(Of(m), m)][..0] == [];
    assert Ingest.Ingested(Next(w, ClearDevice(device)).store, sender, []) == Next(w, ClearDevice(device)).store;
  }

  // ---- passes that are cancelled ----

  /** No pass has a batch of this number in hand. */
  ghost predicate Idle(w: World, n: nat) {
    n !in w.chosen && n !in w.waiting && n !in w.settling
  }

  /** The step is some pass's next with the batch of this number. */
  ghost predicate Works(e: Event, n: nat) {
    (e.Mark? || e.Deliver? || e.GiveUp? || e.Apply?) && e.n == n
  }

  lemma IdleStays(w: World, e: Event, n: nat)
    requires Enabled(w, e) && Idle(w, n)
    ensures !Works(e, n) && (Idle(Next(w, e), n) || (e.Select? && e.n == n))
  {
    hide Inserted, Requeued, Pruned, WithheldBetween, InboxSweep.Swept, Executed, IsPendingBatch, Of, Plan, RequestOf,
      MarkedUploading, Exchange.StoreAfter, Exchange.Reply, Ingest.Ingested, Rows, TakenBy;
  }

  /** A worker that is cancelled, or dies with the process, does nothing more with its batch: it
      neither marks it, nor acts on an answer, nor finishes settling one. */
  lemma {:induction false} NothingAfterCancel(events: seq<Event>, i: nat, j: nat, n: nat)
    requires Legal(events) && i < j < |events|
    requires events[i] == Cancel(n) || events[i] == Crash
    requires forall k | i < k < j :: !(events[k].Select? && events[k].n == n)
    ensures !Works(events[j], n)
  {
    LegalPrefix(events, j + 1);
    assert events[..j + 1][..j] == events[..j];
    IdleSince(events[..j], i, n);
    IdleStays(After(events[..j]), events[j], n);
  }

  lemma {:induction false} IdleSince(events: seq<Event>, i: nat, n: nat)
    requires Legal(events) && i < |events|
    requires events[i] == Cancel(n) || events[i] == Crash
    requires forall k | i < k < |events| :: !(events[k].Select? && events[k].n == n)
    ensures Idle(After(events), n)
  {
    hide Enabled, Works;
    var before, last := events[..|events| - 1], events[|events| - 1];
    if i < |before| {
      IdleSince(before, i, n);
      IdleStays(After(before), last, n);
    }
  }

  lemma NothingHappened()
    ensures Legal([]) && After([]) == EMPTY
  {
  }

  // ---- contents, and what other devices can do to them ----

  ghost predicate All(rows: set<Upload>, ok: Upload -> bool) {
    forall u | u in rows :: ok(u)
  }

  /** Every row the phone itself derives meets `ok`. */
  ghost predicate HoldsOfGenuine(ok: Upload -> bool) {
    forall u | Genuine(u) :: ok(u)
  }

  ghost predicate OthersUpload(events: seq<Event>, ok: Upload -> bool) {
    forall e, u | e in events && e.OtherPhone? && u in e.uploads :: ok(u)
  }

  lemma {:induction false} IngestKeepsAll(s: Ingest.Store, device: string, uploads: seq<Upload>, ok: Upload -> bool)
    requires All(Rows(s), ok) && forall u | u in uploads :: ok(u)
    ensures All(Rows(Ingest.Ingested(s, device, uploads)), ok)
  {
    if uploads != [] {
      var before, last := Ingest.Ingested(s, device, uploads[..|uploads| - 1]), uploads[|uploads| - 1];
      IngestKeepsAll(s, device, uploads[..|uploads| - 1], ok);
      assert Rows(Ingest.InsertIfAbsent(before, device, last)) <= Rows(before) + {last};
    }
  }

  lemma {:induction false} UploadsWereSent(sent: seq<Upload>, k: nat)
    requires k <= |sent|
    ensures forall u | u in Ingest.Uploads(Exchange.Request(sent)[..k]) :: u in sent
  {
    if k > 0 {
      UploadsWereSent(sent, k - 1);
      var payloads := Exchange.Request(sent);
      assert payloads[..k][..k - 1] == payloads[..k - 1];
      assert sent[k - 1] in sent;
      hide Exchange.Representable;
    }
  }

  lemma ServeKeepsAll(s: Ingest.Store, device: string, sent: seq<Upload>, partial: bool, ok: Upload -> bool)
    requires All(Rows(s), ok) && GenuineBatch(sent) && HoldsOfGenuine(ok)
    ensures All(Rows(Exchange.StoreAfter(s, device, Exchange.Request(sent), partial)), ok)
  {
    hide Genuine;
    var payloads := Exchange.Request(sent);
    UploadsWereSent(sent, |sent|);
    assert payloads[..|sent|] == payloads;
    IngestKeepsAll(s, device, Ingest.Uploads(payloads), ok);
  }

  lemma StepKeepsAll(w: World, e: Event, ok: Upload -> bool)
    requires Inv(w) && Enabled(w, e) && HoldsOfGenuine(ok) && All(w.committed, ok)
    requires e.OtherPhone? ==> forall u | u in e.uploads :: ok(u)
    ensures All(Next(w, e).committed, ok)
  {
    hide Truthful, Genuine, IdsIn, Confirms, GenuineBatch, Exchange.StoreAfter, Exchange.Reply, Ingest.Ingested;
    assert All(Rows(w.store), ok);
    if e.Serve? {
      ServeKeepsAll(w.store, e.device, w.sent[e.n], e.partial, ok);
    } else if e.OtherPhone? {
      IngestKeepsAll(w.store, e.device, e.uploads, ok);
    }
  }

  /** What the phone's own rows and the other devices' uploads meet, every row ever committed
      meets. */
  lemma {:induction false} RunKeepsAll(events: seq<Event>, ok: Upload -> bool)
    requires Legal(events) && HoldsOfGenuine(ok) && OthersUpload(events, ok)
    ensures All(After(events).committed, ok)
  {
    hide Inv, Next, Enabled, HoldsOfGenuine;
    if events != [] {
      var before, last := events[..|events| - 1], events[|events| - 1];
      assert forall e | e in before :: e in events;
      RunKeepsAll(before, ok);
      EveryRunKeeps(before);
      StepKeepsAll(After(before), last, ok);
    }
  }

  /** The row does not hold another content under this message's id. */
  ghost function NotForeign(m: Sms): Upload -> bool {
    (u: Upload) => u.id == Of(m) ==> u.sms == m
  }

  /** The row does not hold this message under another id. */
  ghost function NotSecond(m: Sms): Upload -> bool {
    (u: Upload) => u.sms == m ==> u.id == Of(m)
  }

  /** The message itself is safe, not only its id: in every run in which no other device
      uploads its id over another content, a captured message is still a row of the phone or
      its content has been committed, and if it is marked SYNCED it has been committed. */
  lemma NothingIsEverLost(events: seq<Event>, m: Sms)
    requires Legal(events) && OthersUpload(events, NotForeign(m)) && m in After(events).captured
    ensures var w := After(events);
            && (OnPhone(w.phone, m) || Upload(Of(m), m) in w.committed)
            && (OnPhone(w.phone, m) && w.phone[Of(m)].status.Synced? ==> Upload(Of(m), m) in w.committed)
  {
    EveryRunKeeps(events);
    var w := After(events);
    forall u | Genuine(u)
      ensures NotForeign(m)(u)
    {
      if u.id == Of(m) {
        Injective(u.sms, m);
      }
    }
    RunKeepsAll(events, NotForeign(m));
    if u :| u in w.committed && u.id == Of(m) {
      assert NotForeign(m)(u) && u == Upload(Of(m), m);
    }
  }

  /** No duplicates: in every run in which no other device uploads this content under an id of
      its own, the server never holds the message under more than one id. */
  lemma NeverStoredTwice(events: seq<Event>, m: Sms)
    requires Legal(events) && OthersUpload(events, NotSecond(m))
    ensures var s := After(events).store;
            forall a, b | a in s && b in s && s[a].sms == m && s[b].sms == m :: a == b
  {
    EveryRunKeeps(events);
    RunKeepsAll(events, NotSecond(m));
    var w := After(events);
    forall id | id in w.store && w.store[id].sms == m
      ensures id == Of(m)
    {
      assert Upload(id, m) in Rows(w.store) && NotSecond(m)(Upload(id, m));
    }
  }

  /** A phone that has done nothing captures a message and posts it. */
  lemma Posted(events: seq<Event>, m: Sms) returns (run: seq<Event>)
    requires Legal(events) && NulFree(m.sender)
    requires After(events) == EMPTY.(store := After(events).store, committed := After(events).committed)
    ensures run == events + [Capture(m), Select(0, [Of(m)]), Mark(0)] && Legal(run)
    ensures After(run) == After(events).(captured := {m}, phone := map[Of(m) := Fresh(m).(status := Uploading)],
                                         sent := map[0 := [Upload(Of(m), m)]], waiting := {0})
  {
    hide Of, NulFree, Legal, After, IsPendingBatch, MarkedUploading;
    var id := Of(m);
    Step(events, Capture(m));
    run := events + [Capture(m)];
    assert After(run).phone == map[id := Fresh(m)];
    OnlyRow(id, Fresh(m));
    Step(run, Select(0, [id]));
    run := run + [Select(0, [id])];
    assert After(run).chosen == map[0 := [Upload(id, m)]];
    Step(run, Mark(0));
    run := run + [Mark(0)];
    assert After(run).chosen == map[];
    assert run == events + [Capture(m), Select(0, [id]), Mark(0)];
  }

  /** The hypothesis of NothingIsEverLost is needed: the server takes any id from any device.
      Once another one has stored this message's id over some other content, the phone's own
      upload is answered duplicate, its row is confirmed, and the message is not stored. */
  lemma ForeignIdSwallowsMessage(m: Sms, other: Sms) returns (events: seq<Event>)
    requires NulFree(m.sender) && Exchange.Acceptable(m) && other != m
    ensures Legal(events) && m in After(events).captured
    ensures Of(m) in After(events).phone && After(events).phone[Of(m)].status.Synced?
    ensures Upload(Of(m), m) !in After(events).committed
  {
    hide Of, NulFree, Legal, After, Exchange.Reply, Exchange.StoreAfter, Plan, Exchange.Acceptable, Rows;
    var id, foreign := Of(m), OtherPhone("", [Upload(Of(m), other)]);
    NothingHappened();
    ForeignRow(id, other);
    Step([], foreign);
    var posted := Posted([] + [foreign], m);
    events := Confirmed(posted, m, other);
  }

  /** The server answers duplicate, and the phone confirms its row. */
  lemma Confirmed(posted: seq<Event>, m: Sms, other: Sms) returns (run: seq<Event>)
    requires Legal(posted) && Exchange.Acceptable(m) && other != m
    requires After(posted).sent == map[0 := [Upload(Of(m), m)]] && After(posted).waiting == {0}
    requires After(posted).phone.Keys == {Of(m)} && m in After(posted).captured
    requires After(posted).store == map[Of(m) := Ingest.Stored("", other)]
    requires After(posted).committed == {Upload(Of(m), other)}
    ensures Legal(run) && m in After(run).captured && After(run).committed == {Upload(Of(m), other)}
    ensures After(run).phone.Keys == {Of(m)} && After(run).phone[Of(m)].status.Synced?
  {
    hide Of, Legal, After, Exchange.Reply, Exchange.StoreAfter, Plan, Exchange.Acceptable, Rows;
    var id := Of(m);
    DuplicateIsDropped(id, m, other);
    AcceptableIsConfirmed(id, m, After(posted).store, 0);
    assert Exchange.IdsOf([Upload(id, m)]) == [id];
    ForeignRow(id, other);
    var answer := Exchange.Reply(After(posted).store, "", Exchange.Request([Upload(id, m)]), false);
    Step(posted, Serve(0, "", false));
    run := posted + [Serve(0, "", false)];
    Step(run, Deliver(0, answer, 0));
    run := run + [Deliver(0, answer, 0)];
    assert After(run).settling[0] == [ToSynced([id], 0)];
    Step(run, Apply(0));
    run := run + [Apply(0)];
  }

  lemma ForeignRow(id: Id, other: Sms)
    ensures Ingest.Ingested(map[], "", [Upload(id, other)]) == map[id := Ingest.Stored("", other)]
    ensures Rows(map[id := Ingest.Stored("", other)]) == {Upload(id, other)}
  {
    assert [Upload(id, other)][..0] == [];
    assert Ingest.Ingested(map[], "", []) == map[];
  }

  /** The queue of a table of one queued row, and what marking it does. */
  lemma OnlyRow(id: Id, r: Row)
    requires Queued(r)
    ensures IsPendingBatch(map[id := r], UploadPass.BATCH_SIZE, [id])
    ensures RequestOf(map[id := r], [id]) == [Upload(id, r.sms)] && Exchange.IdsOf([Upload(id, r.sms)]) == [id]
    ensures MarkedUploading(map[id := r], [id]) == map[id := r.(status := Uploading)]
  {
    assert Queue(map[id := r]) == {id};
  }

  /** An id that is taken keeps its row. */
  lemma DuplicateIsDropped(id: Id, m: Sms, other: Sms)
    requires Exchange.Acceptable(m)
    ensures var s := map[id := Ingest.Stored("", other)];
            Exchange.StoreAfter(s, "", Exchange.Request([Upload(id, m)]), false) == s
  {
    var s, payloads := map[id := Ingest.Stored("", other)], Exchange.Request([Upload(id, m)]);
    assert payloads == [Exchange.ToUpload(id, m)] && Ingest.Valid(payloads[0]);
    assert payloads[..0] == [] && Ingest.Uploads([]) == [];
    assert Ingest.Uploads(payloads) == [Upload(id, m)];
    Ingest.KnownBatchChangesNothing(s, "", [Upload(id, m)]);
  }

  /** A server that reports per batch says 200 to an acceptable message, new or not, and the phone
      confirms its row. */
  lemma AcceptableIsConfirmed(id: Id, m: Sms, s: Ingest.Store, now: int)
    requires Exchange.Acceptable(m)
    ensures Plan([id], Exchange.Reply(s, "", Exchange.Request([Upload(id, m)]), false), now) == [ToSynced([id], now)]
  {
    var payloads := Exchange.Request([Upload(id, m)]);
    assert payloads == [Exchange.ToUpload(id, m)] && Ingest.Valid(payloads[0]);
    hide Ingest.Verdicts, Ingest.CountOf;
  }
}
