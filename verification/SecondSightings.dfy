/** One message sighted under two times. The broadcast reports the service centre's time and the
    inbox may record another; the sweep takes the two for one message as long as the first
    sighting's row is on the phone (TsunagiRepository.storeIfMissing). Once that row is pruned,
    nothing ties them together. */
module SecondSightings {
  import opened Wrappers
  import opened Identity
  import opened Wire
  import opened MessageTable
  import opened Settlement
  import opened Delivery
  import InboxSweep
  import RepeatedSweeps
  import UploadPass
  import Ingest
  import Exchange

  /** The two are within the sweep's reach of each other: same text, at most ten minutes apart. */
  predicate SameMessage(a: Sms, b: Sms) {
    && a.sender == b.sender && a.body == b.body
    && b.receivedAt - 600000 <= a.receivedAt <= b.receivedAt + 600000
  }

  function Alone(m: Sms): seq<Payload> {
    Exchange.Request([Upload(Of(m), m)])
  }

  lemma AloneIs(m: Sms)
    ensures Alone(m) == [Exchange.ToUpload(Of(m), m)] && (Ingest.Valid(Alone(m)[0]) <==> Exchange.Acceptable(m))
    ensures Alone(m)[..0] == [] && Ingest.Uploads([]) == []
    ensures Exchange.Acceptable(m) ==> Ingest.Uploads(Alone(m)) == [Upload(Of(m), m)]
  {
    assert Alone(m)[..0] == [];
  }

  /** The server knows a message only by its id: sent alone, it is created exactly when it is
      acceptable and its id is new. */
  lemma CreatedExactlyWhen(s: Ingest.Store, device: string, m: Sms)
    ensures Ingest.Verdict(s, device, Alone(m), 0).status == Created <==> Exchange.Acceptable(m) && Of(m) !in s
  {
    AloneIs(m);
    Ingest.EmptyBatch(s, device, []);
  }

  /** Exactly when a message is stored a second time after a prune: on the phone, when every row
      it could be taken for has been pruned, its own included; on the server, when besides it is
      acceptable and its own id is not stored there. A message first recognised by another
      sighting's row has never been stored under its own id. */
  lemma StoredTwiceExactlyWhen(t: Table, cutoff: int, m: Sms, s: Ingest.Store, device: string)
    requires RepeatedSweeps.GenuineTable(t) && NulFree(m.sender)
    ensures var after := Pruned(t, cutoff);
            var queued := InboxSweep.Swept(InboxSweep.Begin(after), [m]).table;
            queued != after && Ingest.Verdict(s, device, Alone(m), 0).status == Created
            <==> && (forall row | row in Near(t, m, InboxSweep.MATCH_WINDOW) :: Prunable(t[row], cutoff))
                 && Exchange.Acceptable(m) && Of(m) !in s
  {
    hide *;
    RepeatedSweeps.StoredAgainExactlyWhen(t, cutoff, m);
    CreatedExactlyWhen(s, device, m);
  }

  /** A message whose own row was pruned is answered duplicate, as long as its id has not been
      cleared from the server: pruning takes only rows the server has confirmed. */
  lemma OwnRowIsDuplicate(w: World, cutoff: int, m: Sms, device: string)
    requires Inv(w) && Of(m) in w.phone && Prunable(w.phone[Of(m)], cutoff)
    requires IdsIn(w.committed) <= w.store.Keys && Exchange.Acceptable(m)
    ensures Ingest.Verdict(w.store, device, Alone(m), 0).status == Duplicate
  {
    AloneIs(m);
    Ingest.EmptyBatch(w.store, device, []);
    assert Of(m) in w.taken;
  }

  // ---- a run that stores one message twice ----

  lemma ServedAlone(s: Ingest.Store, m: Sms)
    requires Exchange.Acceptable(m) && Of(m) !in s
    ensures Exchange.StoreAfter(s, "", Alone(m), false) == s[Of(m) := Ingest.Stored("", m)]
  {
    AloneIs(m);
    var uploads := [Upload(Of(m), m)];
    assert uploads[..0] == [];
    assert Ingest.Ingested(s, "", []) == s;
  }

  lemma ServeOne(events: seq<Event>, n: nat, m: Sms)
    requires Legal(events) && n in After(events).sent && After(events).sent[n] == [Upload(Of(m), m)]
    requires Exchange.Acceptable(m) && Of(m) !in After(events).store
    ensures var next := events + [Serve(n, "", false)];
            && Legal(next) && After(next).store == After(events).store[Of(m) := Ingest.Stored("", m)]
            && (n, Exchange.Reply(After(events).store, "", Alone(m), false)) in After(next).answers
            && After(next).phone == After(events).phone && After(next).chosen == After(events).chosen
            && After(next).sent == After(events).sent && After(next).waiting == After(events).waiting
  {
    ServedAlone(After(events).store, m);
    hide Of, Legal, After, Exchange.Reply, Exchange.StoreAfter, Plan, Exchange.Acceptable, Rows, TakenBy;
    Step(events, Serve(n, "", false));
  }

  function SyncedRow(m: Sms, at: int): Row {
    Row(m, Synced, Some(at), 0, None)
  }

  /** A phone posts the message, the server stores it, and the phone confirms its row. */
  lemma SyncedAlone(m: Sms, at: int) returns (run: seq<Event>)
    requires NulFree(m.sender) && Exchange.Acceptable(m)
    ensures Legal(run) && After(run).phone == map[Of(m) := SyncedRow(m, at)]
    ensures After(run).store == map[Of(m) := Ingest.Stored("", m)]
    ensures After(run).chosen == map[] && After(run).sent.Keys == {0}
  {
    hide Of, NulFree, Legal, After, Exchange.Reply, Exchange.StoreAfter, Plan, Exchange.Acceptable, Rows, TakenBy;
    var id := Of(m);
    NothingHappened();
    var posted := Posted([], m);
    ServedAlone(map[], m);
    AcceptableIsConfirmed(Of(m), m, map[], at);
    assert Exchange.IdsOf([Upload(Of(m), m)]) == [Of(m)];
    var answer := Exchange.Reply(map[], "", Alone(m), false);
    ServeOne(posted, 0, m);
    run := posted + [Serve(0, "", false)];
    Step(run, Deliver(0, answer, at));
    run := run + [Deliver(0, answer, at)];
    assert After(run).settling[0] == [ToSynced([id], at)];
    Step(run, Apply(0));
    run := run + [Apply(0)];
    assert After(run).phone == map[id := SyncedRow(m, at)];
  }

  /** The second sighting is recognised by the first one's row; pruned of that, it is new. */
  lemma SweptThenPruned(a: Sms, b: Sms, at: int)
    requires SameMessage(a, b) && Of(a) != Of(b)
    ensures var t := map[Of(a) := SyncedRow(a, at)];
            && InboxSweep.Swept(InboxSweep.Begin(t), [b]).table == t
            && Pruned(t, at + 1) == map[]
            && InboxSweep.Swept(InboxSweep.Begin(map[]), [b]).table == map[Of(b) := Fresh(b)]
  {
    var t := map[Of(a) := SyncedRow(a, at)];
    assert Near(t, b, InboxSweep.MATCH_WINDOW) == {Of(a)};
    assert Near(map[], b, InboxSweep.MATCH_WINDOW) - {} == {};
    hide Of, Near;
    InboxSweep.NothingSwept(InboxSweep.Begin(t));
    InboxSweep.NothingSwept(InboxSweep.Begin(map[]));
    InboxSweep.SweptGrows(InboxSweep.Begin(t), [], b);
    InboxSweep.SweptGrows(InboxSweep.Begin(map[]), [], b);
    assert [] + [b] == [b];
    assert Near(t, b, InboxSweep.MATCH_WINDOW) - {} == {Of(a)};
  }

  /** So one message ends up stored twice. Its broadcast is captured, uploaded and confirmed; the
      sweep recognises the inbox's copy by that row; the row is pruned; the next sweep, which
      re-reads the overlap, stores the copy, and the server creates it under its own id. */
  lemma StoredTwice(a: Sms, b: Sms, at: int) returns (before: seq<Event>, run: seq<Event>)
    requires SameMessage(a, b) && a != b && NulFree(a.sender) && Exchange.Acceptable(a) && Exchange.Acceptable(b)
    ensures run == before
            + [SweepInbox([b]), Prune(at + 1), SweepInbox([b]), Select(1, [Of(b)]), Mark(1), Serve(1, "", false)]
    ensures Legal(before) && After(before).phone == map[Of(a) := SyncedRow(a, at)]
    ensures Legal(run) && Of(a) != Of(b)
    ensures After(run).store == map[Of(a) := Ingest.Stored("", a), Of(b) := Ingest.Stored("", b)]
  {
    Injective(a, b);
    before := SyncedAlone(a, at);
    var swept := SweptAgain(before, a, b, at);
    run := UploadedToo(swept, a, b);
    assert run == before
      + [SweepInbox([b]), Prune(at + 1), SweepInbox([b]), Select(1, [Of(b)]), Mark(1), Serve(1, "", false)];
  }

  lemma SweptAgain(before: seq<Event>, a: Sms, b: Sms, at: int) returns (run: seq<Event>)
    requires Legal(before) && SameMessage(a, b) && Of(a) != Of(b) && NulFree(b.sender)
    requires After(before).phone == map[Of(a) := SyncedRow(a, at)]
    ensures run == before + [SweepInbox([b]), Prune(at + 1), SweepInbox([b])] && Legal(run)
    ensures After(run).phone == map[Of(b) := Fresh(b)] && After(run).store == After(before).store
    ensures After(run).chosen == After(before).chosen && After(run).sent == After(before).sent
  {
    SweptThenPruned(a, b, at);
    hide Of, NulFree, Legal, After, InboxSweep.Swept, Pruned, SameMessage, Near;
    Step(before, SweepInbox([b]));
    run := before + [SweepInbox([b])];
    Step(run, Prune(at + 1));
    run := run + [Prune(at + 1)];
    Step(run, SweepInbox([b]));
    run := run + [SweepInbox([b])];
    assert run == before + [SweepInbox([b]), Prune(at + 1), SweepInbox([b])];
  }

  lemma UploadedToo(before: seq<Event>, a: Sms, b: Sms) returns (run: seq<Event>)
    requires Legal(before) && Of(a) != Of(b) && Exchange.Acceptable(b)
    requires After(before).phone == map[Of(b) := Fresh(b)] && After(before).chosen == map[]
             && After(before).sent.Keys == {0}
    requires After(before).store == map[Of(a) := Ingest.Stored("", a)]
    ensures run == before + [Select(1, [Of(b)]), Mark(1), Serve(1, "", false)] && Legal(run)
    ensures After(run).store == map[Of(a) := Ingest.Stored("", a), Of(b) := Ingest.Stored("", b)]
  {
    var posted := PostedToo(before, b);
    hide Of, Legal, After, Exchange.Acceptable;
    ServeOne(posted, 1, b);
    run := posted + [Serve(1, "", false)];
    assert run == before + [Select(1, [Of(b)]), Mark(1), Serve(1, "", false)];
  }

  lemma PostedToo(before: seq<Event>, m: Sms) returns (run: seq<Event>)
    requires Legal(before)
    requires After(before).phone == map[Of(m) := Fresh(m)] && After(before).chosen == map[]
             && After(before).sent.Keys == {0}
    ensures run == before + [Select(1, [Of(m)]), Mark(1)] && Legal(run) && After(run).store == After(before).store
    ensures 1 in After(run).sent && After(run).sent[1] == [Upload(Of(m), m)]
  {
    OnlyRow(Of(m), Fresh(m));
    hide Of, Legal, After, IsPendingBatch, MarkedUploading;
    Step(before, Select(1, [Of(m)]));
    run := before + [Select(1, [Of(m)])];
    Step(run, Mark(1));
    run := run + [Mark(1)];
    assert run == before + [Select(1, [Of(m)]), Mark(1)];
  }
}
