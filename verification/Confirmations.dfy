/** When the phone holds a message for delivered and the server does not have it. The server
    keeps the first row stored under an id and answers every later one duplicate
    (insert_if_absent in repositories.py), and the phone takes duplicate for stored
    (applyVerdicts in TsunagiRepository.kt). */
module Confirmations {
  import opened Wrappers
  import opened Identity
  import opened Wire
  import opened MessageTable
  import opened Delivery
  import UploadPass
  import Ingest
  import Exchange

  // ---- one request ----

  lemma {:induction false} NewRowOf(s: Ingest.Store, device: string, uploads: seq<Upload>, id: Id)
    requires id !in s && id in Ingest.Ingested(s, device, uploads)
    ensures Upload(id, Ingest.Ingested(s, device, uploads)[id].sms) in uploads
  {
    if uploads != [] {
      var before, last := uploads[..|uploads| - 1], uploads[|uploads| - 1];
      if id in Ingest.Ingested(s, device, before) {
        NewRowOf(s, device, before, id);
        assert forall u | u in before :: u in uploads;
      }
    }
  }

  /** What the acceptable entries of a request are. */
  lemma {:induction false} UploadsAre(sent: seq<Upload>, k: nat)
    requires k <= |sent|
    ensures forall u ::
              u in Ingest.Uploads(Exchange.Request(sent)[..k]) <==> u in sent[..k] && Exchange.Acceptable(u.sms)
  {
    if k > 0 {
      UploadsAre(sent, k - 1);
      var payloads := Exchange.Request(sent);
      assert payloads[..k][..k - 1] == payloads[..k - 1];
      assert sent[..k] == sent[..k - 1] + [sent[k - 1]];
      hide Exchange.Representable;
    }
  }

  /** One content for each id, as requests made from the phone's own rows have. */
  ghost predicate OneContent(sent: seq<Upload>) {
    forall u, v | u in sent && v in sent && u.id == v.id :: u.sms == v.sms
  }

  /** A request that is answered 200 leaves an acceptable message stored exactly when its id was
      not stored over another content before. */
  lemma ContentIsStoredExactly(s: Ingest.Store, device: string, sent: seq<Upload>, partial: bool, u: Upload)
    requires OneContent(sent) && u in sent && Exchange.Acceptable(u.sms)
    requires Exchange.Reply(s, device, Exchange.Request(sent), partial).Accepted?
    ensures u in Rows(Exchange.StoreAfter(s, device, Exchange.Request(sent), partial))
       <==> (u.id in s ==> s[u.id].sms == u.sms)
  {
    var payloads := Exchange.Request(sent);
    var uploads := Ingest.Uploads(payloads);
    var store := Ingest.Ingested(s, device, uploads);
    UploadsAre(sent, |sent|);
    assert payloads[..|sent|] == payloads && sent[..|sent|] == sent;
    Ingest.IngestedContents(s, device, uploads);
    hide Exchange.Acceptable, Exchange.Turned, Ingest.Ingested, Ingest.Uploads;
    assert u in uploads;
    var k :| 0 <= k < |uploads| && uploads[k] == u;
    assert u.id in store;
    if u.id !in s {
      NewRowOf(s, device, uploads, u.id);
      assert Upload(u.id, store[u.id].sms) in sent;
      assert store[u.id].sms == u.sms;
    }
  }

  /** And an answered request stores nothing it does not hold an acceptable entry of. */
  lemma OnlyContentSent(s: Ingest.Store, device: string, sent: seq<Upload>, partial: bool, u: Upload)
    requires u in Rows(Exchange.StoreAfter(s, device, Exchange.Request(sent), partial)) && u !in Rows(s)
    ensures u in sent && Exchange.Acceptable(u.sms)
            && Exchange.Reply(s, device, Exchange.Request(sent), partial).Accepted?
  {
    var payloads := Exchange.Request(sent);
    var uploads := Ingest.Uploads(payloads);
    UploadsAre(sent, |sent|);
    assert payloads[..|sent|] == payloads && sent[..|sent|] == sent;
    Ingest.IngestedContents(s, device, uploads);
    if u.id !in s {
      NewRowOf(s, device, uploads, u.id);
    }
  }

  // ---- one step ----

  /** The server answers 200 to a request with this message in it, acceptable. */
  ghost predicate Lands(w: World, e: Event, m: Sms) {
    && e.Serve? && e.n in w.sent && Upload(Of(m), m) in w.sent[e.n] && Exchange.Acceptable(m)
    && Exchange.Reply(w.store, e.device, Exchange.Request(w.sent[e.n]), e.partial).Accepted?
  }

  /** The message's id is stored over another content. */
  ghost predicate TakenOver(w: World, m: Sms) {
    Of(m) in w.store && w.store[Of(m)].sms != m
  }

  /** Another device stores this very message under this very id. */
  ghost predicate Supplied(w: World, e: Event, m: Sms) {
    && e.OtherPhone? && Of(m) !in w.store
    && exists k: nat :: Ingest.FirstWriter(e.uploads, k) && e.uploads[k] == Upload(Of(m), m)
  }

  ghost predicate Stores(w: World, e: Event, m: Sms) {
    (Lands(w, e, m) && !TakenOver(w, m)) || Supplied(w, e, m)
  }

  lemma GenuineIsOneContent(sent: seq<Upload>)
    requires GenuineBatch(sent)
    ensures OneContent(sent)
  {
    forall u, v | u in sent && v in sent && u.id == v.id
      ensures u.sms == v.sms
    {
      assert Genuine(u) && Genuine(v);
      Injective(u.sms, v.sms);
    }
  }

  lemma ServeCommits(w: World, e: Event, m: Sms)
    requires Inv(w) && Enabled(w, e) && e.Serve? && Upload(Of(m), m) !in w.committed
    ensures Upload(Of(m), m) in Next(w, e).committed <==> Stores(w, e, m)
  {
    var sent, u := w.sent[e.n], Upload(Of(m), m);
    assert GenuineBatch(sent) && u !in Rows(w.store);
    assert Of(m) in w.store ==> w.store[Of(m)].sms != m;
    GenuineIsOneContent(sent);
    hide Of, Inv, Exchange.Reply, Exchange.StoreAfter, Exchange.Acceptable, OneContent;
    var store := Exchange.StoreAfter(w.store, e.device, Exchange.Request(sent), e.partial);
    if u in Rows(store) {
      OnlyContentSent(w.store, e.device, sent, e.partial, u);
    }
    if Lands(w, e, m) {
      ContentIsStoredExactly(w.store, e.device, sent, e.partial, u);
    }
  }

  lemma {:induction false} FirstWriterExists(uploads: seq<Upload>, u: Upload) returns (k: nat)
    requires u in uploads
    ensures Ingest.FirstWriter(uploads, k) && uploads[k].id == u.id
  {
    k := 0;
    while uploads[k].id != u.id
      invariant k < |uploads| && forall j | 0 <= j < k :: uploads[j].id != u.id
      decreases |uploads| - k
    {
      assert exists j :: k <= j < |uploads| && uploads[j] == u;
      k := k + 1;
    }
  }

  lemma OtherCommits(w: World, e: Event, m: Sms)
    requires Inv(w) && Enabled(w, e) && e.OtherPhone? && Upload(Of(m), m) !in w.committed
    ensures Upload(Of(m), m) in Next(w, e).committed <==> Stores(w, e, m)
  {
    var s, u := w.store, Upload(Of(m), m);
    var store := Ingest.Ingested(s, e.device, e.uploads);
    assert u !in Rows(s);
    Ingest.IngestedContents(s, e.device, e.uploads);
    hide Of, Inv, Ingest.Ingested;
    if u in Rows(store) {
      assert Of(m) in store && store[Of(m)].sms == m;
      assert Of(m) !in s;
      NewRowOf(s, e.device, e.uploads, Of(m));
      var k := FirstWriterExists(e.uploads, u);
      Ingest.FirstWriterWins(s, e.device, e.uploads, k);
    }
    if k: nat :| Of(m) !in s && Ingest.FirstWriter(e.uploads, k) && e.uploads[k] == u {
      Ingest.FirstWriterWins(s, e.device, e.uploads, k);
      assert u in Rows(store);
    }
  }

  lemma StepCommits(w: World, e: Event, m: Sms)
    requires Inv(w) && Enabled(w, e)
    ensures Upload(Of(m), m) in Next(w, e).committed <==> Upload(Of(m), m) in w.committed || Stores(w, e, m)
  {
    if Upload(Of(m), m) !in w.committed {
      if e.Serve? {
        ServeCommits(w, e, m);
      } else if e.OtherPhone? {
        OtherCommits(w, e, m);
      }
    }
  }

  /** The step has this message taken in, as the phone will read the answer. */
  lemma StepTakes(w: World, e: Event, m: Sms)
    requires Inv(w) && Enabled(w, e) && NulFree(m.sender)
    ensures Of(m) in Next(w, e).taken <==> Of(m) in w.taken || Lands(w, e, m)
  {
    if e.Serve? {
      var sent := w.sent[e.n];
      assert GenuineBatch(sent);
      TakenIsAcceptable(w.store, sent, e.device, e.partial, m);
    }
  }

  lemma TakenIsAcceptable(s: Ingest.Store, sent: seq<Upload>, device: string, partial: bool, m: Sms)
    requires GenuineBatch(sent) && NulFree(m.sender)
    ensures var answer := Exchange.Reply(s, device, Exchange.Request(sent), partial);
            Of(m) in TakenBy(sent, answer) <==> answer.Accepted? && Upload(Of(m), m) in sent && Exchange.Acceptable(m)
  {
    var answer := Exchange.Reply(s, device, Exchange.Request(sent), partial);
    if answer.Accepted? {
      Exchange.RefusedAreUnacceptable(s, device, sent, partial, 0);
      forall u | u in sent && u.id == Of(m)
        ensures u == Upload(Of(m), m)
      {
        assert Genuine(u);
        Injective(u.sms, m);
      }
      hide Of, Exchange.Acceptable, Exchange.Reply, NulFree;
      if k :| 0 <= k < |sent| && sent[k] == Upload(Of(m), m) {
        assert Exchange.IdsOf(sent)[k] == Of(m);
        if !Exchange.Acceptable(m) {
          assert sent[k].id in Exchange.Unacceptable(sent);
        }
      }
      if k :| 0 <= k < |sent| && Exchange.IdsOf(sent)[k] == Of(m) {
        assert sent[k] in sent && sent[k].id == Of(m);
      }
    }
  }

  // ---- whole runs ----

  ghost predicate At(events: seq<Event>, j: nat) {
    j < |events| && Legal(events[..j]) && Enabled(After(events[..j]), events[j])
  }

  ghost predicate LandsAt(events: seq<Event>, j: nat, m: Sms) {
    At(events, j) && Lands(After(events[..j]), events[j], m)
  }

  ghost predicate SuppliedAt(events: seq<Event>, j: nat, m: Sms) {
    At(events, j) && Supplied(After(events[..j]), events[j], m)
  }

  ghost predicate TakenOverAt(events: seq<Event>, j: nat, m: Sms)
    requires At(events, j)
  {
    TakenOver(After(events[..j]), m)
  }

  ghost predicate StoresAt(events: seq<Event>, j: nat, m: Sms) {
    At(events, j) && Stores(After(events[..j]), events[j], m)
  }

  lemma SameStep(events: seq<Event>, j: nat, m: Sms)
    requires events != [] && j < |events| - 1
    ensures StoresAt(events, j, m) <==> StoresAt(events[..|events| - 1], j, m)
    ensures LandsAt(events, j, m) <==> LandsAt(events[..|events| - 1], j, m)
  {
    hide Stores, Lands, Enabled, After, Legal;
    assert events[..|events| - 1][..j] == events[..j];
  }

  lemma LastStep(events: seq<Event>, m: Sms)
    requires Legal(events) && events != []
    ensures var n := |events| - 1;
            && At(events, n)
            && (StoresAt(events, n, m) <==> Stores(After(events[..n]), events[n], m))
            && (LandsAt(events, n, m) <==> Lands(After(events[..n]), events[n], m))
  {
    hide Stores, Lands, Enabled, After;
  }

  /** What is said of the steps of a run is said of those before the last, or of the last. */
  lemma Steps(events: seq<Event>, m: Sms)
    requires Legal(events) && events != []
    ensures var n := |events| - 1;
            && At(events, n)
            && ((exists j: nat :: StoresAt(events, j, m))
                <==> (exists j: nat :: StoresAt(events[..n], j, m)) || Stores(After(events[..n]), events[n], m))
            && ((exists j: nat :: LandsAt(events, j, m))
                <==> (exists j: nat :: LandsAt(events[..n], j, m)) || Lands(After(events[..n]), events[n], m))
  {
    hide *;
    var n := |events| - 1;
    LastStep(events, m);
    forall j: nat
      ensures StoresAt(events, j, m) || LandsAt(events, j, m) ==> j <= n
      ensures StoresAt(events[..n], j, m) || LandsAt(events[..n], j, m) ==> j < n
      ensures j < n ==> (StoresAt(events, j, m) <==> StoresAt(events[..n], j, m))
                        && (LandsAt(events, j, m) <==> LandsAt(events[..n], j, m))
    {
      InRange(events, j, m);
      InRange(events[..n], j, m);
      if j < n {
        SameStep(events, j, m);
      }
    }
  }

  lemma InRange(events: seq<Event>, j: nat, m: Sms)
    ensures StoresAt(events, j, m) || LandsAt(events, j, m) ==> j < |events|
  {
  }

  lemma NoSteps(m: Sms)
    ensures forall j: nat :: !StoresAt([], j, m) && !LandsAt([], j, m)
  {
  }

  /** In every run, a message is committed exactly when, at some step, the server took it in with
      its id not stored over another content, or another device supplied it; and its id counts
      as taken in exactly when the server answered 200 for it at some step. */
  lemma {:induction false} CommittedExactlyWhen(events: seq<Event>, m: Sms)
    requires Legal(events)
    ensures Upload(Of(m), m) in After(events).committed <==> exists j: nat :: StoresAt(events, j, m)
    ensures NulFree(m.sender) ==> (Of(m) in After(events).taken <==> exists j: nat :: LandsAt(events, j, m))
  {
    hide Inv, Next, Enabled, Stores, Lands, StoresAt, LandsAt, Of, NulFree, At;
    if events == [] {
      NoSteps(m);
    } else {
      var n := |events| - 1;
      CommittedExactlyWhen(events[..n], m);
      Steps(events, m);
      EveryRunKeeps(events[..n]);
      StepCommits(After(events[..n]), events[n], m);
      if NulFree(m.sender) {
        StepTakes(After(events[..n]), events[n], m);
      }
    }
  }

  /** The phone no longer means to send this message: its row is confirmed, or gone. */
  ghost predicate Settled(t: Table, m: Sms) {
    OnPhone(t, m) ==> t[Of(m)].status.Synced?
  }

  /** Exactly when a message the phone is done with is not stored: each time the server answered
      200 for it, and it did at least once, the id was already stored over another content, and no
      other device supplied it. */
  lemma ConfirmedWithoutContent(events: seq<Event>, m: Sms)
    requires Legal(events) && m in After(events).captured && Settled(After(events).phone, m)
    ensures exists j: nat :: LandsAt(events, j, m)
    ensures Upload(Of(m), m) !in After(events).committed
       <==> && (forall j: nat | LandsAt(events, j, m) :: TakenOverAt(events, j, m))
            && !exists j: nat :: SuppliedAt(events, j, m)
  {
    EveryRunKeeps(events);
    CommittedExactlyWhen(events, m);
    assert Of(m) in After(events).taken;
    hide Inv, Legal, After, Enabled, Lands, TakenOver, Supplied, Of, NulFree;
    forall j: nat
      ensures StoresAt(events, j, m)
         <==> (LandsAt(events, j, m) && !TakenOverAt(events, j, m)) || SuppliedAt(events, j, m)
    {
    }
  }
}
