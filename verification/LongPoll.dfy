/** The long poll: subscribe, read, then wait to be woken (MessageService.wait_for_new) on
    bounded queues that drop frames when full (EventBus.subscribe, _deliver_local, publish),
    while ingest commits before it publishes (MessageService.ingest_batch). */
module LongPoll {
  import opened Wrappers

  type MessageId = nat
  type PollerId = nat

  const QUEUE_LIMIT: nat := 256

  datatype Message = Message(createdAt: int, sender: string)

  datatype Frame = MessageNew(id: MessageId) | OtherFrame

  datatype Stage = Subscribed | Waiting | Checking | Returned(found: set<MessageId>)

  /** `dropped` records that a message.new frame was once dropped for this poller, and
      `starved` that it was dropped from a queue holding no other one. Nothing reads them. */
  datatype Poller = Poller(since: int, sender: Option<string>, stage: Stage, queue: seq<Frame>,
                           dropped: bool, starved: bool)

  /** `unpublished` holds the messages whose publisher is between commit and publish. */
  datatype World = World(store: map<MessageId, Message>, unpublished: set<MessageId>, pollers: map<PollerId, Poller>)

  const EMPTY: World := World(map[], {}, map[])

  /** list_since, up to its page limit: which messages a read is about. */
  function Matching(store: map<MessageId, Message>, since: int, sender: Option<string>): set<MessageId> {
    set id | id in store && store[id].createdAt > since && (sender.None? || store[id].sender == sender.value)
  }

  function Found(store: map<MessageId, Message>, p: Poller): set<MessageId> {
    Matching(store, p.since, p.sender)
  }

  predicate Wakes(f: Frame) {
    f.MessageNew?
  }

  predicate Woken(queue: seq<Frame>) {
    exists i :: 0 <= i < |queue| && Wakes(queue[i])
  }

  /** put_nowait: a full queue drops the frame. */
  function Put(queue: seq<Frame>, f: Frame): seq<Frame> {
    if |queue| < QUEUE_LIMIT then queue + [f] else queue
  }

  function Offered(p: Poller, f: Frame): Poller {
    if p.stage.Returned? then p
    else
      var lost := Wakes(f) && |p.queue| >= QUEUE_LIMIT;
      p.(queue := Put(p.queue, f), dropped := p.dropped || lost, starved := p.starved || (lost && !Woken(p.queue)))
  }

  function Delivered(pollers: map<PollerId, Poller>, f: Frame): map<PollerId, Poller> {
    map p | p in pollers :: Offered(pollers[p], f)
  }

  /** A read returns what it finds, or goes back to waiting. */
  function AfterRead(store: map<MessageId, Message>, p: Poller): Poller {
    p.(stage := if Found(store, p) != {} then Returned(Found(store, p)) else Waiting)
  }

  datatype Event =
    | Commit(added: map<MessageId, Message>)
    | PublishMessage(id: MessageId)
    | PublishOther
    | Delete(ids: set<MessageId>)
    | Subscribe(p: PollerId, since: int, sender: Option<string>)
    | Read(p: PollerId)
    | TakeFrame(p: PollerId)
    | TimeOut(p: PollerId)

  predicate Enabled(w: World, e: Event) {
    match e
    case Commit(added) => added.Keys !! w.store.Keys && added.Keys !! w.unpublished
    case PublishMessage(id) => id in w.unpublished
    case Subscribe(p, _, _) => p !in w.pollers
    case Read(p) => p in w.pollers && (w.pollers[p].stage.Subscribed? || w.pollers[p].stage.Checking?)
    case TakeFrame(p) => p in w.pollers && w.pollers[p].stage.Waiting? && w.pollers[p].queue != []
    case TimeOut(p) => p in w.pollers && w.pollers[p].stage.Waiting?
    case _ => true
  }

  function Next(w: World, e: Event): World
    requires Enabled(w, e)
  {
    match e
    case Commit(added) => w.(store := w.store + added, unpublished := w.unpublished + added.Keys)
    case PublishMessage(id) =>
      w.(unpublished := w.unpublished - {id}, pollers := Delivered(w.pollers, MessageNew(id)))
    case PublishOther => w.(pollers := Delivered(w.pollers, OtherFrame))
    case Delete(ids) => w.(store := w.store - ids)
    case Subscribe(p, since, sender) =>
      w.(pollers := w.pollers[p := Poller(since, sender, Subscribed, [], false, false)])
    case Read(p) => w.(pollers := w.pollers[p := AfterRead(w.store, w.pollers[p])])
    case TakeFrame(p) =>
      var q := w.pollers[p];
      w.(pollers := w.pollers[p := q.(queue := q.queue[1..], stage := if Wakes(q.queue[0]) then Checking else Waiting)])
    case TimeOut(p) => w.(pollers := w.pollers[p := w.pollers[p].(stage := Returned({}))])
  }

  /** What a read does: it ends the poll when some stored message is newer than `since` and from
      the requested sender, if one was requested, with exactly those messages; else the poller
      waits. No other poller notices. */
  lemma ReadExactly(w: World, p: PollerId)
    requires Enabled(w, Read(p))
    ensures var (poller, after) := (w.pollers[p], Next(w, Read(p)));
            var wanted := set id | id in w.store && w.store[id].createdAt > poller.since
                          && (poller.sender == None || poller.sender == Some(w.store[id].sender));
            && after == w.(pollers := w.pollers[p := poller.(stage := after.pollers[p].stage)])
            && (wanted == {} ==> after.pollers[p].stage == Waiting)
            && (wanted != {} ==> after.pollers[p].stage == Returned(wanted))
  {
    var poller := w.pollers[p];
    assert Found(w.store, poller)
        == set id | id in w.store && w.store[id].createdAt > poller.since
           && (poller.sender == None || poller.sender == Some(w.store[id].sender));
  }

  /** What publishing does: the message is no longer owed, and each poller that has not returned
      gets the frame last in its queue unless 256 are waiting there; a drop is on record, and so
      is whether it left the queue without a message frame. Other frames fill the queue too, and
      dropping one is not on record. */
  lemma PublishExactly(w: World, id: MessageId, p: PollerId)
    requires id in w.unpublished && p in w.pollers
    ensures Enabled(w, PublishMessage(id)) && p in Next(w, PublishMessage(id)).pollers
    ensures var (q, after) := (w.pollers[p], Next(w, PublishMessage(id)));
            var full := |q.queue| >= 256;
            && after.store == w.store && after.unpublished == w.unpublished - {id}
            && after.pollers[p]
               == (if q.stage.Returned? then q
                   else q.(queue := if full then q.queue else q.queue + [MessageNew(id)],
                           dropped := q.dropped || full,
                           starved := q.starved || (full && forall f | f in q.queue :: f == OtherFrame)))
            && Next(w, PublishOther).pollers[p]
               == if q.stage.Returned? then q
                  else q.(queue := if full then q.queue else q.queue + [OtherFrame])
  {
    var q := w.pollers[p];
    assert Woken(q.queue) <==> exists f :: f in q.queue && f != OtherFrame by {
      if f :| f in q.queue && f != OtherFrame {
        var i :| 0 <= i < |q.queue| && q.queue[i] == f;
        assert Wakes(q.queue[i]);
      }
      if i :| 0 <= i < |q.queue| && Wakes(q.queue[i]) {
        assert q.queue[i] in q.queue;
      }
    }
  }

  /** A poll begins with a read, and a waiting poller takes one frame at a time: a message frame
      makes it read again, any other is passed over. */
  lemma TakesOne(w: World, p: PollerId)
    ensures p !in w.pollers ==>
              forall since, sender ::
                && Enabled(w, Subscribe(p, since, sender))
                && Enabled(Next(w, Subscribe(p, since, sender)), Read(p))
    ensures p in w.pollers && w.pollers[p].stage.Waiting? && w.pollers[p].queue != [] ==>
              && Enabled(w, TakeFrame(p))
              && Next(w, TakeFrame(p))
                 == w.(pollers := w.pollers[p := w.pollers[p].(
                         queue := w.pollers[p].queue[1..],
                         stage := if w.pollers[p].queue[0].MessageNew? then Checking else Waiting)])
              && (w.pollers[p].queue[0].MessageNew? ==> Enabled(Next(w, TakeFrame(p)), Read(p)))
  {
  }

  /** Messages are committed under new ids, owed from then on, and gone once deleted. */
  lemma StoreExactly(w: World, added: map<MessageId, Message>, ids: set<MessageId>)
    ensures Enabled(w, Delete(ids)) && Next(w, Delete(ids)) == w.(store := w.store - ids)
    ensures Enabled(w, Commit(added)) <==> forall id | id in added :: id !in w.store && id !in w.unpublished
    ensures Enabled(w, Commit(added)) ==>
              && Next(w, Commit(added)).unpublished == w.unpublished + added.Keys
              && Next(w, Commit(added)).pollers == w.pollers
              && forall id :: id in Next(w, Commit(added)).store <==> id in w.store || id in added
  {
  }

  ghost predicate Legal(events: seq<Event>)
    decreases |events|, 0
  {
    events == []
    || (Legal(events[..|events| - 1]) && Enabled(After(events[..|events| - 1]), events[|events| - 1]))
  }

  ghost function After(events: seq<Event>): World
    requires Legal(events)
    decreases |events|, 1
  {
    if events == [] then EMPTY else Next(After(events[..|events| - 1]), events[|events| - 1])
  }

  /** Every message a blocked poller is owed is announced in its queue or about to be. */
  ghost predicate Announced(w: World, p: Poller) {
    forall id | id in Found(w.store, p) :: MessageNew(id) in p.queue || id in w.unpublished
  }

  /** Every message a blocked poller is owed will wake it: some message.new frame is queued,
      or the message's own is about to be published. */
  ghost predicate WillWake(w: World, p: Poller) {
    forall id | id in Found(w.store, p) :: Woken(p.queue) || id in w.unpublished
  }

  ghost predicate PollerInv(w: World, p: Poller) {
    && (p.stage.Waiting? && !p.dropped ==> Announced(w, p))
    && (p.stage.Waiting? && !p.starved ==> WillWake(w, p))
    && (!p.dropped ==> !p.starved)
  }

  ghost predicate Inv(w: World) {
    forall p | p in w.pollers :: PollerInv(w, w.pollers[p])
  }

  lemma CommitKeeps(w: World, added: map<MessageId, Message>, p: Poller)
    requires PollerInv(w, p)
    ensures PollerInv(w.(store := w.store + added, unpublished := w.unpublished + added.Keys), p)
  {
    var store := w.store + added;
    assert forall id | id in Found(store, p) :: id in Found(w.store, p) || id in added.Keys;
  }

  lemma OfferKeeps(w: World, p: Poller, f: Frame)
    requires PollerInv(w, p) && (f.MessageNew? ==> f.id in w.unpublished)
    ensures PollerInv(w.(unpublished := if f.MessageNew? then w.unpublished - {f.id} else w.unpublished), Offered(p, f))
  {
    var q := Offered(p, f);
    if |p.queue| < QUEUE_LIMIT {
      assert (p.queue + [f])[|p.queue|] == f;
      assert forall i | 0 <= i < |p.queue| :: (p.queue + [f])[i] == p.queue[i];
    }
  }

  lemma TakeKeeps(w: World, p: Poller)
    requires PollerInv(w, p) && p.stage.Waiting? && p.queue != []
    ensures PollerInv(w, p.(queue := p.queue[1..], stage := if Wakes(p.queue[0]) then Checking else Waiting))
  {
    if !Wakes(p.queue[0]) {
      assert forall i | 1 <= i < |p.queue| :: p.queue[1..][i - 1] == p.queue[i];
      assert forall id | MessageNew(id) in p.queue :: MessageNew(id) in p.queue[1..];
    }
  }

  lemma DeleteKeeps(w: World, ids: set<MessageId>, p: Poller)
    requires PollerInv(w, p)
    ensures PollerInv(w.(store := w.store - ids), p)
  {
    assert Found(w.store - ids, p) <= Found(w.store, p);
  }

  lemma StepKeeps(w: World, e: Event)
    requires Inv(w) && Enabled(w, e)
    ensures Inv(Next(w, e))
  {
    var next := Next(w, e);
    forall p | p in next.pollers
      ensures PollerInv(next, next.pollers[p])
    {
      if p in w.pollers {
        var q := w.pollers[p];
        assert PollerInv(w, q);
        match e {
          case Commit(added) => CommitKeeps(w, added, q);
          case PublishMessage(id) => OfferKeeps(w, q, MessageNew(id));
          case PublishOther => OfferKeeps(w, q, OtherFrame);
          case Delete(ids) => DeleteKeeps(w, ids, q);
          case TakeFrame(r) =>
            if r == p {
              TakeKeeps(w, q);
            }
          case _ =>
        }
      }
    }
  }

  lemma {:induction false} EveryRunKeeps(events: seq<Event>)
    requires Legal(events)
    ensures Inv(After(events))
  {
    hide Inv, Next, Enabled;
    if events == [] {
      assert Inv(EMPTY) by {
        EmptyIsFine();
      }
    } else {
      EveryRunKeeps(events[..|events| - 1]);
      StepKeeps(After(events[..|events| - 1]), events[|events| - 1]);
    }
  }

  lemma EmptyIsFine()
    ensures Inv(EMPTY)
  {
  }

  /** No lost wake-up: in every interleaving, whenever a poller is blocked after an empty read
      and no message.new frame was dropped for it, each committed message it waits for has its
      own frame in the queue or a publisher that has not published it yet. */
  lemma {:induction false} NoLostWakeUp(events: seq<Event>, p: PollerId)
    requires Legal(events) && p in After(events).pollers
    requires After(events).pollers[p].stage.Waiting? && !After(events).pollers[p].dropped
    ensures Announced(After(events), After(events).pollers[p])
  {
    EveryRunKeeps(events);
  }

  // ---- waking up ----

  /** What a blocked poller ends up returning if it is left to drain its queue: taking frames
      and reading after each message.new. None means it stays blocked. */
  function Drained(store: map<MessageId, Message>, p: Poller, queue: seq<Frame>): Option<set<MessageId>> {
    if queue == [] then None
    else if Wakes(queue[0]) && Found(store, p) != {} then Some(Found(store, p))
    else Drained(store, p, queue[1..])
  }

  lemma {:induction false} DrainsToAnswer(store: map<MessageId, Message>, p: Poller, queue: seq<Frame>)
    ensures Drained(store, p, queue)
         == if Woken(queue) && Found(store, p) != {} then Some(Found(store, p)) else None
  {
    if queue != [] {
      DrainsToAnswer(store, p, queue[1..]);
      if i :| 1 <= i < |queue| && Wakes(queue[i]) {
        assert queue[1..][i - 1] == queue[i];
      }
    }
  }

  /** Dropping frames is harmless as long as one message.new frame is left: with everything
      published, a blocked poller returns exactly the messages it waits for as soon as there
      are any, even after drops, unless a frame was dropped from a queue without another. */
  lemma WakesUpWithAnswer(events: seq<Event>, p: PollerId)
    requires Legal(events) && p in After(events).pollers && After(events).unpublished == {}
    requires After(events).pollers[p].stage.Waiting? && !After(events).pollers[p].starved
    ensures var w := After(events);
            Drained(w.store, w.pollers[p], w.pollers[p].queue)
            == if Found(w.store, w.pollers[p]) != {} then Some(Found(w.store, w.pollers[p])) else None
  {
    EveryRunKeeps(events);
    var w := After(events);
    assert PollerInv(w, w.pollers[p]);
    DrainsToAnswer(w.store, w.pollers[p], w.pollers[p].queue);
    if id :| id in Found(w.store, w.pollers[p]) {
      assert Woken(w.pollers[p].queue);
    }
  }

  lemma WokenByRest(queue: seq<Frame>)
    requires queue != []
    ensures Woken(queue) <==> Wakes(queue[0]) || Woken(queue[1..])
  {
    if i :| 1 <= i < |queue| && Wakes(queue[i]) {
      assert queue[1..][i - 1] == queue[i];
    }
  }

  /** The steps that drain a blocked poller's queue, one frame at a time. */
  lemma {:induction false} DrainingRun(events: seq<Event>, p: PollerId) returns (run: seq<Event>)
    requires Legal(events) && p in After(events).pollers && After(events).pollers[p].stage.Waiting?
    ensures events <= run && Legal(run) && p in After(run).pollers && After(run).store == After(events).store
    ensures forall k | |events| <= k < |run| :: run[k] == TakeFrame(p) || run[k] == Read(p)
    ensures var q := After(events).pollers[p];
            After(run).pollers[p].stage
            == if Woken(q.queue) && Found(After(events).store, q) != {}
               then Returned(Found(After(events).store, q)) else Waiting
    decreases |After(events).pollers[p].queue|
  {
    hide Legal, After, Matching;
    var q := After(events).pollers[p];
    run := events;
    if q.queue != [] {
      WokenByRest(q.queue);
      OneStep(events, TakeFrame(p));
      run := events + [TakeFrame(p)];
      if Wakes(q.queue[0]) {
        OneStep(run, Read(p));
        run := run + [Read(p)];
      }
      if After(run).pollers[p].stage.Waiting? {
        run := DrainingRun(run, p);
      }
    }
  }

  /** So a blocked poller with something to return does return, by its own steps alone: with
      everything published, and no message frame dropped from a queue without another, it ends
      with exactly the stored messages newer than `since` and from the requested sender. */
  lemma BlockedPollerReturns(events: seq<Event>, p: PollerId) returns (run: seq<Event>)
    requires Legal(events) && p in After(events).pollers && After(events).unpublished == {}
    requires After(events).pollers[p].stage.Waiting? && !After(events).pollers[p].starved
    ensures events <= run && Legal(run) && p in After(run).pollers
    ensures forall k | |events| <= k < |run| :: run[k] == TakeFrame(p) || run[k] == Read(p)
    ensures var (w, q) := (After(events), After(events).pollers[p]);
            var wanted := set id | id in w.store && w.store[id].createdAt > q.since
                          && (q.sender == None || q.sender == Some(w.store[id].sender));
            wanted != {} ==> After(run).pollers[p].stage == Returned(wanted)
  {
    WakesUpWithAnswer(events, p);
    DrainsToAnswer(After(events).store, After(events).pollers[p], After(events).pollers[p].queue);
    run := DrainingRun(events, p);
    hide Legal, After, Drained;
    var (w, q) := (After(events), After(events).pollers[p]);
    assert Found(w.store, q)
        == set id | id in w.store && w.store[id].createdAt > q.since
           && (q.sender == None || q.sender == Some(w.store[id].sender));
  }

  // ---- the hypothesis is needed ----

  function Flooded(n: nat): seq<Frame> {
    seq(n, _ => OtherFrame)
  }

  /** A poller that is blocked while `n` other frames arrive. */
  lemma {:induction false} Flood(n: nat) returns (events: seq<Event>)
    requires n <= QUEUE_LIMIT
    ensures Legal(events)
    ensures After(events) == World(map[], {}, map[0 := Poller(0, None, Waiting, Flooded(n), false, false)])
  {
    if n == 0 {
      var first, second := Subscribe(0, 0, None), Read(0);
      OneStep([], first);
      OneStep([first], second);
      events := [first] + [second];
      assert [] + [first] == [first];
      assert Found(map[], Poller(0, None, Subscribed, [], false, false)) == {};
      assert Flooded(0) == [];
    } else {
      var before := Flood(n - 1);
      OneStep(before, PublishOther);
      events := before + [PublishOther];
      assert Flooded(n) == Flooded(n - 1) + [OtherFrame];
    }
  }

  lemma OneStep(events: seq<Event>, e: Event)
    requires Legal(events) && Enabled(After(events), e)
    ensures Legal(events + [e]) && After(events + [e]) == Next(After(events), e)
  {
    assert (events + [e])[..|events|] == events;
  }

  /** With 256 other frames ahead of it a message.new frame is dropped, and the poller blocks
      although a message it waits for is committed and published. */
  lemma FloodLosesWakeUp() returns (events: seq<Event>)
    ensures Legal(events) && 0 in After(events).pollers && After(events).unpublished == {}
    ensures var w := After(events);
            w.pollers[0].stage.Waiting? && Found(w.store, w.pollers[0]) != {}
            && Drained(w.store, w.pollers[0], w.pollers[0].queue).None?
  {
    var flood := Flood(QUEUE_LIMIT);
    var commit, publish := Commit(map[7 := Message(1, "")]), PublishMessage(7);
    OneStep(flood, commit);
    OneStep(flood + [commit], publish);
    events := flood + [commit] + [publish];
    var w := After(events);
    var p := w.pollers[0];
    assert 7 in Found(w.store, p);
    assert p.queue == Flooded(QUEUE_LIMIT);
    DrainsToAnswer(w.store, p, p.queue);
  }
}
