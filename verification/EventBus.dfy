/** The in-process event bus and the long poll on it, as the code runs them (events.py,
    MessageService.wait_for_new). LongPoll is the protocol they take part in. */
module EventBus {
  import opened Wrappers
  import opened LongPoll

  class Bus {
    var subscribers: map<PollerId, seq<Frame>>

    constructor ()
      ensures subscribers == map[]
    {
      subscribers := map[];
    }

    ghost predicate Bounded()
      reads this
    {
      forall p | p in subscribers :: |subscribers[p]| <= QUEUE_LIMIT
    }

    method Subscribe(p: PollerId)
      requires p !in subscribers
      modifies this
      ensures subscribers == old(subscribers)[p := []]
      ensures old(Bounded()) ==> Bounded()
    {
      subscribers := subscribers[p := []];
    }

    method Unsubscribe(p: PollerId)
      modifies this
      ensures subscribers == old(subscribers) - {p}
      ensures old(Bounded()) ==> Bounded()
    {
      subscribers := subscribers - {p};
    }

    /** One queue after another, in any order; a full one drops the frame and stalls nobody. */
    method DeliverLocal(f: Frame)
      modifies this
      ensures subscribers.Keys == old(subscribers.Keys)
      ensures forall p | p in subscribers :: subscribers[p] == Put(old(subscribers)[p], f)
      ensures old(Bounded()) ==> Bounded()
    {
      var rest := subscribers.Keys;
      while rest != {}
        invariant rest <= subscribers.Keys == old(subscribers.Keys)
        invariant forall p | p in subscribers ::
                    subscribers[p] == if p in rest then old(subscribers)[p] else Put(old(subscribers)[p], f)
        decreases rest
      {
        var p :| p in rest;
        if |subscribers[p]| < QUEUE_LIMIT {
          subscribers := subscribers[p := subscribers[p] + [f]];
        }
        rest := rest - {p};
      }
    }

    method Get(p: PollerId) returns (f: Frame)
      requires p in subscribers && subscribers[p] != []
      modifies this
      ensures p in subscribers && old(subscribers)[p] == [f] + subscribers[p]
      ensures subscribers == old(subscribers)[p := subscribers[p]]
    {
      f := subscribers[p][0];
      subscribers := subscribers[p := subscribers[p][1..]];
    }
  }

  /** The queues of the pollers that have not returned. */
  function Queues(w: World): map<PollerId, seq<Frame>> {
    map p | p in w.pollers && !w.pollers[p].stage.Returned? :: w.pollers[p].queue
  }

  lemma QueuesAfter(w: World, p: PollerId, q: Poller)
    ensures Queues(w.(pollers := w.pollers[p := q]))
         == if q.stage.Returned? then Queues(w) - {p} else Queues(w)[p := q.queue]
  {
  }

  /** Publishing in the protocol does to its queues what DeliverLocal does to the bus. */
  lemma PublishIsDeliver(w: World, f: Frame)
    ensures Queues(w.(pollers := Delivered(w.pollers, f))) == map q | q in Queues(w) :: Put(Queues(w)[q], f)
  {
  }

  /** And each step of a poller is one of the bus's methods: subscribing is Subscribe, taking a
      frame is Get, and returning, with messages or at the time-out, is Unsubscribe. */
  lemma BusFollowsProtocol(w: World, p: PollerId, since: int, sender: Option<string>)
    ensures Enabled(w, Subscribe(p, since, sender)) ==>
              p !in Queues(w) && Queues(Next(w, Subscribe(p, since, sender))) == Queues(w)[p := []]
    ensures Enabled(w, TakeFrame(p)) ==>
              p in Queues(w) && Queues(w)[p] != []
              && Queues(Next(w, TakeFrame(p))) == Queues(w)[p := Queues(w)[p][1..]]
    ensures Enabled(w, TimeOut(p)) ==> Queues(Next(w, TimeOut(p))) == Queues(w) - {p}
    ensures Enabled(w, Read(p)) ==>
              Queues(Next(w, Read(p))) == if Found(w.store, w.pollers[p]) != {} then Queues(w) - {p} else Queues(w)
  {
    hide Queues, Found, Wakes;
    if Enabled(w, Subscribe(p, since, sender)) {
      NotYetQueued(w, p);
      QueuesAfter(w, p, Next(w, Subscribe(p, since, sender)).pollers[p]);
    } else if Enabled(w, TakeFrame(p)) || Enabled(w, TimeOut(p)) {
      QueueOf(w, p);
      QueuesAfter(w, p, Next(w, TimeOut(p)).pollers[p]);
      if w.pollers[p].queue != [] {
        QueuesAfter(w, p, Next(w, TakeFrame(p)).pollers[p]);
      }
    } else if Enabled(w, Read(p)) {
      QueueOf(w, p);
      QueuesAfter(w, p, Next(w, Read(p)).pollers[p]);
    }
  }

  lemma NotYetQueued(w: World, p: PollerId)
    requires p !in w.pollers
    ensures p !in Queues(w)
  {
  }

  lemma QueueOf(w: World, p: PollerId)
    requires p in w.pollers && !w.pollers[p].stage.Returned?
    ensures p in Queues(w) && Queues(w)[p] == w.pollers[p].queue && Queues(w)[p := w.pollers[p].queue] == Queues(w)
  {
  }

  /** How many frames of a queue announce a message. */
  function Wakeups(frames: seq<Frame>): nat {
    if frames == [] then 0
    else Wakeups(frames[..|frames| - 1]) + if Wakes(frames[|frames| - 1]) then 1 else 0
  }

  /** wait_for_new, for the frames that reach it before its deadline. `answers(k)` is what the
      k-th query finds. It asks once before waiting and once for each message.new, and returns
      the first answer that is not empty. */
  method WaitForNew(frames: seq<Frame>, answers: nat -> set<MessageId>) returns (found: set<MessageId>, asked: nat)
    ensures 1 <= asked <= Wakeups(frames) + 1
    ensures found == answers(asked - 1) && forall k | 0 <= k < asked - 1 :: answers(k) == {}
    ensures found == {} ==> asked == Wakeups(frames) + 1
  {
    found, asked := answers(0), 1;
    if found != {} {
      return;
    }
    for i := 0 to |frames|
      invariant found == {} && asked == Wakeups(frames[..i]) + 1
      invariant forall k | 0 <= k < asked :: answers(k) == {}
    {
      assert frames[..i + 1][..i] == frames[..i];
      if Wakes(frames[i]) {
        found, asked := answers(asked), asked + 1;
        if found != {} {
          FewerBefore(frames, i + 1);
          return;
        }
      }
    }
    assert frames[..|frames|] == frames;
  }

  lemma {:induction false} FewerBefore(frames: seq<Frame>, i: nat)
    requires i <= |frames|
    ensures Wakeups(frames[..i]) <= Wakeups(frames)
    decreases |frames|
  {
    if i == |frames| {
      assert frames[..i] == frames;
    } else {
      var before := frames[..|frames| - 1];
      assert before[..i] == frames[..i];
      FewerBefore(before, i);
    }
  }
}
