/** Pausing, resuming and running passes together (SettingsStore.pauseSync / resumeSync,
    TsunagiRepository.sync): a pass reads the settings once, at its start, so a pause does not
    stop a pass that is running, and a window recorded meanwhile is not the one it applies.

    The phone's own protocol, of which these are the steps a pass orders, is Delivery. */
module PausedSessions {
  import opened Wrappers
  import opened Identity
  import opened MessageTable
  import opened Settlement
  import UploadPass
  import InboxSweep
  import D = Delivery
  import H = HeldBack
  import EngineRuns
  import Exchange
  import Ingest
  import Wire

  /** Where a pass stands: its sweep and requeueing, then holding back, then clearing the window
      it applied, then uploading. */
  datatype Stage = Begun | HasRequeued | HasHeld | Draining

  datatype Pass = Pass(snapshot: Option<(int, int)>, stage: Stage)

  /** `trace` is what the phone and the server have done; the rest are the settings and the
      passes that are running. */
  datatype World = World(
    trace: seq<D.Event>,
    enabled: bool,
    hold: bool,
    since: int,
    window: Option<(int, int)>,
    passes: map<nat, Pass>)

  datatype Event =
    | Pause(now: int)
    | Resume(now: int)
    | Choose(hold: bool)
    | Begin(p: nat)
    | RequeueIn(p: nat)
    | HoldIn(p: nat)
    | ClearIn(p: nat)
    | Upload(p: nat, n: nat, batch: seq<Id>)
    | End(p: nat)
    | Die
    | Other(e: D.Event)

  const INITIAL: World := World([], true, false, 0, None, map[])

  ghost predicate Valid(w: World) {
    D.Legal(w.trace)
  }

  ghost function Net(w: World): D.World
    requires Valid(w)
  {
    D.After(w.trace)
  }

  /** The steps that belong to no particular moment of a pass. */
  predicate AnyTime(e: D.Event) {
    !e.Requeue? && !e.Withhold? && !e.Select? && !e.Crash?
  }

  ghost predicate Enabled(w: World, e: Event)
    requires Valid(w)
  {
    match e
    case Begin(p) => w.enabled && p !in w.passes
    case RequeueIn(p) => p in w.passes && w.passes[p].stage.Begun?
    case HoldIn(p) => p in w.passes && w.passes[p].stage.HasRequeued?
    case ClearIn(p) => p in w.passes && w.passes[p].stage.HasHeld?
    case Upload(p, n, batch) => p in w.passes && w.passes[p].stage.Draining? && D.Enabled(Net(w), D.Select(n, batch))
    case Other(e) => AnyTime(e) && D.Enabled(Net(w), e)
    case _ => true
  }

  function At(w: World, p: nat, s: Stage): World
    requires p in w.passes
  {
    w.(passes := w.passes[p := w.passes[p].(stage := s)])
  }

  /** What the step makes the phone do, if anything. */
  function NetStep(w: World, e: Event): Option<D.Event> {
    match e
    case RequeueIn(_) => Some(D.Requeue)
    case HoldIn(p) =>
      if p in w.passes && w.passes[p].snapshot.Some?
      then Some(D.Withhold(w.passes[p].snapshot.value.0, w.passes[p].snapshot.value.1)) else None
    case Upload(_, n, batch) => Some(D.Select(n, batch))
    case Die => Some(D.Crash)
    case Other(e) => Some(e)
    case _ => None
  }

  function TraceAfter(w: World, e: Event): seq<D.Event> {
    if NetStep(w, e).Some? then w.trace + [NetStep(w, e).value] else w.trace
  }

  ghost function Next(w: World, e: Event): World
    requires Valid(w) && Enabled(w, e)
  {
    var w' := w.(trace := TraceAfter(w, e));
    match e
    case Pause(now) => w'.(enabled := false, since := now)
    case Resume(now) => w'.(enabled := true, since := 0, window := H.AfterResume(w.window, w.hold, w.since, now))
    case Choose(hold) => w'.(hold := hold)
    case Begin(p) => w'.(passes := w.passes[p := Pass(w.window, Begun)])
    case RequeueIn(p) => At(w', p, HasRequeued)
    case HoldIn(p) => At(w', p, if w.passes[p].snapshot.Some? then HasHeld else Draining)
    case ClearIn(p) => At(w', p, Draining).(window := None)
    case Upload(_, _, _) => w'
    case End(p) => w'.(passes := w.passes - {p})
    case Die => w'.(passes := map[])
    case Other(_) => w'
  }

  lemma StepIsValid(w: World, e: Event)
    requires Valid(w) && Enabled(w, e)
    ensures Valid(Next(w, e)) && w.trace <= Next(w, e).trace
    ensures NetStep(w, e).Some? ==>
              D.Enabled(Net(w), NetStep(w, e).value) && Net(Next(w, e)) == D.Next(Net(w), NetStep(w, e).value)
    ensures NetStep(w, e).None? ==> Net(Next(w, e)) == Net(w)
  {
    if NetStep(w, e).Some? {
      D.Step(w.trace, NetStep(w, e).value);
    }
  }

  ghost predicate Runs(w: World, events: seq<Event>)
    requires Valid(w)
    decreases |events|
  {
    events == []
    || (Enabled(w, events[0]) && Valid(Next(w, events[0])) && Runs(Next(w, events[0]), events[1..]))
  }

  ghost function After(w: World, events: seq<Event>): World
    requires Valid(w) && Runs(w, events)
    decreases |events|
  {
    if events == [] then w else After(Next(w, events[0]), events[1..])
  }

  lemma RunStep(w: World, e: Event, rest: seq<Event>)
    requires Valid(w) && Enabled(w, e) && Valid(Next(w, e)) && Runs(Next(w, e), rest)
    ensures Runs(w, [e] + rest) && After(w, [e] + rest) == After(Next(w, e), rest)
  {
    assert ([e] + rest)[1..] == rest;
  }

  /** Pausing and resuming, by the settings: a pause records its time and stops new passes; a
      resume ends it, and replaces the window by the session's own only if that is to be held
      back; and a second resume changes nothing more. */
  lemma SettingsExactly(w: World, now: int, later: int)
    requires Valid(w)
    ensures Next(w, Pause(now)) == w.(enabled := false, since := now)
    ensures var (resumed, window) := (Next(w, Resume(now)), Next(w, Resume(now)).window);
            && resumed == w.(enabled := true, since := 0, window := window)
            && (w.hold && w.since > 0 && now > 0 ==> window == Some((w.since, now)))
            && (!w.hold || w.since <= 0 ==> window == w.window)
            && Next(resumed, Resume(later)) == resumed
    ensures forall p :: Enabled(w, Begin(p)) ==> w.enabled && Next(w, Begin(p)).passes[p] == Pass(w.window, Begun)
  {
  }

  // ---- the order of a pass ----

  /** The steps pass `p` has taken before it uploads, after one more event; it begins with none. */
  function OwnAfter(own: seq<Event>, e: Event, p: nat): seq<Event> {
    if e == Begin(p) then []
    else if e == RequeueIn(p) || e == HoldIn(p) || e == ClearIn(p) then own + [e]
    else own
  }

  function OwnSteps(own: seq<Event>, events: seq<Event>, p: nat): seq<Event>
    decreases |events|
  {
    if events == [] then own else OwnSteps(OwnAfter(own, events[0], p), events[1..], p)
  }

  /** What a pass that stands here has done since it began. */
  ghost predicate HasDone(q: Pass, own: seq<Event>, p: nat) {
    match q.stage
    case Begun => own == []
    case HasRequeued => own == [RequeueIn(p)]
    case HasHeld => own == [RequeueIn(p), HoldIn(p)] && q.snapshot.Some?
    case Draining =>
      own == if q.snapshot.Some? then [RequeueIn(p), HoldIn(p), ClearIn(p)] else [RequeueIn(p), HoldIn(p)]
  }

  lemma StepInOrder(w: World, e: Event, own: seq<Event>, p: nat)
    requires Valid(w) && Enabled(w, e) && (p in w.passes ==> HasDone(w.passes[p], own, p))
    ensures p in Next(w, e).passes ==> HasDone(Next(w, e).passes[p], OwnAfter(own, e, p), p)
  {
    hide D.Legal, D.After, D.Enabled, TraceAfter;
  }

  lemma {:induction false} RunInOrder(w: World, events: seq<Event>, own: seq<Event>, p: nat)
    requires Valid(w) && Runs(w, events) && (p in w.passes ==> HasDone(w.passes[p], own, p))
    ensures p in After(w, events).passes ==> HasDone(After(w, events).passes[p], OwnSteps(own, events, p), p)
    decreases |events|
  {
    hide Valid, Next, Enabled, HasDone, OwnAfter;
    if events != [] {
      StepInOrder(w, events[0], own, p);
      RunInOrder(Next(w, events[0]), events[1..], OwnAfter(own, events[0], p), p);
    }
  }

  /** Each of a pass's steps can be taken at one point only, and uploads only after all others. */
  lemma TakenInTurn(w: World, e: Event, p: nat, own: seq<Event>)
    requires Valid(w) && Enabled(w, e) && (p in w.passes ==> HasDone(w.passes[p], own, p))
    ensures e == RequeueIn(p) ==> own == []
    ensures e == HoldIn(p) ==> own == [RequeueIn(p)]
    ensures e == ClearIn(p) ==> own == [RequeueIn(p), HoldIn(p)]
    ensures e.Upload? && e.p == p ==>
              && p in w.passes
              && own == [RequeueIn(p), HoldIn(p)] + if w.passes[p].snapshot.Some? then [ClearIn(p)] else []
  {
    hide D.Legal, D.After, D.Enabled;
  }

  /** In every run a pass requeues, then holds back, then, if it had a window to apply, clears it,
      each once and in this order, and only then uploads. */
  lemma PassInOrder(events: seq<Event>, e: Event, p: nat)
    requires Valid(INITIAL) && Runs(INITIAL, events) && Valid(After(INITIAL, events))
    requires Enabled(After(INITIAL, events), e)
    ensures e == RequeueIn(p) ==> OwnSteps([], events, p) == []
    ensures e == HoldIn(p) ==> OwnSteps([], events, p) == [RequeueIn(p)]
    ensures e == ClearIn(p) ==> OwnSteps([], events, p) == [RequeueIn(p), HoldIn(p)]
    ensures e.Upload? && e.p == p ==>
              || OwnSteps([], events, p) == [RequeueIn(p), HoldIn(p), ClearIn(p)]
              || OwnSteps([], events, p) == [RequeueIn(p), HoldIn(p)]
  {
    RunInOrder(INITIAL, events, [], p);
    TakenInTurn(After(INITIAL, events), e, p, OwnSteps([], events, p));
    hide *;
  }

  /** The step is one of pass `p`'s own. */
  predicate IsOf(e: Event, p: nat) {
    (e.RequeueIn? || e.HoldIn? || e.ClearIn? || e.Upload?) && e.p == p
  }

  lemma {:induction false} NotRunningDoesNothing(w: World, events: seq<Event>, p: nat)
    requires Valid(w) && Runs(w, events) && p !in w.passes && Begin(p) !in events
    ensures forall e | e in events :: !IsOf(e, p)
    decreases |events|
  {
    hide D.Legal, D.After, D.Enabled, TraceAfter;
    if events != [] {
      assert events[0] in events && forall e | e in events[1..] :: e in events;
      NotRunningDoesNothing(Next(w, events[0]), events[1..], p);
      assert events == [events[0]] + events[1..];
    }
  }

  /** A pass that has ended, or died with the process, does nothing more, whatever else runs. */
  lemma EndedDoesNothing(w: World, p: nat, e: Event, events: seq<Event>)
    requires Valid(w) && (e == End(p) || e == Die) && Enabled(w, e)
    requires Valid(Next(w, e)) && Runs(Next(w, e), events) && Begin(p) !in events
    ensures forall later | later in events :: !IsOf(later, p)
  {
    assert p !in Next(w, e).passes by {
      hide D.Legal, D.After, D.Enabled, TraceAfter;
    }
    hide Next;
    NotRunningDoesNothing(Next(w, e), events, p);
  }

  predicate NoResume(events: seq<Event>) {
    forall k | 0 <= k < |events| :: !events[k].Resume?
  }

  // ---- what decides whether a message goes up ----

  predicate Covers(window: Option<(int, int)>, m: Sms) {
    window.Some? && InWindow(m, window.value.0, window.value.1)
  }

  ghost predicate QueuedNow(w: World, m: Sms)
    requires Valid(w)
  {
    D.OnPhone(Net(w).phone, m) && Queued(Net(w).phone[Of(m)])
  }

  /** The message is in the queue that some pass is draining. */
  ghost predicate Offered(w: World, m: Sms)
    requires Valid(w)
  {
    QueuedNow(w, m) && exists p :: p in w.passes && w.passes[p].stage.Draining?
  }

  /** A batch holds only messages that are offered. */
  lemma ChosenWasOffered(w: World, e: Event, m: Sms)
    requires Valid(w) && Enabled(w, e) && D.OnPhone(Net(w).phone, m)
    ensures e.Upload? && Of(m) in e.batch ==> Offered(w, m)
  {
    hide D.Legal, D.After, Of;
    if e.Upload? {
      var limit := if IsPendingBatch(Net(w).phone, 1, e.batch) then 1 else UploadPass.BATCH_SIZE;
      H.ChosenWereQueued(Net(w).phone, limit, e.batch);
    }
  }

  /** This pass will not hold the message back before it uploads: it is past that point, or the
      window it read at its start does not cover the message. */
  predicate PastHolding(q: Pass, m: Sms) {
    q.stage.HasHeld? || q.stage.Draining? || !Covers(q.snapshot, m)
  }

  ghost predicate Exposed(w: World, m: Sms) {
    || (exists p :: p in w.passes && PastHolding(w.passes[p], m))
    || (w.enabled && !Covers(w.window, m))
  }

  ghost predicate Stranded(w: World, m: Sms)
    requires Valid(w)
  {
    D.OnPhone(Net(w).phone, m) && Net(w).phone[Of(m)].status.Uploading?
  }

  /** Nobody has the message in hand, and whoever uploads next will hold it back first. */
  ghost predicate Guarded(w: World, m: Sms)
    requires Valid(w)
  {
    && !H.Carried(Net(w), Of(m)) && !Exposed(w, m)
    && (QueuedNow(w, m) || Stranded(w, m))
    && forall p | p in w.passes && w.passes[p].stage.HasRequeued? :: QueuedNow(w, m)
  }

  ghost predicate HeldForGood(w: World, m: Sms)
    requires Valid(w)
  {
    H.Withheld(Net(w), Of(m)) && !H.Carried(Net(w), Of(m))
  }

  /** Away from the steps a pass orders, a row nobody has in hand keeps its status. */
  lemma RowStays(w: D.World, e: D.Event, m: Sms)
    requires D.Inv(w) && D.Enabled(w, e) && (AnyTime(e) || e.Crash?) && !H.Carried(w, Of(m))
    requires D.OnPhone(w.phone, m) && !w.phone[Of(m)].status.Synced?
    ensures D.OnPhone(D.Next(w, e).phone, m) && D.Next(w, e).phone[Of(m)].status == w.phone[Of(m)].status
    ensures !H.Carried(D.Next(w, e), Of(m))
  {
    H.NotTakenUp(w, e, Of(m));
    RowUntouched(w, e, m);
  }

  lemma RowUntouched(w: D.World, e: D.Event, m: Sms)
    requires D.Enabled(w, e) && (AnyTime(e) || e.Crash?) && !H.Carried(w, Of(m))
    requires D.OnPhone(w.phone, m) && !w.phone[Of(m)].status.Synced?
    ensures D.OnPhone(D.Next(w, e).phone, m) && D.Next(w, e).phone[Of(m)].status == w.phone[Of(m)].status
  {
    hide Of;
    match e
    case SweepInbox(candidates) => InboxSweep.SweepOnlyAdds(InboxSweep.Begin(w.phone), candidates);
    case Apply(n) =>
      ExecutedEffect(w.phone, w.settling[n][0]);
      assert 0 < |w.settling[n]|;
    case _ =>
  }

  lemma RowRequeued(t: Table, m: Sms)
    requires D.OnPhone(t, m) && (Queued(t[Of(m)]) || t[Of(m)].status.Uploading?)
    ensures D.OnPhone(Requeued(t), m) && Queued(Requeued(t)[Of(m)])
  {
    hide Of;
  }

  /** Pauses, passes that begin and passes that go on expose nothing. */
  lemma NotExposedStep(w: World, e: Event, m: Sms)
    requires Valid(w) && Enabled(w, e) && !Exposed(w, m) && !e.Resume? && !e.HoldIn?
    ensures !Exposed(Next(w, e), m)
    ensures forall p | p in Next(w, e).passes && Next(w, e).passes[p].stage.HasRequeued? ::
              (p in w.passes && w.passes[p].stage.HasRequeued?) || e.RequeueIn?
  {
    NoneOffered(w, m);
    hide D.Legal, D.After, D.Enabled;
    forall p | p in Next(w, e).passes
      ensures !PastHolding(Next(w, e).passes[p], m)
    {
      assert p in w.passes ==> !PastHolding(w.passes[p], m);
    }
  }

  /** What such a step does to the row. */
  lemma GuardedRow(w: World, e: Event, m: Sms)
    requires Valid(w) && Enabled(w, e) && Guarded(w, m) && !e.HoldIn? && !e.Upload? && D.Inv(Net(w))
    ensures Valid(Next(w, e)) && !H.Carried(Net(Next(w, e)), Of(m))
    ensures QueuedNow(Next(w, e), m) || Stranded(Next(w, e), m)
    ensures QueuedNow(w, m) || e.RequeueIn? ==> QueuedNow(Next(w, e), m)
  {
    StepIsValid(w, e);
    hide D.Inv, D.Legal, D.After, H.Carried, Exposed, PastHolding, D.Next, D.Enabled, Next, Of;
    if e.RequeueIn? {
      RequeueKeeps(Net(w), m);
    } else if e.Other? || e.Die? {
      RowStays(Net(w), NetStep(w, e).value, m);
    }
  }

  lemma RequeueKeeps(w: D.World, m: Sms)
    requires D.Inv(w) && !H.Carried(w, Of(m))
    requires D.OnPhone(w.phone, m) && (Queued(w.phone[Of(m)]) || w.phone[Of(m)].status.Uploading?)
    ensures D.Enabled(w, D.Requeue) && !H.Carried(D.Next(w, D.Requeue), Of(m))
    ensures D.OnPhone(D.Next(w, D.Requeue).phone, m) && Queued(D.Next(w, D.Requeue).phone[Of(m)])
  {
    H.NotTakenUp(w, D.Requeue, Of(m));
    RowRequeued(w.phone, m);
    hide Of;
  }

  /** The pass whose turn it is holds a guarded message back. */
  lemma HoldsBack(w: World, p: nat, m: Sms)
    requires Valid(w) && Enabled(w, HoldIn(p)) && Guarded(w, m) && D.Inv(Net(w))
    ensures Valid(Next(w, HoldIn(p))) && HeldForGood(Next(w, HoldIn(p)), m)
  {
    StepIsValid(w, HoldIn(p));
    assert !PastHolding(w.passes[p], m);
    var window := w.passes[p].snapshot.value;
    hide Of, D.Inv, D.Legal, D.After, H.Carried, Exposed;
    H.NotTakenUp(Net(w), D.Withhold(window.0, window.1), Of(m));
  }

  /** One step of a guarded message: it stays guarded, or the pass whose turn it is holds it
      back for good. */
  lemma GuardedStep(w: World, e: Event, m: Sms)
    requires Valid(w) && Enabled(w, e) && Guarded(w, m) && !e.Resume? && D.Inv(Net(w))
    ensures Valid(Next(w, e)) && (Guarded(Next(w, e), m) || HeldForGood(Next(w, e), m))
  {
    NoneOffered(w, m);
    hide Of, D.Inv, D.Legal, D.After, H.Carried, Next, QueuedNow, Stranded, Exposed, HeldForGood;
    if e.HoldIn? {
      HoldsBack(w, e.p, m);
    } else if !e.Upload? {
      NotExposedStep(w, e, m);
      GuardedRow(w, e, m);
    }
  }

  lemma NoneOffered(w: World, m: Sms)
    requires Valid(w) && !Exposed(w, m)
    ensures !Offered(w, m) && forall p | p in w.passes :: !w.passes[p].stage.Draining? && !w.passes[p].stage.HasHeld?
  {
    hide D.Legal, D.After;
    forall p | p in w.passes
      ensures !w.passes[p].stage.Draining? && !w.passes[p].stage.HasHeld?
    {
      assert !PastHolding(w.passes[p], m);
    }
  }

  lemma HeldStep(w: World, e: Event, m: Sms)
    requires Valid(w) && Enabled(w, e) && HeldForGood(w, m) && D.Inv(Net(w))
    ensures Valid(Next(w, e)) && HeldForGood(Next(w, e), m) && !QueuedNow(w, m)
  {
    StepIsValid(w, e);
    if NetStep(w, e).Some? {
      H.StaysWithheld(Net(w), NetStep(w, e).value, Of(m));
    }
  }

  /** Some step of the run hands this message to a pass for upload. */
  ghost predicate GoesUp(events: seq<Event>, id: Id) {
    exists k :: 0 <= k < |events| && events[k].Upload? && id in events[k].batch
  }

  lemma GoesUpFirst(e: Event, rest: seq<Event>, id: Id)
    ensures GoesUp([e] + rest, id) <==> (e.Upload? && id in e.batch) || GoesUp(rest, id)
  {
    var all := [e] + rest;
    if k :| 0 <= k < |rest| && rest[k].Upload? && id in rest[k].batch {
      assert all[k + 1] == rest[k];
    }
    if e.Upload? && id in e.batch {
      assert all[0] == e;
    }
  }

  /** No batch holds a message that is guarded or held back. */
  lemma NotChosen(w: World, e: Event, m: Sms)
    requires Valid(w) && Enabled(w, e) && D.Inv(Net(w)) && (Guarded(w, m) || HeldForGood(w, m))
    ensures e.Upload? ==> Of(m) !in e.batch
  {
    if HeldForGood(w, m) {
      if e.Upload? {
        H.StaysWithheld(Net(w), D.Select(e.n, e.batch), Of(m));
      }
    } else {
      NotOffered(w, m);
      ChosenWasOffered(w, e, m);
    }
  }

  /** A guarded message goes up in no run before the next resume, and is never offered to a pass. */
  lemma {:induction false} GuardedForGood(w: World, events: seq<Event>, m: Sms)
    requires Valid(w) && Runs(w, events) && NoResume(events)
    requires Guarded(w, m) || HeldForGood(w, m)
    ensures Valid(After(w, events)) && !Offered(After(w, events), m)
    ensures !GoesUp(events, Of(m))
    decreases |events|
  {
    hide Enabled, Next, Guarded, HeldForGood, Offered, D.Legal, D.After, D.Inv, GoesUp, Of;
    D.EveryRunKeeps(w.trace);
    if events == [] {
      NotOffered(w, m);
      NothingGoesUp(Of(m));
    } else {
      NotChosen(w, events[0], m);
      GoesUpFirst(events[0], events[1..], Of(m));
      assert [events[0]] + events[1..] == events;
      assert NoResume(events[1..]) by {
        assert forall k | 0 <= k < |events[1..]| :: events[1..][k] == events[k + 1];
      }
      if Guarded(w, m) {
        GuardedStep(w, events[0], m);
      } else {
        HeldStep(w, events[0], m);
      }
      GuardedForGood(Next(w, events[0]), events[1..], m);
    }
  }

  lemma NothingGoesUp(id: Id)
    ensures !GoesUp([], id)
  {
  }

  lemma NotOffered(w: World, m: Sms)
    requires Valid(w) && (Guarded(w, m) || HeldForGood(w, m))
    ensures !Offered(w, m) && (Guarded(w, m) ==> D.OnPhone(Net(w).phone, m))
  {
    if Guarded(w, m) {
      NoneOffered(w, m);
    }
  }

  // ---- and when it is exposed, it does go up ----

  /** A pass that will not hold the message back gets to upload with the message still queued. */
  lemma {:induction false} PassGetsThere(w: World, p: nat, m: Sms) returns (events: seq<Event>)
    requires Valid(w) && QueuedNow(w, m) && p in w.passes && PastHolding(w.passes[p], m)
    ensures Runs(w, events) && NoResume(events) && Valid(After(w, events)) && Offered(After(w, events), m)
    decreases match w.passes[p].stage case Begun => 3 case HasRequeued => 2 case HasHeld => 1 case Draining => 0
  {
    hide D.Legal, D.After, Of;
    if w.passes[p].stage.Draining? {
      events := [];
    } else {
      var e := match w.passes[p].stage
        case Begun => RequeueIn(p)
        case HasRequeued => HoldIn(p)
        case _ => ClearIn(p);
      StepIsValid(w, e);
      StillQueued(w, e, p, m);
      var rest := PassGetsThere(Next(w, e), p, m);
      RunStep(w, e, rest);
      events := [e] + rest;
    }
  }

  lemma StillQueued(w: World, e: Event, p: nat, m: Sms)
    requires Valid(w) && QueuedNow(w, m) && p in w.passes && PastHolding(w.passes[p], m) && Enabled(w, e)
    requires e == RequeueIn(p) || e == HoldIn(p) || e == ClearIn(p)
    ensures Valid(Next(w, e)) && QueuedNow(Next(w, e), m)
  {
    StepIsValid(w, e);
    hide D.Legal, D.After, Of;
    if e.RequeueIn? {
      RowRequeued(Net(w).phone, m);
    }
  }

  /** Exactly when a queued message that nobody has in hand goes up before the next resume: a
      running pass is past holding it back, or sync is on and the recorded window does not cover
      it. A pass that began before the pause, or that read an older window, is such a pass. */
  lemma OfferedExactlyWhen(w: World, m: Sms)
    requires Valid(w) && QueuedNow(w, m) && !H.Carried(Net(w), Of(m))
    ensures (exists events :: Runs(w, events) && NoResume(events)
                              && Valid(After(w, events)) && Offered(After(w, events), m))
       <==> Exposed(w, m)
  {
    hide D.Legal, D.After, Of, H.Carried, QueuedNow, Offered;
    if p :| p in w.passes && PastHolding(w.passes[p], m) {
      var events := PassGetsThere(w, p, m);
    } else if w.enabled && !Covers(w.window, m) {
      var p := UnusedNumber(w.passes.Keys);
      var begun := BeginsUncovered(w, p, m);
      var rest := PassGetsThere(begun, p, m);
      RunStep(w, Begin(p), rest);
      assert NoResume([Begin(p)] + rest);
    } else {
      assert !Exposed(w, m);
      assert Guarded(w, m);
      forall events | Runs(w, events) && NoResume(events)
        ensures Valid(After(w, events)) && !Offered(After(w, events), m)
      {
        GuardedForGood(w, events, m);
      }
    }
  }

  lemma BeginsUncovered(w: World, p: nat, m: Sms) returns (begun: World)
    requires Valid(w) && QueuedNow(w, m) && w.enabled && !Covers(w.window, m) && p !in w.passes
    ensures Enabled(w, Begin(p)) && begun == Next(w, Begin(p)) && Valid(begun)
    ensures QueuedNow(begun, m) && p in begun.passes && PastHolding(begun.passes[p], m)
  {
    begun := Next(w, Begin(p));
  }

  // ---- a pass that is uploading gets to every message offered ----

  lemma {:induction false} RunsOn(w: World, first: seq<Event>, second: seq<Event>)
    requires Valid(w) && Runs(w, first) && Valid(After(w, first)) && Runs(After(w, first), second)
    ensures Runs(w, first + second) && After(w, first + second) == After(After(w, first), second)
    ensures NoResume(first) && NoResume(second) ==> NoResume(first + second)
    decreases |first|
  {
    hide Enabled, Next, Valid;
    if first == [] {
      assert first + second == second;
    } else {
      RunsOn(Next(w, first[0]), first[1..], second);
      RunStep(w, first[0], first[1..] + second);
      assert [first[0]] + (first[1..] + second) == first + second;
    }
  }

  lemma GoesUpLater(first: seq<Event>, second: seq<Event>, id: Id)
    requires GoesUp(second, id)
    ensures GoesUp(first + second, id)
  {
    var k :| 0 <= k < |second| && second[k].Upload? && id in second[k].batch;
    assert (first + second)[|first| + k] == second[k];
  }

  /** The settling of an upload, as steps here. */
  lemma {:induction false} Lifted(w: World, run: seq<D.Event>) returns (events: seq<Event>)
    requires Valid(w) && D.Legal(run) && EngineRuns.OnlySettles(w.trace, run)
    ensures Runs(w, events) && NoResume(events) && After(w, events) == w.(trace := run) && Valid(w.(trace := run))
    decreases |run| - |w.trace|
  {
    hide *;
    if w.trace == run {
      events := [];
      StaysPut(w);
    } else {
      LiftOne(w, run);
      var e, next := Other(run[|w.trace|]), w.(trace := run[..|w.trace| + 1]);
      var rest := Lifted(next, run);
      RunStep(w, e, rest);
      OtherResumesNothing(run[|w.trace|], rest);
      events := [e] + rest;
    }
  }

  lemma StaysPut(w: World)
    requires Valid(w)
    ensures Runs(w, []) && After(w, []) == w && NoResume([])
  {
  }

  lemma OtherResumesNothing(e: D.Event, rest: seq<Event>)
    requires NoResume(rest)
    ensures NoResume([Other(e)] + rest)
  {
  }

  lemma LiftOne(w: World, run: seq<D.Event>)
    requires Valid(w) && D.Legal(run) && EngineRuns.OnlySettles(w.trace, run) && w.trace != run
    ensures |w.trace| < |run|
    ensures var e, next := Other(run[|w.trace|]), w.(trace := run[..|w.trace| + 1]);
            Enabled(w, e) && Next(w, e) == next && Valid(next) && EngineRuns.OnlySettles(next.trace, run)
  {
    var n := |w.trace|;
    hide D.Legal, D.After, D.Enabled;
    SplitRun(w.trace, run);
    PrefixIsLegal(run, n);
    StepIsValid(w, Other(run[n]));
  }

  lemma SplitRun(trace: seq<D.Event>, run: seq<D.Event>)
    requires EngineRuns.OnlySettles(trace, run) && trace != run
    ensures var n := |trace|;
            && n < |run| && trace == run[..n] && run[..n + 1] == trace + [run[n]] && AnyTime(run[n])
            && EngineRuns.OnlySettles(run[..n + 1], run)
  {
  }

  lemma {:induction false} PrefixIsLegal(run: seq<D.Event>, n: nat)
    requires D.Legal(run) && n < |run|
    ensures D.Legal(run[..n]) && D.Enabled(D.After(run[..n]), run[n])
    decreases |run|
  {
    hide D.Enabled, D.After;
    var before := run[..|run| - 1];
    if n < |before| {
      PrefixIsLegal(before, n);
      assert before[..n] == run[..n];
    }
  }

  /** The answer of a server that reports per message takes the whole batch off the queue. */
  lemma TurnTakesBatch(t: Table, s: Ingest.Store, batch: seq<Id>)
    requires IsPendingBatch(t, UploadPass.BATCH_SIZE, batch) && batch != []
    ensures forall id | id in batch :: id in t
    ensures var answer := Exchange.Reply(s, "", Exchange.Request(D.RequestOf(t, batch)), true);
            var after := UploadPass.Take(UploadPass.Start(t), UploadPass.Turn(batch, answer, 0)).table;
            && answer.Accepted? && Extends(t, after) && Queue(after) == Queue(t) - Elements(batch)
  {
    EngineRuns.BatchIsStored(t, UploadPass.BATCH_SIZE, batch);
    BatchSize(t, UploadPass.BATCH_SIZE, batch);
    var sent := D.RequestOf(t, batch);
    var answer := Exchange.Reply(s, "", Exchange.Request(sent), true);
    var turn := UploadPass.Turn(batch, answer, 0);
    D.SentIds(t, batch);
    AcceptedInFull(s, sent);
    Exchange.RefusedAreUnacceptable(s, "", sent, true, 0);
    D.UnacceptableWereSent(sent);
    UploadPass.TurnShrinksQueue(UploadPass.Start(t), turn);
    UploadPass.TurnEffect(UploadPass.Start(t), turn);
    hide UploadPass.Take, UploadPass.RefusedBy, Exchange.Reply, IsPendingBatch, Queue;
    assert Queue(t) - Elements(batch) - UploadPass.RefusedBy(turn) == Queue(t) - Elements(batch);
  }

  lemma AcceptedInFull(s: Ingest.Store, sent: seq<Wire.Upload>)
    requires 1 <= |sent| <= UploadPass.BATCH_SIZE
    ensures Exchange.Reply(s, "", Exchange.Request(sent), true).Accepted?
  {
  }

  /** One upload of an uploading pass, from choosing the batch to settling the answer. */
  lemma {:induction false} UploadsOnce(w: World, p: nat, n: nat, batch: seq<Id>) returns (events: seq<Event>)
    requires Valid(w) && Enabled(w, Upload(p, n, batch)) && IsPendingBatch(Net(w).phone, UploadPass.BATCH_SIZE, batch)
    ensures Runs(w, events) && NoResume(events) && Valid(After(w, events)) && After(w, events).passes == w.passes
    ensures Extends(Net(w).phone, Net(After(w, events)).phone)
    ensures Queue(Net(After(w, events)).phone) == Queue(Net(w).phone) - Elements(batch)
  {
    var t, s := Net(w).phone, Net(w).store;
    TurnTakesBatch(t, s, batch);
    D.SentIds(t, batch);
    StepIsValid(w, Upload(p, n, batch));
    var chosen := Next(w, Upload(p, n, batch));
    assert Net(chosen).chosen[n] == D.RequestOf(t, batch) && Net(chosen).phone == t && Net(chosen).store == s;
    var run := Posts(chosen.trace, t, n, batch);
    assert D.After(chosen.trace) == Net(chosen);
    hide *;
    var rest := Lifted(chosen, run);
    RunStep(w, Upload(p, n, batch), rest);
    events := [Upload(p, n, batch)] + rest;
    UploadResumesNothing(p, n, batch, rest);
    KeepsPasses(w, p, n, batch, run);
  }

  lemma UploadResumesNothing(p: nat, n: nat, batch: seq<Id>, rest: seq<Event>)
    requires NoResume(rest)
    ensures NoResume([Upload(p, n, batch)] + rest)
  {
  }

  lemma KeepsPasses(w: World, p: nat, n: nat, batch: seq<Id>, run: seq<D.Event>)
    requires Valid(w) && Enabled(w, Upload(p, n, batch)) && D.Legal(run)
    ensures var after := Next(w, Upload(p, n, batch)).(trace := run);
            Valid(after) && after.passes == w.passes && Net(after) == D.After(run)
  {
  }

  /** What the phone and the server do about a chosen batch, if all goes well. */
  lemma {:induction false} Posts(trace: seq<D.Event>, t: Table, n: nat, batch: seq<Id>) returns (run: seq<D.Event>)
    requires D.Legal(trace) && D.After(trace).phone == t && n in D.After(trace).chosen
    requires (forall id | id in batch :: id in t) && D.After(trace).chosen[n] == D.RequestOf(t, batch)
    requires Exchange.Reply(D.After(trace).store, "", Exchange.Request(D.RequestOf(t, batch)), true).Accepted?
    ensures EngineRuns.OnlySettles(trace, run) && D.Legal(run)
    ensures D.After(run).phone
         == UploadPass.Take(UploadPass.Start(t), UploadPass.Turn(batch,
              Exchange.Reply(D.After(trace).store, "", Exchange.Request(D.RequestOf(t, batch)), true), 0)).table
  {
    hide D.Legal, D.After, UploadPass.Settle, Exchange.Reply, Exchange.StoreAfter;
    var answer := Exchange.Reply(D.After(trace).store, "", Exchange.Request(D.RequestOf(t, batch)), true);
    D.SentIds(t, batch);
    D.Step(trace, D.Mark(n));
    var marked := trace + [D.Mark(n)];
    var route := EngineRuns.Route("", true, _ => false);
    var answered := EngineRuns.Answering(marked, n, true, route, answer);
    var p := UploadPass.Start(t).(table := MarkedUploading(t, batch));
    run := EngineRuns.Settling(answered, n, answer, 0, p);
  }

  /** So a pass that is uploading reaches every message that stays queued. */
  lemma {:induction false} Reaches(w: World, p: nat, m: Sms) returns (events: seq<Event>)
    requires Valid(w) && QueuedNow(w, m) && p in w.passes && w.passes[p].stage.Draining?
    ensures Runs(w, events) && NoResume(events) && GoesUp(events, Of(m))
    decreases |Queue(Net(w).phone)|
  {
    hide D.Legal, D.After, Of, Runs, After, IsPendingBatch, GoesUp;
    var t := Net(w).phone;
    var n := UnusedNumber(Net(w).sent.Keys + Net(w).chosen.Keys);
    var batch := OldestExists(t, Queue(t), UploadPass.BATCH_SIZE);
    PendingFromOldest(t, batch);
    BatchSize(t, UploadPass.BATCH_SIZE, batch);
    assert Of(m) in Queue(t);
    assert Enabled(w, Upload(p, n, batch));
    if Of(m) in batch {
      events := OneUpload(w, p, n, batch, Of(m));
    } else {
      var first := UploadsOnce(w, p, n, batch);
      var next := After(w, first);
      assert Of(m) in Queue(Net(next).phone);
      var rest := Reaches(next, p, m);
      RunsOn(w, first, rest);
      GoesUpLater(first, rest, Of(m));
      events := first + rest;
    }
  }

  lemma PendingFromOldest(t: Table, batch: seq<Id>)
    requires IsOldest(t, Queue(t), UploadPass.BATCH_SIZE, batch)
    ensures IsPendingBatch(t, UploadPass.BATCH_SIZE, batch)
    ensures Queue(t) != {} ==> batch != []
  {
  }

  lemma OneUpload(w: World, p: nat, n: nat, batch: seq<Id>, id: Id) returns (events: seq<Event>)
    requires Valid(w) && Enabled(w, Upload(p, n, batch)) && id in batch
    ensures Runs(w, events) && NoResume(events) && GoesUp(events, id)
  {
    StepIsValid(w, Upload(p, n, batch));
    RunStep(w, Upload(p, n, batch), []);
    GoesUpFirst(Upload(p, n, batch), [], id);
    events := [Upload(p, n, batch)] + [];
  }

  /** The exact condition, for the upload itself: before the next resume a queued message that
      nobody has in hand is handed to a pass for upload, in some run, if and only if a running
      pass is past holding it back, or sync is on and the recorded window does not cover it. */
  lemma GoesUpExactlyWhen(w: World, m: Sms)
    requires Valid(w) && QueuedNow(w, m) && !H.Carried(Net(w), Of(m))
    ensures (exists events :: Runs(w, events) && NoResume(events) && GoesUp(events, Of(m))) <==> Exposed(w, m)
  {
    hide D.Legal, D.After, Of, H.Carried, GoesUp, Runs, After;
    OfferedExactlyWhen(w, m);
    if Exposed(w, m) {
      var first :| Runs(w, first) && NoResume(first) && Valid(After(w, first)) && Offered(After(w, first), m);
      var p :| p in After(w, first).passes && After(w, first).passes[p].stage.Draining?;
      var rest := Reaches(After(w, first), p, m);
      RunsOn(w, first, rest);
      GoesUpLater(first, rest, Of(m));
      assert Runs(w, first + rest);
    } else {
      assert Guarded(w, m);
      forall events | Runs(w, events) && NoResume(events)
        ensures !GoesUp(events, Of(m))
      {
        GuardedForGood(w, events, m);
      }
    }
  }

  /** So a session that begins with no pass running is kept whole: while it lasts nothing goes
      up, and once it is recorded nothing it covers does, until the user resumes again. */
  lemma QuietSessionIsKept(w: World, events: seq<Event>, m: Sms)
    requires Valid(w) && w.passes == map[] && Runs(w, events) && NoResume(events)
    requires !w.enabled || Covers(w.window, m)
    requires QueuedNow(w, m) && !H.Carried(Net(w), Of(m))
    ensures Valid(After(w, events)) && !Offered(After(w, events), m) && !GoesUp(events, Of(m))
  {
    hide D.Legal, D.After, Of, H.Carried, QueuedNow;
    assert Guarded(w, m);
    GuardedForGood(w, events, m);
  }

  // ---- two sessions that are not kept ----

  lemma {:induction false} Then(w: World, events: seq<Event>, e: Event)
    requires Valid(w) && Runs(w, events) && Valid(After(w, events)) && Enabled(After(w, events), e)
    ensures Runs(w, events + [e]) && Valid(After(w, events + [e]))
            && After(w, events + [e]) == Next(After(w, events), e)
    decreases |events|
  {
    hide Enabled, Next, Valid;
    StepIsValid(After(w, events), e);
    if events == [] {
      RunStep(w, e, []);
      assert [] + [e] == [e] + [];
    } else {
      Then(Next(w, events[0]), events[1..], e);
      RunStep(w, events[0], events[1..] + [e]);
      assert [events[0]] + (events[1..] + [e]) == events + [e];
    }
  }

  lemma InitiallyValid()
    ensures Valid(INITIAL) && Net(INITIAL) == D.EMPTY
  {
    D.NothingHappened();
  }

  /** A message captured now is queued. */
  lemma CapturedIsQueued(w: World, m: Sms)
    requires Valid(w) && Net(w).phone == map[] && NulFree(m.sender)
    ensures Enabled(w, Other(D.Capture(m))) && Valid(Next(w, Other(D.Capture(m))))
    ensures QueuedNow(Next(w, Other(D.Capture(m))), m)
  {
    StepIsValid(w, Other(D.Capture(m)));
  }

  /** A pause does not stop a pass that is running: what arrives during the session goes up. */
  lemma RunningPassIgnoresPause(m: Sms) returns (events: seq<Event>)
    requires NulFree(m.sender)
    ensures events == [Begin(0), RequeueIn(0), HoldIn(0), Pause(1), Other(D.Capture(m))]
    ensures Valid(INITIAL) && Runs(INITIAL, events) && Valid(After(INITIAL, events))
    ensures !After(INITIAL, events).enabled && Offered(After(INITIAL, events), m)
  {
    InitiallyValid();
    hide Runs, After, D.Legal, D.After, Of, NulFree;
    assert Runs(INITIAL, []) && After(INITIAL, []) == INITIAL by {
      NoSteps(INITIAL);
    }
    Then(INITIAL, [], Begin(0));
    StepIsValid(INITIAL, Begin(0));
    events := [] + [Begin(0)];
    StepIsValid(After(INITIAL, events), RequeueIn(0));
    Then(INITIAL, events, RequeueIn(0));
    events := events + [RequeueIn(0)];
    assert Net(After(INITIAL, events)).phone == map[];
    StepIsValid(After(INITIAL, events), HoldIn(0));
    Then(INITIAL, events, HoldIn(0));
    events := events + [HoldIn(0)];
    StepIsValid(After(INITIAL, events), Pause(1));
    Then(INITIAL, events, Pause(1));
    events := events + [Pause(1)];
    CapturedIsQueued(After(INITIAL, events), m);
    Then(INITIAL, events, Other(D.Capture(m)));
    events := events + [Other(D.Capture(m))];
    assert events == [Begin(0), RequeueIn(0), HoldIn(0), Pause(1), Other(D.Capture(m))];
  }

  lemma NoSteps(w: World)
    requires Valid(w)
    ensures Runs(w, []) && After(w, []) == w
  {
  }

  /** And a pass that is applying an older window wipes the one recorded meanwhile: the session
      from 3 to 5 is never held back, though the user asked for it. */
  lemma RunningPassWipesWindow(m: Sms) returns (before: seq<Event>, events: seq<Event>)
    requires NulFree(m.sender) && m.receivedAt == 4
    ensures before == [Choose(true), Pause(1), Resume(2), Begin(0), Pause(3), Other(D.Capture(m)), Resume(5)]
    ensures events == before + [RequeueIn(0), HoldIn(0), ClearIn(0)]
    ensures Valid(INITIAL) && Runs(INITIAL, before) && After(INITIAL, before).window == Some((3, 5))
    ensures Runs(INITIAL, events) && Valid(After(INITIAL, events))
    ensures After(INITIAL, events).window.None? && Offered(After(INITIAL, events), m)
  {
    InitiallyValid();
    before := SecondSession(m);
    var w := After(INITIAL, before);
    events := SettledUnheld(w, before, m);
  }

  lemma SecondSession(m: Sms) returns (before: seq<Event>)
    requires NulFree(m.sender) && m.receivedAt == 4 && Valid(INITIAL) && Net(INITIAL) == D.EMPTY
    ensures before == [Choose(true), Pause(1), Resume(2), Begin(0), Pause(3), Other(D.Capture(m)), Resume(5)]
    ensures Runs(INITIAL, before) && Valid(After(INITIAL, before)) && QueuedNow(After(INITIAL, before), m)
    ensures After(INITIAL, before).window == Some((3, 5))
            && After(INITIAL, before).passes == map[0 := Pass(Some((1, 2)), Begun)]
  {
    hide Runs, After, D.Legal, D.After, Of, NulFree;
    NoSteps(INITIAL);
    Then(INITIAL, [], Choose(true));
    before := [] + [Choose(true)];
    Then(INITIAL, before, Pause(1));
    before := before + [Pause(1)];
    Then(INITIAL, before, Resume(2));
    before := before + [Resume(2)];
    Then(INITIAL, before, Begin(0));
    before := before + [Begin(0)];
    Then(INITIAL, before, Pause(3));
    before := before + [Pause(3)];
    assert After(INITIAL, before).trace == INITIAL.trace;
    CapturedIsQueued(After(INITIAL, before), m);
    Then(INITIAL, before, Other(D.Capture(m)));
    before := before + [Other(D.Capture(m))];
    var captured := After(INITIAL, before);
    Then(INITIAL, before, Resume(5));
    before := before + [Resume(5)];
    assert After(INITIAL, before).trace == captured.trace;
    assert before == [Choose(true), Pause(1), Resume(2), Begin(0), Pause(3), Other(D.Capture(m)), Resume(5)];
  }

  lemma SettledUnheld(w: World, before: seq<Event>, m: Sms) returns (events: seq<Event>)
    requires Valid(INITIAL) && Runs(INITIAL, before) && w == After(INITIAL, before) && Valid(w) && QueuedNow(w, m)
    requires w.passes == map[0 := Pass(Some((1, 2)), Begun)] && m.receivedAt == 4
    ensures events == before + [RequeueIn(0), HoldIn(0), ClearIn(0)]
    ensures Runs(INITIAL, events) && Valid(After(INITIAL, events))
    ensures After(INITIAL, events).window.None? && Offered(After(INITIAL, events), m)
  {
    hide Runs, After, D.Legal, D.After, Of, QueuedNow;
    StillQueued(w, RequeueIn(0), 0, m);
    Then(INITIAL, before, RequeueIn(0));
    events := before + [RequeueIn(0)];
    StillQueued(After(INITIAL, events), HoldIn(0), 0, m);
    Then(INITIAL, events, HoldIn(0));
    events := events + [HoldIn(0)];
    StillQueued(After(INITIAL, events), ClearIn(0), 0, m);
    Then(INITIAL, events, ClearIn(0));
    events := events + [ClearIn(0)];
    var end := After(INITIAL, events);
    assert 0 in end.passes && end.passes[0].stage.Draining?;
    assert events == before + [RequeueIn(0), HoldIn(0), ClearIn(0)];
  }
}
