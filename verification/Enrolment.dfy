/** Single-use enrolment under races: registrations and cancellations split into the steps
    at which a server interleaves them (EnrolmentRepository.consume / cancel,
    DeviceService.register, EnrolmentService.cancel, EnrolmentToken.status).

    A conditional UPDATE locks the row it matches until its transaction ends, and another
    UPDATE of that row waits and then sees the committed result. A transaction may die at
    any point, which rolls it back. */
module Enrolment {
  import opened Wrappers

  type TokenId = nat
  type DeviceId = nat
  type Pid = nat

  datatype Token = Token(expiresAt: int, usedAt: Option<int>, cancelledAt: Option<int>, usedBy: Option<DeviceId>)

  datatype TokenStatus = Used | Cancelled | Expired | Pending

  function StatusAt(t: Token, now: int): TokenStatus {
    if t.usedAt.Some? then Used
    else if t.cancelledAt.Some? then Cancelled
    else if t.expiresAt <= now then Expired
    else Pending
  }

  /** The WHERE clause of `consume`. */
  predicate Spendable(t: Token, now: int) {
    t.usedAt.None? && t.cancelledAt.None? && t.expiresAt > now
  }

  /** The WHERE clause of `cancel`. */
  predicate Cancellable(t: Token) {
    t.usedAt.None?
  }

  datatype Stage =
    | LookedUp
    | Created(device: DeviceId)
    | Spent(device: DeviceId, at: int)
    | Lost(device: DeviceId)
    | Registered(device: DeviceId)
    | CancelAsked
    | CancelPending(at: int)
    | Done

  /** One request on the server. A registration by an admin key carries no token. */
  datatype Proc = Proc(token: Option<TokenId>, stage: Stage)

  /** Committed rows, running requests, and the row locks they hold. `devices` records, for
      each committed device row, the token whose registration produced it. */
  datatype World = World(
    now: int,
    tokens: map<TokenId, Token>,
    devices: map<DeviceId, Option<TokenId>>,
    procs: map<Pid, Proc>,
    locks: map<TokenId, Pid>)

  const EMPTY: World := World(0, map[], map[], map[], map[])

  datatype Event =
    | Tick(now: int)
    | Issue(token: TokenId, expiresAt: int)
    | LookUp(p: Pid, code: Option<TokenId>)
    | Create(p: Pid, device: DeviceId)
    | Consume(p: Pid)
    | CommitRegistration(p: Pid)
    | AskCancel(p: Pid, token: TokenId)
    | Cancel(p: Pid)
    | CommitCancel(p: Pid)
    | RollBack(p: Pid)

  function DeviceOf(s: Stage): Option<DeviceId> {
    match s
    case Created(d) => Some(d)
    case Spent(d, _) => Some(d)
    case Lost(d) => Some(d)
    case Registered(d) => Some(d)
    case _ => None
  }

  ghost predicate Free(w: World, d: DeviceId) {
    d !in w.devices && forall p | p in w.procs :: DeviceOf(w.procs[p].stage) != Some(d)
  }

  ghost predicate Enabled(w: World, e: Event) {
    match e
    case Tick(now) => now >= w.now
    case Issue(token, _) => token !in w.tokens
    case LookUp(p, token) =>
      p !in w.procs && (token.Some? ==> token.value in w.tokens && StatusAt(w.tokens[token.value], w.now) == Pending)
    case Create(p, device) => p in w.procs && w.procs[p].stage == LookedUp && Free(w, device)
    case Consume(p) =>
      p in w.procs && w.procs[p].stage.Created? && w.procs[p].token.Some?
      && w.procs[p].token.value in w.tokens && w.procs[p].token.value !in w.locks
    case CommitRegistration(p) =>
      p in w.procs && (w.procs[p].stage.Spent? || (w.procs[p].stage.Created? && w.procs[p].token.None?))
      && (w.procs[p].token.Some? ==> w.procs[p].token.value in w.tokens)
    case AskCancel(p, token) => p !in w.procs && token in w.tokens
    case Cancel(p) =>
      p in w.procs && w.procs[p].stage == CancelAsked && w.procs[p].token.Some?
      && w.procs[p].token.value in w.tokens && w.procs[p].token.value !in w.locks
    case CommitCancel(p) =>
      p in w.procs && w.procs[p].stage.CancelPending? && w.procs[p].token.Some? && w.procs[p].token.value in w.tokens
    case RollBack(p) => p in w.procs && !w.procs[p].stage.Registered?
  }

  function At(w: World, p: Pid, token: Option<TokenId>, s: Stage): World {
    w.(procs := w.procs[p := Proc(token, s)])
  }

  function Unlocked(w: World, p: Pid): map<TokenId, Pid> {
    map t | t in w.locks && w.locks[t] != p :: w.locks[t]
  }

  function Next(w: World, e: Event): World
    requires Enabled(w, e)
  {
    match e
    case Tick(now) => w.(now := now)
    case Issue(token, expiresAt) => w.(tokens := w.tokens[token := Token(expiresAt, None, None, None)])
    case LookUp(p, token) => At(w, p, token, LookedUp)
    case Create(p, device) => At(w, p, w.procs[p].token, Created(device))
    case Consume(p) =>
      var token, device := w.procs[p].token.value, w.procs[p].stage.device;
      if Spendable(w.tokens[token], w.now)
      then At(w, p, Some(token), Spent(device, w.now)).(locks := w.locks[token := p])
      else At(w, p, Some(token), Lost(device))
    case CommitRegistration(p) =>
      var proc := w.procs[p];
      var done := At(w, p, proc.token, Registered(proc.stage.device));
      if proc.token.None? then done.(devices := w.devices[proc.stage.device := None])
      else
        var used := w.tokens[proc.token.value].(usedAt := Some(proc.stage.at), usedBy := Some(proc.stage.device));
        done.(devices := w.devices[proc.stage.device := proc.token], locks := Unlocked(w, p),
              tokens := w.tokens[proc.token.value := used])
    case AskCancel(p, token) => At(w, p, Some(token), CancelAsked)
    case Cancel(p) =>
      var token := w.procs[p].token.value;
      if Cancellable(w.tokens[token])
      then At(w, p, Some(token), CancelPending(w.now)).(locks := w.locks[token := p])
      else At(w, p, Some(token), Done)
    case CommitCancel(p) =>
      var token := w.procs[p].token.value;
      At(w, p, Some(token), Done).(locks := Unlocked(w, p),
        tokens := w.tokens[token := w.tokens[token].(cancelledAt := Some(w.procs[p].stage.at))])
    case RollBack(p) =>
      At(w, p, w.procs[p].token,
        if DeviceOf(w.procs[p].stage).Some? then Lost(DeviceOf(w.procs[p].stage).value) else Done)
        .(locks := Unlocked(w, p))
  }

  ghost predicate Legal(events: seq<Event>)
    decreases |events|, 0
  {
    events == []
    || (Legal(events[..|events| - 1]) && Enabled(After(events[..|events| - 1]), events[|events| - 1]))
  }

  ghost function After(events: seq<Event>): World
    requires Legal(events)
    decreases |events|, 1
  {
    if events == [] then EMPTY else Next(After(events[..|events| - 1]), events[|events| - 1])
  }

  // ---- what every step keeps ----

  predicate Holds(s: Stage) {
    s.Spent? || s.CancelPending?
  }

  /** Exactly the requests between UPDATE and commit hold a lock, each on its own token. */
  ghost predicate LocksMatch(w: World) {
    && (forall t | t in w.locks ::
          w.locks[t] in w.procs && w.procs[w.locks[t]].token == Some(t) && Holds(w.procs[w.locks[t]].stage))
    && (forall p | p in w.procs && Holds(w.procs[p].stage) ::
          w.procs[p].token.Some? && w.procs[p].token.value in w.locks && w.locks[w.procs[p].token.value] == p)
  }

  /** A locked token is still as the UPDATE found it. */
  ghost predicate LockedUntouched(w: World) {
    forall t | t in w.locks && w.locks[t] in w.procs ::
      && t in w.tokens && w.tokens[t].usedAt.None?
      && (w.procs[w.locks[t]].stage.Spent? ==> w.tokens[t].cancelledAt.None?)
  }

  ghost predicate NeverBoth(t: Token) {
    && !(t.usedAt.Some? && t.cancelledAt.Some?)
    && (t.usedAt.Some? <==> t.usedBy.Some?)
  }

  /** A token names a device exactly when that device row names the token. */
  ghost predicate Attributed(w: World) {
    && (forall t | t in w.tokens && w.tokens[t].usedBy.Some? ::
          w.tokens[t].usedBy.value in w.devices && w.devices[w.tokens[t].usedBy.value] == Some(t))
    && (forall d | d in w.devices && w.devices[d].Some? ::
          w.devices[d].value in w.tokens && w.tokens[w.devices[d].value].usedBy == Some(d))
  }

  /** Each device id belongs to one request, and is a row exactly when that request committed. */
  ghost predicate DevicesOwned(w: World) {
    && (forall p, q | p in w.procs && q in w.procs && p != q && DeviceOf(w.procs[p].stage).Some? ::
          DeviceOf(w.procs[p].stage) != DeviceOf(w.procs[q].stage))
    && (forall p | p in w.procs && DeviceOf(w.procs[p].stage).Some? ::
          DeviceOf(w.procs[p].stage).value in w.devices <==> w.procs[p].stage.Registered?)
  }

  ghost predicate Inv(w: World) {
    && LocksMatch(w)
    && LockedUntouched(w)
    && (forall t | t in w.tokens :: NeverBoth(w.tokens[t]))
    && Attributed(w)
    && DevicesOwned(w)
  }

  /** Ownership survives a request changing stage, short of committing a device. */
  lemma OwnedStill(w: World, after: World, p: Pid, proc: Proc)
    requires DevicesOwned(w) && after.devices == w.devices && after.procs == w.procs[p := proc]
    requires !proc.stage.Registered? && (p in w.procs ==> !w.procs[p].stage.Registered?)
    requires DeviceOf(proc.stage).Some? ==>
               Free(w, DeviceOf(proc.stage).value)
                 || (p in w.procs && DeviceOf(w.procs[p].stage) == DeviceOf(proc.stage))
    ensures DevicesOwned(after)
  {
  }

  lemma OwnedCommitted(w: World, after: World, p: Pid, device: DeviceId, token: Option<TokenId>)
    requires DevicesOwned(w) && p in w.procs && DeviceOf(w.procs[p].stage) == Some(device)
    requires after.devices == w.devices[device := token]
    requires after.procs == w.procs[p := Proc(token, Registered(device))]
    ensures DevicesOwned(after)
  {
  }

  lemma LocksStill(w: World, after: World, p: Pid, proc: Proc)
    requires LocksMatch(w) && after.locks == w.locks && after.procs == w.procs[p := proc]
    requires !Holds(proc.stage) && (p in w.procs ==> !Holds(w.procs[p].stage))
    ensures LocksMatch(after)
  {
  }

  lemma LocksTaken(w: World, after: World, p: Pid, token: TokenId, s: Stage)
    requires LocksMatch(w) && after.locks == w.locks[token := p] && after.procs == w.procs[p := Proc(Some(token), s)]
    requires Holds(s) && token !in w.locks && p in w.procs && !Holds(w.procs[p].stage)
    ensures LocksMatch(after)
  {
  }

  lemma LocksReleased(w: World, after: World, p: Pid, proc: Proc)
    requires LocksMatch(w) && after.locks == Unlocked(w, p) && after.procs == w.procs[p := proc]
    requires !Holds(proc.stage) && p in w.procs
    ensures LocksMatch(after)
  {
  }

  /** Other requests' locks keep their tokens untouched, whatever happens to one token. */
  lemma UntouchedStill(w: World, after: World, p: Pid, proc: Proc)
    requires LocksMatch(w) && LockedUntouched(w) && after.procs == w.procs[p := proc]
    requires forall t | t in after.locks :: t in w.locks && after.locks[t] == w.locks[t] != p
    requires forall t | t in after.locks :: t in w.tokens && t in after.tokens && after.tokens[t] == w.tokens[t]
    ensures LockedUntouched(after)
  {
  }

  lemma UntouchedTaken(w: World, after: World, p: Pid, token: TokenId, s: Stage)
    requires LocksMatch(w) && LockedUntouched(w) && after.tokens == w.tokens
    requires after.locks == w.locks[token := p] && after.procs == w.procs[p := Proc(Some(token), s)]
    requires p in w.procs && !Holds(w.procs[p].stage)
    requires token in w.tokens && w.tokens[token].usedAt.None? && (s.Spent? ==> w.tokens[token].cancelledAt.None?)
    ensures LockedUntouched(after)
  {
    assert forall t | t in w.locks :: w.locks[t] != p;
  }

  /** A lock holder's own token is the only one its transaction can change. */
  lemma HolderAlone(w: World, p: Pid)
    requires LocksMatch(w) && p in w.procs
    ensures forall t | t in Unlocked(w, p) :: w.procs[p].token == Some(t) ==> !Holds(w.procs[p].stage)
    ensures !Holds(w.procs[p].stage) ==> forall t | t in w.locks :: w.locks[t] != p
  {
  }

  /** A request that moves to another stage without touching rows or locks. */
  lemma StageChange(w: World, p: Pid, token: Option<TokenId>, s: Stage)
    requires Inv(w) && !Holds(s) && !s.Registered?
    requires p in w.procs ==> !Holds(w.procs[p].stage) && !w.procs[p].stage.Registered?
    requires DeviceOf(s).Some? ==>
               Free(w, DeviceOf(s).value) || (p in w.procs && DeviceOf(w.procs[p].stage) == DeviceOf(s))
    ensures Inv(At(w, p, token, s))
  {
    var after := At(w, p, token, s);
    LocksStill(w, after, p, Proc(token, s));
    OwnedStill(w, after, p, Proc(token, s));
    assert LockedUntouched(after) by {
      NoLockOfOthers(w, p);
      UntouchedStill(w, after, p, Proc(token, s));
    }
    hide LocksMatch, LockedUntouched, DevicesOwned;
  }

  lemma NoLockOfOthers(w: World, p: Pid)
    requires LocksMatch(w) && LockedUntouched(w) && (p in w.procs ==> !Holds(w.procs[p].stage))
    ensures forall t | t in w.locks :: w.locks[t] != p && t in w.tokens
  {
  }

  /** A request that takes the lock of a token nobody holds. */
  lemma LockTaken(w: World, p: Pid, token: TokenId, s: Stage)
    requires Inv(w) && p in w.procs && !Holds(w.procs[p].stage) && !w.procs[p].stage.Registered?
    requires Holds(s) && token in w.tokens && token !in w.locks && DeviceOf(s) == DeviceOf(w.procs[p].stage)
    requires w.tokens[token].usedAt.None? && (s.Spent? ==> w.tokens[token].cancelledAt.None?)
    ensures Inv(At(w, p, Some(token), s).(locks := w.locks[token := p]))
  {
    hide LocksMatch, LockedUntouched, DevicesOwned, Attributed;
    var after := At(w, p, Some(token), s).(locks := w.locks[token := p]);
    LocksTaken(w, after, p, token, s);
    OwnedStill(w, after, p, Proc(Some(token), s));
    UntouchedTaken(w, after, p, token, s);
    SameRows(w, after);
  }

  lemma SameRows(w: World, after: World)
    requires Attributed(w) && after.tokens == w.tokens && after.devices == w.devices
    ensures Attributed(after)
  {
  }

  /** Rolling back gives up the lock and leaves no trace in the rows. */
  lemma RollBackKeeps(w: World, p: Pid)
    requires Inv(w) && Enabled(w, RollBack(p))
    ensures Inv(Next(w, RollBack(p)))
  {
    var after := Next(w, RollBack(p));
    var proc := after.procs[p];
    OthersUntouched(w, p);
    hide LocksMatch, LockedUntouched, DevicesOwned, Attributed;
    LocksReleased(w, after, p, proc);
    OwnedStill(w, after, p, proc);
    UntouchedStill(w, after, p, proc);
    SameRows(w, after);
  }

  lemma OthersUntouched(w: World, p: Pid)
    requires LocksMatch(w) && LockedUntouched(w) && p in w.procs
    ensures forall t | t in Unlocked(w, p) :: t in w.locks && Unlocked(w, p)[t] == w.locks[t] != p && t in w.tokens
    ensures Holds(w.procs[p].stage) ==> w.procs[p].token.Some? && w.procs[p].token.value !in Unlocked(w, p)
  {
  }

  lemma AttributedCommitted(w: World, after: World, token: TokenId, device: DeviceId, at: int)
    requires Attributed(w) && token in w.tokens && w.tokens[token].usedBy.None? && device !in w.devices
    requires after.tokens == w.tokens[token := w.tokens[token].(usedAt := Some(at), usedBy := Some(device))]
    requires after.devices == w.devices[device := Some(token)]
    ensures Attributed(after)
  {
  }

  lemma AttributedUnspent(w: World, after: World, device: DeviceId)
    requires Attributed(w) && device !in w.devices
    requires after.tokens == w.tokens && after.devices == w.devices[device := None]
    ensures Attributed(after)
  {
  }

  lemma CommitWithTokenKeeps(w: World, p: Pid)
    requires Inv(w) && Enabled(w, CommitRegistration(p)) && w.procs[p].token.Some?
    ensures Inv(Next(w, CommitRegistration(p)))
  {
    var after, proc := Next(w, CommitRegistration(p)), w.procs[p];
    NotYetARow(w, p);
    OthersUntouched(w, p);
    HolderToken(w, p);
    hide LocksMatch, LockedUntouched, DevicesOwned, Attributed;
    OwnedCommitted(w, after, p, proc.stage.device, proc.token);
    LocksReleased(w, after, p, after.procs[p]);
    AttributedCommitted(w, after, proc.token.value, proc.stage.device, proc.stage.at);
    UntouchedStill(w, after, p, after.procs[p]);
  }

  lemma CommitWithoutTokenKeeps(w: World, p: Pid)
    requires Inv(w) && Enabled(w, CommitRegistration(p)) && w.procs[p].token.None?
    ensures Inv(Next(w, CommitRegistration(p)))
  {
    var after, proc := Next(w, CommitRegistration(p)), w.procs[p];
    NotYetARow(w, p);
    HolderAlone(w, p);
    NoLockOfOthers(w, p);
    hide LocksMatch, LockedUntouched, DevicesOwned, Attributed;
    OwnedCommitted(w, after, p, proc.stage.device, proc.token);
    LocksStill(w, after, p, after.procs[p]);
    AttributedUnspent(w, after, proc.stage.device);
    UntouchedStill(w, after, p, after.procs[p]);
  }

  lemma NotYetARow(w: World, p: Pid)
    requires Inv(w) && Enabled(w, CommitRegistration(p))
    ensures w.procs[p].stage.device !in w.devices
    ensures w.procs[p].token.None? ==> !Holds(w.procs[p].stage)
    ensures w.procs[p].token.Some? ==> Holds(w.procs[p].stage)
  {
    assert DeviceOf(w.procs[p].stage) == Some(w.procs[p].stage.device);
  }

  /** At commit the token is as the UPDATE left it: nobody used or cancelled it meanwhile. */
  lemma HolderToken(w: World, p: Pid)
    requires Inv(w) && p in w.procs && Holds(w.procs[p].stage)
    ensures w.procs[p].token.Some? && w.procs[p].token.value in w.tokens
    ensures w.tokens[w.procs[p].token.value].usedAt.None? && w.tokens[w.procs[p].token.value].usedBy.None?
    ensures w.procs[p].stage.Spent? ==> w.tokens[w.procs[p].token.value].cancelledAt.None?
  {
    hide DevicesOwned, Attributed;
    assert NeverBoth(w.tokens[w.procs[p].token.value]);
  }

  lemma CommitCancelKeeps(w: World, p: Pid)
    requires Inv(w) && Enabled(w, CommitCancel(p))
    ensures Inv(Next(w, CommitCancel(p)))
  {
    var after := Next(w, CommitCancel(p));
    OthersUntouched(w, p);
    HolderToken(w, p);
    hide LocksMatch, LockedUntouched, DevicesOwned, Attributed;
    LocksReleased(w, after, p, after.procs[p]);
    OwnedStill(w, after, p, after.procs[p]);
    UntouchedStill(w, after, p, after.procs[p]);
    AttributedCancelled(w, after);
  }

  lemma AttributedCancelled(w: World, after: World)
    requires Attributed(w) && after.devices == w.devices && after.tokens.Keys == w.tokens.Keys
    requires forall t | t in w.tokens :: after.tokens[t].usedBy == w.tokens[t].usedBy
    ensures Attributed(after)
  {
  }

  lemma IssueKeeps(w: World, token: TokenId, expiresAt: int)
    requires Inv(w) && token !in w.tokens
    ensures Inv(Next(w, Issue(token, expiresAt)))
  {
  }

  lemma ConsumeKeeps(w: World, p: Pid)
    requires Inv(w) && Enabled(w, Consume(p))
    ensures Inv(Next(w, Consume(p)))
  {
    hide Inv;
    var token, device := w.procs[p].token.value, w.procs[p].stage.device;
    if Spendable(w.tokens[token], w.now) {
      LockTaken(w, p, token, Spent(device, w.now));
    } else {
      StageChange(w, p, Some(token), Lost(device));
    }
  }

  lemma CancelKeeps(w: World, p: Pid)
    requires Inv(w) && Enabled(w, Cancel(p))
    ensures Inv(Next(w, Cancel(p)))
  {
    hide Inv;
    var token := w.procs[p].token.value;
    if Cancellable(w.tokens[token]) {
      LockTaken(w, p, token, CancelPending(w.now));
    } else {
      StageChange(w, p, Some(token), Done);
    }
  }

  lemma TickKeeps(w: World, now: int)
    requires Inv(w)
    ensures Inv(w.(now := now))
  {
  }

  lemma StepKeeps(w: World, e: Event)
    requires Inv(w) && Enabled(w, e)
    ensures Inv(Next(w, e))
  {
    hide Inv;
    match e
    case Tick(now) => TickKeeps(w, now);
    case Issue(token, expiresAt) => IssueKeeps(w, token, expiresAt);
    case LookUp(p, code) => StageChange(w, p, code, LookedUp);
    case Create(p, device) => StageChange(w, p, w.procs[p].token, Created(device));
    case Consume(p) => ConsumeKeeps(w, p);
    case CommitRegistration(p) =>
      if w.procs[p].token.Some? {
        CommitWithTokenKeeps(w, p);
      } else {
        CommitWithoutTokenKeeps(w, p);
      }
    case AskCancel(p, token) => StageChange(w, p, Some(token), CancelAsked);
    case Cancel(p) => CancelKeeps(w, p);
    case CommitCancel(p) => CommitCancelKeeps(w, p);
    case RollBack(p) => RollBackKeeps(w, p);
  }

  lemma {:induction false} EveryRunKeeps(events: seq<Event>)
    requires Legal(events)
    ensures Inv(After(events))
  {
    hide Inv, Next, Enabled;
    if events == [] {
      EmptyIsFine();
    } else {
      EveryRunKeeps(events[..|events| - 1]);
      StepKeeps(After(events[..|events| - 1]), events[|events| - 1]);
    }
  }

  lemma EmptyIsFine()
    ensures Inv(EMPTY)
  {
  }

  /** Enrolment is single-use, whatever races: in every run each token yields at most one
      committed device and names exactly that one, is never both used and cancelled, and a
      registration that lost leaves no device row. */
  lemma SingleUse(events: seq<Event>)
    requires Legal(events)
    ensures var w := After(events);
            && (forall d, e | d in w.devices && e in w.devices && w.devices[d].Some? && w.devices[d] == w.devices[e] ::
                  d == e)
            && (forall t | t in w.tokens :: !(w.tokens[t].usedAt.Some? && w.tokens[t].cancelledAt.Some?))
            && (forall t, d | t in w.tokens ::
                  w.tokens[t].usedBy == Some(d) <==> d in w.devices && w.devices[d] == Some(t))
            && (forall p | p in w.procs && w.procs[p].stage.Lost? :: w.procs[p].stage.device !in w.devices)
  {
    EveryRunKeeps(events);
    hide After, Legal;
    var w := After(events);
    assert Inv(w);
    forall t, d | t in w.tokens && d in w.devices && w.devices[d] == Some(t)
      ensures w.tokens[t].usedBy == Some(d)
    {
      assert w.devices[d].Some?;
    }
  }

  /** No token was used at or after the moment it expired. */
  ghost predicate UsedInTime(w: World) {
    forall t | t in w.tokens && w.tokens[t].usedAt.Some? :: w.tokens[t].usedAt.value < w.tokens[t].expiresAt
  }

  /** And none is about to be. */
  ghost predicate SpendingInTime(w: World) {
    forall p | p in w.procs && w.procs[p].stage.Spent? ::
      && w.procs[p].token.Some? && w.procs[p].token.value in w.tokens
      && w.procs[p].stage.at < w.tokens[w.procs[p].token.value].expiresAt
  }

  ghost predicate InTime(w: World) {
    UsedInTime(w) && SpendingInTime(w)
  }

  /** Only a commit uses a token, and it stamps the moment of the UPDATE. */
  lemma StepUsesInTime(w: World, e: Event)
    requires InTime(w) && Enabled(w, e)
    ensures UsedInTime(Next(w, e))
  {
    hide Free, Unlocked, Holds;
  }

  lemma TokensKeepExpiry(w: World, e: Event)
    requires Enabled(w, e)
    ensures forall t | t in w.tokens ::
              t in Next(w, e).tokens && Next(w, e).tokens[t].expiresAt == w.tokens[t].expiresAt
  {
    hide Free, Unlocked;
  }

  /** Only an UPDATE of a code that has not expired starts spending it. */
  lemma StepSpendsInTime(w: World, e: Event)
    requires SpendingInTime(w) && Enabled(w, e)
    ensures SpendingInTime(Next(w, e))
  {
    TokensKeepExpiry(w, e);
    hide Free, Unlocked, StatusAt;
    forall p | p in Next(w, e).procs && Next(w, e).procs[p].stage.Spent?
      ensures p in w.procs && (w.procs[p] == Next(w, e).procs[p] || e == Consume(p))
    {
    }
  }

  lemma {:induction false} EveryRunIsInTime(events: seq<Event>)
    requires Legal(events)
    ensures InTime(After(events))
  {
    hide UsedInTime, SpendingInTime, Next, Enabled;
    if events == [] {
      EmptyIsInTime();
    } else {
      EveryRunIsInTime(events[..|events| - 1]);
      StepUsesInTime(After(events[..|events| - 1]), events[|events| - 1]);
      StepSpendsInTime(After(events[..|events| - 1]), events[|events| - 1]);
    }
  }

  lemma EmptyIsInTime()
    ensures InTime(EMPTY)
  {
  }

  /** However long a registration takes between its look-up and its UPDATE, no device row comes
      of a code that had expired, or been cancelled, when it was spent. */
  lemma SpentInTime(events: seq<Event>, d: DeviceId)
    requires Legal(events) && d in After(events).devices && After(events).devices[d].Some?
    ensures var (w, t) := (After(events), After(events).devices[d].value);
            && t in w.tokens && w.tokens[t].usedBy == Some(d) && w.tokens[t].cancelledAt == None
            && w.tokens[t].usedAt.Some? && w.tokens[t].usedAt.value < w.tokens[t].expiresAt
  {
    EveryRunIsInTime(events);
    EveryRunKeeps(events);
    hide After, Legal;
    var (w, t) := (After(events), After(events).devices[d].value);
    assert Attributed(w) && NeverBoth(w.tokens[t]);
  }

  /** A code is let past the door exactly when it is on record, unused, not cancelled and not
      expired; an administrator's key needs none. */
  lemma LookUpExactly(w: World, p: Pid, code: Option<TokenId>)
    ensures Enabled(w, LookUp(p, code)) <==>
              && p !in w.procs
              && (code.Some? ==>
                    && code.value in w.tokens && w.tokens[code.value].usedAt == None
                    && w.tokens[code.value].cancelledAt == None && w.now < w.tokens[code.value].expiresAt)
  {
  }

  // ---- what can happen ----

  lemma OneStep(events: seq<Event>, e: Event)
    requires Legal(events) && Enabled(After(events), e)
    ensures Legal(events + [e]) && After(events + [e]) == Next(After(events), e)
  {
    assert (events + [e])[..|events|] == events;
  }

  lemma FreshDevice(w: World) returns (d: DeviceId)
    ensures Free(w, d)
  {
    var taken := w.devices.Keys
      + set p | p in w.procs && DeviceOf(w.procs[p].stage).Some? :: DeviceOf(w.procs[p].stage).value;
    d := UnusedNumber(taken);
    forall p | p in w.procs
      ensures DeviceOf(w.procs[p].stage) != Some(d)
    {
      if DeviceOf(w.procs[p].stage).Some? {
        assert DeviceOf(w.procs[p].stage).value in taken;
      }
    }
  }

  /** From any reachable state a code that is unused, not cancelled, not expired and not locked
      enrols a device: some run ends with one more row, the code's own, and the code used by it
      at that moment. An administrator's key does the same without a code. */
  lemma PendingCodeEnrols(events: seq<Event>, code: Option<TokenId>) returns (run: seq<Event>, d: DeviceId)
    requires Legal(events)
    requires code.Some? ==>
               && code.value in After(events).tokens && code.value !in After(events).locks
               && After(events).tokens[code.value].usedAt == None
               && After(events).tokens[code.value].cancelledAt == None
               && After(events).now < After(events).tokens[code.value].expiresAt
    ensures events <= run && Legal(run) && d !in After(events).devices
    ensures After(run).devices == After(events).devices[d := code]
    ensures After(run).tokens
         == if code.None? then After(events).tokens
            else After(events).tokens[code.value := Token(After(events).tokens[code.value].expiresAt,
                                                          Some(After(events).now), None, Some(d))]
  {
    EveryRunKeeps(events);
    var w := After(events);
    var p := UnusedNumber(w.procs.Keys);
    d := FreshDevice(w);
    assert code.Some? ==> NeverBoth(w.tokens[code.value]);
    hide Legal, After;
    OneStep(events, LookUp(p, code));
    OneStep(events + [LookUp(p, code)], Create(p, d));
    run := events + [LookUp(p, code)] + [Create(p, d)];
    if code.Some? {
      OneStep(run, Consume(p));
      run := run + [Consume(p)];
    }
    OneStep(run, CommitRegistration(p));
    run := run + [CommitRegistration(p)];
  }

  /** And one that is unused and not locked can be cancelled, expired or not. */
  lemma UnusedCodeCancels(events: seq<Event>, code: TokenId) returns (run: seq<Event>)
    requires Legal(events) && code in After(events).tokens && code !in After(events).locks
    requires After(events).tokens[code].usedAt == None
    ensures events <= run && Legal(run) && After(run).devices == After(events).devices
    ensures After(run).tokens
         == After(events).tokens[code := After(events).tokens[code].(cancelledAt := Some(After(events).now))]
  {
    var p := UnusedNumber(After(events).procs.Keys);
    hide Legal, After;
    OneStep(events, AskCancel(p, code));
    OneStep(events + [AskCancel(p, code)], Cancel(p));
    OneStep(events + [AskCancel(p, code)] + [Cancel(p)], CommitCancel(p));
    run := events + [AskCancel(p, code)] + [Cancel(p)] + [CommitCancel(p)];
  }

  /** A code is issued unused, and time only passes: any later moment can be the next. */
  lemma IssuingAndTime(w: World, code: TokenId, expiresAt: int, now: int)
    ensures Enabled(w, Issue(code, expiresAt)) <==> code !in w.tokens
    ensures Enabled(w, Issue(code, expiresAt)) ==>
              Next(w, Issue(code, expiresAt)) == w.(tokens := w.tokens[code := Token(expiresAt, None, None, None)])
    ensures Enabled(w, Tick(now)) <==> w.now <= now
    ensures Enabled(w, Tick(now)) ==> Next(w, Tick(now)) == w.(now := now)
  {
  }

  /** A request that dies lets go of its lock, leaves the rows as they were, and its device never
      becomes one. */
  lemma RollBackLeavesNothing(w: World, p: Pid)
    requires Inv(w) && p in w.procs && !w.procs[p].stage.Registered?
    ensures Enabled(w, RollBack(p))
    ensures var after := Next(w, RollBack(p));
            && after.tokens == w.tokens && after.devices == w.devices
            && (forall t | t in w.locks :: t in after.locks <==> w.locks[t] != p)
            && (after.procs[p].stage.Lost? || after.procs[p].stage.Done?)
            && (DeviceOf(w.procs[p].stage).Some? ==> after.procs[p].stage == Lost(DeviceOf(w.procs[p].stage).value))
  {
  }

  /** The check made when a code is presented and the one made when it is spent agree: a
      code is reported pending exactly when spending it at that moment would succeed. */
  lemma PendingMeansSpendable(t: Token, now: int)
    ensures StatusAt(t, now) == Pending <==> Spendable(t, now)
  {
  }

  /** Two registrations that looked the same code up while it was pending: whoever reaches
      the UPDATE second, after the first committed, loses and leaves no device row. */
  lemma SecondRegistrationLoses(w: World, p: Pid, q: Pid)
    requires Inv(w) && p != q && Enabled(w, CommitRegistration(p)) && w.procs[p].token.Some?
    requires q in w.procs && w.procs[q].stage.Created? && w.procs[q].token == w.procs[p].token
    ensures var committed := Next(w, CommitRegistration(p));
            && Enabled(committed, Consume(q))
            && Next(committed, Consume(q)).procs[q].stage.Lost?
            && w.procs[q].stage.device !in Next(committed, Consume(q)).devices
  {
  }

  // ---- the two statements, run on their own ----

  function Consumed(tokens: map<TokenId, Token>, id: TokenId, device: DeviceId, now: int): map<TokenId, Token> {
    if id in tokens && Spendable(tokens[id], now)
    then tokens[id := tokens[id].(usedAt := Some(now), usedBy := Some(device))] else tokens
  }

  function CancelledAt(tokens: map<TokenId, Token>, id: TokenId, now: int): map<TokenId, Token> {
    if id in tokens && Cancellable(tokens[id]) then tokens[id := tokens[id].(cancelledAt := Some(now))] else tokens
  }

  class EnrolmentRepository {
    var tokens: map<TokenId, Token>

    constructor ()
      ensures tokens == map[]
    {
      tokens := map[];
    }

    method Consume(id: TokenId, device: DeviceId, now: int) returns (spent: bool)
      modifies this
      ensures tokens == Consumed(old(tokens), id, device, now)
      ensures spent <==>
                && id in old(tokens) && old(tokens)[id].usedAt == None && old(tokens)[id].cancelledAt == None
                && now < old(tokens)[id].expiresAt
      ensures tokens == if spent then old(tokens)[id := Token(old(tokens)[id].expiresAt, Some(now), None, Some(device))]
                        else old(tokens)
      ensures spent <==> id in old(tokens) && StatusAt(old(tokens)[id], now) == Pending
      ensures id in tokens ==> StatusAt(tokens[id], now) != Pending
    {
      spent := id in tokens && Spendable(tokens[id], now);
      if spent {
        tokens := tokens[id := tokens[id].(usedAt := Some(now), usedBy := Some(device))];
      }
    }

    method Cancel(id: TokenId, now: int) returns (cancelled: bool)
      modifies this
      ensures tokens == CancelledAt(old(tokens), id, now)
      ensures cancelled <==> id in old(tokens) && old(tokens)[id].usedAt == None
      ensures tokens == if cancelled then old(tokens)[id := old(tokens)[id].(cancelledAt := Some(now))] else old(tokens)
      ensures cancelled <==> id in old(tokens) && StatusAt(old(tokens)[id], now) != Used
      ensures id in tokens ==> StatusAt(tokens[id], now) != Pending
    {
      cancelled := id in tokens && Cancellable(tokens[id]);
      if cancelled {
        tokens := tokens[id := tokens[id].(cancelledAt := Some(now))];
      }
    }
  }

  /** A registration that nothing interrupts between its UPDATE and its commit changes the
      tokens as the one statement does. */
  lemma UninterruptedConsume(w: World, p: Pid)
    requires Enabled(w, Consume(p))
    ensures var spent := Next(w, Consume(p));
            var after := Consumed(w.tokens, w.procs[p].token.value, w.procs[p].stage.device, w.now);
            if spent.procs[p].stage.Lost? then spent.tokens == after == w.tokens
            else Enabled(spent, CommitRegistration(p)) && Next(spent, CommitRegistration(p)).tokens == after
                 && Next(spent, CommitRegistration(p)).devices
                    == w.devices[w.procs[p].stage.device := w.procs[p].token]
  {
  }

  /** So does a cancellation. */
  lemma UninterruptedCancel(w: World, p: Pid)
    requires Enabled(w, Cancel(p))
    ensures var asked := Next(w, Cancel(p));
            var after := CancelledAt(w.tokens, w.procs[p].token.value, w.now);
            if asked.procs[p].stage.Done? then asked.tokens == after == w.tokens
            else Enabled(asked, CommitCancel(p)) && Next(asked, CommitCancel(p)).tokens == after
  {
  }
}
