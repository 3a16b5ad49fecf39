/** The off switch: a device an administrator has turned off stays off (resolve_principal in
    deps.py, DeviceRepository in repositories.py, ensureRegistered and handleHttpError in
    TsunagiRepository.kt).

    The phone drops its token on a 401 and never on a 403, and a pass that finds no token
    registers, so the switch holds only if the server never answers 401 to a token the phone
    was given and nothing else leads to a second registration. Requests are split into the steps at
    which they interleave; the phone may run several passes at once. */
module OffSwitch {
  import opened Wrappers

  type Token = nat
  type Req = nat

  datatype Device = Device(disabledAt: Option<int>, revokedAt: Option<int>)

  predicate Active(d: Device) {
    d.disabledAt.None? && d.revokedAt.None?
  }

  /** resolve_principal, for a device token. */
  function Resolve(devices: map<Token, Device>, token: Token): (status: Option<int>)
    ensures status.None? <==>
              token in devices && devices[token].disabledAt.None? && devices[token].revokedAt.None?
    ensures status == Some(403) <==>
              token in devices && (devices[token].disabledAt.Some? || devices[token].revokedAt.Some?)
    ensures status == Some(401) <==> token !in devices
  {
    if token !in devices then Some(401)
    else if !Active(devices[token]) then Some(403)
    else None
  }

  /** What a phone registers with: a shared setup key, good any number of times, or an
      enrolment code, good once. */
  datatype Credential = SetupKey | Code(spent: bool)

  /** A pass that found no device row goes on to register; a pass that holds a token sends
      requests with it. */
  datatype Request =
    | WillRegister
    | Registering
    | Issued(token: Token)
    | Finished
    | Sent(token: Token)
    | Authenticated(token: Token)
    | Answered(token: Token, status: int)

  /** `passes` are the passes that are running and the token each began with; a pass keeps it to
      its end, whatever the phone stores meanwhile. `held` records every token the phone has
      stored and `storedBy` every request that has stored messages. */
  datatype World = World(
    credential: Credential,
    devices: map<Token, Device>,
    phone: Option<Token>,
    requests: map<Req, Request>,
    passes: map<Req, Token>,
    held: set<Token>,
    storedBy: set<Req>)

  /** A phone with a credential and nothing else. */
  function Fresh(credential: Credential): World {
    World(credential, map[], None, map[], map[], {}, {})
  }

  datatype Event =
    | Decide(r: Req)
    | Post(r: Req)
    | Issue(r: Req, token: Token)
    | EndRegistration(r: Req)
    | KeepToken(r: Req)
    | Begin(p: Req)
    | End(p: Req)
    | Send(r: Req, p: Req)
    | Throttle(r: Req)
    | Authenticate(r: Req)
    | Store(r: Req)
    | Fail(r: Req, status: int)
    | ReadAnswer(r: Req)
    | SetEnabled(token: Token, enabled: bool, at: int)
    | Revoke(token: Token, at: int)

  predicate Enabled(w: World, e: Event) {
    match e
    case Decide(r) => w.phone.None? && r !in w.requests && r !in w.passes
    case Post(r) => r in w.requests && w.requests[r].WillRegister?
    case Issue(r, token) =>
      r in w.requests && w.requests[r].Registering? && token !in w.devices && w.credential != Code(true)
    case EndRegistration(r) => r in w.requests && (w.requests[r].Registering? || w.requests[r].Issued?)
    case KeepToken(r) => r in w.requests && w.requests[r].Issued?
    case Begin(p) => w.phone.Some? && p !in w.requests && p !in w.passes
    case End(p) => p in w.passes
    case Send(r, p) => p in w.passes && r !in w.requests && r !in w.passes
    case Throttle(r) => r in w.requests && w.requests[r].Sent?
    case Authenticate(r) => r in w.requests && w.requests[r].Sent?
    case Store(r) => r in w.requests && w.requests[r].Authenticated?
    case Fail(r, status) => r in w.requests && w.requests[r].Authenticated? && status != 401
    case ReadAnswer(r) => r in w.requests && w.requests[r].Answered?
    case SetEnabled(token, _, _) => token in w.devices && w.devices[token].revokedAt.None?
    case Revoke(token, _) => token in w.devices && w.devices[token].revokedAt.None?
  }

  function At(w: World, r: Req, q: Request): World {
    w.(requests := w.requests[r := q])
  }

  /** What the phone does with its stored token on this status (handleHttpError). */
  function TokenAfter(phone: Option<Token>, status: int): Option<Token> {
    if status == 401 then None else phone
  }

  function Next(w: World, e: Event): World
    requires Enabled(w, e)
  {
    match e
    case Decide(r) => At(w, r, WillRegister)
    case Post(r) => At(w, r, Registering)
    case Issue(r, token) =>
      At(w, r, Issued(token)).(devices := w.devices[token := Device(None, None)],
                               credential := if w.credential.Code? then Code(true) else SetupKey)
    case EndRegistration(r) => At(w, r, Finished)
    case KeepToken(r) =>
      At(w, r, Finished).(phone := Some(w.requests[r].token), held := w.held + {w.requests[r].token},
                          passes := w.passes[r := w.requests[r].token])
    case Begin(p) => w.(passes := w.passes[p := w.phone.value])
    case End(p) => w.(passes := w.passes - {p})
    case Send(r, p) => At(w, r, Sent(w.passes[p]))
    case Throttle(r) => At(w, r, Answered(w.requests[r].token, 429))
    case Authenticate(r) =>
      var token := w.requests[r].token;
      var refusal := Resolve(w.devices, token);
      At(w, r, if refusal.Some? then Answered(token, refusal.value) else Authenticated(token))
    case Store(r) => At(w, r, Answered(w.requests[r].token, 200)).(storedBy := w.storedBy + {r})
    case Fail(r, status) => At(w, r, Answered(w.requests[r].token, status))
    case ReadAnswer(r) => w.(phone := TokenAfter(w.phone, w.requests[r].status))
    case SetEnabled(token, enabled, at) =>
      w.(devices := w.devices[token := w.devices[token].(disabledAt := if enabled then None else Some(at))])
    case Revoke(token, at) =>
      w.(devices := w.devices[token := w.devices[token].(revokedAt := Some(at))])
  }

  /** An administrator can switch and revoke exactly the devices not revoked yet; either changes
      that one row, enabling clears the first stamp only, and nothing clears the second. */
  lemma SwitchesByStamps(w: World, token: Token, at: int)
    ensures Enabled(w, Revoke(token, at)) <==> token in w.devices && w.devices[token].revokedAt == None
    ensures forall enabled :: Enabled(w, SetEnabled(token, enabled, at)) <==> Enabled(w, Revoke(token, at))
    ensures Enabled(w, Revoke(token, at)) ==>
              && Next(w, Revoke(token, at))
                 == w.(devices := w.devices[token := Device(w.devices[token].disabledAt, Some(at))])
              && Next(w, SetEnabled(token, false, at)) == w.(devices := w.devices[token := Device(Some(at), None)])
              && Next(w, SetEnabled(token, true, at)) == w.(devices := w.devices[token := Device(None, None)])
  {
  }

  /** What becomes of a request that has been sent: 429 if it is throttled; else 401 without a
      row, 403 with a stamp on it, and otherwise it is let in; and once in, its messages are
      stored with a 200, or it fails some other way and nothing is stored. */
  lemma AnswersByCode(w: World, r: Req, token: Token)
    ensures r in w.requests && w.requests[r] == Sent(token) ==>
              && Enabled(w, Throttle(r)) && Next(w, Throttle(r)) == At(w, r, Answered(token, 429))
              && Enabled(w, Authenticate(r))
              && Next(w, Authenticate(r))
                 == At(w, r, if token !in w.devices then Answered(token, 401)
                             else if w.devices[token] == Device(None, None) then Authenticated(token)
                             else Answered(token, 403))
    ensures r in w.requests && w.requests[r] == Authenticated(token) ==>
              && Enabled(w, Store(r))
              && Next(w, Store(r)) == At(w, r, Answered(token, 200)).(storedBy := w.storedBy + {r})
              && forall status | status != 401 ::
                   Enabled(w, Fail(r, status)) && Next(w, Fail(r, status)) == At(w, r, Answered(token, status))
  {
  }

  /** What the phone makes of an answer: a 401 and nothing else costs it the token it has stored. */
  lemma TokenByAnswer(w: World, r: Req)
    requires r in w.requests && w.requests[r].Answered?
    ensures Enabled(w, ReadAnswer(r))
    ensures Next(w, ReadAnswer(r)).phone == if w.requests[r].status == 401 then None else w.phone
    ensures Next(w, ReadAnswer(r)).(phone := w.phone) == w
  {
  }

  /** A pass carries the token it began with until it ends, and sends under that one only. */
  lemma PassCarries(w: World, p: Req, r: Req)
    ensures Enabled(w, Begin(p)) ==> Next(w, Begin(p)).passes == w.passes[p := w.phone.value]
    ensures p in w.passes ==> Enabled(w, End(p)) && Next(w, End(p)).passes == w.passes - {p}
    ensures Enabled(w, Send(r, p)) ==> p in w.passes && Next(w, Send(r, p)) == At(w, r, Sent(w.passes[p]))
  {
  }

  ghost predicate Runs(w: World, events: seq<Event>)
    decreases |events|
  {
    events == [] || (Enabled(w, events[0]) && Runs(Next(w, events[0]), events[1..]))
  }

  ghost function After(w: World, events: seq<Event>): World
    requires Runs(w, events)
    decreases |events|
  {
    if events == [] then w else After(Next(w, events[0]), events[1..])
  }

  lemma RunStep(w: World, e: Event, rest: seq<Event>)
    requires Enabled(w, e) && Runs(Next(w, e), rest)
    ensures Runs(w, [e] + rest) && After(w, [e] + rest) == After(Next(w, e), rest)
  {
    assert ([e] + rest)[1..] == rest;
  }

  /** The phone holds one of the tokens it was ever given, if any, each of them a device row. */
  ghost predicate Holdings(w: World) {
    && w.held <= w.devices.Keys
    && (w.phone.Some? ==> w.phone.value in w.held)
    && (w.held != {} ==> w.phone.Some?)
    && (forall p | p in w.passes :: w.passes[p] in w.held)
    && (forall r | r in w.storedBy :: r in w.requests && w.requests[r].Answered?)
  }

  /** Requests use tokens the phone was given, no answer is a 401, and a token on its way to the
      phone is a device row of its own. */
  ghost predicate Requested(w: World) {
    && (forall r, q | r in w.requests && q in w.requests && r != q && w.requests[r].Issued? && w.requests[q].Issued? ::
          w.requests[r].token != w.requests[q].token)
    && forall r | r in w.requests ::
         match w.requests[r]
         case Issued(token) => token in w.devices && token !in w.held
         case Sent(token) => token in w.held
         case Authenticated(token) => token in w.held
         case Answered(token, status) => token in w.held && status != 401
         case _ => true
  }

  ghost predicate Inv(w: World) {
    Holdings(w) && Requested(w)
  }

  /** A code is spent by the one registration it is good for. */
  ghost predicate SpentOnce(w: World) {
    w.credential.Code? ==>
      && (!w.credential.spent ==> w.held == {} && forall r | r in w.requests :: !w.requests[r].Issued?)
      && (forall r | r in w.requests && w.requests[r].Issued? :: w.held == {})
      && (forall r, q | r in w.requests && q in w.requests && w.requests[r].Issued? && w.requests[q].Issued? :: r == q)
      && (forall a, b | a in w.held && b in w.held :: a == b)
  }

  lemma StepKeepsHoldings(w: World, e: Event)
    requires Inv(w) && Enabled(w, e)
    ensures Holdings(Next(w, e))
  {
  }

  lemma StepKeepsRequested(w: World, e: Event)
    requires Inv(w) && Enabled(w, e)
    ensures Requested(Next(w, e))
  {
    hide Active;
  }

  lemma StepKeeps(w: World, e: Event)
    requires Inv(w) && Enabled(w, e)
    ensures Inv(Next(w, e))
  {
    StepKeepsHoldings(w, e);
    StepKeepsRequested(w, e);
    hide Next, Enabled, Holdings, Requested;
  }

  lemma StepSpendsOnce(w: World, e: Event)
    requires SpentOnce(w) && Enabled(w, e)
    ensures SpentOnce(Next(w, e))
  {
  }

  lemma {:induction false} EveryRunKeeps(w: World, events: seq<Event>)
    requires Inv(w) && Runs(w, events)
    ensures Inv(After(w, events))
    ensures SpentOnce(w) ==> SpentOnce(After(w, events))
    decreases |events|
  {
    hide Inv, Next, Enabled, SpentOnce;
    if events != [] {
      StepKeeps(w, events[0]);
      if SpentOnce(w) {
        StepSpendsOnce(w, events[0]);
      }
      EveryRunKeeps(Next(w, events[0]), events[1..]);
    }
  }

  /** Once a phone has stored a token: it holds one in every later state, no request is ever
      answered 401, and no pass ever again finds it unregistered. */
  lemma NeverUnregistered(credential: Credential, events: seq<Event>, more: seq<Event>)
    requires Runs(Fresh(credential), events) && After(Fresh(credential), events).phone.Some?
    requires Runs(After(Fresh(credential), events), more)
    ensures After(After(Fresh(credential), events), more).phone.Some?
    ensures forall r, token | r in After(After(Fresh(credential), events), more).requests ::
              After(After(Fresh(credential), events), more).requests[r] != Answered(token, 401)
    ensures forall k | 0 <= k < |more| :: !more[k].Decide?
  {
    EveryRunKeeps(Fresh(credential), events);
    EveryRunKeeps(After(Fresh(credential), events), more);
    NoDecision(After(Fresh(credential), events), more);
    HeldGrows(After(Fresh(credential), events), more);
  }

  lemma {:induction false} HeldGrows(w: World, events: seq<Event>)
    requires Runs(w, events)
    ensures w.held <= After(w, events).held
    decreases |events|
  {
    if events != [] {
      HeldGrows(Next(w, events[0]), events[1..]);
    }
  }

  lemma {:induction false} NoDecision(w: World, events: seq<Event>)
    requires Inv(w) && w.phone.Some? && Runs(w, events)
    ensures forall k | 0 <= k < |events| :: !events[k].Decide?
    decreases |events|
  {
    if events != [] {
      StepKeeps(w, events[0]);
      assert Next(w, events[0]).phone.Some?;
      NoDecision(Next(w, events[0]), events[1..]);
      assert forall k | 1 <= k < |events| :: events[k] == events[1..][k - 1];
    }
  }

  // ---- exactly when the phone enrols again ----

  /** A registration in flight that can still end with a token the phone has not held: one that
      is not answered yet and whose credential is still good, or one whose answer is under way. */
  predicate CanIssue(w: World, r: Req) {
    r in w.requests && (w.requests[r].WillRegister? || w.requests[r].Registering?) && w.credential != Code(true)
  }

  ghost predicate RegistrationInFlight(w: World) {
    exists r :: CanIssue(w, r) || (r in w.requests && w.requests[r].Issued?)
  }

  lemma NoneStarts(w: World, e: Event)
    requires Inv(w) && Enabled(w, e) && w.phone.Some? && !RegistrationInFlight(w)
    ensures !RegistrationInFlight(Next(w, e)) && Next(w, e).phone.Some? && Next(w, e).held == w.held
  {
    forall r
      ensures !CanIssue(Next(w, e), r) && !(r in Next(w, e).requests && Next(w, e).requests[r].Issued?)
    {
      assert !CanIssue(w, r);
    }
  }

  lemma {:induction false} EnrolledForGood(w: World, events: seq<Event>)
    requires Inv(w) && Runs(w, events) && w.phone.Some? && !RegistrationInFlight(w)
    ensures After(w, events).held == w.held && !RegistrationInFlight(After(w, events)) && After(w, events).phone.Some?
    decreases |events|
  {
    hide Inv, Enabled, Next, RegistrationInFlight;
    if events != [] {
      StepKeeps(w, events[0]);
      NoneStarts(w, events[0]);
      EnrolledForGood(Next(w, events[0]), events[1..]);
    }
  }

  /** Each registration in flight can end with a token of its own. */
  lemma Enrols(w: World, r: Req) returns (events: seq<Event>, token: Token)
    requires CanIssue(w, r)
    ensures Runs(w, events) && NoneEnables(events) && token !in w.devices
    ensures After(w, events).devices == w.devices[token := Device(None, None)]
    ensures After(w, events).held == w.held + {token} && After(w, events).storedBy == w.storedBy
    ensures After(w, events).phone == Some(token)
    ensures After(w, events).requests.Keys == w.requests.Keys
  {
    token := UnusedNumber(w.devices.Keys);
    var posted := if w.requests[r].WillRegister? then Next(w, Post(r)) else w;
    var issued := Next(posted, Issue(r, token));
    RunStep(issued, KeepToken(r), []);
    RunStep(posted, Issue(r, token), [KeepToken(r)]);
    events := [Issue(r, token)] + [KeepToken(r)];
    if w.requests[r].WillRegister? {
      RunStep(w, Post(r), events);
      events := [Post(r)] + events;
    }
  }

  /** Nothing in these steps switches a device back on. */
  predicate NoneEnables(events: seq<Event>) {
    forall k | 0 <= k < |events| :: !(events[k].SetEnabled? && events[k].enabled)
  }

  /** A phone that holds a token enrols again, in some run from here, if and only if a
      registration is in flight: posted or about to be, on a credential that is still good, or
      already answered. */
  lemma EnrolsAgainExactlyWhen(w: World)
    requires Inv(w) && w.phone.Some?
    ensures (exists events :: Runs(w, events) && After(w, events).held != w.held) <==> RegistrationInFlight(w)
  {
    if r :| CanIssue(w, r) {
      var events, token := Enrols(w, r);
      assert Runs(w, events) && After(w, events).held != w.held;
    }
    if r :| r in w.requests && w.requests[r].Issued? {
      RunStep(w, KeepToken(r), []);
      assert Runs(w, [KeepToken(r)] + []) && After(w, [KeepToken(r)] + []).held != w.held;
    }
    if events :| Runs(w, events) && After(w, events).held != w.held {
      if !RegistrationInFlight(w) {
        EnrolledForGood(w, events);
      }
    }
  }

  /** With an enrolment code, good once, the phone enrols at most once whatever races: it never
      holds two tokens, and once it holds one nothing more is in flight. */
  lemma OneCodeOneDevice(events: seq<Event>)
    requires Runs(Fresh(Code(false)), events)
    ensures var w := After(Fresh(Code(false)), events);
            && (forall a, b | a in w.held && b in w.held :: a == b)
            && (w.phone.Some? ==> !RegistrationInFlight(w))
  {
    EveryRunKeeps(Fresh(Code(false)), events);
    CredentialKind(Fresh(Code(false)), events);
  }

  lemma {:induction false} CredentialKind(w: World, events: seq<Event>)
    requires Runs(w, events)
    ensures After(w, events).credential.Code? <==> w.credential.Code?
    decreases |events|
  {
    if events != [] {
      CredentialKind(Next(w, events[0]), events[1..]);
    }
  }

  // ---- registrations that go wrong ----

  /** Nothing the phone does can give it a token: it has none and none is under way, and its
      code is spent. */
  ghost predicate Stranded(w: World) {
    && w.credential == Code(true) && w.phone.None? && w.held == {}
    && forall r | r in w.requests :: !w.requests[r].Issued?
  }

  lemma StrandedStays(w: World, e: Event)
    requires Inv(w) && Enabled(w, e) && Stranded(w)
    ensures Stranded(Next(w, e)) && Next(w, e).devices.Keys == w.devices.Keys
  {
  }

  /** A registration whose answer is lost on the way leaves a device row behind and has spent the
      code, which is good once: the phone holds no token in any later state. */
  lemma {:induction false} LostAnswerStrands(events: seq<Event>, r: Req, more: seq<Event>)
    requires Runs(Fresh(Code(false)), events)
    requires r in After(Fresh(Code(false)), events).requests && After(Fresh(Code(false)), events).requests[r].Issued?
    ensures Enabled(After(Fresh(Code(false)), events), EndRegistration(r))
    ensures var w := Next(After(Fresh(Code(false)), events), EndRegistration(r));
            Runs(w, more) ==> After(w, more).phone == None && After(w, more).held == {}
                              && After(w, more).devices.Keys == w.devices.Keys
  {
    var w := After(Fresh(Code(false)), events);
    EveryRunKeeps(Fresh(Code(false)), events);
    CredentialKind(Fresh(Code(false)), events);
    StepKeeps(w, EndRegistration(r));
    if Runs(Next(w, EndRegistration(r)), more) {
      StrandedForGood(Next(w, EndRegistration(r)), more);
    }
  }

  lemma {:induction false} StrandedForGood(w: World, events: seq<Event>)
    requires Inv(w) && Stranded(w) && Runs(w, events)
    ensures Stranded(After(w, events)) && After(w, events).devices.Keys == w.devices.Keys
    decreases |events|
  {
    hide Inv, Enabled, Next;
    if events != [] {
      StepKeeps(w, events[0]);
      StrandedStays(w, events[0]);
      StrandedForGood(Next(w, events[0]), events[1..]);
    }
  }

  /** One that fails before it is issued spends nothing: the phone can still enrol, in a later
      pass, and then holds a token of its own. */
  lemma FailedRegistrationRetries(w: World, r: Req) returns (events: seq<Event>)
    requires r in w.requests && w.requests[r].Registering? && w.phone.None? && w.credential != Code(true)
    ensures Enabled(w, EndRegistration(r))
    ensures Runs(Next(w, EndRegistration(r)), events)
    ensures After(Next(w, EndRegistration(r)), events).phone.Some?
    ensures Next(w, EndRegistration(r)).credential == w.credential
  {
    var failed := Next(w, EndRegistration(r));
    var q := UnusedNumber(failed.requests.Keys + failed.passes.Keys);
    var decided := Next(failed, Decide(q));
    var rest, token := Enrols(decided, q);
    RunStep(failed, Decide(q), rest);
    events := [Decide(q)] + rest;
  }

  // ---- off means off ----

  ghost predicate Off(w: World, token: Token) {
    token in w.devices && !Active(w.devices[token])
  }

  /** Nothing in these steps switches this device back on. */
  predicate NotReenabled(events: seq<Event>, token: Token) {
    forall k | 0 <= k < |events| :: !(events[k].SetEnabled? && events[k].token == token && events[k].enabled)
  }

  /** The requests stored under this token. */
  function StoredUnder(w: World, token: Token): set<Req> {
    set r | r in w.storedBy && r in w.requests && w.requests[r].Answered? && w.requests[r].token == token
  }

  function LetInUnder(w: World, token: Token): set<Req> {
    set r | r in w.requests && w.requests[r] == Authenticated(token)
  }

  lemma OffStaysOff(w: World, e: Event, token: Token)
    requires Enabled(w, e) && Off(w, token) && !(e.SetEnabled? && e.token == token && e.enabled)
    ensures Off(Next(w, e), token)
  {
  }

  lemma StepUnderToken(w: World, e: Event, token: Token)
    requires Inv(w) && Enabled(w, e) && Off(w, token)
    requires !(e.SetEnabled? && e.token == token && e.enabled)
    ensures Off(Next(w, e), token) && LetInUnder(Next(w, e), token) <= LetInUnder(w, token)
    ensures StoredUnder(Next(w, e), token) <= StoredUnder(w, token) + LetInUnder(w, token)
  {
    OffStaysOff(w, e, token);
    hide Off;
    if e.Authenticate? {
      assert Resolve(w.devices, token).Some?;
    }
  }

  /** While one device is off, no request under its token is stored that was not already let in,
      whether it was sent before or after the switch. */
  lemma {:induction false} OffMeansOff(w: World, events: seq<Event>, token: Token)
    requires Inv(w) && Runs(w, events) && Off(w, token) && NotReenabled(events, token)
    ensures Off(After(w, events), token)
    ensures StoredUnder(After(w, events), token) <= StoredUnder(w, token) + LetInUnder(w, token)
    ensures LetInUnder(After(w, events), token) <= LetInUnder(w, token)
    decreases |events|
  {
    hide Inv, Enabled, Next, Off, StoredUnder, LetInUnder;
    if events != [] {
      assert NotReenabled(events[1..], token) by {
        assert forall k | 0 <= k < |events[1..]| :: events[1..][k] == events[k + 1];
      }
      StepKeeps(w, events[0]);
      StepUnderToken(w, events[0], token);
      OffMeansOff(Next(w, events[0]), events[1..], token);
    }
  }

  /** What the switch does, by the two stamps on the row. Once a device is revoked, in every later
      state of every run a request under its token is answered 403, and none is stored that had
      not been let in before. */
  lemma RevokedIsShutOut(w: World, token: Token, at: int, events: seq<Event>, r: Req)
    requires Inv(w) && Enabled(w, Revoke(token, at)) && Runs(Next(w, Revoke(token, at)), events)
    ensures var v := After(Next(w, Revoke(token, at)), events);
            && (r in v.requests && v.requests[r] == Sent(token) ==>
                  Enabled(v, Authenticate(r)) && Next(v, Authenticate(r)).requests[r] == Answered(token, 403))
            && (r in v.storedBy && r !in w.storedBy && r in v.requests && v.requests[r].Answered?
                && v.requests[r].token == token ==>
                  r in w.requests && w.requests[r] == Authenticated(token))
  {
    var revoked := Next(w, Revoke(token, at));
    StepKeeps(w, Revoke(token, at));
    RevokedForGood(revoked, events, token);
    StampedIsShutOut(revoked, token, events, r);
  }

  /** So it is while it is disabled, until it is enabled again. */
  lemma DisabledIsShutOut(w: World, token: Token, at: int, events: seq<Event>, r: Req)
    requires Inv(w) && Enabled(w, SetEnabled(token, false, at))
    requires Runs(Next(w, SetEnabled(token, false, at)), events)
    requires forall e | e in events :: !(e.SetEnabled? && e.token == token && e.enabled)
    ensures var v := After(Next(w, SetEnabled(token, false, at)), events);
            && (r in v.requests && v.requests[r] == Sent(token) ==>
                  Enabled(v, Authenticate(r)) && Next(v, Authenticate(r)).requests[r] == Answered(token, 403))
            && (r in v.storedBy && r !in w.storedBy && r in v.requests && v.requests[r].Answered?
                && v.requests[r].token == token ==>
                  r in w.requests && w.requests[r] == Authenticated(token))
  {
    StepKeeps(w, SetEnabled(token, false, at));
    StampedIsShutOut(Next(w, SetEnabled(token, false, at)), token, events, r);
  }

  lemma StampedIsShutOut(w: World, token: Token, events: seq<Event>, r: Req)
    requires Inv(w) && Runs(w, events) && NotReenabled(events, token)
    requires token in w.devices && (w.devices[token].disabledAt.Some? || w.devices[token].revokedAt.Some?)
    ensures var v := After(w, events);
            && (r in v.requests && v.requests[r] == Sent(token) ==>
                  Enabled(v, Authenticate(r)) && Next(v, Authenticate(r)).requests[r] == Answered(token, 403))
            && (r in v.storedBy && r !in w.storedBy && r in v.requests && v.requests[r].Answered?
                && v.requests[r].token == token ==>
                  r in w.requests && w.requests[r] == Authenticated(token))
  {
    hide Runs, After, Inv;
    assert Off(w, token);
    OffMeansOff(w, events, token);
    var v := After(w, events);
    Refused(v, token);
    if r in v.storedBy && r in v.requests && v.requests[r].Answered? && v.requests[r].token == token {
      assert r in StoredUnder(v, token);
    }
  }

  /** And a device that is enabled again, and was not revoked, is let in again: what its phone
      sends is stored. */
  lemma EnabledLetsIn(w: World, token: Token, at: int, r: Req)
    requires Enabled(w, SetEnabled(token, true, at)) && r in w.requests && w.requests[r] == Sent(token)
    ensures var v := Next(w, SetEnabled(token, true, at));
            && Enabled(v, Authenticate(r)) && Next(v, Authenticate(r)).requests[r] == Authenticated(token)
            && Runs(v, [Authenticate(r), Store(r)])
            && r in After(v, [Authenticate(r), Store(r)]).storedBy
  {
    var v := Next(w, SetEnabled(token, true, at));
    var let := Next(v, Authenticate(r));
    RunStep(let, Store(r), []);
    RunStep(v, Authenticate(r), [Store(r)] + []);
    assert [Authenticate(r), Store(r)] == [Authenticate(r)] + ([Store(r)] + []);
  }

  /** The phone has no way back: the token it has stored, those its running passes carry, those
      under way in its requests and those on their way to it all belong to devices that are off,
      and no registration can still produce another. */
  ghost predicate ShutOut(w: World) {
    && w.phone.Some? && Off(w, w.phone.value)
    && (forall p | p in w.passes :: Off(w, w.passes[p]))
    && (forall r | r in w.requests && (w.requests[r].Issued? || w.requests[r].Sent?) :: Off(w, w.requests[r].token))
    && (forall r :: !CanIssue(w, r))
  }

  /** The requests that had been let in before the switch. */
  function LetIn(w: World): set<Req> {
    set r | r in w.requests && w.requests[r].Authenticated?
  }

  lemma NoneIssues(w: World, e: Event)
    requires Enabled(w, e) && ShutOut(w)
    ensures !e.Issue? && !e.Decide?
    ensures forall r :: !CanIssue(Next(w, e), r)
  {
    if e.Issue? || e.Post? {
      assert CanIssue(w, e.r) <==> w.credential != Code(true);
    }
    forall r
      ensures !CanIssue(Next(w, e), r)
    {
      assert !CanIssue(w, r);
    }
  }

  lemma ShutOutStays(w: World, e: Event)
    requires Inv(w) && Enabled(w, e) && ShutOut(w) && !(e.SetEnabled? && e.enabled)
    ensures ShutOut(Next(w, e)) && LetIn(Next(w, e)) <= LetIn(w)
    ensures Next(w, e).storedBy <= w.storedBy + LetIn(w)
  {
    NoneIssues(w, e);
    var next := Next(w, e);
    forall token | Off(w, token)
      ensures Off(next, token)
    {
      OffStaysOff(w, e, token);
    }
    hide CanIssue, Off, Active;
    assert forall r | r in next.requests && next.requests[r].Issued? ::
             r in w.requests && w.requests[r] == next.requests[r];
    assert forall p | p in next.passes :: Off(w, next.passes[p]);
    if e.Authenticate? {
      Refused(w, w.requests[e.r].token);
    }
  }

  lemma Refused(w: World, token: Token)
    requires Off(w, token)
    ensures Resolve(w.devices, token) == Some(403)
  {
  }

  /** While no device is switched back on, nothing a shut-out phone sends is stored, except what
      had been let in before. */
  lemma {:induction false} NothingStored(w: World, events: seq<Event>)
    requires Inv(w) && Runs(w, events) && ShutOut(w) && NoneEnables(events)
    ensures After(w, events).storedBy <= w.storedBy + LetIn(w)
    decreases |events|
  {
    hide Inv, Enabled, Next, ShutOut, LetIn;
    if events != [] {
      assert events[0] == events[..][0] && NoneEnables(events[1..]) by {
        assert forall k | 0 <= k < |events[1..]| :: events[1..][k] == events[k + 1];
      }
      StepKeeps(w, events[0]);
      ShutOutStays(w, events[0]);
      NothingStored(Next(w, events[0]), events[1..]);
    }
  }

  /** A request under a token whose device is on gets its message stored. */
  lemma SentStores(w: World, r: Req) returns (events: seq<Event>)
    requires Inv(w) && r in w.requests && w.requests[r].Sent?
    requires w.requests[r].token in w.devices && Active(w.devices[w.requests[r].token])
    ensures Runs(w, events) && NoneEnables(events) && After(w, events).storedBy != w.storedBy
  {
    var let := Next(w, Authenticate(r));
    RunStep(let, Store(r), []);
    RunStep(w, Authenticate(r), [Store(r)] + []);
    events := [Authenticate(r)] + ([Store(r)] + []);
    assert r !in w.storedBy && r in After(w, events).storedBy;
  }

  /** So does a pass that carries such a token. */
  lemma PassStores(w: World, p: Req) returns (events: seq<Event>)
    requires Inv(w) && p in w.passes && w.passes[p] in w.devices && Active(w.devices[w.passes[p]])
    ensures Runs(w, events) && NoneEnables(events) && After(w, events).storedBy != w.storedBy
  {
    var r := UnusedNumber(w.requests.Keys + w.passes.Keys);
    var sent := Next(w, Send(r, p));
    StepKeeps(w, Send(r, p));
    var rest := SentStores(sent, r);
    RunStep(w, Send(r, p), rest);
    events := [Send(r, p)] + rest;
  }

  /** And the phone itself, with the next pass, if its stored token is one. */
  lemma ActiveStores(w: World) returns (events: seq<Event>)
    requires Inv(w) && w.phone.Some? && w.phone.value in w.devices && Active(w.devices[w.phone.value])
    ensures Runs(w, events) && NoneEnables(events) && After(w, events).storedBy != w.storedBy
  {
    var p := UnusedNumber(w.requests.Keys + w.passes.Keys);
    var begun := Next(w, Begin(p));
    StepKeeps(w, Begin(p));
    var rest := PassStores(begun, p);
    RunStep(w, Begin(p), rest);
    events := [Begin(p)] + rest;
  }

  lemma {:induction false} RunsOn(w: World, first: seq<Event>, second: seq<Event>)
    requires Runs(w, first) && Runs(After(w, first), second)
    ensures Runs(w, first + second) && After(w, first + second) == After(After(w, first), second)
    ensures NoneEnables(first) && NoneEnables(second) ==> NoneEnables(first + second)
    decreases |first|
  {
    if first == [] {
      assert first + second == second;
    } else {
      RunsOn(Next(w, first[0]), first[1..], second);
      assert (first + second)[1..] == first[1..] + second;
    }
  }

  /** Exactly when a phone that holds a token can get a message stored without anybody
      switching a device on: a request of its is let in already, or it has, or can still get, a
      token whose device is active. Switching one device off is not enough while another
      registration of the phone is in flight. */
  lemma StoresExactlyWhen(w: World)
    requires Inv(w) && w.phone.Some?
    ensures (exists events :: Runs(w, events) && NoneEnables(events) && After(w, events).storedBy != w.storedBy)
       <==> LetIn(w) != {} || !ShutOut(w)
  {
    if LetIn(w) != {} {
      var r :| r in LetIn(w);
      RunStep(w, Store(r), []);
      assert Runs(w, [Store(r)] + []) && NoneEnables([Store(r)] + []);
      assert r !in w.storedBy && r in After(w, [Store(r)] + []).storedBy;
    } else if !ShutOut(w) {
      var events := WayBack(w);
    }
    if events :| Runs(w, events) && NoneEnables(events) && After(w, events).storedBy != w.storedBy {
      if LetIn(w) == {} && ShutOut(w) {
        NothingStored(w, events);
        StoredGrows(w, events);
      }
    }
  }

  lemma {:induction false} StoredGrows(w: World, events: seq<Event>)
    requires Runs(w, events)
    ensures w.storedBy <= After(w, events).storedBy
    decreases |events|
  {
    if events != [] {
      StoredGrows(Next(w, events[0]), events[1..]);
    }
  }

  lemma WayBack(w: World) returns (events: seq<Event>)
    requires Inv(w) && w.phone.Some? && !ShutOut(w)
    ensures Runs(w, events) && NoneEnables(events) && After(w, events).storedBy != w.storedBy
  {
    if !Off(w, w.phone.value) {
      events := ActiveStores(w);
    } else if p :| p in w.passes && !Off(w, w.passes[p]) {
      events := PassStores(w, p);
    } else if r :| r in w.requests && w.requests[r].Sent? && !Off(w, w.requests[r].token) {
      events := SentStores(w, r);
    } else if r :| r in w.requests && w.requests[r].Issued? && !Off(w, w.requests[r].token) {
      var kept := Next(w, KeepToken(r));
      StepKeeps(w, KeepToken(r));
      var rest := ActiveStores(kept);
      RunStep(w, KeepToken(r), rest);
      events := [KeepToken(r)] + rest;
    } else {
      var r :| CanIssue(w, r);
      var enrolled, token := Enrols(w, r);
      EveryRunKeeps(w, enrolled);
      var rest := ActiveStores(After(w, enrolled));
      RunsOn(w, enrolled, rest);
      events := enrolled + rest;
    }
  }

  /** So a phone that registered with a code, once its device is off, never gets another message
      stored that was not already let in. */
  lemma CodePhoneStaysOff(events: seq<Event>, more: seq<Event>)
    requires Runs(Fresh(Code(false)), events) && After(Fresh(Code(false)), events).phone.Some?
    requires Off(After(Fresh(Code(false)), events), After(Fresh(Code(false)), events).phone.value)
    requires Runs(After(Fresh(Code(false)), events), more) && NoneEnables(more)
    ensures var w := After(Fresh(Code(false)), events);
            After(w, more).storedBy <= w.storedBy + LetIn(w)
  {
    var w := After(Fresh(Code(false)), events);
    EveryRunKeeps(Fresh(Code(false)), events);
    OneCodeOneDevice(events);
    forall r
      ensures !CanIssue(w, r)
    {
      assert !RegistrationInFlight(w);
    }
    NothingStored(w, more);
  }

  /** A world with one device, switched off, and a second registration still to be posted. */
  const SWITCHED_OFF: World :=
    World(SetupKey, map[101 := Device(Some(9), None)], Some(101), map[0 := WillRegister, 1 := Finished],
          map[1 := 101], {101}, {})

  const BACK_IN: World :=
    World(SetupKey, map[101 := Device(Some(9), None), 100 := Device(None, None)], Some(100),
          map[0 := Finished, 1 := Finished], map[0 := 100, 1 := 101], {101, 100}, {})

  lemma GetsSwitchedOff(events: seq<Event>)
    requires events == [Decide(0), Decide(1), Post(1), Issue(1, 101), KeepToken(1), SetEnabled(101, false, 9)]
    ensures Runs(Fresh(SetupKey), events) && After(Fresh(SetupKey), events) == SWITCHED_OFF
  {
    var w0 := Fresh(SetupKey);
    var w1 := Next(w0, Decide(0));
    var w2 := Next(w1, Decide(1));
    var w3 := Next(w2, Post(1));
    var w4 := Next(w3, Issue(1, 101));
    var w5 := Next(w4, KeepToken(1));
    assert Next(w5, events[5]) == SWITCHED_OFF;
    hide Enabled, Next;
    RunStep(w5, events[5], []);
    RunStep(w4, events[4], [events[5]] + []);
    RunStep(w3, events[3], [events[4]] + ([events[5]] + []));
    RunStep(w2, events[2], [events[3]] + ([events[4]] + ([events[5]] + [])));
    RunStep(w1, events[1], [events[2]] + ([events[3]] + ([events[4]] + ([events[5]] + []))));
    RunStep(w0, events[0], [events[1]] + ([events[2]] + ([events[3]] + ([events[4]] + ([events[5]] + [])))));
    assert events == [events[0]] + ([events[1]] + ([events[2]] + ([events[3]] + ([events[4]] + ([events[5]] + [])))));
  }

  lemma PostsAgain()
    ensures Enabled(SWITCHED_OFF, Post(0))
    ensures Next(SWITCHED_OFF, Post(0)) == SWITCHED_OFF.(requests := map[0 := Registering, 1 := Finished])
  {
  }

  lemma IssuedAgain()
    ensures var w := SWITCHED_OFF.(requests := map[0 := Registering, 1 := Finished]);
            && Enabled(w, Issue(0, 100))
            && Next(w, Issue(0, 100))
               == w.(requests := map[0 := Issued(100), 1 := Finished], devices := BACK_IN.devices)
  {
  }

  lemma KeepsAgain()
    ensures var w := SWITCHED_OFF.(requests := map[0 := Issued(100), 1 := Finished], devices := BACK_IN.devices);
            Enabled(w, KeepToken(0)) && Next(w, KeepToken(0)) == BACK_IN
  {
  }

  lemma GetsBackIn(events: seq<Event>)
    requires events == [Post(0), Issue(0, 100), KeepToken(0)]
    ensures Runs(SWITCHED_OFF, events) && After(SWITCHED_OFF, events) == BACK_IN
  {
    PostsAgain();
    IssuedAgain();
    KeepsAgain();
    var w1 := SWITCHED_OFF.(requests := map[0 := Registering, 1 := Finished]);
    var w2 := w1.(requests := map[0 := Issued(100), 1 := Finished], devices := BACK_IN.devices);
    hide Enabled, Next;
    RunStep(w2, events[2], []);
    RunStep(w1, events[1], [events[2]] + []);
    RunStep(SWITCHED_OFF, events[0], [events[1]] + ([events[2]] + []));
    assert events == [events[0]] + ([events[1]] + ([events[2]] + []));
  }

  lemma BackInIsReachable()
    ensures Inv(BACK_IN) && Off(BACK_IN, 101)
    ensures BACK_IN.phone == Some(100) && 100 in BACK_IN.devices && Active(BACK_IN.devices[100])
  {
  }

  lemma NoSwitches(first: seq<Event>, second: seq<Event>)
    requires first == [Decide(0), Decide(1), Post(1), Issue(1, 101), KeepToken(1), SetEnabled(101, false, 9)]
    requires second == [Post(0), Issue(0, 100), KeepToken(0)]
    ensures NoneEnables(first) && NoneEnables(second)
  {
  }

  /** With a shared setup key it is different. Two passes find the phone unregistered; the first
      registers, and its device is switched off; only then does the second post its registration,
      and the phone is back under a new device, its messages stored. */
  lemma SecondRegistrationWalksBackIn() returns (events: seq<Event>, stores: seq<Event>)
    ensures events == [Decide(0), Decide(1), Post(1), Issue(1, 101), KeepToken(1), SetEnabled(101, false, 9),
                       Post(0), Issue(0, 100), KeepToken(0)]
    ensures Runs(Fresh(SetupKey), events) && NoneEnables(events) && After(Fresh(SetupKey), events) == BACK_IN
    ensures Off(BACK_IN, 101) && Runs(BACK_IN, stores) && NoneEnables(stores)
    ensures After(BACK_IN, stores).storedBy != BACK_IN.storedBy
  {
    BackInIsReachable();
    hide Enabled, Next, Runs, After, Inv, NoneEnables;
    var first := [Decide(0), Decide(1), Post(1), Issue(1, 101), KeepToken(1), SetEnabled(101, false, 9)];
    var second := [Post(0), Issue(0, 100), KeepToken(0)];
    GetsSwitchedOff(first);
    GetsBackIn(second);
    RunsOn(Fresh(SetupKey), first, second);
    events := first + second;
    assert NoneEnables(first) && NoneEnables(second) by {
      NoSwitches(first, second);
    }
    stores := ActiveStores(BACK_IN);
  }

  /** A revocation is for good: no later step can switch the device back on. */
  lemma {:induction false} RevokedForGood(w: World, events: seq<Event>, token: Token)
    requires Runs(w, events) && token in w.devices && w.devices[token].revokedAt.Some?
    ensures token in After(w, events).devices && After(w, events).devices[token].revokedAt.Some?
    ensures forall k | 0 <= k < |events| :: !(events[k].SetEnabled? && events[k].token == token)
    decreases |events|
  {
    if events != [] {
      RevokedForGood(Next(w, events[0]), events[1..], token);
      assert forall k | 1 <= k < |events| :: events[k] == events[1..][k - 1];
    }
  }
}
