/** The sync engine as the phone runs it (TsunagiRepository.kt): sweeping the inbox, the
    upload loop, and the pass that puts them together. Every method is proved against the
    functions and relations of the modules it imports.

    The server, the platform inbox and the clock are parameters: any function at all. */
module SyncEngine {
  import opened Wrappers
  import opened Identity
  import opened Wire
  import opened MessageTable
  import opened UploadPass
  import InboxSweep
  import Exchange
  import Delivery
  import HeldBack

  const DAY: int := 86400000
  const LOOKBACK: int := DAY
  const OVERLAP: int := 600000
  const SCAN_LIMIT: nat := 500

  /** One row of the platform's store, told apart by its key. */
  datatype InboxMessage = InboxMessage(key: nat, sms: Sms, storedAt: int)

  datatype InboxRead = Read(messages: seq<InboxMessage>) | Unavailable

  datatype SweepOutcome = SweepOutcome(recovered: nat, readable: bool)

  datatype SyncOutcome = Idle | Success(uploaded: nat) | Retry | Failure

  /** How a call without a body worth reading ends. */
  datatype CallAnswer = Done | Http(code: int) | Unreachable

  datatype RegisterAnswer = Registered(token: string) | RegisterHttp(code: int) | RegisterUnreachable

  function Messages(found: seq<InboxMessage>): seq<Sms> {
    seq(|found|, i requires 0 <= i < |found| => found[i].sms)
  }

  /** Where a sweep starts reading. */
  function Cutoff(watermark: Option<int>, now: int): int {
    var from := (if watermark.Some? then watermark.value else now - LOOKBACK) - OVERLAP;
    if from < 0 then 0 else from
  }

  predicate Latest(found: seq<InboxMessage>, at: int) {
    && (exists i :: 0 <= i < |found| && found[i].storedAt == at)
    && forall i | 0 <= i < |found| :: found[i].storedAt <= at
  }

  /** The outcome reported for a status outside the batch's own contents. */
  function OutcomeOf(code: int, registering: bool): SyncOutcome {
    if code == 401 && !registering then Retry
    else if code == 403 || code == 401 then Failure
    else if code == 429 || code >= 500 then Retry
    else Failure
  }

  /** How a pass reports that it could not register: no key, a refusal, or no answer. */
  function Unregistered(setupKey: string, register: RegisterAnswer): SyncOutcome {
    if Blank(setupKey) then Failure
    else match register
      case RegisterHttp(code) => OutcomeOf(code, true)
      case _ => Retry
  }

  /** How a pass reports a check-in that failed. */
  function Unreported(answer: CallAnswer): SyncOutcome {
    if answer.Http? then OutcomeOf(answer.code, false) else Retry
  }

  /** What a sweep leaves on record: nothing if the inbox could not be read; else that it was
      read, and how far it got if it held anything. */
  ghost predicate SweepRecorded(read: InboxRead, now: int, mark: Option<int>, swept: Option<int>,
                                mark': Option<int>, swept': Option<int>) {
    match read
    case Unavailable => mark' == mark && swept' == swept
    case Read(found) =>
      && swept' == Some(now)
      && if found == [] then mark' == mark else mark'.Some? && Latest(found, mark'.value)
  }

  /** What holding back a finished pause does to the table. */
  function Withholding(t: Table, window: Option<(int, int)>): Table {
    if window.Some? then WithheldBetween(t, window.value.0, window.value.1) else t
  }

  class Repository {
    const messages: MessageDao
    const settings: HeldBack.SettingsStore
    var token: Option<string>
    var lastBackfillAt: Option<int>
    var lastSweptAt: Option<int>

    constructor (messages: MessageDao, settings: HeldBack.SettingsStore)
      ensures this.messages == messages && this.settings == settings
      ensures token.None? && lastBackfillAt.None? && lastSweptAt.None?
    {
      this.messages, this.settings := messages, settings;
      token, lastBackfillAt, lastSweptAt := None, None, None;
    }

    method CaptureSms(m: Sms) returns (stored: bool)
      modifies messages
      ensures messages.rows == Inserted(old(messages.rows), m)
      ensures stored <==> Of(m) !in old(messages.rows)
    {
      stored := messages.Insert(m);
    }

    method StoreIfMissing(m: Sms, claimed: set<Id>, ghost s: InboxSweep.Sweep)
      returns (stored: bool, nowClaimed: set<Id>)
      requires Keyed(messages.rows) && s.table == messages.rows && s.claimed == claimed
      modifies messages
      ensures messages.rows == InboxSweep.Examined(s, m).table && nowClaimed == InboxSweep.Examined(s, m).claimed
      ensures InboxSweep.Examined(s, m).recovered == s.recovered + if stored then 1 else 0
      ensures Keyed(messages.rows)
    {
      if Of(m) in messages.rows {
        return false, claimed + {Of(m)};
      }
      var near := messages.IdsNear(m, InboxSweep.MATCH_WINDOW);
      var i := 0;
      while i < |near| && near[i] in claimed
        invariant 0 <= i <= |near| && forall j | 0 <= j < i :: near[j] in claimed
      {
        i := i + 1;
      }
      if i < |near| {
        FirstFree(messages.rows, m, claimed, near, i);
        return false, claimed + {near[i]};
      }
      assert InboxSweep.FirstUnclaimed(messages.rows, m, claimed).None? by {
        assert forall id | id in near :: id in claimed;
      }
      InboxSweep.LookOnlyAdds(s, m);
      stored := CaptureSms(m);
      nowClaimed := if stored then claimed + {Of(m)} else claimed;
    }

    method Backfill(now: int, inbox: (int, nat) -> InboxRead) returns (outcome: SweepOutcome)
      requires Keyed(messages.rows)
      modifies messages, this`lastBackfillAt, this`lastSweptAt
      ensures Keyed(messages.rows)
      ensures var read := inbox(Cutoff(old(lastBackfillAt), now), SCAN_LIMIT);
              && SweepRecorded(read, now, old(lastBackfillAt), old(lastSweptAt), lastBackfillAt, lastSweptAt)
              && match read
                 case Unavailable => messages.rows == old(messages.rows) && outcome == SweepOutcome(0, false)
                 case Read(found) =>
                   var swept := InboxSweep.Swept(InboxSweep.Begin(old(messages.rows)), Messages(found));
                   messages.rows == swept.table && outcome == SweepOutcome(swept.recovered, true)
    {
      hide Latest, InboxSweep.Examined, InboxSweep.Swept, Keyed;
      var read := inbox(Cutoff(lastBackfillAt, now), SCAN_LIMIT);
      if read.Unavailable? {
        return SweepOutcome(0, false);
      }
      var found := read.messages;
      lastSweptAt := Some(now);
      ghost var start := InboxSweep.Begin(messages.rows);
      assert InboxSweep.Swept(start, []) == start by {
        InboxSweep.NothingSwept(start);
      }
      if found == [] {
        assert Messages(found) == [];
        return SweepOutcome(0, true);
      }
      var claimed: set<Id> := {};
      var recovered: nat := 0;
      var examined := found[0].storedAt;
      for i := 0 to |found|
        invariant Keyed(messages.rows)
        invariant InboxSweep.Swept(start, Messages(found)[..i]) == InboxSweep.Sweep(messages.rows, claimed, recovered)
        invariant lastBackfillAt == old(lastBackfillAt) && lastSweptAt == Some(now)
        invariant i > 0 ==> Latest(found[..i], examined)
      {
        var sweep := InboxSweep.Sweep(messages.rows, claimed, recovered);
        var stored;
        stored, claimed := StoreIfMissing(found[i].sms, claimed, sweep);
        if stored {
          recovered := recovered + 1;
        }
        assert Messages(found)[..i + 1] == Messages(found)[..i] + [found[i].sms];
        InboxSweep.SweptGrows(start, Messages(found)[..i], found[i].sms);
        LatestGrows(found, i, examined);
        if i == 0 || found[i].storedAt > examined {
          examined := found[i].storedAt;
        }
      }
      assert Messages(found)[..|found|] == Messages(found) && found[..|found|] == found;
      lastBackfillAt := Some(examined);
      outcome := SweepOutcome(recovered, true);
    }

    /** The loop that drains the queue: `calls` uploads, against a server that may answer
        anything. The pass it ran is `turns`. */
    method UploadLoop(api: (nat, seq<Payload>) -> Answer, clock: nat -> int)
      returns (uploaded: nat, halted: Option<Halt>, calls: nat, ghost turns: seq<Turn>)
      modifies messages
      ensures |turns| == calls && LegalRun(Start(old(messages.rows)), turns)
      ensures Final(Start(old(messages.rows)), turns).table == messages.rows
      ensures Final(Start(old(messages.rows)), turns).uploaded == uploaded
      ensures Final(Start(old(messages.rows)), turns).halted == halted
      ensures halted.None? ==> Queue(messages.rows) == {}
      ensures calls <= if |Queue(old(messages.rows))| == 0 then 0 else 2 * |Queue(old(messages.rows))| - 1
      ensures Asked(old(messages.rows), turns, api, clock)
    {
      hide Final, LegalRun, Settle, Asked, IsPendingBatch, Queue;
      uploaded, halted, calls, turns := 0, None, 0, [];
      var width := BATCH_SIZE;
      ghost var start := Start(messages.rows);
      NothingAsked(start, api, clock);
      while halted.None?
        invariant LegalRun(start, turns) && |turns| == calls
        invariant Final(start, turns) == Pass(messages.rows, uploaded, width, halted)
        invariant Extends(start.table, messages.rows) && messages.rows.Keys == start.table.Keys
        invariant width >= 1
        invariant Asked(start.table, turns, api, clock)
        decreases halted.None?, Budget(|Queue(messages.rows)|, width)
      {
        var batch := messages.PendingBatch(width);
        BatchSize(messages.rows, width, batch);
        QueueIsStored(messages.rows);
        if batch == [] {
          break;
        }
        ghost var before := Final(start, turns);
        var answer := api(calls, RequestFor(messages.rows, batch));
        var now := clock(calls);
        ghost var turn := Turn(batch, answer, now);
        OneMoreAsked(start.table, messages.rows, turns, turn, api, clock);
        TurnSpendsBudget(before, turn);
        TurnEffect(before, turn);
        RunExtends(start, turns, turn);
        messages.MarkUploading(batch);
        uploaded, width, halted := Settles(batch, answer, now, uploaded, width);
        turns, calls := turns + [turn], calls + 1;
      }
      CallsAreBounded(start.table, turns);
    }

    /** The body of one turn, once the batch is marked: the `try` of the upload loop. Silence, a
        401, 403, 408, 429 or anything that is not a 4xx queues the batch again and ends the pass;
        another 4xx sets a lone message aside and narrows a larger batch; a 200 confirms what it
        does not refuse. */
    method Settles(batch: seq<Id>, answer: Answer, now: int, uploaded: nat, width: nat)
      returns (uploaded': nat, width': nat, halted: Option<Halt>)
      modifies messages
      ensures Settle(Pass(old(messages.rows), uploaded, width, None), batch, answer, now)
           == Pass(messages.rows, uploaded', width', halted)
      ensures answer.NetworkError? ==>
                && Moved(old(messages.rows), messages.rows, Elements(batch), {}, Failed)
                && uploaded' == uploaded && width' == width && halted == Some(Offline)
      ensures answer.HttpError?
              && (answer.code < 400 || answer.code > 499 || answer.code in {401, 403, 408, 429}) ==>
                && Moved(old(messages.rows), messages.rows, Elements(batch), {}, Failed)
                && uploaded' == uploaded && width' == width && halted == Some(Status(answer.code))
      ensures answer.HttpError? && 400 <= answer.code <= 499 && answer.code !in {401, 403, 408, 429} ==>
                && Moved(old(messages.rows), messages.rows, Elements(batch), {},
                         if |batch| > 1 then Failed else Quarantined)
                && uploaded' == uploaded && width' == (if |batch| > 1 then 1 else 100) && halted.None?
      ensures answer.Accepted? ==>
                && Moved(old(messages.rows), messages.rows, Elements(batch), RefusedBy(Turn(batch, answer, now)),
                         Synced)
                && (forall id | id in batch && id in messages.rows && messages.rows[id].status == Synced ::
                      messages.rows[id].syncedAt == Some(now) && messages.rows[id].lastError.None?)
                && (NoDuplicates(batch) ==>
                      uploaded' == uploaded + |Elements(batch) - RefusedBy(Turn(batch, answer, now))|)
                && width' == width && halted.None?
    {
      SettleEffect(Pass(messages.rows, uploaded, width, None), Turn(batch, answer, now));
      if answer.Accepted? {
        AcceptedStamps(Pass(messages.rows, uploaded, width, None), batch, answer.response, now);
      }
      hide Moved, RefusedBy, QuarantineEach, Refused, Without, NoDuplicates;
      uploaded', width', halted := uploaded, width, None;
      match answer
      case Accepted(response) =>
        var stored := ApplyVerdicts(batch, response, now);
        uploaded' := uploaded + stored;
      case NetworkError =>
        messages.MarkFailed(batch, None);
        halted := Some(Offline);
      case HttpError(code) =>
        if !BlamesTheMessage(code) {
          messages.MarkFailed(batch, None);
          halted := Some(Status(code));
        } else if |batch| > 1 {
          messages.MarkFailed(batch, None);
          width' := 1;
        } else {
          messages.Quarantine(batch, Some(PERMANENT));
          width' := BATCH_SIZE;
        }
    }

    method ApplyVerdicts(batch: seq<Id>, response: BatchResponse, now: int) returns (stored: nat)
      modifies messages
      ensures Settle(Start(old(messages.rows)), batch, Accepted(response), now).table == messages.rows
      ensures Settle(Start(old(messages.rows)), batch, Accepted(response), now).uploaded == stored
    {
      if response.results.None? {
        messages.MarkSynced(batch, now);
        return |batch|;
      }
      var refused := Refused(batch, response.results.value);
      var kept := Without(batch, Names(refused));
      ghost var synced := MarkedSynced(messages.rows, kept, now);
      if kept != [] {
        messages.MarkSynced(kept, now);
      } else {
        assert synced == messages.rows;
      }
      for i := 0 to |refused|
        invariant messages.rows == QuarantineEach(synced, refused[..i])
      {
        assert refused[..i + 1][..i] == refused[..i];
        messages.Quarantine([refused[i].0], Some(refused[i].1));
      }
      assert refused[..|refused|] == refused;
      stored := |kept|;
    }

    /** With a retention of no days nothing goes; else what the server confirmed more than that
        many days ago goes, and nothing else. */
    method Prune(retentionDays: int, now: int) returns (removed: nat)
      modifies messages
      ensures forall id | id in old(messages.rows) ::
                && (id in messages.rows ==> messages.rows[id] == old(messages.rows)[id])
                && (id !in messages.rows <==>
                      && retentionDays > 0 && old(messages.rows)[id].status == Synced
                      && old(messages.rows)[id].syncedAt.Some?
                      && old(messages.rows)[id].syncedAt.value < now - retentionDays * 86400000)
      ensures messages.rows.Keys <= old(messages.rows).Keys
      ensures messages.rows
           == if retentionDays <= 0 then old(messages.rows) else Pruned(old(messages.rows), now - retentionDays * DAY)
      ensures removed == |old(messages.rows)| - |messages.rows|
    {
      removed := 0;
      if retentionDays > 0 {
        removed := messages.DeleteSyncedBefore(now - retentionDays * DAY);
      }
    }

    /** 401 outside registration drops the token; 403 never does. */
    method HandleHttpError(code: int, registering: bool) returns (outcome: SyncOutcome)
      modifies this`token
      ensures outcome == OutcomeOf(code, registering)
      ensures outcome == if (code == 401 && !registering) || code == 429 || code >= 500 then Retry else Failure
      ensures token == if code == 401 && !registering then None else old(token)
    {
      if code == 401 && !registering {
        token := None;
        return Retry;
      }
      outcome := OutcomeOf(code, registering);
    }

    /** `setupKey` is the key as the pass read it at its start. A registration that succeeds
        erases the stored one. */
    method EnsureRegistered(setupKey: string, register: RegisterAnswer) returns (problem: Option<SyncOutcome>)
      modifies this`token, settings`setupKey
      ensures old(token).Some? ==> problem.None? && token == old(token)
      ensures if old(token).None? && token.Some? then Blank(settings.setupKey)
              else settings.setupKey == old(settings.setupKey)
      ensures problem.None? <==> token.Some?
      ensures old(token).None? ==>
                && (token.Some? <==> !Blank(setupKey) && register.Registered?)
                && (token.Some? ==> token == Some(register.token))
                && (problem.Some? ==> problem == Some(Unregistered(setupKey, register)))
                && (problem.Some? ==>
                      problem == Some(if Blank(setupKey)
                                         || (register.RegisterHttp? && register.code != 429 && register.code < 500)
                                      then Failure else Retry))
    {
      if token.Some? {
        return None;
      }
      if Blank(setupKey) {
        return Some(Failure);
      }
      match register
      case Registered(issued) =>
        token := Some(issued);
        settings.ClearEnrolmentCode();
        problem := None;
      case RegisterHttp(code) =>
        var outcome := HandleHttpError(code, true);
        problem := Some(outcome);
      case RegisterUnreachable => problem := Some(Retry);
    }

    /** A server without check-in answers 404 and gets the bare heartbeat instead. */
    method CheckIn(checkIn: CallAnswer, heartbeat: CallAnswer) returns (problem: Option<SyncOutcome>)
      modifies this`token
      ensures problem.None? <==> checkIn.Done? || (checkIn == Http(404) && heartbeat.Done?)
      ensures old(token).Some? && token.None? ==>
                checkIn == Http(401) || (checkIn == Http(404) && heartbeat == Http(401))
      ensures checkIn == Http(401) || (checkIn == Http(404) && heartbeat == Http(401)) ==>
                token.None? && problem == Some(Retry)
      ensures problem.Some? ==> problem == Some(Unreported(if checkIn == Http(404) then heartbeat else checkIn))
      ensures problem.Some? ==>
                var report := if checkIn == Http(404) then heartbeat else checkIn;
                problem == Some(if report.Unreachable? || report.code == 401 || report.code == 429 || report.code >= 500
                                then Retry else Failure)
      ensures token.Some? ==> token == old(token)
    {
      var last := if checkIn == Http(404) then heartbeat else checkIn;
      match last
      case Done => problem := None;
      case Unreachable => problem := Some(Retry);
      case Http(code) =>
        var outcome := HandleHttpError(code, false);
        problem := Some(outcome);
    }

    /** What a pass does before it uploads: sweep, requeue what a crash stranded, and hold
        back the window of a finished pause, in that order. */
    method Prepare(now: int, inbox: (int, nat) -> InboxRead)
      requires Keyed(messages.rows)
      modifies messages, settings`excludeFrom, settings`excludeTo, this`lastBackfillAt, this`lastSweptAt
      ensures messages.rows
           == Withholding(Requeued(SweptTable(old(messages.rows), inbox(Cutoff(old(lastBackfillAt), now), SCAN_LIMIT))),
                          old(settings.Window()))
      ensures settings.Window().None?
      ensures SweepRecorded(inbox(Cutoff(old(lastBackfillAt), now), SCAN_LIMIT), now,
                            old(lastBackfillAt), old(lastSweptAt), lastBackfillAt, lastSweptAt)
    {
      var sweep := Backfill(now, inbox);
      messages.RequeueStranded();
      var window := settings.Window();
      if window.Some? {
        var held := messages.ExcludeReceivedBetween(window.value.0, window.value.1);
        settings.ClearExclusionWindow();
      }
    }

    /** What a pass does once it is prepared: register if it must, upload, prune and report. */
    method Finish(now: int, register: RegisterAnswer, api: (nat, seq<Payload>) -> Answer, clock: nat -> int,
                  retentionDays: int, checkIn: CallAnswer, heartbeat: CallAnswer)
      returns (outcome: SyncOutcome, calls: nat, ghost turns: seq<Turn>)
      modifies messages, settings`setupKey, this`token
      ensures |turns| == calls && Asked(old(messages.rows), turns, api, clock)
      ensures Passed(old(messages.rows), turns, messages.rows, outcome, retentionDays, now)
      ensures LegalRun(Start(old(messages.rows)), turns)
      ensures PassesOn(Login(old(settings.setupKey), old(token)), Login(settings.setupKey, token))
      ensures old(token).None? && (Blank(old(settings.setupKey)) || !register.Registered?) ==>
                Stopped(old(messages.rows), turns, messages.rows, outcome)
                && outcome == Unregistered(old(settings.setupKey), register)
      ensures old(token).Some? && token.None? ==> outcome.Retry? || outcome.Success?
      ensures old(token).Some? || (!Blank(old(settings.setupKey)) && register.Registered?) ==>
                EndsAs(turns, Final(Start(old(messages.rows)), turns).uploaded, checkIn, heartbeat,
                       if old(token).Some? then old(token).value else register.token, token, outcome)
    {
      hide Final, LegalRun, Queue, Asked, Blank, EndsAs;
      calls, turns := 0, [];
      NothingAsked(Start(messages.rows), api, clock);
      ghost var queued := messages.rows;
      var unregistered := EnsureRegistered(settings.setupKey, register);
      if unregistered.Some? {
        return unregistered.value, calls, turns;
      }
      var uploaded, halted;
      ghost var login := token.value;
      uploaded, halted, calls, turns := UploadLoop(api, clock);
      if halted.Some? {
        if halted.value.Offline? {
          EndsHalted(queued, turns, checkIn, heartbeat, login, token, Retry);
          return Retry, calls, turns;
        }
        outcome := HandleHttpError(halted.value.code, false);
        EndsHalted(queued, turns, checkIn, heartbeat, login, token, outcome);
        return outcome, calls, turns;
      }
      var removed := Prune(retentionDays, now);
      var problem := CheckIn(checkIn, heartbeat);
      outcome := if uploaded > 0 then Success(uploaded) else if problem.Some? then problem.value else Idle;
      EndsDrained(queued, turns, checkIn, heartbeat, login, token, outcome);
    }

    /** One whole pass, for a phone that is configured. `queued` is the table it uploads
        from and `turns` the uploads it makes. */
    method Sync(now: int, inbox: (int, nat) -> InboxRead, register: RegisterAnswer,
                api: (nat, seq<Payload>) -> Answer, clock: nat -> int, retentionDays: int,
                checkIn: CallAnswer, heartbeat: CallAnswer)
      returns (outcome: SyncOutcome, calls: nat, ghost queued: Table, ghost turns: seq<Turn>)
      requires Keyed(messages.rows)
      modifies messages, settings`excludeFrom, settings`excludeTo, settings`setupKey
      modifies this`token, this`lastBackfillAt, this`lastSweptAt
      ensures |turns| == calls
      ensures PassesOn(Login(old(settings.setupKey), old(token)), Login(settings.setupKey, token))
      ensures !settings.syncEnabled ==> messages.rows == old(messages.rows) && outcome == Idle && calls == 0
      ensures settings.syncEnabled ==>
                && settings.Window().None?
                && queued == Withholding(Requeued(SweptTable(old(messages.rows),
                                         inbox(Cutoff(old(lastBackfillAt), now), SCAN_LIMIT))), old(settings.Window()))
                && SweepRecorded(inbox(Cutoff(old(lastBackfillAt), now), SCAN_LIMIT), now,
                                 old(lastBackfillAt), old(lastSweptAt), lastBackfillAt, lastSweptAt)
                && Asked(queued, turns, api, clock)
                && Passed(queued, turns, messages.rows, outcome, retentionDays, now)
      ensures settings.syncEnabled && old(token).None? && (Blank(old(settings.setupKey)) || !register.Registered?) ==>
                Stopped(queued, turns, messages.rows, outcome)
                && outcome == Unregistered(old(settings.setupKey), register)
      ensures settings.syncEnabled && old(settings.Window()).Some? ==>
                UploadsAvoid(queued, turns, old(settings.Window()).value.0, old(settings.Window()).value.1)
      ensures old(token).Some? && token.None? ==> outcome.Retry? || outcome.Success?
      ensures settings.syncEnabled
              && (old(token).Some? || (!Blank(old(settings.setupKey)) && register.Registered?)) ==>
                EndsAs(turns, Final(Start(queued), turns).uploaded, checkIn, heartbeat,
                       if old(token).Some? then old(token).value else register.token, token, outcome)
    {
      hide LegalRun, Final, EndsAs, Requeued, Withholding, SweptTable, Keyed, SweepRecorded, Asked, Blank,
        UploadsAvoid, Passed, Stopped;
      calls, queued, turns := 0, messages.rows, [];
      if !settings.syncEnabled {
        return Idle, calls, queued, turns;
      }
      ghost var window := settings.Window();
      ghost var swept := SweptTable(messages.rows, inbox(Cutoff(lastBackfillAt, now), SCAN_LIMIT));
      Prepare(now, inbox);
      queued := messages.rows;
      outcome, calls, turns := Finish(now, register, api, clock, retentionDays, checkIn, heartbeat);
      if window.Some? {
        WindowStaysHome(swept, window, turns);
      }
    }
  }

  /** The table after sweeping what the inbox answered. */
  ghost function SweptTable(t: Table, read: InboxRead): Table {
    if read.Read? then InboxSweep.Swept(InboxSweep.Begin(t), Messages(read.messages)).table else t
  }

  /** What the phone can identify itself with: the key typed in, and the token it was issued. */
  datatype Login = Login(key: string, token: Option<string>)

  /** What a pass does to it: nothing without a key or a token; a registration erases the key;
      and a refused token is dropped. */
  ghost predicate PassesOn(before: Login, after: Login) {
    if before.token.Some? then
      after.key == before.key && (after.token == before.token || after.token.None?)
    else if Blank(before.key) then after == before
    else after == before || Blank(after.key)
  }

  ghost predicate Passes(logins: seq<Login>) {
    forall k | 0 <= k < |logins| - 1 :: PassesOn(logins[k], logins[k + 1])
  }

  /** A phone without key or token stays without, pass after pass. */
  lemma {:induction false} DeadEnd(logins: seq<Login>, j: nat, k: nat)
    requires Passes(logins) && j <= k < |logins|
    requires logins[j].token.None? && Blank(logins[j].key)
    ensures logins[k] == logins[j]
    decreases k - j
  {
    if j < k {
      assert PassesOn(logins[j], logins[j + 1]);
      DeadEnd(logins, j + 1, k);
    }
  }

  lemma {:induction false} KeyStaysErased(logins: seq<Login>, i: nat, k: nat)
    requires Passes(logins) && i <= k < |logins| && Blank(logins[i].key)
    ensures Blank(logins[k].key)
    decreases k - i
  {
    if i < k {
      assert PassesOn(logins[i], logins[i + 1]);
      KeyStaysErased(logins, i + 1, k);
    }
  }

  /** A phone that has registered, with nothing typed in since, does not register again after a
      401: from the pass that drops its token on, every pass leaves it unregistered. */
  lemma UnregisteredForGood(logins: seq<Login>, i: nat, j: nat, k: nat)
    requires Passes(logins) && i <= j <= k < |logins|
    requires logins[i].token.Some? && Blank(logins[i].key) && logins[j].token.None?
    ensures logins[k].token.None? && Blank(logins[k].key)
  {
    KeyStaysErased(logins, i, j);
    DeadEnd(logins, j, k);
  }

  /** A pass that could not register uploads nothing and leaves what it prepared. */
  ghost predicate Stopped(queued: Table, turns: seq<Turn>, rows: Table, outcome: SyncOutcome) {
    turns == [] && rows == queued && (outcome == Failure || outcome == Retry)
  }

  /** Every way a pass can end. */
  ghost predicate Passed(queued: Table, turns: seq<Turn>, rows: Table, outcome: SyncOutcome, retentionDays: int,
                         now: int) {
    Stopped(queued, turns, rows, outcome) || Ended(queued, turns, rows, outcome, retentionDays, now)
  }

  /** How a pass that got to upload ends. */
  ghost predicate Ended(queued: Table, turns: seq<Turn>, rows: Table, outcome: SyncOutcome, retentionDays: int,
                         now: int) {
    var end := Final(Start(queued), turns);
    && LegalRun(Start(queued), turns)
    && match end.halted
       case Some(Offline) => rows == end.table && outcome == Retry
       case Some(Status(code)) => rows == end.table && outcome == OutcomeOf(code, false)
       case None =>
         && Queue(end.table) == {} && rows == Retained(end.table, retentionDays, now)
         && (if end.uploaded > 0 then outcome == Success(end.uploaded) else !outcome.Success?)
  }

  /** How a registered pass ends, by what its last upload was answered. Silence: try again. 401:
      the token is dropped. 403 and what else is not about the messages: the token stays, and only
      429 and the server's own errors are worth another try. Otherwise everything went up, and
      the check-in, or the heartbeat in its place, decides: only a 401 drops the token. */
  ghost predicate EndsAs(turns: seq<Turn>, uploaded: nat, checkIn: CallAnswer, heartbeat: CallAnswer,
                         login: string, token: Option<string>, outcome: SyncOutcome) {
    var answer := if turns == [] then Accepted(BatchResponse(0, 0, 0, 0, None)) else turns[|turns| - 1].answer;
    if answer.NetworkError? then token == Some(login) && outcome == Retry
    else if answer == HttpError(401) then token == None && outcome == Retry
    else if answer.HttpError? && (answer.code < 400 || answer.code > 499 || answer.code in {403, 408, 429}) then
      && token == Some(login)
      && outcome == if answer.code == 429 || answer.code >= 500 then Retry else Failure
    else
      var report := if checkIn == Http(404) then heartbeat else checkIn;
      && token == (if report == Http(401) then None else Some(login))
      && outcome == if uploaded > 0 then Success(uploaded)
                    else if report.Done? then Idle
                    else if report.Unreachable? || report.code == 401 || report.code == 429 || report.code >= 500
                    then Retry else Failure
  }

  lemma EndsHalted(t: Table, turns: seq<Turn>, checkIn: CallAnswer, heartbeat: CallAnswer, login: string,
                   token: Option<string>, outcome: SyncOutcome)
    requires LegalRun(Start(t), turns) && Final(Start(t), turns).halted.Some?
    requires match Final(Start(t), turns).halted.value
             case Offline => outcome == Retry && token == Some(login)
             case Status(code) =>
               && outcome == (if code == 401 || code == 429 || code >= 500 then Retry else Failure)
               && token == if code == 401 then None else Some(login)
    ensures EndsAs(turns, Final(Start(t), turns).uploaded, checkIn, heartbeat, login, token, outcome)
  {
    EndsExactlyWhen(t, turns);
    hide Final, LegalRun;
  }

  lemma EndsDrained(t: Table, turns: seq<Turn>, checkIn: CallAnswer, heartbeat: CallAnswer, login: string,
                    token: Option<string>, outcome: SyncOutcome)
    requires LegalRun(Start(t), turns) && Final(Start(t), turns).halted.None?
    requires var report := if checkIn == Http(404) then heartbeat else checkIn;
             && token == (if report == Http(401) then None else Some(login))
             && outcome == if Final(Start(t), turns).uploaded > 0 then Success(Final(Start(t), turns).uploaded)
                           else if report.Done? then Idle
                           else if report.Unreachable? || report.code == 401 || report.code == 429 || report.code >= 500
                           then Retry else Failure
    ensures EndsAs(turns, Final(Start(t), turns).uploaded, checkIn, heartbeat, login, token, outcome)
  {
    EndsExactlyWhen(t, turns);
    hide Final, LegalRun;
  }

  /** No upload carries a message received between these times. */
  ghost predicate UploadsAvoid(queued: Table, turns: seq<Turn>, from: int, to: int) {
    forall turn, id | turn in turns && id in turn.batch :: id in queued && !InWindow(queued[id].sms, from, to)
  }

  lemma {:induction false} WindowStaysHome(swept: Table, window: Option<(int, int)>, turns: seq<Turn>)
    requires window.Some? && LegalRun(Start(Withholding(Requeued(swept), window)), turns)
    ensures UploadsAvoid(Withholding(Requeued(swept), window), turns, window.value.0, window.value.1)
  {
    hide LegalRun, Final, WithheldBetween, Requeued;
    HeldBack.NoUploadFromWindow(swept, window.value.0, window.value.1, turns);
    WithholdingKeepsContent(swept, window.value.0, window.value.1);
  }

  lemma WithholdingKeepsContent(t: Table, from: int, to: int)
    ensures WithheldBetween(Requeued(t), from, to).Keys == t.Keys && Extends(t, WithheldBetween(Requeued(t), from, to))
  {
  }

  /** Every turn's answer is the server's, to the request its batch makes. */
  ghost predicate Asked(t: Table, turns: seq<Turn>, api: (nat, seq<Payload>) -> Answer, clock: nat -> int) {
    forall k | 0 <= k < |turns| ::
      && (forall id | id in turns[k].batch :: id in t)
      && turns[k].answer == api(k, RequestFor(t, turns[k].batch))
      && turns[k].now == clock(k)
  }

  lemma NothingAsked(p: Pass, api: (nat, seq<Payload>) -> Answer, clock: nat -> int)
    ensures Asked(p.table, [], api, clock) && LegalRun(p, []) && Final(p, []) == p
  {
  }

  lemma OneMoreAsked(t: Table, now: Table, turns: seq<Turn>, turn: Turn, api: (nat, seq<Payload>) -> Answer,
                     clock: nat -> int)
    requires Asked(t, turns, api, clock)
    requires Extends(t, now) && now.Keys == t.Keys && forall id | id in turn.batch :: id in now
    requires turn.answer == api(|turns|, RequestFor(now, turn.batch)) && turn.now == clock(|turns|)
    ensures Asked(t, turns + [turn], api, clock)
  {
    SameRequest(t, now, turn.batch);
  }

  function Retained(t: Table, retentionDays: int, now: int): Table {
    if retentionDays <= 0 then t else Pruned(t, now - retentionDays * DAY)
  }

  /** The request a batch becomes. */
  function RequestFor(t: Table, batch: seq<Id>): seq<Payload>
    requires forall id | id in batch :: id in t
  {
    Exchange.Request(Delivery.RequestOf(t, batch))
  }

  lemma SameRequest(t: Table, after: Table, batch: seq<Id>)
    requires Extends(t, after) && after.Keys == t.Keys && forall id | id in batch :: id in after
    ensures (forall id | id in batch :: id in t) && RequestFor(t, batch) == RequestFor(after, batch)
  {
    assert Delivery.RequestOf(t, batch) == Delivery.RequestOf(after, batch);
  }

  /** Scanning ids oldest first, the first unclaimed one is the row the sweep matches. */
  lemma FirstFree(t: Table, m: Sms, claimed: set<Id>, near: seq<Id>, i: nat)
    requires Keyed(t) && i < |near|
    requires Elements(near) == Near(t, m, InboxSweep.MATCH_WINDOW) && OldestFirst(t, near)
    requires near[i] !in claimed && forall j | 0 <= j < i :: near[j] in claimed
    ensures InboxSweep.FirstUnclaimed(t, m, claimed) == Some(near[i])
  {
    var first := InboxSweep.FirstUnclaimed(t, m, claimed);
    assert near[i] in Near(t, m, InboxSweep.MATCH_WINDOW) - claimed;
    assert first.value in near;
    var k :| 0 <= k < |near| && near[k] == first.value;
    assert k >= i;
    assert t[near[i]].sms == t[near[k]].sms;
  }

  lemma LatestGrows(found: seq<InboxMessage>, i: nat, examined: int)
    requires i < |found|
    requires i > 0 ==> Latest(found[..i], examined)
    ensures Latest(found[..i + 1], if i == 0 || found[i].storedAt > examined then found[i].storedAt else examined)
  {
    var all := found[..i + 1];
    assert all[i] == found[i];
    if i > 0 {
      var j :| 0 <= j < i && found[..i][j].storedAt == examined;
      assert all[j].storedAt == examined;
    }
  }
}
