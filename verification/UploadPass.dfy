/** The upload loop of one sync pass (TsunagiRepository.sync, applyVerdicts).

    A pass is a sequence of turns: choose a batch, mark it, upload it, apply the answer.
    `Take` is one turn; `LegalRun` is a pass against any server whatever; the theorems
    bound its length and say what it does to the queue. */
module UploadPass {
  import opened Wrappers
  import opened Identity
  import opened Wire
  import opened MessageTable
  import Ingest

  const BATCH_SIZE: nat := 100

  const DEFAULT_REASON: string := "The server refused this message."
  const PERMANENT: string := "Server permanently refused this message"

  /** The refusals that are the messages' fault, and not the device's, the link's or the load's. */
  predicate BlamesTheMessage(code: int) {
    400 <= code <= 499 && code !in {401, 403, 408, 429}
  }

  // ---- reading the server's verdicts ----

  /** A verdict names its message by id, or else by the position it was sent in. */
  function NameOf(batch: seq<Id>, r: MessageResult): Option<Id> {
    if r.id.Some? then r.id
    else if 0 <= r.index < |batch| then Some(batch[r.index])
    else None
  }

  function Refused(batch: seq<Id>, results: seq<MessageResult>): seq<(Id, string)> {
    if results == [] then [] else
      var last := results[|results| - 1];
      var name := NameOf(batch, last);
      Refused(batch, results[..|results| - 1])
      + if last.status.Rejected? && name.Some?
        then [(name.value, if last.error.Some? then last.error.value else DEFAULT_REASON)] else []
  }

  function Names(refused: seq<(Id, string)>): set<Id> {
    set i | 0 <= i < |refused| :: refused[i].0
  }

  lemma NamesGrow(refused: seq<(Id, string)>, one: (Id, string))
    ensures Names(refused + [one]) == Names(refused) + {one.0}
  {
    var all := refused + [one];
    assert all[|refused|] == one;
    forall id | id in Names(refused)
      ensures id in Names(all)
    {
      var i :| 0 <= i < |refused| && refused[i].0 == id;
      assert all[i].0 == id;
    }
  }

  /** This result refuses this message: it is a rejection, and names the message by id or,
      without one, by the position it was sent in. */
  predicate Refuses(batch: seq<Id>, r: MessageResult, id: Id) {
    && r.status.Rejected?
    && (r.id == Some(id) || (r.id.None? && 0 <= r.index < |batch| && batch[r.index] == id))
  }

  ghost predicate NamedIn(batch: seq<Id>, results: seq<MessageResult>, id: Id) {
    exists k :: 0 <= k < |results| && Refuses(batch, results[k], id)
  }

  lemma NamedInGrows(batch: seq<Id>, results: seq<MessageResult>, last: MessageResult, id: Id)
    ensures NamedIn(batch, results + [last], id) <==> NamedIn(batch, results, id) || Refuses(batch, last, id)
  {
    var all := results + [last];
    assert all[|results|] == last;
    if k :| 0 <= k < |results| && Refuses(batch, results[k], id) {
      assert all[k] == results[k];
    }
  }

  /** Which ids the phone reads as refused: those that some result refuses. */
  lemma {:induction false} RefusedNames(batch: seq<Id>, results: seq<MessageResult>)
    ensures forall id :: id in Names(Refused(batch, results)) <==> NamedIn(batch, results, id)
  {
    if results != [] {
      var n := |results| - 1;
      var had, name := Refused(batch, results[..n]), NameOf(batch, results[n]);
      RefusedNames(batch, results[..n]);
      assert results == results[..n] + [results[n]];
      if results[n].status.Rejected? && name.Some? {
        NamesGrow(had, Refused(batch, results)[|had|]);
      } else {
        assert Refused(batch, results) == had;
      }
      forall id
        ensures id in Names(Refused(batch, results)) <==> NamedIn(batch, results, id)
      {
        NamedInGrows(batch, results[..n], results[n], id);
      }
    }
  }

  /** The reason on record for a refused message is the server's own, or a stock one. */
  lemma {:induction false} RefusalReasons(batch: seq<Id>, results: seq<MessageResult>, i: nat)
    requires i < |Refused(batch, results)|
    ensures exists k :: 0 <= k < |results| && Refuses(batch, results[k], Refused(batch, results)[i].0)
                        && (results[k].error.None? ==>
                              Refused(batch, results)[i].1 == "The server refused this message.")
                        && (results[k].error.Some? ==> Refused(batch, results)[i].1 == results[k].error.value)
  {
    var n := |results| - 1;
    if i < |Refused(batch, results[..n])| {
      RefusalReasons(batch, results[..n], i);
      var k :| 0 <= k < n && Refuses(batch, results[..n][k], Refused(batch, results[..n])[i].0)
               && (results[..n][k].error.None? ==> Refused(batch, results[..n])[i].1 == DEFAULT_REASON)
               && (results[..n][k].error.Some? ==> Refused(batch, results[..n])[i].1 == results[..n][k].error.value);
      assert results[k] == results[..n][k];
    } else {
      assert Refuses(batch, results[n], Refused(batch, results)[i].0);
    }
  }

  function Without(ids: seq<Id>, out: set<Id>): seq<Id> {
    if ids == [] then [] else
      Without(ids[..|ids| - 1], out)
      + if ids[|ids| - 1] in out then [] else [ids[|ids| - 1]]
  }

  function QuarantineEach(t: Table, refused: seq<(Id, string)>): Table {
    if refused == [] then t else
      var last := refused[|refused| - 1];
      SetAside(QuarantineEach(t, refused[..|refused| - 1]), [last.0], Some(last.1))
  }

  // ---- one turn ----

  datatype Halt = Offline | Status(code: int)

  datatype Pass = Pass(table: Table, uploaded: nat, width: nat, halted: Option<Halt>)

  datatype Turn = Turn(batch: seq<Id>, answer: Answer, now: int)

  /** What the answer does once the batch is marked UPLOADING. */
  function Settle(p: Pass, batch: seq<Id>, answer: Answer, now: int): Pass {
    match answer
    case Accepted(response) =>
      if response.results.None? then
        p.(table := MarkedSynced(p.table, batch, now), uploaded := p.uploaded + |batch|)
      else
        var refused := Refused(batch, response.results.value);
        var stored := Without(batch, Names(refused));
        p.(table := QuarantineEach(MarkedSynced(p.table, stored, now), refused),
           uploaded := p.uploaded + |stored|)
    case NetworkError =>
      p.(table := MarkedFailed(p.table, batch, None), halted := Some(Offline))
    case HttpError(code) =>
      if !BlamesTheMessage(code) then
        p.(table := MarkedFailed(p.table, batch, None), halted := Some(Status(code)))
      else if |batch| > 1 then
        p.(table := MarkedFailed(p.table, batch, None), width := 1)
      else
        p.(table := SetAside(p.table, batch, Some(PERMANENT)), width := BATCH_SIZE)
  }

  function Take(p: Pass, turn: Turn): Pass {
    Settle(p.(table := MarkedUploading(p.table, turn.batch)), turn.batch, turn.answer, turn.now)
  }

  ghost predicate Legal(p: Pass, turn: Turn) {
    p.halted.None? && turn.batch != [] && IsPendingBatch(p.table, p.width, turn.batch)
  }

  function Final(p: Pass, turns: seq<Turn>): Pass {
    if turns == [] then p else Take(Final(p, turns[..|turns| - 1]), turns[|turns| - 1])
  }

  /** A pass as the loop can run it: every turn uploads a batch the queue offers at that
      moment, and nothing follows a halt. */
  ghost predicate LegalRun(p: Pass, turns: seq<Turn>) {
    turns == []
    || (LegalRun(p, turns[..|turns| - 1]) && Legal(Final(p, turns[..|turns| - 1]), turns[|turns| - 1]))
  }

  lemma {:induction false} RunExtends(p: Pass, turns: seq<Turn>, turn: Turn)
    requires LegalRun(p, turns) && Legal(Final(p, turns), turn)
    ensures LegalRun(p, turns + [turn]) && Final(p, turns + [turn]) == Take(Final(p, turns), turn)
  {
    assert (turns + [turn])[..|turns|] == turns;
  }

  ghost predicate Complete(p: Pass) {
    p.halted.Some? || Queue(p.table) == {}
  }

  /** The ids an answer refuses by name. */
  function RefusedBy(turn: Turn): set<Id> {
    if turn.answer.Accepted? && turn.answer.response.results.Some?
    then Names(Refused(turn.batch, turn.answer.response.results.value)) else {}
  }

  /** Row by row: refused rows are set aside, other rows of `ids` take status `to`, and
      nothing else changes. Content and the set of rows never change. */
  ghost predicate Moved(t: Table, after: Table, ids: set<Id>, refused: set<Id>, to: Status) {
    && after.Keys == t.Keys
    && Extends(t, after)
    && forall id | id in t ::
         if id in refused then after[id].status == Quarantined
         else if id in ids then after[id].status == to
         else after[id] == t[id]
  }

  /** The status a turn gives to the rows of its batch that it does not refuse by name. */
  function Becomes(turn: Turn): Status {
    match turn.answer
    case Accepted(_) => Synced
    case NetworkError => Failed
    case HttpError(code) => if BlamesTheMessage(code) && |turn.batch| <= 1 then Quarantined else Failed
  }

  lemma {:induction false} QuarantineEachEffect(t: Table, refused: seq<(Id, string)>)
    ensures Moved(t, QuarantineEach(t, refused), {}, Names(refused), Quarantined)
  {
    if refused != [] {
      var n := |refused| - 1;
      QuarantineEachEffect(t, refused[..n]);
      assert Names(refused) == Names(refused[..n]) + {refused[n].0};
    }
  }

  lemma {:induction false} WithoutEffect(ids: seq<Id>, out: set<Id>)
    ensures forall id :: id in Without(ids, out) <==> id in ids && id !in out
    ensures NoDuplicates(ids) ==> NoDuplicates(Without(ids, out))
  {
    if ids != [] {
      WithoutEffect(ids[..|ids| - 1], out);
    }
  }

  lemma WithoutSize(ids: seq<Id>, out: set<Id>)
    requires NoDuplicates(ids)
    ensures |Without(ids, out)| == |Elements(ids) - out|
  {
    WithoutEffect(ids, out);
    DistinctSize(Without(ids, out));
    assert Elements(Without(ids, out)) == Elements(ids) - out;
  }

  lemma VerdictsEffect(t: Table, batch: seq<Id>, stored: seq<Id>, refused: set<Id>, after: Table, now: int)
    requires forall id :: id in stored <==> id in batch && id !in refused
    requires Moved(MarkedSynced(t, stored, now), after, {}, refused, Quarantined)
    ensures Moved(t, after, Elements(batch), refused, Synced)
  {
  }

  /** Every way an answer can settle a batch. */
  lemma SettleEffect(p: Pass, turn: Turn)
    ensures Moved(p.table, Settle(p, turn.batch, turn.answer, turn.now).table,
                  Elements(turn.batch), RefusedBy(turn), Becomes(turn))
  {
    if turn.answer.Accepted? && turn.answer.response.results.Some? {
      var refused := Refused(turn.batch, turn.answer.response.results.value);
      var stored := Without(turn.batch, Names(refused));
      var mid := MarkedSynced(p.table, stored, turn.now);
      WithoutEffect(turn.batch, Names(refused));
      QuarantineEachEffect(mid, refused);
      VerdictsEffect(p.table, turn.batch, stored, Names(refused), QuarantineEach(mid, refused), turn.now);
    }
  }

  lemma StoredStamps(t: Table, batch: seq<Id>, stored: seq<Id>, refused: seq<(Id, string)>, now: int)
    requires forall id :: id in stored <==> id in batch && id !in Names(refused)
    ensures var after := QuarantineEach(MarkedSynced(t, stored, now), refused);
            forall id | id in batch && id in after && after[id].status == Synced ::
              after[id].syncedAt == Some(now) && after[id].lastError.None?
  {
    QuarantineEachEffect(MarkedSynced(t, stored, now), refused);
    hide Names, QuarantineEach;
  }

  /** A 200 counts what it does not refuse, and stamps that with the time it came. */
  lemma AcceptedStamps(p: Pass, batch: seq<Id>, response: BatchResponse, now: int)
    ensures var after := Settle(p, batch, Accepted(response), now);
            && (forall id | id in batch && id in after.table && after.table[id].status == Synced ::
                  after.table[id].syncedAt == Some(now) && after.table[id].lastError.None?)
            && (NoDuplicates(batch) ==>
                  after.uploaded
                  == p.uploaded + |Elements(batch) - RefusedBy(Turn(batch, Accepted(response), now))|)
  {
    if response.results.None? {
      if NoDuplicates(batch) {
        DistinctSize(batch);
        assert Elements(batch) - {} == Elements(batch);
      }
    } else {
      var refused := Refused(batch, response.results.value);
      var stored := Without(batch, Names(refused));
      WithoutEffect(batch, Names(refused));
      StoredStamps(p.table, batch, stored, refused, now);
      if NoDuplicates(batch) {
        WithoutSize(batch, Names(refused));
      }
    }
  }

  lemma MovedAfterMarking(t: Table, batch: seq<Id>, after: Table, refused: set<Id>, to: Status)
    requires Moved(MarkedUploading(t, batch), after, Elements(batch), refused, to)
    ensures Moved(t, after, Elements(batch), refused, to)
  {
  }

  /** Every way a turn can end. */
  lemma TurnEffect(p: Pass, turn: Turn)
    ensures Moved(p.table, Take(p, turn).table, Elements(turn.batch), RefusedBy(turn), Becomes(turn))
  {
    hide Moved, Settle;
    SettleEffect(p.(table := MarkedUploading(p.table, turn.batch)), turn);
    MovedAfterMarking(p.table, turn.batch, Take(p, turn).table, RefusedBy(turn), Becomes(turn));
  }

  /** Rows leave the queue when they move to a status outside it. */
  lemma MovedQueue(t: Table, after: Table, ids: set<Id>, refused: set<Id>, to: Status)
    requires Moved(t, after, ids, refused, to) && ids <= Queue(t)
    ensures to == Failed ==> Queue(after) == Queue(t) - refused
    ensures to == Synced || to == Quarantined ==> Queue(after) == Queue(t) - ids - refused
  {
  }

  // ---- how long a pass can be ----

  /** The most calls a pass can still need, from what is queued and how wide it uploads. */
  function Budget(queued: nat, width: nat): nat {
    if queued == 0 then 0
    else if queued == 1 then 1
    else if width == 1 then 2 * queued - 2
    else 2 * queued - 1
  }

  predicate Isolates(turn: Turn) {
    turn.answer.HttpError? && BlamesTheMessage(turn.answer.code) && |turn.batch| > 1
  }

  predicate Halts(turn: Turn) {
    turn.answer.NetworkError? || (turn.answer.HttpError? && !BlamesTheMessage(turn.answer.code))
  }

  lemma TurnControl(p: Pass, turn: Turn)
    requires p.halted.None?
    ensures Halts(turn) <==> Take(p, turn).halted.Some?
    ensures Take(p, turn).width
            == if Halts(turn) || turn.answer.Accepted? then p.width else if Isolates(turn) then 1 else BATCH_SIZE
  {
  }

  // ---- errors, code by code ----

  /** What an HTTP error does. 401 and 403 are about the device, 408 and 429 about the moment,
      and what is not a 4xx about the server: the batch is queued again, nothing is set aside
      and the pass ends. Any other 4xx is about the messages: one alone is set aside for good,
      several are queued again to go one at a time. */
  lemma ErrorByCode(p: Pass, batch: seq<Id>, code: int, now: int)
    requires Legal(p, Turn(batch, HttpError(code), now))
    ensures var after := Take(p, Turn(batch, HttpError(code), now));
            && after.table.Keys == p.table.Keys && after.uploaded == p.uploaded
            && (forall id | id in p.table && id !in batch :: after.table[id] == p.table[id])
            && (forall id | id in batch :: id in p.table && after.table[id].sms == p.table[id].sms)
            && if code < 400 || code > 499 || code in {401, 403, 408, 429} then
                 && after.halted == Some(Status(code)) && after.width == p.width
                 && forall id | id in batch :: after.table[id].status == Failed
               else if |batch| == 1 then
                 && after.halted.None? && after.width == 100 && after.table[batch[0]].status == Quarantined
               else
                 && after.halted.None? && after.width == 1
                 && forall id | id in batch :: after.table[id].status == Failed
  {
    hide Queue;
    BatchSize(p.table, p.width, batch);
    QueueIsStored(p.table);
    assert forall id | id in batch :: id in Elements(batch);
  }

  lemma QueueIsStored(t: Table)
    ensures Queue(t) <= t.Keys
  {
  }

  /** A pass ends early exactly at its last call, when that gets no answer or an error that is
      not about the messages; no earlier call of it is answered so. */
  lemma {:induction false} EndsExactlyWhen(t: Table, turns: seq<Turn>)
    requires LegalRun(Start(t), turns)
    ensures forall k | 0 <= k < |turns| - 1 ::
              || turns[k].answer.Accepted?
              || (turns[k].answer.HttpError? && 400 <= turns[k].answer.code <= 499
                  && turns[k].answer.code !in {401, 403, 408, 429})
    ensures Final(Start(t), turns).halted
         == if turns == [] then None
            else match turns[|turns| - 1].answer
              case NetworkError => Some(Offline)
              case HttpError(code) =>
                if code < 400 || code > 499 || code in {401, 403, 408, 429} then Some(Status(code)) else None
              case Accepted(_) => None
  {
    if turns != [] {
      var n := |turns| - 1;
      EndsExactlyWhen(t, turns[..n]);
      assert forall k | 0 <= k < n - 1 :: turns[k] == turns[..n][k];
    }
  }

  /** This turn sets the row aside: a 200 refuses it by name, or it is uploaded alone and the
      error is about the message. */
  ghost predicate Dooms(turn: Turn, id: Id) {
    || (turn.answer.Accepted? && turn.answer.response.results.Some?
        && NamedIn(turn.batch, turn.answer.response.results.value, id))
    || (turn.batch == [id] && turn.answer.HttpError? && 400 <= turn.answer.code <= 499
        && turn.answer.code !in {401, 403, 408, 429})
  }

  lemma MovedRow(t: Table, after: Table, ids: set<Id>, refused: set<Id>, to: Status, id: Id)
    requires Moved(t, after, ids, refused, to) && id in t
    ensures id in after
    ensures after[id].status
         == if id in refused then Quarantined else if id in ids then to else t[id].status
  {
  }

  lemma DoomedByTurn(p: Pass, turn: Turn, id: Id)
    requires Legal(p, turn) && id in p.table
    ensures id in Take(p, turn).table
    ensures Take(p, turn).table[id].status.Quarantined? <==> p.table[id].status.Quarantined? || Dooms(turn, id)
  {
    hide Take, IsPendingBatch, Moved, NamedIn, Refused;
    TurnEffect(p, turn);
    if turn.answer.Accepted? && turn.answer.response.results.Some? {
      RefusedNames(turn.batch, turn.answer.response.results.value);
    }
    assert id in RefusedBy(turn) <==> turn.answer.Accepted? && Dooms(turn, id);
    hide RefusedBy;
    BatchSize(p.table, p.width, turn.batch);
    MovedRow(p.table, Take(p, turn).table, Elements(turn.batch), RefusedBy(turn), Becomes(turn), id);
    assert id in turn.batch ==> id in Queue(p.table);
    assert |turn.batch| == 1 && id in turn.batch ==> turn.batch == [id];
  }

  /** A pass leaves a row QUARANTINED exactly when it was so before or some turn sets it aside:
      no 401, 403, 408, 429, 5xx or silence ever does. */
  lemma {:induction false} QuarantinedExactlyWhen(t: Table, turns: seq<Turn>, id: Id)
    requires LegalRun(Start(t), turns) && id in t
    ensures id in Final(Start(t), turns).table
    ensures Final(Start(t), turns).table[id].status.Quarantined?
       <==> t[id].status.Quarantined? || exists turn :: turn in turns && Dooms(turn, id)
  {
    hide Take, Legal, Dooms;
    if turns != [] {
      var n := |turns| - 1;
      QuarantinedExactlyWhen(t, turns[..n], id);
      DoomedByTurn(Final(Start(t), turns[..n]), turns[n], id);
      assert turns == turns[..n] + [turns[n]];
    }
  }

  /** A turn either halts the pass, narrows it to one message, or takes its batch off the queue. */
  lemma TurnShrinksQueue(p: Pass, turn: Turn)
    requires Legal(p, turn)
    ensures Elements(turn.batch) <= Queue(p.table)
    ensures Halts(turn) || Isolates(turn) ==> Queue(Take(p, turn).table) == Queue(p.table)
    ensures !Halts(turn) && !Isolates(turn) ==>
              Queue(Take(p, turn).table) == Queue(p.table) - Elements(turn.batch) - RefusedBy(turn)
  {
    hide Take, Moved, IsPendingBatch, Queue;
    TurnEffect(p, turn);
    BatchSize(p.table, p.width, turn.batch);
    MovedQueue(p.table, Take(p, turn).table, Elements(turn.batch), RefusedBy(turn), Becomes(turn));
    if Halts(turn) || Isolates(turn) {
      assert RefusedBy(turn) == {} && Becomes(turn) == Failed;
    }
  }

  lemma TurnSpendsBudget(p: Pass, turn: Turn)
    requires Legal(p, turn) && p.width >= 1
    ensures Take(p, turn).width >= 1
    ensures Take(p, turn).halted.None? ==>
              Budget(|Queue(Take(p, turn).table)|, Take(p, turn).width) < Budget(|Queue(p.table)|, p.width)
    ensures Budget(|Queue(p.table)|, p.width) >= 1
  {
    hide Take, IsPendingBatch, Queue;
    TurnControl(p, turn);
    TurnShrinksQueue(p, turn);
    BatchSize(p.table, p.width, turn.batch);
    if !Halts(turn) && !Isolates(turn) {
      SubsetSize(Queue(Take(p, turn).table), Queue(p.table) - Elements(turn.batch));
    }
  }

  lemma {:induction false} RunSpendsBudget(p: Pass, turns: seq<Turn>)
    requires p.width >= 1 && LegalRun(p, turns)
    ensures Final(p, turns).width >= 1
    ensures Final(p, turns).halted.None? ==>
              |turns| + Budget(|Queue(Final(p, turns).table)|, Final(p, turns).width)
              <= Budget(|Queue(p.table)|, p.width)
    ensures |turns| <= Budget(|Queue(p.table)|, p.width)
  {
    if turns != [] {
      var n := |turns| - 1;
      RunSpendsBudget(p, turns[..n]);
      TurnSpendsBudget(Final(p, turns[..n]), turns[n]);
    }
  }

  function Start(t: Table): Pass {
    Pass(t, 0, BATCH_SIZE, None)
  }

  /** Against any server at all, a pass over n queued rows makes at most 2n - 1 upload calls. */
  lemma CallsAreBounded(t: Table, turns: seq<Turn>)
    requires LegalRun(Start(t), turns)
    ensures |turns| <= if |Queue(t)| == 0 then 0 else 2 * |Queue(t)| - 1
  {
    RunSpendsBudget(Start(t), turns);
  }

  lemma {:induction false} RunsCompose(p: Pass, first: seq<Turn>, second: seq<Turn>)
    requires LegalRun(p, first) && LegalRun(Final(p, first), second)
    ensures LegalRun(p, first + second)
    ensures Final(p, first + second) == Final(Final(p, first), second)
  {
    hide Take, Legal;
    if second == [] {
      assert first + second == first;
    } else {
      var n := |second| - 1;
      RunsCompose(p, first, second[..n]);
      assert (first + second)[..|first + second| - 1] == first + second[..n];
    }
  }

  lemma SingleTurn(p: Pass, turn: Turn)
    requires Legal(p, turn)
    ensures LegalRun(p, [turn]) && Final(p, [turn]) == Take(p, turn)
  {
    assert [turn][..0] == [] && Final(p, []) == p;
  }

  /** A server refusing on contents costs two calls to be rid of one message of several. */
  lemma {:induction false} OneMessageCostsTwoCalls(p: Pass) returns (turns: seq<Turn>)
    requires p.halted.None? && p.width == BATCH_SIZE && |Queue(p.table)| >= 2
    ensures LegalRun(p, turns) && |turns| == 2
            && turns == [Turn(turns[0].batch, HttpError(422), 0), Turn(turns[1].batch, HttpError(422), 0)]
    ensures Final(p, turns).halted.None? && Final(p, turns).width == BATCH_SIZE
    ensures |Queue(Final(p, turns).table)| == |Queue(p.table)| - 1
  {
    hide Take;
    var wide := OldestExists(p.table, Queue(p.table), p.width);
    BatchSize(p.table, p.width, wide);
    var first := Turn(wide, HttpError(422), 0);
    TurnControl(p, first);
    TurnShrinksQueue(p, first);
    SingleTurn(p, first);
    var narrow := Take(p, first);
    var second := LastMessage(narrow);
    SingleTurn(narrow, second);
    RunsCompose(p, [first], [second]);
    turns := [first] + [second];
  }

  /** A lone message refused on its contents leaves the queue in one call. */
  lemma LastMessage(p: Pass) returns (turn: Turn)
    requires p.halted.None? && p.width >= 1 && Queue(p.table) != {}
    requires p.width == 1 || |Queue(p.table)| == 1
    ensures Legal(p, turn) && turn == Turn(turn.batch, HttpError(422), 0)
    ensures Take(p, turn).halted.None? && Take(p, turn).width == BATCH_SIZE
    ensures |Queue(Take(p, turn).table)| == |Queue(p.table)| - 1
  {
    var batch := OldestExists(p.table, Queue(p.table), p.width);
    BatchSize(p.table, p.width, batch);
    turn := Turn(batch, HttpError(422), 0);
    TurnControl(p, turn);
    TurnShrinksQueue(p, turn);
    assert Queue(Take(p, turn).table) == Queue(p.table) - Elements(batch);
  }

  /** The bound is attained: a server that refuses every upload on its contents costs exactly
      2n - 1 calls, two for each message but the last. */
  lemma {:induction false} BoundIsAttained(p: Pass) returns (turns: seq<Turn>)
    requires p.halted.None? && p.width == BATCH_SIZE && Queue(p.table) != {}
    ensures LegalRun(p, turns) && |turns| == 2 * |Queue(p.table)| - 1
    ensures forall turn | turn in turns :: turn.answer == HttpError(422)
    ensures Complete(Final(p, turns))
    decreases |Queue(p.table)|
  {
    if |Queue(p.table)| == 1 {
      var turn := LastMessage(p);
      SingleTurn(p, turn);
      turns := [turn];
    } else {
      var two := OneMessageCostsTwoCalls(p);
      var rest := BoundIsAttained(Final(p, two));
      RunsCompose(p, two, rest);
      turns := two + rest;
    }
  }

  /** An answer that takes the whole batch or names only messages of the batch. */
  predicate WellFormed(turn: Turn) {
    turn.answer.Accepted? && RefusedBy(turn) <= Elements(turn.batch)
  }

  lemma AcceptedTurn(p: Pass, turn: Turn)
    requires Legal(p, turn) && WellFormed(turn)
    ensures Take(p, turn).width == p.width && Take(p, turn).halted.None?
    ensures |Queue(Take(p, turn).table)| == |Queue(p.table)| - Min(p.width, |Queue(p.table)|)
    ensures Queue(p.table) != {}
  {
    hide Take, IsPendingBatch, Queue;
    TurnControl(p, turn);
    TurnShrinksQueue(p, turn);
    BatchSize(p.table, p.width, turn.batch);
    assert Queue(p.table) - Elements(turn.batch) - RefusedBy(turn) == Queue(p.table) - Elements(turn.batch);
  }

  lemma {:induction false} AcceptedRun(p: Pass, turns: seq<Turn>)
    requires LegalRun(p, turns) && p.halted.None? && p.width == BATCH_SIZE
    requires forall turn | turn in turns :: WellFormed(turn)
    ensures Final(p, turns).width == BATCH_SIZE && Final(p, turns).halted.None?
    ensures var left := |Queue(Final(p, turns).table)|;
            if left > 0 then |Queue(p.table)| == left + |turns| * BATCH_SIZE
            else turns != [] ==> (|turns| - 1) * BATCH_SIZE < |Queue(p.table)| <= |turns| * BATCH_SIZE
  {
    if turns != [] {
      var n := |turns| - 1;
      AcceptedRun(p, turns[..n]);
      AcceptedTurn(Final(p, turns[..n]), turns[n]);
    }
  }

  /** When every call is answered 200, a complete pass over n rows makes exactly
      ceil(n / 100) calls. */
  lemma AcceptedPassLength(t: Table, turns: seq<Turn>)
    requires LegalRun(Start(t), turns) && Complete(Final(Start(t), turns))
    requires forall turn | turn in turns :: WellFormed(turn)
    ensures |turns| == (|Queue(t)| + BATCH_SIZE - 1) / BATCH_SIZE
  {
    AcceptedRun(Start(t), turns);
  }

  // ---- what a pass does, against a server that judges each message ----

  /** The answer is one a server can give that accepts exactly the messages `valid` holds of:
      it stores the whole batch, or names exactly the bad ones, or refuses the batch whole. */
  ghost predicate JudgedBy(valid: Id -> bool, turn: Turn) {
    match turn.answer
    case NetworkError => false
    case HttpError(code) => BlamesTheMessage(code) && exists id | id in turn.batch :: !valid(id)
    case Accepted(response) =>
      if response.results.None? then forall id | id in turn.batch :: valid(id)
      else RefusedBy(turn) == set id | id in turn.batch && !valid(id)
  }

  ghost predicate AllJudged(valid: Id -> bool, turns: seq<Turn>) {
    forall turn | turn in turns :: JudgedBy(valid, turn)
  }

  /** The outcome the queue should have: good messages up, bad ones set aside. */
  function Judged(valid: Id -> bool, r: Row, id: Id): Status {
    if !Queued(r) then r.status else if valid(id) then Synced else Quarantined
  }

  function Good(valid: Id -> bool, t: Table): set<Id> {
    set id | id in Queue(t) && valid(id)
  }

  ghost predicate SameFate(valid: Id -> bool, t: Table, after: Table) {
    && after.Keys == t.Keys && Extends(t, after)
    && (forall id | id in t :: Judged(valid, after[id], id) == Judged(valid, t[id], id))
    && (forall id | id in t && !Queued(t[id]) :: after[id] == t[id])
  }

  /** A judged turn moves rows only toward the end they were bound for. */
  lemma JudgedMove(valid: Id -> bool, t: Table, after: Table, ids: set<Id>, refused: set<Id>, to: Status)
    requires Moved(t, after, ids, refused, to) && ids <= Queue(t) && refused <= ids
    requires forall id | id in refused :: !valid(id)
    requires to == Failed || (to == Synced && forall id | id in ids - refused :: valid(id))
             || (to == Quarantined && forall id | id in ids :: !valid(id))
    ensures SameFate(valid, t, after)
    ensures to == Synced ==> Good(valid, after) == Good(valid, t) - (ids - refused) && ids - refused <= Good(valid, t)
    ensures to != Synced ==> Good(valid, after) == Good(valid, t)
  {
  }

  /** `uploaded` grows by the messages a 200 did not refuse. */
  lemma UploadedByTurn(p: Pass, turn: Turn)
    requires NoDuplicates(turn.batch)
    ensures Take(p, turn).uploaded
            == p.uploaded + if turn.answer.Accepted? then |Elements(turn.batch) - RefusedBy(turn)| else 0
  {
    if turn.answer.Accepted? {
      WithoutSize(turn.batch, RefusedBy(turn));
      DistinctSize(turn.batch);
      assert Elements(turn.batch) - {} == Elements(turn.batch);
    }
  }

  lemma SplitSize<T>(all: set<T>, part: set<T>)
    requires part <= all
    ensures |all - part| + |part| == |all|
  {
    assert all == (all - part) + part;
  }

  /** What a judged answer says about its batch. */
  lemma JudgedVerdict(valid: Id -> bool, turn: Turn)
    requires JudgedBy(valid, turn) && turn.batch != []
    ensures !Halts(turn)
    ensures RefusedBy(turn) <= Elements(turn.batch) && forall id | id in RefusedBy(turn) :: !valid(id)
    ensures Becomes(turn) == Failed
            || (Becomes(turn) == Synced && forall id | id in Elements(turn.batch) - RefusedBy(turn) :: valid(id))
            || (Becomes(turn) == Quarantined && forall id | id in Elements(turn.batch) :: !valid(id))
    ensures Becomes(turn) == Synced <==> turn.answer.Accepted?
  {
    if turn.answer.HttpError? && |turn.batch| == 1 {
      assert forall id | id in turn.batch :: id == turn.batch[0];
    }
  }

  lemma JudgedTurn(valid: Id -> bool, p: Pass, turn: Turn)
    requires Legal(p, turn) && JudgedBy(valid, turn)
    ensures Take(p, turn).halted.None?
    ensures SameFate(valid, p.table, Take(p, turn).table)
    ensures Take(p, turn).uploaded + |Good(valid, Take(p, turn).table)| == p.uploaded + |Good(valid, p.table)|
  {
    hide Take, Moved, SameFate, Good, IsPendingBatch, Queue, JudgedBy, RefusedBy, Becomes;
    var batch, refused := Elements(turn.batch), RefusedBy(turn);
    JudgedVerdict(valid, turn);
    TurnControl(p, turn);
    TurnEffect(p, turn);
    BatchSize(p.table, p.width, turn.batch);
    UploadedByTurn(p, turn);
    JudgedMove(valid, p.table, Take(p, turn).table, batch, refused, Becomes(turn));
    if turn.answer.Accepted? {
      SplitSize(Good(valid, p.table), batch - refused);
    }
  }

  lemma {:induction false} JudgedRun(valid: Id -> bool, p: Pass, turns: seq<Turn>)
    requires LegalRun(p, turns) && p.halted.None?
    requires AllJudged(valid, turns)
    ensures Final(p, turns).halted.None?
    ensures SameFate(valid, p.table, Final(p, turns).table)
    ensures Final(p, turns).uploaded + |Good(valid, Final(p, turns).table)| == p.uploaded + |Good(valid, p.table)|
  {
    hide Take, Good, JudgedBy;
    if turns != [] {
      var n := |turns| - 1;
      JudgedRun(valid, p, turns[..n]);
      JudgedTurn(valid, Final(p, turns[..n]), turns[n]);
    }
  }

  function Statuses(t: Table): map<Id, Status> {
    map id | id in t :: t[id].status
  }

  /** Where every row belongs: valid queued rows SYNCED, invalid ones QUARANTINED, the rest
      where they were. */
  function JudgedStatuses(valid: Id -> bool, t: Table): map<Id, Status> {
    map id | id in t :: Judged(valid, t[id], id)
  }

  lemma EmptyQueueIsJudged(valid: Id -> bool, t: Table, after: Table)
    requires SameFate(valid, t, after) && Queue(after) == {}
    ensures Statuses(after) == JudgedStatuses(valid, t) && Good(valid, after) == {}
  {
    forall id | id in t
      ensures after[id].status == Judged(valid, t[id], id)
    {
      assert id !in Queue(after);
    }
  }

  /** Whatever mixture of whole-batch refusals and per-message verdicts the server uses,
      a complete pass takes the queue to one and the same end. */
  lemma PassIsDeterminedByValidity(valid: Id -> bool, t: Table, turns: seq<Turn>)
    requires LegalRun(Start(t), turns) && Complete(Final(Start(t), turns))
    requires AllJudged(valid, turns)
    ensures Statuses(Final(Start(t), turns).table) == JudgedStatuses(valid, t)
    ensures Extends(t, Final(Start(t), turns).table)
    ensures forall id | id in t && !Queued(t[id]) ::
              id in Final(Start(t), turns).table && Final(Start(t), turns).table[id] == t[id]
    ensures Final(Start(t), turns).uploaded == |Good(valid, t)|
  {
    hide Final, LegalRun, AllJudged;
    JudgedRun(valid, Start(t), turns);
    EmptyQueueIsJudged(valid, t, Final(Start(t), turns).table);
  }

  ghost predicate AllOrNothing(turns: seq<Turn>) {
    forall turn | turn in turns :: turn.answer.Accepted? ==> turn.answer.response.results.None?
  }

  ghost predicate PerMessage(turns: seq<Turn>) {
    forall turn | turn in turns :: turn.answer.Accepted?
  }

  ghost predicate CompleteRun(t: Table, turns: seq<Turn>) {
    LegalRun(Start(t), turns) && Complete(Final(Start(t), turns))
  }

  lemma PerMessageLength(valid: Id -> bool, t: Table, turns: seq<Turn>)
    requires CompleteRun(t, turns) && AllJudged(valid, turns) && PerMessage(turns)
    ensures |turns| == (|Queue(t)| + BATCH_SIZE - 1) / BATCH_SIZE
  {
    forall turn | turn in turns
      ensures WellFormed(turn)
    {
      assert JudgedBy(valid, turn);
    }
    AcceptedPassLength(t, turns);
  }

  /** Isolation refines verdicts: an all-or-nothing server and one that reports per message
      leave the same statuses and the same count. Only the number of calls differs: at most
      2n - 1 against one in every hundred. */
  lemma IsolationRefinesVerdicts(valid: Id -> bool, t: Table, strict: seq<Turn>, partial: seq<Turn>)
    requires CompleteRun(t, strict) && AllJudged(valid, strict) && AllOrNothing(strict)
    requires CompleteRun(t, partial) && AllJudged(valid, partial) && PerMessage(partial)
    ensures Statuses(Final(Start(t), strict).table) == Statuses(Final(Start(t), partial).table)
    ensures Final(Start(t), strict).uploaded == Final(Start(t), partial).uploaded
    ensures |strict| <= 2 * |Queue(t)|
    ensures |partial| == (|Queue(t)| + BATCH_SIZE - 1) / BATCH_SIZE
  {
    hide Final, LegalRun, Statuses, JudgedStatuses, AllJudged, AllOrNothing, PerMessage, Queue;
    assert |strict| <= 2 * |Queue(t)| by {
      CallsAreBounded(t, strict);
    }
    assert |partial| == (|Queue(t)| + BATCH_SIZE - 1) / BATCH_SIZE by {
      PerMessageLength(valid, t, partial);
    }
    PassIsDeterminedByValidity(valid, t, strict);
    PassIsDeterminedByValidity(valid, t, partial);
  }
}
