/** One upload call seen from both ends: what the phone puts in a request
    (TsunagiRepository.toUpload) and what the server makes of it (upload_batch). The
    hypotheses the upload loop makes about its server are discharged here. */
module Exchange {
  import opened Wrappers
  import opened Identity
  import opened Wire
  import opened MessageTable
  import opened UploadPass
  import Ingest

  /** The instants a server timestamp can hold: years 1 to 9999, in milliseconds. */
  const EARLIEST: int := -62135596800000
  const LATEST: int := 253402300799999

  predicate Representable(ms: int) {
    EARLIEST <= ms <= LATEST
  }

  /** Days of the Gregorian calendar before the first of January of a year. */
  function DaysBefore(year: nat): int
    requires year >= 1
  {
    365 * (year - 1) + (year - 1) / 4 - (year - 1) / 100 + (year - 1) / 400
  }

  /** A timestamp parses exactly when it falls in the years 1 to 9999, counting the milliseconds
      from the start of 1970. */
  lemma CalendarBounds(ms: int)
    ensures Representable(ms)
       <==> (DaysBefore(1) - DaysBefore(1970)) * 86400000 <= ms < (DaysBefore(10000) - DaysBefore(1970)) * 86400000
  {
  }

  /** A row as JSON. A timestamp outside the server's calendar does not parse there. */
  function ToUpload(id: Id, m: Sms): Payload {
    Payload(Some(id), if Representable(m.receivedAt) then Some(m) else None)
  }

  function Request(sent: seq<Upload>): seq<Payload> {
    seq(|sent|, k requires 0 <= k < |sent| => ToUpload(sent[k].id, sent[k].sms))
  }

  function IdsOf(sent: seq<Upload>): (ids: seq<Id>)
    ensures |ids| == |sent|
  {
    seq(|sent|, k requires 0 <= k < |sent| => sent[k].id)
  }

  /** What it takes for the server to store a message. */
  predicate Acceptable(m: Sms) {
    |m.sender| >= 1 && Representable(m.receivedAt)
  }

  /** Which rows the server takes: those with a sender whose time is in its calendar. */
  lemma TakenExactly(id: Id, m: Sms)
    ensures Ingest.Malformed(ToUpload(id, m))
       <==> || m.sender == ""
            || m.receivedAt < (DaysBefore(1) - DaysBefore(1970)) * 86400000
            || m.receivedAt >= (DaysBefore(10000) - DaysBefore(1970)) * 86400000
    ensures Acceptable(m) <==> !Ingest.Malformed(ToUpload(id, m))
    ensures Ingest.Valid(ToUpload(id, m)) <==> Acceptable(m)
  {
    CalendarBounds(m.receivedAt);
  }

  predicate AnyInvalid(payloads: seq<Payload>) {
    exists i :: 0 <= i < |payloads| && !Ingest.Valid(payloads[i])
  }

  predicate Turned(payloads: seq<Payload>, partial: bool) {
    |payloads| == 0 || |payloads| > Ingest.MAX_BATCH || (!partial && AnyInvalid(payloads))
  }

  /** The server's answer. `partial` is false for a server too old to know the field. */
  function Reply(s: Ingest.Store, device: string, payloads: seq<Payload>, partial: bool): Answer {
    if Turned(payloads, partial) then HttpError(422)
    else Accepted(Ingest.Response(s, device, payloads, partial))
  }

  function StoreAfter(s: Ingest.Store, device: string, payloads: seq<Payload>, partial: bool): Ingest.Store {
    if Turned(payloads, partial) then s else Ingest.Ingested(s, device, Ingest.Uploads(payloads))
  }

  /** `UploadBatch` answers and stores as these two functions say. */
  method Serve(server: Ingest.MessageStore, device: string, payloads: seq<Payload>, partial: bool)
    returns (answer: Answer)
    modifies server
    ensures answer == Reply(old(server.rows), device, payloads, partial)
    ensures server.rows == StoreAfter(old(server.rows), device, payloads, partial)
  {
    var outcome := server.UploadBatch(device, payloads, partial);
    match outcome
    case Refused(code) => answer := HttpError(code);
    case Answered(response) => answer := Accepted(response);
  }

  lemma ValidRequest(sent: seq<Upload>, k: nat)
    requires k < |sent|
    ensures Ingest.Valid(Request(sent)[k]) <==> Acceptable(sent[k].sms)
  {
  }

  lemma NamedVerdicts(sent: seq<Upload>, verdicts: seq<MessageResult>)
    requires |sent| == |verdicts|
    requires forall k, id | 0 <= k < |sent| ::
               Refuses(IdsOf(sent), verdicts[k], id) <==> !Acceptable(sent[k].sms) && id == sent[k].id
    ensures forall id :: NamedIn(IdsOf(sent), verdicts, id) <==> id in Unacceptable(sent)
  {
    hide Acceptable, Refuses;
    forall id | id in Unacceptable(sent)
      ensures NamedIn(IdsOf(sent), verdicts, id)
    {
      var k :| 0 <= k < |sent| && !Acceptable(sent[k].sms) && sent[k].id == id;
      assert Refuses(IdsOf(sent), verdicts[k], id);
    }
  }

  /** The ids of a request whose messages the server will not take. */
  function Unacceptable(sent: seq<Upload>): set<Id> {
    set k | 0 <= k < |sent| && !Acceptable(sent[k].sms) :: sent[k].id
  }

  /** The phone's turn with this request, as the server answers it. */
  function Exchanged(s: Ingest.Store, device: string, sent: seq<Upload>, partial: bool, now: int): Turn {
    Turn(IdsOf(sent), Reply(s, device, Request(sent), partial), now)
  }

  /** A reply's verdicts refuse exactly the unacceptable messages of the request, so a
      rejected id always names a row of the batch. */
  lemma RefusedAreUnacceptable(s: Ingest.Store, device: string, sent: seq<Upload>, partial: bool, now: int)
    requires Exchanged(s, device, sent, partial, now).answer.Accepted?
    ensures RefusedBy(Exchanged(s, device, sent, partial, now)) == Unacceptable(sent)
  {
    var payloads := Request(sent);
    var verdicts := Ingest.Verdicts(s, device, payloads);
    forall k, id | 0 <= k < |sent|
      ensures Refuses(IdsOf(sent), verdicts[k], id) <==> !Acceptable(sent[k].sms) && id == sent[k].id
    {
      ValidRequest(sent, k);
    }
    hide Refuses;
    if partial {
      RefusedNames(IdsOf(sent), verdicts);
      NamedVerdicts(sent, verdicts);
    } else {
      assert !AnyInvalid(payloads);
      forall k | 0 <= k < |sent|
        ensures Acceptable(sent[k].sms)
      {
        ValidRequest(sent, k);
      }
    }
  }

  lemma UnacceptableById(sent: seq<Upload>, valid: Id -> bool)
    requires forall k | 0 <= k < |sent| :: valid(sent[k].id) == Acceptable(sent[k].sms)
    ensures Unacceptable(sent) == set id | id in IdsOf(sent) && !valid(id)
  {
    hide Acceptable;
    forall id | id in IdsOf(sent) && !valid(id)
      ensures id in Unacceptable(sent)
    {
      var k :| 0 <= k < |sent| && IdsOf(sent)[k] == id;
      assert sent[k].id == id;
    }
    forall id | id in Unacceptable(sent)
      ensures id in IdsOf(sent) && !valid(id)
    {
      var k :| 0 <= k < |sent| && !Acceptable(sent[k].sms) && sent[k].id == id;
      assert IdsOf(sent)[k] == id;
    }
  }

  /** Whichever way it reports, the server judges each message on its own: its answer is one
      the upload loop's theorems cover. */
  lemma ServerJudges(s: Ingest.Store, device: string, sent: seq<Upload>, partial: bool, now: int, valid: Id -> bool)
    requires 1 <= |sent| <= BATCH_SIZE
    requires forall k | 0 <= k < |sent| :: valid(sent[k].id) == Acceptable(sent[k].sms)
    ensures JudgedBy(valid, Exchanged(s, device, sent, partial, now))
  {
    var turn := Exchanged(s, device, sent, partial, now);
    if turn.answer.Accepted? {
      RefusedAreUnacceptable(s, device, sent, partial, now);
      UnacceptableById(sent, valid);
      if turn.answer.response.results.None? {
        forall id | id in turn.batch
          ensures valid(id)
        {
          assert id !in Unacceptable(sent);
        }
      }
    } else {
      var i :| 0 <= i < |sent| && !Ingest.Valid(Request(sent)[i]);
      ValidRequest(sent, i);
      assert !valid(turn.batch[i]);
    }
  }

  /** What a 200 does not refuse is in the store when the answer is given. */
  lemma NotRefusedIsStored(s: Ingest.Store, device: string, sent: seq<Upload>, partial: bool, k: nat)
    requires k < |sent|
    requires Exchanged(s, device, sent, partial, 0).answer.Accepted?
    requires sent[k].id !in RefusedBy(Exchanged(s, device, sent, partial, 0))
    ensures sent[k].id in StoreAfter(s, device, Request(sent), partial)
  {
    var payloads := Request(sent);
    RefusedAreUnacceptable(s, device, sent, partial, 0);
    ValidRequest(sent, k);
    Ingest.UploadsOfPrefix(payloads, |payloads|);
    Ingest.IngestedContents(s, device, Ingest.Uploads(payloads));
    assert payloads[k].id.value == sent[k].id;
  }
}
