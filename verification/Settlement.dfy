/** Settling an upload one SQL statement at a time (TsunagiRepository.applyVerdicts and the
    handlers of the upload loop). The process can die between two of them, and another pass
    can run its own in between. */
module Settlement {
  import opened Wrappers
  import opened Identity
  import opened Wire
  import opened MessageTable
  import opened UploadPass

  datatype Statement =
    | ToSynced(ids: seq<Id>, at: int)
    | ToFailed(ids: seq<Id>)
    | ToQuarantine(ids: seq<Id>, reason: string)

  function Executed(t: Table, s: Statement): Table {
    match s
    case ToSynced(ids, at) => MarkedSynced(t, ids, at)
    case ToFailed(ids) => MarkedFailed(t, ids, None)
    case ToQuarantine(ids, reason) => SetAside(t, ids, Some(reason))
  }

  /** One quarantine for each message refused. */
  function Quarantines(refused: seq<(Id, string)>): seq<Statement> {
    seq(|refused|, i requires 0 <= i < |refused| => ToQuarantine([refused[i].0], refused[i].1))
  }

  /** applyVerdicts: what was stored first, unless that is nothing, and then each refusal. */
  function Verdicts(stored: seq<Id>, refused: seq<(Id, string)>, now: int): seq<Statement> {
    (if stored == [] then [] else [ToSynced(stored, now)]) + Quarantines(refused)
  }

  /** The statements an answer about this batch leads to, in order. */
  function Plan(batch: seq<Id>, answer: Answer, now: int): seq<Statement> {
    match answer
    case NetworkError => [ToFailed(batch)]
    case HttpError(code) =>
      if BlamesTheMessage(code) && |batch| <= 1 then [ToQuarantine(batch, PERMANENT)] else [ToFailed(batch)]
    case Accepted(response) =>
      if response.results.None? then [ToSynced(batch, now)]
      else
        var refused := Refused(batch, response.results.value);
        Verdicts(Without(batch, Names(refused)), refused, now)
  }

  function Ran(t: Table, plan: seq<Statement>): Table {
    if plan == [] then t else Executed(Ran(t, plan[..|plan| - 1]), plan[|plan| - 1])
  }

  lemma {:induction false} RanFirst(t: Table, plan: seq<Statement>)
    requires plan != []
    ensures Ran(t, plan) == Ran(Executed(t, plan[0]), plan[1..])
  {
    if |plan| == 1 {
      assert plan[..0] == [] && plan[1..] == [];
    } else {
      RanFirst(t, plan[..|plan| - 1]);
      assert plan[..|plan| - 1][1..] == plan[1..][..|plan| - 2];
    }
  }

  lemma {:induction false} QuarantinesRun(t: Table, refused: seq<(Id, string)>)
    ensures Ran(t, Quarantines(refused)) == QuarantineEach(t, refused)
  {
    if refused != [] {
      var n := |refused| - 1;
      QuarantinesRun(t, refused[..n]);
      assert Quarantines(refused)[..n] == Quarantines(refused[..n]);
    }
  }

  lemma OneStatementRuns(t: Table, s: Statement)
    ensures Ran(t, [s]) == Executed(t, s)
  {
    assert [s][..0] == [] && Ran(t, []) == t;
  }

  lemma VerdictsRun(t: Table, stored: seq<Id>, refused: seq<(Id, string)>, now: int)
    ensures Ran(t, Verdicts(stored, refused, now)) == QuarantineEach(MarkedSynced(t, stored, now), refused)
  {
    QuarantinesRun(MarkedSynced(t, stored, now), refused);
    if stored == [] {
      assert MarkedSynced(t, [], now) == t;
      assert Verdicts(stored, refused, now) == Quarantines(refused);
    } else {
      RanFirst(t, Verdicts(stored, refused, now));
      assert Verdicts(stored, refused, now)[1..] == Quarantines(refused);
    }
  }

  /** Run to the end with nothing in between, the statements do what one turn of the upload
      loop is specified to do. */
  lemma PlanSettles(p: Pass, batch: seq<Id>, answer: Answer, now: int)
    ensures Ran(p.table, Plan(batch, answer, now)) == Settle(p, batch, answer, now).table
  {
    hide Ran, Verdicts, MarkedSynced, MarkedFailed, SetAside, Refused, Without, QuarantineEach;
    if answer.Accepted? && answer.response.results.Some? {
      var refused := Refused(batch, answer.response.results.value);
      VerdictsRun(p.table, Without(batch, Names(refused)), refused, now);
    } else {
      OneStatementRuns(p.table, Plan(batch, answer, now)[0]);
    }
  }

  function Outcome(s: Statement): Status {
    match s
    case ToSynced(_, _) => Synced
    case ToFailed(_) => Failed
    case ToQuarantine(_, _) => Quarantined
  }

  /** A statement changes the status of the rows it names, and of no other. */
  lemma ExecutedEffect(t: Table, s: Statement)
    ensures Executed(t, s).Keys == t.Keys && Extends(t, Executed(t, s))
    ensures forall id | id in t && id in s.ids ::
              Executed(t, s)[id].status == Outcome(s)
    ensures forall id | id in t && id !in s.ids :: Executed(t, s)[id] == t[id]
  {
  }

  /** Who a plan is about: rows are confirmed only if they were sent and not refused, and no
      row is named that was neither sent nor refused. */
  lemma PlanNames(batch: seq<Id>, answer: Answer, now: int, s: Statement)
    requires s in Plan(batch, answer, now)
    ensures forall id | id in s.ids :: id in batch || id in RefusedBy(Turn(batch, answer, now))
    ensures s.ToSynced? ==>
              answer.Accepted?
              && forall id | id in s.ids :: id in batch && id !in RefusedBy(Turn(batch, answer, now))
  {
    if answer.Accepted? && answer.response.results.Some? {
      var refused := Refused(batch, answer.response.results.value);
      WithoutEffect(batch, Names(refused));
      if s.ToQuarantine? {
        assert s in Quarantines(refused);
        var i :| 0 <= i < |refused| && s == ToQuarantine([refused[i].0], refused[i].1);
      }
    }
  }
}
