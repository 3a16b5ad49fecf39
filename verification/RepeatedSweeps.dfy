/** Sweeping a second time with something changed in between (TsunagiRepository.backfill): a new
    message read among the old ones, or rows pruned. Every sweep re-reads the ten minutes up to
    its watermark, because messages can be written just behind one already read. */
module RepeatedSweeps {
  import opened Wrappers
  import opened Identity
  import opened MessageTable
  import opened InboxSweep

  // ---- a newcomer among the candidates ----

  lemma FirstIsUnique(t: Table, m: Sms, claimed: set<Id>, row: Id)
    requires Keyed(t) && row in Near(t, m, MATCH_WINDOW) - claimed
    requires forall other | other in Near(t, m, MATCH_WINDOW) - claimed ::
               t[row].sms.receivedAt <= t[other].sms.receivedAt
    ensures FirstUnclaimed(t, m, claimed) == Some(row)
  {
    var first := FirstUnclaimed(t, m, claimed).value;
    assert t[first].sms == t[row].sms;
  }

  /** With one more row claimed, a candidate is matched as before unless that row was its own. */
  lemma SameMatch(t: Table, m: Sms, claimed: set<Id>, extra: Id)
    requires Keyed(t) && FirstUnclaimed(t, m, claimed) != Some(extra)
    ensures FirstUnclaimed(t, m, claimed + {extra}) == FirstUnclaimed(t, m, claimed)
  {
    var first := FirstUnclaimed(t, m, claimed);
    if first.Some? {
      FirstIsUnique(t, m, claimed + {extra}, first.value);
    } else {
      assert Near(t, m, MATCH_WINDOW) - (claimed + {extra}) == {};
    }
  }

  /** Which of `rest` is left without a row when one that the sweep had free is taken from it:
      the candidate that would have matched it moves on to its next free row, the one that would
      have matched that moves on in turn, until a candidate has none left, or reaches its own. */
  ghost function Displaced(s: Sweep, taken: Id, rest: seq<Sms>): Option<Sms>
    decreases |rest|
  {
    if rest == [] then None
    else
      var m, next := rest[0], Examined(s, rest[0]);
      if Of(m) in s.table then
        if Of(m) == taken then None else Displaced(next, taken, rest[1..])
      else if FirstUnclaimed(s.table, m, s.claimed) != Some(taken) then Displaced(next, taken, rest[1..])
      else match FirstUnclaimed(s.table, m, s.claimed + {taken})
        case None => Some(m)
        case Some(other) => Displaced(next, other, rest[1..])
  }

  function IdsOfOption(m: Option<Sms>): set<Id> {
    if m.Some? then {Of(m.value)} else {}
  }

  lemma SweptFirst(s: Sweep, rest: seq<Sms>)
    requires rest != []
    ensures Swept(s, rest) == Swept(Examined(s, rest[0]), rest[1..])
  {
    SweptAppend(s, [rest[0]], rest[1..]);
    assert [rest[0]] + rest[1..] == rest;
    NothingSwept(s);
    SweptGrows(s, [], rest[0]);
    assert [] + [rest[0]] == [rest[0]];
  }

  /** A sweep that stores nothing stores nothing at any step. */
  lemma StoresNothingYet(s: Sweep, rest: seq<Sms>)
    requires rest != [] && Swept(s, rest).table == s.table
    ensures Examined(s, rest[0]).table == s.table && Swept(Examined(s, rest[0]), rest[1..]).table == s.table
  {
    hide Of, Examined;
    SweptFirst(s, rest);
    LookOnlyAdds(s, rest[0]);
    SweepOnlyAdds(Examined(s, rest[0]), rest[1..]);
    assert Examined(s, rest[0]).table.Keys == s.table.Keys;
  }

  /** A run that has claimed no row the other leaves free stores nothing where the other stores
      nothing. */
  lemma {:induction false} FewerClaims(base: Sweep, other: Sweep, rest: seq<Sms>)
    requires Keyed(base.table) && Keyed(other.table) && Extends(base.table, other.table)
    requires LeavesAtLeast(base, other) && Swept(base, rest).table == base.table
    ensures Swept(other, rest).table == other.table
    decreases |rest|
  {
    hide Of, Examined, Near, LeavesAtLeast;
    if rest == [] {
      NothingSwept(other);
    } else {
      StoresNothingYet(base, rest);
      assert KeepsSightings(base.table, other.table, rest[0]) by {
        ExtensionKeeps(base.table, other.table, rest[0]);
      }
      SecondLook(base, other, rest[0]);
      FewerClaims(Examined(base, rest[0]), Examined(other, rest[0]), rest[1..]);
      SweptFirst(other, rest);
    }
  }

  lemma ExtensionKeeps(earlier: Table, later: Table, m: Sms)
    requires Extends(earlier, later)
    ensures KeepsSightings(earlier, later, m)
  {
  }

  /** One step of two runs that differ in one claimed row. */
  lemma DisplacedStep(base: Sweep, other: Sweep, taken: Id, m: Sms)
    requires Keyed(base.table) && other.table == base.table && other.claimed == base.claimed + {taken}
    requires Examined(base, m).table == base.table
    ensures Examined(base, m).table == base.table && Keyed(Examined(base, m).table)
    ensures var next, next' := Examined(base, m), Examined(other, m);
            if Of(m) in base.table then
              next'.table == next.table && next'.claimed == next.claimed + {taken}
            else if FirstUnclaimed(base.table, m, base.claimed) != Some(taken) then
              next'.table == next.table && next'.claimed == next.claimed + {taken}
            else match FirstUnclaimed(base.table, m, base.claimed + {taken})
              case None =>
                next'.table == base.table[Of(m) := Fresh(m)] && next'.claimed == next.claimed + {Of(m)}
              case Some(row) => next'.table == next.table && next'.claimed == next.claimed + {row}
  {
    hide Near;
    if Of(m) !in base.table {
      if FirstUnclaimed(base.table, m, base.claimed) != Some(taken) {
        SameMatch(base.table, m, base.claimed, taken);
      }
    }
  }

  /** What a run stores when one row more is claimed at its start than in a run that stores
      nothing: the candidate displaced in the end, and nothing else. */
  lemma {:induction false} DisplacedExactly(base: Sweep, other: Sweep, taken: Id, rest: seq<Sms>)
    requires Keyed(base.table) && other.table == base.table && other.claimed == base.claimed + {taken}
    requires Swept(base, rest).table == base.table
    ensures Swept(other, rest).table.Keys == base.table.Keys + IdsOfOption(Displaced(base, taken, rest))
    decreases |rest|
  {
    hide Of, Examined, Near, Swept, LeavesAtLeast, Grew;
    if rest == [] {
      NothingSwept(other);
    } else {
      var m, next, next' := rest[0], Examined(base, rest[0]), Examined(other, rest[0]);
      StoresNothingYet(base, rest);
      DisplacedStep(base, other, taken, m);
      SweptFirst(other, rest);
      LookOnlyAdds(other, m);
      if Of(m) in base.table {
        if Of(m) == taken {
          ClaimsTheSame(base, other, m);
          FewerClaims(next, next', rest[1..]);
        } else {
          DisplacedExactly(next, next', taken, rest[1..]);
        }
      } else if FirstUnclaimed(base.table, m, base.claimed) != Some(taken) {
        DisplacedExactly(next, next', taken, rest[1..]);
      } else {
        match FirstUnclaimed(base.table, m, base.claimed + {taken})
        case Some(row) => DisplacedExactly(next, next', row, rest[1..]);
        case None =>
          ClaimsOneMore(next, next', Of(m));
          FewerClaims(next, next', rest[1..]);
      }
    }
  }

  lemma ClaimsOneMore(base: Sweep, other: Sweep, id: Id)
    requires id !in base.table && other.claimed == base.claimed + {id}
    ensures LeavesAtLeast(base, other)
  {
  }

  lemma ClaimsTheSame(base: Sweep, other: Sweep, m: Sms)
    requires other.table == base.table && other.claimed == base.claimed + {Of(m)} && Of(m) in base.table
    ensures LeavesAtLeast(Examined(base, m), Examined(other, m))
  {
  }

  /** The row a newcomer takes, if any: its own, or else the first free one near it. */
  ghost function TakenBy(s: Sweep, m: Sms): Option<Id> {
    if Of(m) in s.table then Some(Of(m)) else FirstUnclaimed(s.table, m, s.claimed)
  }

  /** What is stored because a newcomer is read between the re-read candidates. */
  ghost function StoredFor(s: Sweep, newcomer: Sms, rest: seq<Sms>): Option<Sms> {
    match TakenBy(s, newcomer)
    case None => Some(newcomer)
    case Some(row) => if row in s.claimed then None else Displaced(s, row, rest)
  }

  lemma NewcomerLook(s: Sweep, m: Sms)
    ensures match TakenBy(s, m)
            case None => Examined(s, m).table == s.table[Of(m) := Fresh(m)] && Of(m) !in s.table
                         && Examined(s, m).claimed == s.claimed + {Of(m)}
            case Some(row) => Examined(s, m).table == s.table && Examined(s, m).claimed == s.claimed + {row}
  {
    hide Near;
  }

  /** Exactly what a later sweep stores when it reads a newcomer between candidates that an
      earlier sweep has seen: the newcomer itself, if no row is free near it; or else, if it takes
      a row that was free, the candidate displaced in the end; or nothing. */
  lemma NewcomerExactly(t: Table, candidates: seq<Sms>, later: Table, before: seq<Sms>, newcomer: Sms, rest: seq<Sms>)
    requires Keyed(t) && Keyed(later)
    requires Subsequence(before + rest, candidates)
    requires KeepsAllSightings(Swept(Begin(t), candidates).table, later, before + rest)
    ensures Swept(Begin(later), before).table == later
    ensures Swept(Begin(later), before + [newcomer] + rest).table.Keys
         == later.Keys + IdsOfOption(StoredFor(Swept(Begin(later), before), newcomer, rest))
  {
    hide *;
    SweepIsIdempotent(t, candidates, later, before + rest, []);
    SweptAppend(Begin(later), before, rest);
    SweepOnlyAdds(Begin(later), before);
    SweepOnlyAdds(Swept(Begin(later), before), rest);
    BeginsWith(later);
    NothingInBetween(Begin(later), Swept(Begin(later), before), Swept(Swept(Begin(later), before), rest));
    SweptAppend(Begin(later), before + [newcomer], rest);
    SweptGrows(Begin(later), before, newcomer);
    AfterNewcomer(Swept(Begin(later), before), newcomer, rest);
  }

  lemma BeginsWith(t: Table)
    ensures Begin(t).table == t
  {
  }

  lemma NothingInBetween(first: Sweep, middle: Sweep, last: Sweep)
    requires Grew(first, middle) && Grew(middle, last) && last.table == first.table
    ensures middle.table == first.table
  {
    assert middle.table.Keys == first.table.Keys;
  }

  lemma AfterNewcomer(s: Sweep, newcomer: Sms, rest: seq<Sms>)
    requires Keyed(s.table) && Swept(s, rest).table == s.table
    ensures Swept(Examined(s, newcomer), rest).table.Keys == s.table.Keys + IdsOfOption(StoredFor(s, newcomer, rest))
  {
    hide Of, Examined, Near;
    NewcomerLook(s, newcomer);
    LookOnlyAdds(s, newcomer);
    match TakenBy(s, newcomer)
    case None => FewerClaims(s, Examined(s, newcomer), rest);
    case Some(row) =>
      if row in s.claimed {
        FewerClaims(s, Examined(s, newcomer), rest);
      } else {
        DisplacedExactly(s, Examined(s, newcomer), row, rest);
      }
  }

  /** A candidate an earlier sweep has seen can be stored by a later one: a newcomer written just
      behind it takes the row it was matched to, and is not stored itself. */
  lemma NewcomerDisplaces() returns (t: Table, seen: Sms, newcomer: Sms)
    ensures Keyed(t) && Of(seen) != Of(newcomer) && Of(newcomer) !in t
    ensures Swept(Begin(t), [seen]).table == t
    ensures Swept(Begin(t), [newcomer, seen]).table.Keys == t.Keys + {Of(seen)} && Of(seen) !in t
  {
    var row := BankText(1000000);
    seen, newcomer := BankText(1300000), BankText(1200000);
    t := map[Of(row) := Fresh(row)];
    OtherTimes(1000000, 1300000);
    OtherTimes(1000000, 1200000);
    OtherTimes(1300000, 1200000);
    hide Of, Swept;
    DisplacesFrom(row, seen, newcomer);
  }

  /** One text, at different times. */
  function BankText(at: int): Sms {
    Sms("bank", "code 1234", at)
  }

  lemma OtherTimes(a: int, b: int)
    requires a != b
    ensures Of(BankText(a)) != Of(BankText(b))
  {
    Injective(BankText(a), BankText(b));
  }

  /** A message the inbox lists twice: its first place is matched to the row of another message,
      and its second stores it after all, though a foreign row stands near. */
  lemma RepeatIsStored() returns (t: Table, m: Sms)
    ensures Keyed(t) && Of(m) !in t
    ensures AllStored(Swept(Begin(t), [m, m]).table, [m, m]) && !OnlyOwnCopies(t, [m, m])
  {
    var row := BankText(1000000);
    m := BankText(1300000);
    t := map[Of(row) := Fresh(row)];
    OtherTimes(1000000, 1300000);
    OneRowNear(row, m);
    hide Of, Near, Swept, Examined;
    TakesTheRow(row, m);
    SweptGrows(Begin(t), [m], m);
    assert [m] + [m] == [m, m];
    FindsItTaken(row, m);
    assert [m, m][0] == m && [m, m][..0] == [] && Of(row) in Near(t, [m, m][0], MATCH_WINDOW);
    assert Ids([]) == {};
  }

  lemma DisplacesFrom(row: Sms, seen: Sms, newcomer: Sms)
    requires row.sender == seen.sender == newcomer.sender && row.body == seen.body == newcomer.body
    requires Of(seen) != Of(row) && Of(newcomer) != Of(row)
    requires InWindow(row, seen.receivedAt - MATCH_WINDOW, seen.receivedAt + MATCH_WINDOW)
    requires InWindow(row, newcomer.receivedAt - MATCH_WINDOW, newcomer.receivedAt + MATCH_WINDOW)
    ensures var t := map[Of(row) := Fresh(row)];
            && Swept(Begin(t), [seen]).table == t
            && Swept(Begin(t), [newcomer, seen]).table == t[Of(seen) := Fresh(seen)]
  {
    hide Of, Near, Swept, Examined;
    TakesTheRow(row, seen);
    TakesTheRow(row, newcomer);
    SweptGrows(Begin(map[Of(row) := Fresh(row)]), [newcomer], seen);
    assert [newcomer] + [seen] == [newcomer, seen];
    FindsItTaken(row, seen);
  }

  lemma TakesTheRow(row: Sms, m: Sms)
    requires row.sender == m.sender && row.body == m.body && Of(m) != Of(row)
    requires InWindow(row, m.receivedAt - MATCH_WINDOW, m.receivedAt + MATCH_WINDOW)
    ensures Swept(Begin(map[Of(row) := Fresh(row)]), [m]) == Sweep(map[Of(row) := Fresh(row)], {Of(row)}, 0)
  {
    var t := map[Of(row) := Fresh(row)];
    OneRowNear(row, m);
    hide Of, Near;
    NothingSwept(Begin(t));
    SweptGrows(Begin(t), [], m);
    assert [] + [m] == [m];
    FirstIsUnique(t, m, {}, Of(row));
  }

  lemma FindsItTaken(row: Sms, m: Sms)
    requires row.sender == m.sender && row.body == m.body && Of(m) != Of(row)
    requires InWindow(row, m.receivedAt - MATCH_WINDOW, m.receivedAt + MATCH_WINDOW)
    ensures var t := map[Of(row) := Fresh(row)];
            Examined(Sweep(t, {Of(row)}, 0), m).table == t[Of(m) := Fresh(m)]
  {
    var t := map[Of(row) := Fresh(row)];
    OneRowNear(row, m);
    hide Of, Near;
    assert Near(t, m, MATCH_WINDOW) - {Of(row)} == {};
  }

  lemma OneRowNear(row: Sms, m: Sms)
    requires row.sender == m.sender && row.body == m.body
    requires InWindow(row, m.receivedAt - MATCH_WINDOW, m.receivedAt + MATCH_WINDOW)
    ensures Near(map[Of(row) := Fresh(row)], m, MATCH_WINDOW) == {Of(row)}
  {
  }

  // ---- rows pruned in between ----

  ghost predicate GenuineTable(t: Table) {
    Keyed(t) && forall id | id in t :: NulFree(t[id].sms.sender)
  }

  /** Exactly when a sweep after a prune stores a message: when every row it could be taken for
      has been pruned. A message seen before has such rows. */
  lemma StoredAgainExactlyWhen(t: Table, cutoff: int, m: Sms)
    requires GenuineTable(t) && NulFree(m.sender)
    ensures var after := Pruned(t, cutoff);
            && (Swept(Begin(after), [m]).table == after || Swept(Begin(after), [m]).table == after[Of(m) := Fresh(m)])
            && (Swept(Begin(after), [m]).table != after
                <==> forall row | row in Near(t, m, MATCH_WINDOW) :: Prunable(t[row], cutoff))
  {
    var after := Pruned(t, cutoff);
    NothingSwept(Begin(after));
    SweptGrows(Begin(after), [], m);
    assert [] + [m] == [m];
    if Of(m) in after {
      Injective(m, t[Of(m)].sms);
    }
    hide Of;
    assert Near(after, m, MATCH_WINDOW) == set row | row in Near(t, m, MATCH_WINDOW) && !Prunable(t[row], cutoff);
    assert Near(after, m, MATCH_WINDOW) - {} == Near(after, m, MATCH_WINDOW);
    if row :| row in Near(t, m, MATCH_WINDOW) && !Prunable(t[row], cutoff) {
      assert row in Near(after, m, MATCH_WINDOW);
    }
  }
}
