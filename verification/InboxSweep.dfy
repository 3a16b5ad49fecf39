/** The inbox sweep: matching messages read back from the platform store against the rows
    already held (TsunagiRepository.backfill, storeIfMissing).

    A greedy first-fit: a candidate is recognised by its id, else by an unclaimed row with
    the same text received within ten minutes, else it is stored. */
module InboxSweep {
  import opened Wrappers
  import opened Identity
  import opened MessageTable

  const MATCH_WINDOW: nat := 600000

  datatype Sweep = Sweep(table: Table, claimed: set<Id>, recovered: nat)

  function Begin(t: Table): Sweep {
    Sweep(t, {}, 0)
  }

  /** The oldest unclaimed row the candidate could be another sighting of. In a keyed table
      two such rows never share a timestamp, so "oldest" names one row. */
  ghost function FirstUnclaimed(t: Table, m: Sms, claimed: set<Id>): (first: Option<Id>)
    ensures first.None? <==> Near(t, m, MATCH_WINDOW) - claimed == {}
    ensures first.Some? ==> first.value in Near(t, m, MATCH_WINDOW) - claimed
    ensures first.Some? ==> forall id | id in Near(t, m, MATCH_WINDOW) - claimed ::
              t[first.value].sms.receivedAt <= t[id].sms.receivedAt
  {
    var free := Near(t, m, MATCH_WINDOW) - claimed;
    if free == {} then None
    else
      assert exists id :: id in free && forall o | o in free :: t[id].sms.receivedAt <= t[o].sms.receivedAt by {
        var id := OldestRow(t, free);
      }
      var id :| id in free && forall o | o in free :: t[id].sms.receivedAt <= t[o].sms.receivedAt;
      Some(id)
  }

  ghost function WindowMatch(s: Sweep, m: Sms): Option<Id> {
    if Of(m) in s.table then None else FirstUnclaimed(s.table, m, s.claimed)
  }

  /** storeIfMissing. */
  ghost function Examined(s: Sweep, m: Sms): Sweep {
    if Of(m) in s.table then s.(claimed := s.claimed + {Of(m)})
    else match FirstUnclaimed(s.table, m, s.claimed)
      case Some(row) => s.(claimed := s.claimed + {row})
      case None => Sweep(Inserted(s.table, m), s.claimed + {Of(m)}, s.recovered + 1)
  }

  ghost function Swept(s: Sweep, candidates: seq<Sms>): Sweep {
    if candidates == [] then s
    else Examined(Swept(s, candidates[..|candidates| - 1]), candidates[|candidates| - 1])
  }

  lemma NothingSwept(s: Sweep)
    ensures Swept(s, []) == s
  {
  }

  lemma SweptGrows(s: Sweep, candidates: seq<Sms>, m: Sms)
    ensures Swept(s, candidates + [m]) == Examined(Swept(s, candidates), m)
  {
    assert (candidates + [m])[..|candidates|] == candidates;
  }

  /** The rows that candidates were matched to by window, in order. */
  ghost function WindowMatches(s: Sweep, candidates: seq<Sms>): seq<Id> {
    if candidates == [] then [] else
      var before := candidates[..|candidates| - 1];
      var row := WindowMatch(Swept(s, before), candidates[|candidates| - 1]);
      WindowMatches(s, before) + if row.Some? then [row.value] else []
  }

  function Ids(candidates: seq<Sms>): set<Id> {
    set i | 0 <= i < |candidates| :: Of(candidates[i])
  }

  /** Rows were added, as many as were counted, all of them PENDING and claimed; no row
      already there was touched. */
  ghost predicate Grew(s: Sweep, end: Sweep) {
    && s.table.Keys <= end.table.Keys
    && (forall id | id in s.table :: end.table[id] == s.table[id])
    && |end.table| - |s.table| == end.recovered - s.recovered
    && s.claimed <= end.claimed
    && (forall id | id in end.table && id !in s.table :: id in end.claimed && end.table[id].status == Pending)
    && (Keyed(s.table) ==> Keyed(end.table))
  }

  lemma LookOnlyAdds(s: Sweep, m: Sms)
    ensures Grew(s, Examined(s, m))
    ensures Examined(s, m).table.Keys <= s.table.Keys + {Of(m)}
  {
    hide Of, Inserted, Keyed, Near;
    if WindowMatch(s, m).None? && Of(m) !in s.table {
      InsertedRow(s.table, m);
    }
  }

  lemma InsertedRow(t: Table, m: Sms)
    requires Of(m) !in t
    ensures Inserted(t, m).Keys == t.Keys + {Of(m)} && |Inserted(t, m)| == |t| + 1
    ensures Inserted(t, m)[Of(m)] == Fresh(m) && forall id | id in t :: Inserted(t, m)[id] == t[id]
    ensures Keyed(t) ==> Keyed(Inserted(t, m))
  {
    hide Of;
    assert Inserted(t, m).Keys == t.Keys + {Of(m)};
  }

  lemma GrewTransitive(a: Sweep, b: Sweep, c: Sweep)
    requires Grew(a, b) && Grew(b, c)
    ensures Grew(a, c)
  {
  }

  lemma {:induction false} SweepOnlyAdds(s: Sweep, candidates: seq<Sms>)
    ensures Grew(s, Swept(s, candidates))
    ensures Swept(s, candidates).table.Keys <= s.table.Keys + Ids(candidates)
  {
    if candidates != [] {
      var n := |candidates| - 1;
      SweepOnlyAdds(s, candidates[..n]);
      LookOnlyAdds(Swept(s, candidates[..n]), candidates[n]);
      GrewTransitive(s, Swept(s, candidates[..n]), Swept(s, candidates));
      IdsGrow(candidates);
    }
  }

  lemma {:induction false} IdsGrow(candidates: seq<Sms>)
    requires candidates != []
    ensures Ids(candidates) == Ids(candidates[..|candidates| - 1]) + {Of(candidates[|candidates| - 1])}
  {
    hide Of;
  }

  /** No two candidates are ever matched by window to the same row, nor to one claimed before. */
  lemma {:induction false} WindowMatchesDistinct(s: Sweep, candidates: seq<Sms>)
    ensures NoDuplicates(WindowMatches(s, candidates))
    ensures forall row | row in WindowMatches(s, candidates) :: row !in s.claimed && row in Swept(s, candidates).claimed
  {
    hide Of, Near, Grew;
    if candidates != [] {
      var n := |candidates| - 1;
      WindowMatchesDistinct(s, candidates[..n]);
      SweepOnlyAdds(s, candidates[..n]);
    }
  }

  /** Every look ends in one of three ways: the candidate is recognised by its id, it is matched
      by window to one row, or it is stored. */
  lemma ThreeWays(s: Sweep, m: Sms)
    ensures WindowMatch(s, m).Some? ==>
              && Of(m) !in s.table && WindowMatch(s, m).value !in s.claimed
              && Examined(s, m) == Sweep(s.table, s.claimed + {WindowMatch(s, m).value}, s.recovered)
    ensures WindowMatch(s, m).None? && Of(m) in s.table ==>
              Examined(s, m) == Sweep(s.table, s.claimed + {Of(m)}, s.recovered)
    ensures WindowMatch(s, m).None? && Of(m) !in s.table ==>
              Examined(s, m) == Sweep(s.table[Of(m) := Fresh(m)], s.claimed + {Of(m)}, s.recovered + 1)
  {
    hide Of, Fresh, Near;
  }

  // ---- sweeping again ----

  /** `some` is what is left of `all` after dropping any of its entries. */
  ghost predicate Subsequence<T>(some: seq<T>, all: seq<T>) {
    some == []
    || (all != []
        && (Subsequence(some, all[..|all| - 1])
            || (some[|some| - 1] == all[|all| - 1] && Subsequence(some[..|some| - 1], all[..|all| - 1]))))
  }

  /** Every row the message could be taken for in `earlier` is still there, and no row of either
      has been rewritten. */
  ghost predicate KeepsSightings(earlier: Table, later: Table, m: Sms) {
    && (Of(m) in earlier ==> Of(m) in later)
    && (forall row | row in Near(earlier, m, MATCH_WINDOW) :: row in later)
    && forall id | id in earlier && id in later :: later[id].sms == earlier[id].sms
  }

  ghost predicate LeavesAtLeast(first: Sweep, second: Sweep) {
    forall row | row in first.table && row !in first.claimed :: row !in second.claimed
  }

  /** One candidate in two runs side by side: when the rows near it are still there and the
      second run has claimed no row that the first leaves free, the second stores nothing, and
      still claims no such row. */
  lemma SecondLook(first: Sweep, second: Sweep, m: Sms)
    requires Keyed(first.table) && Keyed(second.table)
    requires KeepsSightings(Examined(first, m).table, second.table, m)
    requires LeavesAtLeast(first, second)
    ensures Examined(second, m).table == second.table && Examined(second, m).recovered == second.recovered
    ensures LeavesAtLeast(Examined(first, m), Examined(second, m))
  {
    var match1 := WindowMatch(first, m);
    if match1.Some? && Of(m) !in second.table {
      var row := match1.value;
      assert row in Near(second.table, m, MATCH_WINDOW) - second.claimed;
      var taken := FirstUnclaimed(second.table, m, second.claimed).value;
      if taken in first.table && taken !in first.claimed {
        assert first.table[taken].sms == second.table[taken].sms;
        assert taken in Near(first.table, m, MATCH_WINDOW) - first.claimed;
        assert first.table[row].sms == first.table[taken].sms;
      }
    }
  }

  lemma EarlierKeeps(earlier: Table, middle: Table, later: Table, m: Sms)
    requires earlier.Keys <= middle.Keys && forall id | id in earlier :: middle[id] == earlier[id]
    requires KeepsSightings(middle, later, m)
    ensures KeepsSightings(earlier, later, m)
  {
    hide Of;
    assert Near(earlier, m, MATCH_WINDOW) <= Near(middle, m, MATCH_WINDOW);
  }

  /** No row that a candidate of the second run could be taken for has gone. */
  ghost predicate KeepsAllSightings(earlier: Table, later: Table, again: seq<Sms>) {
    forall m | m in again :: KeepsSightings(earlier, later, m)
  }

  lemma {:induction false} EarlierPrefixKeeps(t: Table, candidates: seq<Sms>, later: Table, again: seq<Sms>)
    requires Keyed(t) && candidates != []
    requires KeepsAllSightings(Swept(Begin(t), candidates).table, later, again)
    ensures KeepsAllSightings(Swept(Begin(t), candidates[..|candidates| - 1]).table, later, again)
  {
    var before := candidates[..|candidates| - 1];
    LookOnlyAdds(Swept(Begin(t), before), candidates[|candidates| - 1]);
    hide KeepsSightings, Of, Examined;
    forall m | m in again
      ensures KeepsSightings(Swept(Begin(t), before).table, later, m)
    {
      EarlierKeeps(Swept(Begin(t), before).table, Swept(Begin(t), candidates).table, later, m);
    }
  }

  /** Two first-fit runs side by side. */
  lemma {:induction false} SweepsAgain(t: Table, candidates: seq<Sms>, later: Table, again: seq<Sms>)
    requires Keyed(t) && Keyed(later)
    requires Subsequence(again, candidates)
    requires KeepsAllSightings(Swept(Begin(t), candidates).table, later, again)
    ensures Swept(Begin(later), again).table == later && Swept(Begin(later), again).recovered == 0
    ensures LeavesAtLeast(Swept(Begin(t), candidates), Swept(Begin(later), again))
    decreases |candidates|
  {
    hide KeepsSightings, Examined, Near;
    if again != [] {
      var before, m := candidates[..|candidates| - 1], candidates[|candidates| - 1];
      SweepOnlyAdds(Begin(t), before);
      EarlierPrefixKeeps(t, candidates, later, again);
      if Subsequence(again, before) {
        SweepsAgain(t, before, later, again);
        LookLeavesAtLeast(Swept(Begin(t), before), m, Swept(Begin(later), again));
      } else {
        var earlier := again[..|again| - 1];
        assert m in again && forall c | c in earlier :: c in again;
        SweepsAgain(t, before, later, earlier);
        SecondLook(Swept(Begin(t), before), Swept(Begin(later), earlier), m);
      }
    }
  }

  /** A candidate only the first run reads leaves it no more rows than before. */
  lemma LookLeavesAtLeast(first: Sweep, m: Sms, second: Sweep)
    requires LeavesAtLeast(first, second)
    ensures LeavesAtLeast(Examined(first, m), second)
  {
  }

  /** What a sweep does with a list it does with its parts, one after the other. */
  lemma {:induction false} SweptAppend(s: Sweep, first: seq<Sms>, second: seq<Sms>)
    ensures Swept(s, first + second) == Swept(Swept(s, first), second)
    decreases |second|
  {
    if second == [] {
      assert first + second == first;
    } else {
      var n := |second| - 1;
      SweptAppend(s, first, second[..n]);
      assert (first + second)[..|first + second| - 1] == first + second[..n];
    }
  }

  /** Sweep idempotence: re-reading any part of what was swept stores nothing, whatever rows
      arrived in between and whatever became of the statuses, as long as no row that a re-read
      candidate could be taken for is gone. New messages read after them change nothing in
      that: only they can be stored. */
  lemma {:induction false} SweepIsIdempotent(t: Table, candidates: seq<Sms>, later: Table, again: seq<Sms>,
                                             newcomers: seq<Sms>)
    requires Keyed(t) && Keyed(later)
    requires Subsequence(again, candidates)
    requires KeepsAllSightings(Swept(Begin(t), candidates).table, later, again)
    ensures Swept(Begin(later), again).table == later && Swept(Begin(later), again).recovered == 0
    ensures Swept(Begin(later), again + newcomers).table.Keys <= later.Keys + Ids(newcomers)
    ensures forall id | id in later ::
              id in Swept(Begin(later), again + newcomers).table
              && Swept(Begin(later), again + newcomers).table[id] == later[id]
  {
    SweepsAgain(t, candidates, later, again);
    SweptAppend(Begin(later), again, newcomers);
    SweepOnlyAdds(Swept(Begin(later), again), newcomers);
  }

  // ---- when a message is stored ----

  /** The sweep looks this message up for the k-th time with no row left to take it for. */
  ghost predicate FindsNothing(t: Table, candidates: seq<Sms>, k: nat, id: Id) {
    && k < |candidates| && Of(candidates[k]) == id
    && var before := Swept(Begin(t), candidates[..k]);
       Near(before.table, candidates[k], MATCH_WINDOW) <= before.claimed
  }

  /** A message not on hand is stored by a sweep exactly when, at one of its places in the
      list, every row it could be taken for has been claimed by a candidate before it. */
  lemma {:induction false} StoredExactlyWhen(t: Table, candidates: seq<Sms>, id: Id)
    requires id !in t
    ensures id in Swept(Begin(t), candidates).table
       <==> exists k: nat :: FindsNothing(t, candidates, k, id)
    decreases |candidates|
  {
    hide Of, Near, Examined, FindsNothing;
    if candidates == [] {
      NeverFound(t, id);
    } else {
      var n := |candidates| - 1;
      var before := Swept(Begin(t), candidates[..n]);
      StoredExactlyWhen(t, candidates[..n], id);
      FirstTimes(t, candidates, id);
      LookOnlyAdds(before, candidates[n]);
      if id !in before.table {
        LookStores(before, candidates[n], id);
        LastTime(t, candidates, id);
      }
    }
  }

  lemma NeverFound(t: Table, id: Id)
    ensures forall k: nat :: !FindsNothing(t, [], k, id)
  {
  }

  lemma LastTime(t: Table, candidates: seq<Sms>, id: Id)
    requires candidates != []
    ensures var n := |candidates| - 1;
            var before := Swept(Begin(t), candidates[..n]);
            FindsNothing(t, candidates, n, id)
            <==> Of(candidates[n]) == id && Near(before.table, candidates[n], MATCH_WINDOW) <= before.claimed
  {
  }

  lemma LookStores(s: Sweep, m: Sms, id: Id)
    requires id !in s.table
    ensures id in Examined(s, m).table <==> Of(m) == id && Near(s.table, m, MATCH_WINDOW) <= s.claimed
  {
    var near := Near(s.table, m, MATCH_WINDOW);
    hide Of, Near;
    assert forall row | row in near :: row in s.claimed || row in near - s.claimed;
  }

  lemma FirstTimes(t: Table, candidates: seq<Sms>, id: Id)
    requires candidates != []
    ensures var n := |candidates| - 1;
            (exists k: nat :: FindsNothing(t, candidates, k, id))
            <==> (exists k: nat :: FindsNothing(t, candidates[..n], k, id)) || FindsNothing(t, candidates, n, id)
  {
    var n := |candidates| - 1;
    hide Of, Near, Swept;
    forall k: nat | k < n
      ensures FindsNothing(t, candidates, k, id) <==> FindsNothing(t, candidates[..n], k, id)
    {
      assert candidates[..n][..k] == candidates[..k];
    }
  }

  /** One look, in plain terms: a missing candidate is stored, as a fresh row, exactly when every
      row of its sender and body that was received within ten minutes of it has been claimed;
      else the table stays as it is and one such row is claimed. */
  lemma LookExactly(s: Sweep, m: Sms)
    requires Of(m) !in s.table
    ensures var free := set id | id in s.table && id !in s.claimed
                        && s.table[id].sms.sender == m.sender && s.table[id].sms.body == m.body
                        && m.receivedAt - 600000 <= s.table[id].sms.receivedAt <= m.receivedAt + 600000;
            && (free == {} ==>
                  && Examined(s, m).table == s.table[Of(m) := Row(m, Pending, None, 0, None)]
                  && Examined(s, m).claimed == s.claimed + {Of(m)} && Examined(s, m).recovered == s.recovered + 1)
            && (free != {} ==>
                  && Examined(s, m).table == s.table && Examined(s, m).recovered == s.recovered
                  && exists row :: row in free && Examined(s, m).claimed == s.claimed + {row}
                       && forall id | id in free :: s.table[row].sms.receivedAt <= s.table[id].sms.receivedAt)
  {
    hide Of;
    var free := set id | id in s.table && id !in s.claimed
                && s.table[id].sms.sender == m.sender && s.table[id].sms.body == m.body
                && m.receivedAt - 600000 <= s.table[id].sms.receivedAt <= m.receivedAt + 600000;
    assert free == Near(s.table, m, MATCH_WINDOW) - s.claimed;
  }

  /** A row of another text, or received more than ten minutes away, never keeps a candidate from
      being stored: with no other kind of row on the table, a missing candidate is stored. */
  lemma FarRowsDoNotCount(t: Table, candidates: seq<Sms>, k: nat)
    requires k < |candidates| && Of(candidates[k]) !in t
    requires forall id | id in t && t[id].sms.sender == candidates[k].sender && t[id].sms.body == candidates[k].body ::
               || t[id].sms.receivedAt < candidates[k].receivedAt - 600000
               || t[id].sms.receivedAt > candidates[k].receivedAt + 600000
    ensures Of(candidates[k]) in Swept(Begin(t), candidates).table
  {
    hide Of, Swept;
    var before := Swept(Begin(t), candidates[..k]);
    SweepOnlyAdds(Begin(t), candidates[..k]);
    assert FindsNothing(t, candidates, k, Of(candidates[k]));
    StoredExactlyWhen(t, candidates, Of(candidates[k]));
  }

  // ---- when a sweep keeps every message ----

  /** No row near an unstored candidate is anything but the exact row of an earlier one. */
  ghost predicate OnlyOwnCopies(t: Table, candidates: seq<Sms>) {
    forall k, row | 0 <= k < |candidates| && Of(candidates[k]) !in t && row in Near(t, candidates[k], MATCH_WINDOW) ::
      row in Ids(candidates[..k])
  }

  ghost predicate AllStored(t: Table, candidates: seq<Sms>) {
    Ids(candidates) <= t.Keys
  }

  lemma OnlyOwnCopiesPrefix(t: Table, candidates: seq<Sms>)
    requires candidates != [] && OnlyOwnCopies(t, candidates)
    ensures OnlyOwnCopies(t, candidates[..|candidates| - 1])
  {
    var before := candidates[..|candidates| - 1];
    assert forall k | 0 <= k < |before| :: before[..k] == candidates[..k];
  }

  /** Every row near the candidate that a sweep can see is claimed already. */
  lemma NothingFree(t: Table, candidates: seq<Sms>, before: Sweep)
    requires candidates != [] && OnlyOwnCopies(t, candidates)
    requires Grew(Begin(t), before)
    requires before.claimed == Ids(candidates[..|candidates| - 1])
    requires Of(candidates[|candidates| - 1]) !in before.table
    ensures Near(before.table, candidates[|candidates| - 1], MATCH_WINDOW) - before.claimed == {}
  {
    var m := candidates[|candidates| - 1];
    forall row | row in Near(before.table, m, MATCH_WINDOW)
      ensures row in before.claimed
    {
      if row in t {
        assert row in Near(t, m, MATCH_WINDOW);
      }
    }
  }

  /** A candidate with no free row near it is either recognised or stored. */
  lemma RecognisedOrStored(before: Sweep, m: Sms)
    requires Of(m) in before.table || Near(before.table, m, MATCH_WINDOW) - before.claimed == {}
    ensures Examined(before, m).claimed == before.claimed + {Of(m)}
    ensures Examined(before, m).table.Keys == before.table.Keys + {Of(m)}
  {
    hide Of;
  }

  lemma {:induction false} KeepsOne(t: Table, candidates: seq<Sms>, before: Sweep)
    requires candidates != [] && OnlyOwnCopies(t, candidates)
    requires Grew(Begin(t), before) && before.claimed == Ids(candidates[..|candidates| - 1])
    requires before.table.Keys == t.Keys + Ids(candidates[..|candidates| - 1])
    ensures Examined(before, candidates[|candidates| - 1]).table.Keys == t.Keys + Ids(candidates)
    ensures Examined(before, candidates[|candidates| - 1]).claimed == Ids(candidates)
  {
    hide Of, Examined, Near, OnlyOwnCopies, Ids, Grew;
    var m := candidates[|candidates| - 1];
    if Of(m) !in before.table {
      NothingFree(t, candidates, before);
    }
    RecognisedOrStored(before, m);
    IdsGrow(candidates);
  }

  /** Then nothing is matched by window: resends are kept, and the sweep ends holding every
      candidate and having claimed exactly those. */
  lemma {:induction false} KeepsEveryCandidate(t: Table, candidates: seq<Sms>)
    requires OnlyOwnCopies(t, candidates)
    ensures Swept(Begin(t), candidates).table.Keys == t.Keys + Ids(candidates)
    ensures Swept(Begin(t), candidates).claimed == Ids(candidates)
  {
    if candidates != [] {
      var before := candidates[..|candidates| - 1];
      OnlyOwnCopiesPrefix(t, candidates);
      KeepsEveryCandidate(t, before);
      SweepOnlyAdds(Begin(t), before);
      KeepsOne(t, candidates, Swept(Begin(t), before));
    }
  }

  /** The other way round: a last candidate that ends up stored had no foreign row near. */
  lemma {:induction false} LastCandidateKept(t: Table, candidates: seq<Sms>, before: Sweep)
    requires candidates != [] && OnlyOwnCopies(t, candidates[..|candidates| - 1])
    requires Grew(Begin(t), before) && before.claimed == Ids(candidates[..|candidates| - 1])
    requires before.table.Keys == t.Keys + Ids(candidates[..|candidates| - 1])
    requires Of(candidates[|candidates| - 1]) !in Ids(candidates[..|candidates| - 1])
    requires Of(candidates[|candidates| - 1]) in Examined(before, candidates[|candidates| - 1]).table
    ensures OnlyOwnCopies(t, candidates)
  {
    hide Of;
    var n := |candidates| - 1;
    forall k, row | 0 <= k < |candidates| && Of(candidates[k]) !in t && row in Near(t, candidates[k], MATCH_WINDOW)
      ensures row in Ids(candidates[..k])
    {
      if k == n {
        assert row in Near(before.table, candidates[n], MATCH_WINDOW);
      } else {
        assert candidates[..k] == candidates[..n][..k] && candidates[..n][k] == candidates[k];
      }
    }
  }

  ghost predicate DistinctIds(candidates: seq<Sms>) {
    forall i, j | 0 <= i < j < |candidates| :: Of(candidates[i]) != Of(candidates[j])
  }

  /** The last look stores at most its own candidate, so the others were stored before it. */
  lemma AllStoredBefore(before: Sweep, candidates: seq<Sms>)
    requires candidates != [] && DistinctIds(candidates)
    requires AllStored(Examined(before, candidates[|candidates| - 1]).table, candidates)
    ensures AllStored(before.table, candidates[..|candidates| - 1])
    ensures Of(candidates[|candidates| - 1]) !in Ids(candidates[..|candidates| - 1])
    ensures Of(candidates[|candidates| - 1]) in Examined(before, candidates[|candidates| - 1]).table
  {
    var m := candidates[|candidates| - 1];
    LookOnlyAdds(before, m);
    IdsGrow(candidates);
    hide Of, Examined;
    assert Of(m) !in Ids(candidates[..|candidates| - 1]);
  }

  lemma {:induction false} StoredMeansOwnCopies(t: Table, candidates: seq<Sms>)
    requires DistinctIds(candidates)
    requires AllStored(Swept(Begin(t), candidates).table, candidates)
    ensures OnlyOwnCopies(t, candidates)
  {
    if candidates != [] {
      var earlier := candidates[..|candidates| - 1];
      var before := Swept(Begin(t), earlier);
      AllStoredBefore(before, candidates);
      SweepOnlyAdds(Begin(t), earlier);
      StoredMeansOwnCopies(t, earlier);
      KeepsEveryCandidate(t, earlier);
      LastCandidateKept(t, candidates, before);
    }
  }

  /** Sweep keeps resends: of distinct candidates every one is on hand afterwards if and only
      if no foreign row stood near one that was missing. */
  lemma {:induction false} KeepsExactlyWhen(t: Table, candidates: seq<Sms>)
    requires DistinctIds(candidates)
    ensures AllStored(Swept(Begin(t), candidates).table, candidates) <==> OnlyOwnCopies(t, candidates)
  {
    if OnlyOwnCopies(t, candidates) {
      KeepsEveryCandidate(t, candidates);
    }
    if AllStored(Swept(Begin(t), candidates).table, candidates) {
      StoredMeansOwnCopies(t, candidates);
    }
  }

  /** With repeats as well: every message of the list is on hand afterwards if and only if each
      one that was missing had, at one of its places, no free row near it. */
  lemma KeepsAllExactlyWhen(t: Table, candidates: seq<Sms>)
    ensures AllStored(Swept(Begin(t), candidates).table, candidates)
       <==> forall id | id in Ids(candidates) && id !in t :: exists k: nat :: FindsNothing(t, candidates, k, id)
  {
    SweepOnlyAdds(Begin(t), candidates);
    hide Of, Swept, FindsNothing;
    forall id | id in Ids(candidates) && id !in t
      ensures id in Swept(Begin(t), candidates).table <==> exists k: nat :: FindsNothing(t, candidates, k, id)
    {
      StoredExactlyWhen(t, candidates, id);
    }
  }

  /** The exact-id branch does not consult `claimed`, so the unconditional claim is false:
      with only the later of two same-text messages stored, the earlier candidate takes that
      row by window, the later one is recognised by id, and the earlier is never stored. */
  lemma EarlierResendIsSwallowed() returns (t: Table, candidates: seq<Sms>)
    ensures Keyed(t) && |candidates| == 2 && Of(candidates[0]) != Of(candidates[1])
    ensures Of(candidates[0]) !in Swept(Begin(t), candidates).table
    ensures Swept(Begin(t), candidates).recovered == 0
  {
    var first, second := Sms("bank", "code 1234", 1000000), Sms("bank", "code 1234", 1300000);
    Injective(first, second);
    t := map[Of(second) := Fresh(second)];
    candidates := [first, second];
    assert Of(second) in Near(t, first, MATCH_WINDOW) - {};
    var row := FirstUnclaimed(t, first, {});
    assert row.Some? && row.value in t && row.value == Of(second);
    var one := Examined(Begin(t), first);
    assert Swept(Begin(t), []) == Begin(t);
    assert candidates[..1] == [first] && [first][..0] == [];
    assert Swept(Begin(t), [first]) == one;
    assert one == Sweep(t, {Of(second)}, 0);
  }
}
