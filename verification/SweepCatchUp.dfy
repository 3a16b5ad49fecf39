/** The sweep watermark: how a bounded scan over an append-only inbox catches up
    (TsunagiRepository.backfill, SmsInbox.since). */
module SweepCatchUp {
  import opened Wrappers
  import opened Identity
  import SyncEngine

  type Entry = SyncEngine.InboxMessage

  type Inbox = set<Entry>

  const LIMIT := SyncEngine.SCAN_LIMIT
  const OVERLAP := SyncEngine.OVERLAP

  function After(inbox: Inbox, cutoff: int): Inbox {
    set e | e in inbox && e.storedAt > cutoff
  }

  function Between(inbox: Inbox, above: int, upTo: int): Inbox {
    set e | e in inbox && above < e.storedAt <= upTo
  }

  /** `date > cutoff ORDER BY date ASC LIMIT n`; the order of equal dates is open. */
  ghost predicate IsRead(inbox: Inbox, cutoff: int, limit: nat, read: seq<Entry>) {
    && NoDuplicates(read)
    && (forall e | e in read :: e in After(inbox, cutoff))
    && |read| == Min(limit, |After(inbox, cutoff)|)
    && (forall i, j | 0 <= i < j < |read| :: read[i].storedAt <= read[j].storedAt)
    && forall e, r | e in After(inbox, cutoff) && e !in read && r in read :: r.storedAt <= e.storedAt
  }

  /** Whatever dates tie, there is such a read. */
  lemma {:induction false} ReadExists(inbox: Inbox, cutoff: int, limit: nat) returns (read: seq<Entry>)
    ensures IsRead(inbox, cutoff, limit, read)
    decreases limit
  {
    var past := After(inbox, cutoff);
    if limit == 0 || past == {} {
      read := [];
    } else {
      var weight := (e: Entry) => e.storedAt;
      var first := LeastExists(past, weight);
      assert forall e | e in past :: weight(first) <= weight(e);
      var rest := ReadExists(inbox - {first}, cutoff, limit - 1);
      assert After(inbox - {first}, cutoff) == past - {first};
      read := [first] + rest;
    }
  }

  /** An inbox listed in store order is read from the first row past the cutoff on. */
  lemma ReadOfList(list: seq<Entry>, from: nat, cutoff: int, limit: nat)
    requires from <= |list| && forall i, j | 0 <= i < j < |list| :: list[i].storedAt < list[j].storedAt
    requires (forall i | 0 <= i < from :: list[i].storedAt <= cutoff)
    requires (forall i | from <= i < |list| :: list[i].storedAt > cutoff)
    ensures IsRead(Elements(list), cutoff, limit, list[from..from + Min(limit, |list| - from)])
  {
    var past, read := list[from..], list[from..from + Min(limit, |list| - from)];
    assert forall i | 0 <= i < |past| :: past[i] == list[from + i];
    assert forall i | 0 <= i < |read| :: read[i] == past[i];
    DistinctSize(past);
    assert After(Elements(list), cutoff) == Elements(past);
    forall e, r | e in past && e !in read && r in read
      ensures r.storedAt <= e.storedAt
    {
      var i, k :| 0 <= i < |read| && read[i] == r && 0 <= k < |past| && past[k] == e;
      assert k >= |read|;
    }
  }

  /** The inbox as a sweep found it, and what the sweep read of it. */
  datatype Sweep = Sweep(inbox: Inbox, read: seq<Entry>)

  /** The newest storedAt that was examined; unchanged when nothing was. */
  function Watermark(w: int, read: seq<Entry>): int {
    if read == [] then w else read[|read| - 1].storedAt
  }

  /** The watermark a sweep records, the latest storedAt it examined, is that of the last row. */
  lemma WatermarkIsLatest(w: int, read: seq<Entry>, at: int)
    requires read != [] && forall i, j | 0 <= i < j < |read| :: read[i].storedAt <= read[j].storedAt
    ensures SyncEngine.Latest(read, at) <==> at == Watermark(w, read)
  {
    var last := |read| - 1;
    assert read[last].storedAt == Watermark(w, read);
  }

  function CutoffAt(w: int): int {
    SyncEngine.Cutoff(Some(w), 0)
  }

  /** The rows of the overlap that ends at `t`. */
  function Recent(inbox: Inbox, t: int): Inbox {
    Between(inbox, t - OVERLAP, t)
  }

  /** At most `d` rows in any span of one overlap. */
  ghost predicate Sparse(inbox: Inbox, d: nat) {
    forall t :: |Recent(inbox, t)| <= d
  }

  lemma ShortReadIsWhole(inbox: Inbox, cutoff: int, read: seq<Entry>)
    requires IsRead(inbox, cutoff, LIMIT, read)
    ensures |Elements(read)| == |read| && Elements(read) <= After(inbox, cutoff)
    ensures |read| < LIMIT ==> Elements(read) == After(inbox, cutoff)
  {
    DistinctSize(read);
    SubsetSize(Elements(read), After(inbox, cutoff));
  }

  function ReadBeyond(read: seq<Entry>, w: int): set<Entry> {
    set e | e in read && e.storedAt > w
  }

  /** Of what a sweep reads, at most `d` rows lie behind the watermark. */
  lemma FewBehind(inbox: Inbox, w: int, read: seq<Entry>, d: nat)
    requires IsRead(inbox, CutoffAt(w), LIMIT, read) && Sparse(inbox, d)
    ensures |ReadBeyond(read, w)| >= |read| - d
  {
    ShortReadIsWhole(inbox, CutoffAt(w), read);
    var behind := Elements(read) - ReadBeyond(read, w);
    assert behind <= Recent(inbox, w);
    SubsetSize(behind, Recent(inbox, w));
    assert Elements(read) == behind + ReadBeyond(read, w);
  }

  /** A sweep that fills its limit examines at least LIMIT - d rows beyond the watermark. */
  lemma FullSweepAdvances(inbox: Inbox, w: int, read: seq<Entry>, d: nat)
    requires IsRead(inbox, CutoffAt(w), LIMIT, read) && Sparse(inbox, d) && |read| == LIMIT
    ensures |ReadBeyond(read, w)| >= LIMIT - d
  {
    FewBehind(inbox, w, read, d);
  }

  /** The watermark never moves back while the row it names is still there. */
  lemma WatermarkNeverBack(inbox: Inbox, w: int, read: seq<Entry>, d: nat, named: Entry)
    requires IsRead(inbox, CutoffAt(w), LIMIT, read) && Sparse(inbox, d) && d < LIMIT
    requires named in inbox && named.storedAt == w && w > 0
    ensures Watermark(w, read) >= w
  {
    ShortReadIsWhole(inbox, CutoffAt(w), read);
    assert named in After(inbox, CutoffAt(w));
    if |read| == LIMIT {
      FewBehind(inbox, w, read, d);
      var beyond :| beyond in ReadBeyond(read, w);
    } else {
      assert named in read;
    }
  }

  /** The density hypothesis, exactly: with rows still beyond the watermark, a sweep reaches
      one of them if and only if fewer than LIMIT rows stand between the cutoff and it. */
  lemma ProgressExactlyWhen(inbox: Inbox, w: int, read: seq<Entry>)
    requires IsRead(inbox, CutoffAt(w), LIMIT, read) && w > 0
    requires exists e :: e in inbox && e.storedAt > w
    ensures ReadBeyond(read, w) != {} <==> |Between(inbox, CutoffAt(w), w)| < LIMIT
  {
    var behind := Between(inbox, CutoffAt(w), w);
    var next :| next in inbox && next.storedAt > w;
    ShortReadIsWhole(inbox, CutoffAt(w), read);
    assert next in After(inbox, CutoffAt(w));
    if ReadBeyond(read, w) == {} {
      forall e | e in read
        ensures e.storedAt <= w
      {
        assert e !in ReadBeyond(read, w);
      }
      assert next !in read;
      assert Elements(read) <= behind;
      SubsetSize(Elements(read), behind);
    } else {
      var e :| e in ReadBeyond(read, w);
      assert behind <= Elements(read) - {e};
      SubsetSize(behind, Elements(read) - {e});
    }
  }

  /** Successive sweeps of a growing inbox, starting from watermark `w`. */
  ghost predicate Sweeps(w: int, sweeps: seq<Sweep>, final: Inbox)
    decreases |sweeps|
  {
    sweeps == []
    || (&& IsRead(sweeps[0].inbox, CutoffAt(w), LIMIT, sweeps[0].read)
        && sweeps[0].inbox <= final
        && (|sweeps| > 1 ==> sweeps[0].inbox <= sweeps[1].inbox)
        && Sweeps(Watermark(w, sweeps[0].read), sweeps[1..], final))
  }

  /** The rows that stand between the watermark and one still to be examined. */
  function Ahead(final: Inbox, w: int, row: Entry): nat {
    |Between(final, w, row.storedAt)|
  }

  /** A sweep that misses a row it could have read still uses up rows ahead of it. */
  lemma MissedRowGetsCloser(w: int, s: Sweep, final: Inbox, d: nat, row: Entry)
    requires IsRead(s.inbox, CutoffAt(w), LIMIT, s.read) && s.inbox <= final
    requires Sparse(final, d) && d < LIMIT
    requires row in s.inbox && row.storedAt > CutoffAt(w) && row !in s.read
    ensures Watermark(w, s.read) <= row.storedAt && Watermark(w, s.read) > 0
    ensures Ahead(final, Watermark(w, s.read), row) <= Ahead(final, w, row) - (LIMIT - d)
  {
    ShortReadIsWhole(s.inbox, CutoffAt(w), s.read);
    assert row in After(s.inbox, CutoffAt(w));
    assert |s.read| == LIMIT;
    SparseSmaller(s.inbox, final, d);
    FullSweepAdvances(s.inbox, w, s.read, d);
    var last := s.read[LIMIT - 1];
    assert last in s.read && last in After(s.inbox, CutoffAt(w));
    var used := ReadBeyond(s.read, w);
    var before, after := Between(final, w, row.storedAt), Between(final, last.storedAt, row.storedAt);
    assert last.storedAt > w by {
      var e :| e in used;
    }
    assert used <= before && after <= before;
    assert used !! after;
    SubsetSize(used + after, before);
  }

  lemma SparseSmaller(small: Inbox, large: Inbox, d: nat)
    requires small <= large && Sparse(large, d)
    ensures Sparse(small, d)
  {
    forall t
      ensures |Recent(small, t)| <= d
    {
      SubsetSize(Recent(small, t), Recent(large, t));
    }
  }

  /** Catch-up: a row that is in the inbox, and no further behind the watermark than the
      overlap, is examined within one sweep for every LIMIT - d rows ahead of it, plus one,
      however many rows arrive meanwhile. */
  lemma {:induction false} EveryRowIsExamined(w: int, sweeps: seq<Sweep>, final: Inbox, d: nat, row: Entry)
    returns (k: nat)
    requires Sweeps(w, sweeps, final) && Sparse(final, d) && d < LIMIT
    requires sweeps != [] && row in sweeps[0].inbox && row.storedAt > CutoffAt(w)
    requires |sweeps| * (LIMIT - d) > Ahead(final, w, row)
    ensures k < |sweeps| && row in sweeps[k].read
    decreases |sweeps|
  {
    if row in sweeps[0].read {
      return 0;
    }
    MissedRowGetsCloser(w, sweeps[0], final, d, row);
    assert |sweeps| > 1;
    assert (|sweeps| - 1) * (LIMIT - d) == |sweeps| * (LIMIT - d) - (LIMIT - d);
    var later := EveryRowIsExamined(Watermark(w, sweeps[0].read), sweeps[1..], final, d, row);
    k := later + 1;
  }

  // ---- without the density hypothesis ----

  function EntryAt(key: nat, at: int): Entry {
    SyncEngine.InboxMessage(key, Sms("", "", 0), at)
  }

  /** LIMIT rows stored in one and the same millisecond. */
  function Burst(n: nat, at: int): Inbox {
    set k: nat | k < n :: EntryAt(k, at)
  }

  lemma {:induction false} BurstSize(n: nat, at: int)
    ensures |Burst(n, at)| == n
  {
    if n == 0 {
      assert Burst(0, at) == {};
    } else {
      BurstSize(n - 1, at);
      assert Burst(n, at) == Burst(n - 1, at) + {EntryAt(n - 1, at)};
    }
  }

  /** Then the sweep stalls: however often it runs, the watermark stays where it is and the
      row after the burst is never examined. */
  lemma {:induction false} BurstStallsForever(at: int, sweeps: seq<Sweep>)
    requires at > 0
    requires Sweeps(at, sweeps, Burst(LIMIT, at) + {EntryAt(LIMIT, at + 1)})
    requires forall s | s in sweeps :: s.inbox == Burst(LIMIT, at) + {EntryAt(LIMIT, at + 1)}
    ensures forall s | s in sweeps :: EntryAt(LIMIT, at + 1) !in s.read && Watermark(at, s.read) == at
    decreases |sweeps|
  {
    if sweeps != [] {
      BurstStalls(at, sweeps[0].read);
      BurstStallsForever(at, sweeps[1..]);
      assert sweeps == [sweeps[0]] + sweeps[1..];
    }
  }

  lemma BurstStalls(at: int, read: seq<Entry>)
    requires at > 0
    requires IsRead(Burst(LIMIT, at) + {EntryAt(LIMIT, at + 1)}, CutoffAt(at), LIMIT, read)
    ensures EntryAt(LIMIT, at + 1) !in read && Watermark(at, read) == at
  {
    var inbox := Burst(LIMIT, at) + {EntryAt(LIMIT, at + 1)};
    BurstSize(LIMIT, at);
    assert Between(inbox, CutoffAt(at), at) == Burst(LIMIT, at);
    assert EntryAt(LIMIT, at + 1) in After(inbox, CutoffAt(at));
    ProgressExactlyWhen(inbox, at, read);
    ShortReadIsWhole(inbox, CutoffAt(at), read);
    assert EntryAt(LIMIT, at + 1) !in ReadBeyond(read, at);
    assert read != [];
    var last := read[|read| - 1];
    assert last in read && last !in ReadBeyond(read, at);
  }
}
