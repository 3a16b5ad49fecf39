/** The server's ingest path: `insert_if_absent` (repositories.py), `parse_batch` and
    `ingest_batch` (services.py), `upload_batch` (routers/messages.py). */
module Ingest {
  import opened Wrappers
  import opened Identity
  import opened Wire

  datatype Stored = Stored(device: string, sms: Sms)

  type Store = map<Id, Stored>

  const MAX_BATCH: nat := 500
  const REFUSAL: string := "validation error"

  /** MessageCreate: a readable id, readable fields and a sender of at least one character. */
  predicate Valid(p: Payload) {
    p.id.Some? && p.content.Some? && |p.content.value.sender| >= 1
  }

  function UploadOf(p: Payload): Upload
    requires Valid(p)
  {
    Upload(p.id.value, p.content.value)
  }

  /** The acceptable messages of a batch, in the order they came. */
  function Uploads(payloads: seq<Payload>): seq<Upload> {
    if payloads == [] then [] else
      var last := payloads[|payloads| - 1];
      Uploads(payloads[..|payloads| - 1])
      + if Valid(last) then [UploadOf(last)] else []
  }

  function InsertIfAbsent(s: Store, device: string, u: Upload): Store {
    if u.id in s then s else s[u.id := Stored(device, u.sms)]
  }

  function Ingested(s: Store, device: string, uploads: seq<Upload>): Store {
    if uploads == [] then s else
      InsertIfAbsent(Ingested(s, device, uploads[..|uploads| - 1]), device, uploads[|uploads| - 1])
  }

  /** The verdict on entry `i`: rejected on its own terms, or new or not at the moment the
      entries before it have been stored. */
  function Verdict(s: Store, device: string, payloads: seq<Payload>, i: nat): MessageResult
    requires i < |payloads|
  {
    var p := payloads[i];
    if !Valid(p) then MessageResult(i, p.id, Rejected, Some(REFUSAL))
    else if p.id.value in Ingested(s, device, Uploads(payloads[..i])) then MessageResult(i, p.id, Duplicate, None)
    else MessageResult(i, p.id, Created, None)
  }

  function Verdicts(s: Store, device: string, payloads: seq<Payload>): seq<MessageResult> {
    seq(|payloads|, i requires 0 <= i < |payloads| => Verdict(s, device, payloads, i))
  }

  function CountOf(results: seq<MessageResult>, status: ResultStatus): nat {
    if results == [] then 0 else
      CountOf(results[..|results| - 1], status) + if results[|results| - 1].status == status then 1 else 0
  }

  function UploadIds(uploads: seq<Upload>): set<Id> {
    set i | 0 <= i < |uploads| :: uploads[i].id
  }

  ghost predicate FirstWriter(uploads: seq<Upload>, k: nat) {
    k < |uploads| && forall j | 0 <= j < k :: uploads[j].id != uploads[k].id
  }

  /** Storing a batch adds exactly its ids and overwrites nothing. */
  lemma {:induction false} IngestedContents(s: Store, device: string, uploads: seq<Upload>)
    ensures Ingested(s, device, uploads).Keys == s.Keys + UploadIds(uploads)
    ensures forall id | id in s :: Ingested(s, device, uploads)[id] == s[id]
  {
    if uploads != [] {
      var n := |uploads| - 1;
      IngestedContents(s, device, uploads[..n]);
      assert UploadIds(uploads) == UploadIds(uploads[..n]) + {uploads[n].id};
    }
  }

  /** Of several entries under one new id, the first is the one kept. */
  lemma {:induction false} FirstWriterWins(s: Store, device: string, uploads: seq<Upload>, k: nat)
    requires FirstWriter(uploads, k) && uploads[k].id !in s
    ensures uploads[k].id in Ingested(s, device, uploads)
    ensures Ingested(s, device, uploads)[uploads[k].id] == Stored(device, uploads[k].sms)
  {
    var n := |uploads| - 1;
    if k < n {
      FirstWriterWins(s, device, uploads[..n], k);
    } else {
      IngestedContents(s, device, uploads[..n]);
    }
  }

  lemma EmptyBatch(s: Store, device: string, uploads: seq<Upload>)
    ensures Ingested(s, device, uploads[..0]) == s
  {
  }

  lemma OneMoreUpload(s: Store, device: string, uploads: seq<Upload>, i: nat)
    requires i < |uploads|
    ensures Ingested(s, device, uploads[..i + 1])
         == InsertIfAbsent(Ingested(s, device, uploads[..i]), device, uploads[i])
  {
    assert uploads[..i + 1][..i] == uploads[..i];
  }

  lemma {:induction false} KnownBatchChangesNothing(s: Store, device: string, uploads: seq<Upload>)
    requires UploadIds(uploads) <= s.Keys
    ensures Ingested(s, device, uploads) == s
  {
    if uploads != [] {
      var n := |uploads| - 1;
      assert uploads[n].id in UploadIds(uploads);
      assert UploadIds(uploads[..n]) <= UploadIds(uploads);
      KnownBatchChangesNothing(s, device, uploads[..n]);
    }
  }

  lemma {:induction false} UploadsOfPrefix(payloads: seq<Payload>, i: nat)
    requires i <= |payloads|
    ensures UploadIds(Uploads(payloads[..i])) <= UploadIds(Uploads(payloads))
    ensures forall j | 0 <= j < i && Valid(payloads[j]) :: payloads[j].id.value in UploadIds(Uploads(payloads))
    decreases |payloads|
  {
    if i == |payloads| {
      assert payloads[..i] == payloads;
      if i > 0 {
        var before := payloads[..i - 1];
        UploadsOfPrefix(before, i - 1);
        var all := Uploads(payloads);
        var had := Uploads(before);
        assert forall k | 0 <= k < |had| :: all[k] == had[k];
        assert UploadIds(had) <= UploadIds(all);
        if Valid(payloads[i - 1]) {
          assert all[|had|].id == payloads[i - 1].id.value;
        }
      }
    } else {
      var before := payloads[..|payloads| - 1];
      UploadsOfPrefix(before, i);
      assert before[..i] == payloads[..i];
      var all := Uploads(payloads);
      var had := Uploads(before);
      assert forall k | 0 <= k < |had| :: all[k] == had[k];
    }
  }

  /** The store that a partial request leaves behind, sent `times` times over. */
  function Replayed(s: Store, device: string, payloads: seq<Payload>, times: nat): Store {
    if times == 0 then s else Ingested(Replayed(s, device, payloads, times - 1), device, Uploads(payloads))
  }

  /** Sending a batch again, however often, stores nothing more; every acceptable entry is
      then answered as a duplicate and no other verdict changes. */
  lemma {:induction false} ReplayIsHarmless(s: Store, device: string, payloads: seq<Payload>, times: nat)
    requires times >= 1
    ensures Replayed(s, device, payloads, times) == Ingested(s, device, Uploads(payloads))
    ensures forall i | 0 <= i < |payloads| ::
              Verdict(Replayed(s, device, payloads, times), device, payloads, i).status
              == if Valid(payloads[i]) then Duplicate else Rejected
    ensures CountOf(Verdicts(Replayed(s, device, payloads, times), device, payloads), Created) == 0
  {
    var once := Ingested(s, device, Uploads(payloads));
    IngestedContents(s, device, Uploads(payloads));
    KnownBatchChangesNothing(once, device, Uploads(payloads));
    if times == 1 {
      assert Replayed(s, device, payloads, 0) == s;
    } else {
      ReplayIsHarmless(s, device, payloads, times - 1);
    }
    forall i | 0 <= i < |payloads|
      ensures Verdict(once, device, payloads, i).status == if Valid(payloads[i]) then Duplicate else Rejected
    {
      UploadsOfPrefix(payloads, |payloads|);
      IngestedContents(once, device, Uploads(payloads[..i]));
    }
    NoneCounted(Verdicts(once, device, payloads), Created);
  }

  lemma {:induction false} NoneCounted(results: seq<MessageResult>, status: ResultStatus)
    requires forall r | r in results :: r.status != status
    ensures CountOf(results, status) == 0
  {
    if results != [] {
      NoneCounted(results[..|results| - 1], status);
    }
  }

  /** One more entry adds one more verdict and leaves the earlier ones as they were. */
  lemma VerdictsGrow(s: Store, device: string, payloads: seq<Payload>)
    requires payloads != []
    ensures Verdicts(s, device, payloads)
         == Verdicts(s, device, payloads[..|payloads| - 1]) + [Verdict(s, device, payloads, |payloads| - 1)]
  {
    var before := payloads[..|payloads| - 1];
    forall i | 0 <= i < |before|
      ensures Verdict(s, device, payloads, i) == Verdict(s, device, before, i)
    {
      assert payloads[..i] == before[..i];
    }
  }

  lemma CountGrows(results: seq<MessageResult>, r: MessageResult, status: ResultStatus)
    ensures CountOf(results + [r], status) == CountOf(results, status) + if r.status == status then 1 else 0
  {
    assert (results + [r])[..|results|] == results;
  }

  /** The tallies of a batch, and the rows it would add. */
  ghost predicate AddsUp(s: Store, device: string, payloads: seq<Payload>, results: seq<MessageResult>) {
    && CountOf(results, Created) + CountOf(results, Duplicate) == |Uploads(payloads)|
    && CountOf(results, Rejected) == |payloads| - |Uploads(payloads)|
    && CountOf(results, Created) == |Ingested(s, device, Uploads(payloads))| - |s|
  }

  lemma OneMoreVerdict(s: Store, device: string, payloads: seq<Payload>, results: seq<MessageResult>)
    requires payloads != [] && AddsUp(s, device, payloads[..|payloads| - 1], results)
    ensures AddsUp(s, device, payloads, results + [Verdict(s, device, payloads, |payloads| - 1)])
  {
    var last := Verdict(s, device, payloads, |payloads| - 1);
    CountGrows(results, last, Created);
    CountGrows(results, last, Duplicate);
    CountGrows(results, last, Rejected);
    var had := Uploads(payloads[..|payloads| - 1]);
    if Valid(payloads[|payloads| - 1]) {
      assert Uploads(payloads)[..|had|] == had;
    } else {
      assert Uploads(payloads) == had;
    }
  }

  /** The verdicts account for every entry, and the rows gained are the entries created. */
  lemma {:induction false} VerdictsAddUp(s: Store, device: string, payloads: seq<Payload>)
    ensures AddsUp(s, device, payloads, Verdicts(s, device, payloads))
  {
    if payloads == [] {
      assert Verdicts(s, device, []) == [];
    } else {
      hide AddsUp;
      VerdictsAddUp(s, device, payloads[..|payloads| - 1]);
      VerdictsGrow(s, device, payloads);
      OneMoreVerdict(s, device, payloads, Verdicts(s, device, payloads[..|payloads| - 1]));
    }
  }

  /** Every entry the answer does not reject is stored when the answer is given. */
  lemma NotRejectedMeansStored(s: Store, device: string, payloads: seq<Payload>, i: nat)
    requires i < |payloads|
    requires Verdict(s, device, payloads, i).status != Rejected
    ensures payloads[i].id.Some? && payloads[i].id.value in Ingested(s, device, Uploads(payloads))
  {
    UploadsOfPrefix(payloads, |payloads|);
    IngestedContents(s, device, Uploads(payloads));
  }

  // ---- the code ----

  ghost predicate ByIndex(results: seq<MessageResult>) {
    forall i, j | 0 <= i < j < |results| :: results[i].index < results[j].index
  }

  /** A list sorted by distinct positions 0..n-1 has each entry at its own position. */
  lemma PlacedByIndex(results: seq<MessageResult>, expected: seq<MessageResult>)
    requires ByIndex(results) && |results| == |expected|
    requires forall r | r in results :: 0 <= r.index < |expected| && r == expected[r.index]
    ensures results == expected
  {
    forall i | 0 <= i < |results|
      ensures results[i].index == i
    {
      AtLeastPosition(results, i);
      AtMostPosition(results, i);
    }
  }

  lemma {:induction false} AtLeastPosition(results: seq<MessageResult>, i: nat)
    requires ByIndex(results) && i < |results|
    requires forall r | r in results :: 0 <= r.index
    ensures results[i].index >= i
  {
    if i > 0 {
      AtLeastPosition(results, i - 1);
    }
  }

  lemma {:induction false} AtMostPosition(results: seq<MessageResult>, i: nat)
    requires ByIndex(results) && i < |results|
    requires forall r | r in results :: r.index < |results|
    ensures results[i].index <= i
    decreases |results| - i
  {
    if i + 1 < |results| {
      AtMostPosition(results, i + 1);
    }
  }

  method InsertByIndex(sorted: seq<MessageResult>, r: MessageResult) returns (longer: seq<MessageResult>)
    requires ByIndex(sorted) && forall o | o in sorted :: o.index != r.index
    ensures ByIndex(longer) && |longer| == |sorted| + 1
    ensures forall o :: o in longer <==> o in sorted || o == r
  {
    var at := |sorted|;
    while at > 0 && sorted[at - 1].index > r.index
      invariant 0 <= at <= |sorted|
      invariant forall j | at <= j < |sorted| :: sorted[j].index > r.index
    {
      at := at - 1;
    }
    longer := sorted[..at] + [r] + sorted[at..];
    InsertedAt(sorted, at, r);
  }

  lemma InsertedAt<T>(s: seq<T>, at: nat, x: T)
    requires at <= |s|
    ensures forall o :: o in s[..at] + [x] + s[at..] <==> o in s || o == x
  {
    assert s == s[..at] + s[at..];
  }

  /** `results.sort(key=index)`, for entries with distinct indexes. */
  method SortByIndex(results: seq<MessageResult>) returns (sorted: seq<MessageResult>)
    requires forall i, j | 0 <= i < j < |results| :: results[i].index != results[j].index
    ensures ByIndex(sorted) && |sorted| == |results|
    ensures forall r :: r in sorted <==> r in results
  {
    hide ByIndex;
    sorted := [];
    assert ByIndex(sorted) by {
      EmptyIsByIndex();
    }
    for k := 0 to |results|
      invariant ByIndex(sorted) && |sorted| == k
      invariant forall r :: r in sorted <==> r in results[..k]
    {
      assert results[..k + 1] == results[..k] + [results[k]];
      sorted := InsertByIndex(sorted, results[k]);
    }
    assert results[..|results|] == results;
  }

  lemma EmptyIsByIndex()
    ensures ByIndex([])
  {
  }

  /** Entry `e` was read off an acceptable payload that `k` acceptable ones precede. */
  ghost predicate ParsedFrom(payloads: seq<Payload>, e: (nat, Upload), k: nat) {
    e.0 < |payloads| && Valid(payloads[e.0]) && e.1 == UploadOf(payloads[e.0])
    && |Uploads(payloads[..e.0])| == k
  }

  /** Result `r` refuses an unacceptable payload that `k` unacceptable ones precede. */
  ghost predicate RejectionOf(payloads: seq<Payload>, r: MessageResult, k: nat) {
    0 <= r.index < |payloads| && !Valid(payloads[r.index])
    && r == MessageResult(r.index, payloads[r.index].id, Rejected, Some(REFUSAL))
    && r.index - |Uploads(payloads[..r.index])| == k
  }

  lemma {:induction false} UploadsPrefix(payloads: seq<Payload>, i: nat)
    requires i <= |payloads|
    ensures Uploads(payloads[..i]) <= Uploads(payloads)
    decreases |payloads|
  {
    if i < |payloads| {
      var before := payloads[..|payloads| - 1];
      UploadsPrefix(before, i);
      assert before[..i] == payloads[..i];
    } else {
      assert payloads[..i] == payloads;
    }
  }

  // ---- what a batch does, entry by entry ----

  predicate Malformed(p: Payload) {
    p.id.None? || p.content.None? || p.content.value.sender == ""
  }

  /** Entry `i` is the first readable one under an id that no row has. */
  ghost predicate AddsRow(s: Store, payloads: seq<Payload>, i: nat) {
    && i < |payloads| && !Malformed(payloads[i]) && payloads[i].id.value !in s
    && forall j | 0 <= j < i :: Malformed(payloads[j]) || payloads[j].id != payloads[i].id
  }

  /** No row is touched, and those that are new are the contents of the entries that add one. */
  ghost predicate StoresFirsts(s: Store, device: string, payloads: seq<Payload>, after: Store) {
    && (forall id | id in s :: id in after && after[id] == s[id])
    && (forall i: nat | AddsRow(s, payloads, i) ::
          payloads[i].id.value in after && after[payloads[i].id.value] == Stored(device, payloads[i].content.value))
    && (forall id | id in after && id !in s :: exists i: nat :: AddsRow(s, payloads, i) && payloads[i].id.value == id)
  }

  function Places(results: seq<MessageResult>, status: ResultStatus): set<nat> {
    set i: nat | i < |results| && results[i].status == status
  }

  /** One result for each entry, in order, naming it and saying what became of it; and tallies
      that count those results. */
  ghost predicate Reports(s: Store, payloads: seq<Payload>, response: BatchResponse)
    requires response.results.Some?
  {
    var results := response.results.value;
    && |results| == |payloads|
    && (forall i: nat | i < |results| ::
          && results[i].index == i && results[i].id == payloads[i].id
          && (results[i].status.Rejected? <==> Malformed(payloads[i]))
          && (results[i].status.Created? <==> AddsRow(s, payloads, i))
          && (results[i].error.Some? <==> results[i].status.Rejected?))
    && response.created == |set i: nat | i < |results| && results[i].status.Created?|
    && response.duplicates == |set i: nat | i < |results| && results[i].status.Duplicate?|
    && response.rejected == |set i: nat | i < |results| && results[i].status.Rejected?|
  }

  lemma {:induction false} UploadIdsAre(payloads: seq<Payload>, id: Id)
    ensures id in UploadIds(Uploads(payloads))
       <==> exists j: nat :: j < |payloads| && !Malformed(payloads[j]) && payloads[j].id == Some(id)
  {
    if payloads != [] {
      var n := |payloads| - 1;
      var had, all := Uploads(payloads[..n]), Uploads(payloads);
      UploadIdsAre(payloads[..n], id);
      if Valid(payloads[n]) {
        assert all[..|had|] == had && all[|had|].id == payloads[n].id.value;
        assert UploadIds(all) == UploadIds(had) + {payloads[n].id.value} by {
          assert forall i | 0 <= i < |had| :: all[i] == had[i];
        }
      } else {
        assert all == had;
      }
      if j: nat :| j < |payloads| && !Malformed(payloads[j]) && payloads[j].id == Some(id) {
        assert j < n ==> payloads[..n][j] == payloads[j];
      }
    }
  }

  /** An entry is called created exactly when it adds a row. */
  lemma CreatedAddsRow(s: Store, device: string, payloads: seq<Payload>, i: nat)
    requires i < |payloads|
    ensures Verdict(s, device, payloads, i).status.Created? <==> AddsRow(s, payloads, i)
  {
    hide Ingested, Uploads;
    if Valid(payloads[i]) {
      IngestedContents(s, device, Uploads(payloads[..i]));
      UploadIdsAre(payloads[..i], payloads[i].id.value);
      assert forall j | 0 <= j < i :: payloads[..i][j] == payloads[j];
    }
  }

  lemma {:induction false} CountIsSize(results: seq<MessageResult>, status: ResultStatus)
    ensures CountOf(results, status) == |Places(results, status)|
  {
    if results == [] {
      assert Places(results, status) == {};
    } else {
      var n := |results| - 1;
      CountIsSize(results[..n], status);
      assert Places(results, status) == Places(results[..n], status) + if results[n].status == status then {n} else {};
    }
  }

  lemma FirstIsStored(s: Store, device: string, payloads: seq<Payload>, i: nat)
    requires AddsRow(s, payloads, i)
    ensures payloads[i].id.value in Ingested(s, device, Uploads(payloads))
    ensures Ingested(s, device, Uploads(payloads))[payloads[i].id.value] == Stored(device, payloads[i].content.value)
  {
    hide Ingested;
    var k := |Uploads(payloads[..i])|;
    var id := payloads[i].id.value;
    UploadsPrefix(payloads, i);
    UploadsPrefix(payloads, i + 1);
    assert payloads[..i + 1][..i] == payloads[..i];
    assert Uploads(payloads)[k] == Uploads(payloads[..i + 1])[k] == UploadOf(payloads[i]);
    UploadIdsAre(payloads[..i], id);
    assert forall j | 0 <= j < k :: Uploads(payloads[..i])[j].id in UploadIds(Uploads(payloads[..i]));
    FirstWriterWins(s, device, Uploads(payloads), k);
  }

  /** What a batch stores: of each id no row has, the contents of its first readable entry. */
  lemma StoresExactlyTheFirsts(s: Store, device: string, payloads: seq<Payload>)
    ensures StoresFirsts(s, device, payloads, Ingested(s, device, Uploads(payloads)))
  {
    hide Ingested, Uploads;
    IngestedContents(s, device, Uploads(payloads));
    forall i: nat | AddsRow(s, payloads, i)
      ensures payloads[i].id.value in Ingested(s, device, Uploads(payloads))
      ensures Ingested(s, device, Uploads(payloads))[payloads[i].id.value] == Stored(device, payloads[i].content.value)
    {
      FirstIsStored(s, device, payloads, i);
    }
    forall id | id in Ingested(s, device, Uploads(payloads)) && id !in s
      ensures exists i: nat :: AddsRow(s, payloads, i) && payloads[i].id.value == id
    {
      UploadIdsAre(payloads, id);
      FirstEntry(s, payloads, id, |payloads|);
    }
  }

  lemma {:induction false} FirstEntry(s: Store, payloads: seq<Payload>, id: Id, n: nat)
    requires n <= |payloads| && id !in s
    requires exists j: nat :: j < n && !Malformed(payloads[j]) && payloads[j].id == Some(id)
    ensures exists i: nat :: AddsRow(s, payloads, i) && payloads[i].id.value == id
  {
    if j: nat :| j < n - 1 && !Malformed(payloads[j]) && payloads[j].id == Some(id) {
      FirstEntry(s, payloads, id, n - 1);
    } else {
      assert AddsRow(s, payloads, n - 1);
    }
  }

  /** What each result says of its entry. */
  lemma ResultsAreExact(s: Store, device: string, payloads: seq<Payload>)
    ensures var results := Verdicts(s, device, payloads);
            forall i: nat | i < |payloads| ::
              && results[i].index == i && results[i].id == payloads[i].id
              && (results[i].status.Rejected? <==> Malformed(payloads[i]))
              && (results[i].status.Created? <==> AddsRow(s, payloads, i))
              && (results[i].error.Some? <==> results[i].status.Rejected?)
  {
    hide Ingested, Uploads, AddsRow;
    forall i: nat | i < |payloads|
      ensures Verdict(s, device, payloads, i).status.Created? <==> AddsRow(s, payloads, i)
    {
      CreatedAddsRow(s, device, payloads, i);
    }
  }

  lemma SizesByStatus(results: seq<MessageResult>)
    ensures CountOf(results, Created) == |set i: nat | i < |results| && results[i].status.Created?|
    ensures CountOf(results, Duplicate) == |set i: nat | i < |results| && results[i].status.Duplicate?|
    ensures CountOf(results, Rejected) == |set i: nat | i < |results| && results[i].status.Rejected?|
  {
    hide CountOf;
    CountIsSize(results, Created);
    CountIsSize(results, Duplicate);
    CountIsSize(results, Rejected);
    assert Places(results, Created) == set i: nat | i < |results| && results[i].status.Created?;
    assert Places(results, Duplicate) == set i: nat | i < |results| && results[i].status.Duplicate?;
    assert Places(results, Rejected) == set i: nat | i < |results| && results[i].status.Rejected?;
  }

  /** The response, without the functions that make it: its tallies are the rows gained, the
      readable entries that added none and the unreadable ones, and its results, when asked
      for, say which entry is which. */
  lemma ResponseIsExact(s: Store, device: string, payloads: seq<Payload>, partial: bool)
    ensures var response := Response(s, device, payloads, partial);
            && response.accepted == |payloads| == response.created + response.duplicates + response.rejected
            && response.created == |Ingested(s, device, Uploads(payloads))| - |s|
            && response.rejected == |set i | 0 <= i < |payloads| && Malformed(payloads[i])|
            && (response.results.Some? <==> partial)
            && (partial ==> Reports(s, payloads, response))
  {
    var verdicts := Verdicts(s, device, payloads);
    assert |verdicts| == |payloads|;
    VerdictsAddUp(s, device, payloads);
    ResultsAreExact(s, device, payloads);
    SizesByStatus(verdicts);
    hide Verdicts, Ingested, Uploads, CountOf, AddsRow, Malformed;
    assert (set i: nat | i < |verdicts| && verdicts[i].status.Rejected?)
        == set i | 0 <= i < |payloads| && Malformed(payloads[i]);
  }

  datatype BatchOutcome = Refused(code: int) | Answered(response: BatchResponse)

  class MessageStore {
    /** The committed rows. */
    var rows: Store

    constructor ()
      ensures rows == map[]
    {
      rows := map[];
    }

    static method ParseBatch(payloads: seq<Payload>)
      returns (valid: seq<(nat, Upload)>, rejected: seq<MessageResult>)
      ensures |valid| + |rejected| == |payloads|
      ensures |valid| == |Uploads(payloads)|
      ensures forall k | 0 <= k < |valid| :: ParsedFrom(payloads, valid[k], k) && valid[k].1 == Uploads(payloads)[k]
      ensures forall k | 0 <= k < |rejected| :: RejectionOf(payloads, rejected[k], k)
    {
      valid, rejected := [], [];
      for i := 0 to |payloads|
        invariant |valid| + |rejected| == i
        invariant |valid| == |Uploads(payloads[..i])|
        invariant forall k | 0 <= k < |valid| ::
                    ParsedFrom(payloads, valid[k], k) && valid[k].1 == Uploads(payloads[..i])[k]
        invariant forall k | 0 <= k < |rejected| :: RejectionOf(payloads, rejected[k], k)
      {
        assert payloads[..i + 1][..i] == payloads[..i];
        if Valid(payloads[i]) {
          valid := valid + [(i, UploadOf(payloads[i]))];
        } else {
          rejected := rejected + [MessageResult(i, payloads[i].id, Rejected, Some(REFUSAL))];
        }
      }
      assert payloads[..|payloads|] == payloads;
    }

    /** One transaction: rows are added one by one and become visible together. */
    method IngestBatch(device: string, uploads: seq<Upload>)
      returns (created: nat, duplicates: nat, flags: seq<bool>)
      modifies this
      ensures rows == Ingested(old(rows), device, uploads)
      ensures |flags| == |uploads|
      ensures forall k | 0 <= k < |uploads| ::
                flags[k] <==> uploads[k].id !in Ingested(old(rows), device, uploads[..k])
      ensures created == |rows| - |old(rows)| && created + duplicates == |uploads|
    {
      hide Ingested;
      var pending := rows;
      var added: nat := 0;
      EmptyBatch(rows, device, uploads);
      flags := [];
      for i := 0 to |uploads|
        invariant pending == Ingested(rows, device, uploads[..i]) && rows == old(rows)
        invariant |flags| == i && added <= i && added == |pending| - |rows|
        invariant forall k | 0 <= k < i :: flags[k] <==> uploads[k].id !in Ingested(rows, device, uploads[..k])
      {
        OneMoreUpload(rows, device, uploads, i);
        var isNew := uploads[i].id !in pending;
        if isNew {
          pending := pending[uploads[i].id := Stored(device, uploads[i].sms)];
          added := added + 1;
        }
        flags := flags + [isNew];
      }
      assert uploads[..|uploads|] == uploads;
      rows := pending;
      created, duplicates := added, |uploads| - added;
    }

    /** POST /messages/batch. All-or-nothing unless the client asks for verdicts. A refusal
        stores nothing. Otherwise every entry with an id, readable contents and a sender is
        stored, unless its id is taken by a row or by an entry before it; the tallies are the
        rows gained, the acceptable entries that added none, and the unacceptable ones; and the
        results, if asked for, say of each entry which of the three it is. */
    method UploadBatch(device: string, payloads: seq<Payload>, partial: bool) returns (outcome: BatchOutcome)
      modifies this
      ensures outcome.Refused? <==>
                |payloads| == 0 || |payloads| > 500
                || (!partial && exists i :: 0 <= i < |payloads| && Malformed(payloads[i]))
      ensures outcome.Refused? ==> rows == old(rows) && outcome.code == 422
      ensures outcome.Answered? ==>
                && rows == Ingested(old(rows), device, Uploads(payloads))
                && outcome.response == Response(old(rows), device, payloads, partial)
      ensures outcome.Answered? ==> StoresFirsts(old(rows), device, payloads, rows)
      ensures outcome.Answered? ==>
                var response := outcome.response;
                && response.accepted == |payloads| == response.created + response.duplicates + response.rejected
                && response.created == |rows| - |old(rows)|
                && response.rejected == |set i | 0 <= i < |payloads| && Malformed(payloads[i])|
                && (response.results.Some? <==> partial)
                && (partial ==> Reports(old(rows), payloads, response))
    {
      hide Ingested, Uploads, Verdicts, CountOf;
      if |payloads| == 0 || |payloads| > MAX_BATCH {
        return Refused(422);
      }
      var valid, rejected := ParseBatch(payloads);
      if rejected != [] && !partial {
        assert RejectionOf(payloads, rejected[0], 0);
        return Refused(422);
      }
      var uploads := seq(|valid|, k requires 0 <= k < |valid| => valid[k].1);
      assert uploads == Uploads(payloads);
      ghost var before := rows;
      var created, duplicates, flags := IngestBatch(device, uploads);
      VerdictsAddUp(before, device, payloads);
      StoresExactlyTheFirsts(before, device, payloads);
      ResponseIsExact(before, device, payloads, partial);
      if !partial {
        AllValid(payloads, |valid|);
        return Answered(BatchResponse(|payloads|, created, duplicates, 0, None));
      }
      var results := MergeVerdicts(before, device, payloads, valid, rejected, flags);
      outcome := Answered(BatchResponse(|payloads|, created, duplicates, |rejected|, Some(results)));
    }

    /** Rejections and stored entries, put back in the order of the request. */
    static method MergeVerdicts(ghost before: Store, device: string, payloads: seq<Payload>,
                                valid: seq<(nat, Upload)>, rejected: seq<MessageResult>, flags: seq<bool>)
      returns (results: seq<MessageResult>)
      requires |valid| + |rejected| == |payloads| && |valid| == |Uploads(payloads)| == |flags|
      requires forall k | 0 <= k < |valid| :: ParsedFrom(payloads, valid[k], k) && valid[k].1 == Uploads(payloads)[k]
      requires forall k | 0 <= k < |rejected| :: RejectionOf(payloads, rejected[k], k)
      requires forall k | 0 <= k < |valid| ::
                 flags[k] <==> valid[k].1.id !in Ingested(before, device, Uploads(payloads)[..k])
      ensures results == Verdicts(before, device, payloads)
    {
      hide Verdict, Uploads, Ingested;
      var taken := seq(|valid|, k requires 0 <= k < |valid| => Taken(valid[k], flags[k]));
      forall k | 0 <= k < |valid|
        ensures VerdictAt(before, device, payloads, taken[k])
      {
        TakenVerdict(before, device, payloads, valid[k], k, flags[k]);
      }
      forall k | 0 <= k < |rejected|
        ensures VerdictAt(before, device, payloads, rejected[k])
      {
        RejectedVerdict(before, device, payloads, rejected[k], k);
      }
      IndexesDiffer(payloads, valid, rejected);
      results := SortByIndex(rejected + taken);
      PlacedByIndex(results, Verdicts(before, device, payloads));
    }
  }

  function Taken(entry: (nat, Upload), created: bool): MessageResult {
    MessageResult(entry.0, Some(entry.1.id), if created then Created else Duplicate, None)
  }

  lemma TakenVerdict(s: Store, device: string, payloads: seq<Payload>, entry: (nat, Upload), k: nat, created: bool)
    requires ParsedFrom(payloads, entry, k) && k <= |Uploads(payloads)|
    requires created <==> entry.1.id !in Ingested(s, device, Uploads(payloads)[..k])
    ensures VerdictAt(s, device, payloads, Taken(entry, created))
  {
    UploadsPrefix(payloads, entry.0);
    assert Uploads(payloads)[..k] == Uploads(payloads[..entry.0]);
  }

  lemma RejectedVerdict(s: Store, device: string, payloads: seq<Payload>, r: MessageResult, k: nat)
    requires RejectionOf(payloads, r, k)
    ensures VerdictAt(s, device, payloads, r)
  {
  }

  /** No position of the request is answered twice. */
  lemma IndexesDiffer(payloads: seq<Payload>, valid: seq<(nat, Upload)>, rejected: seq<MessageResult>)
    requires forall k | 0 <= k < |valid| :: ParsedFrom(payloads, valid[k], k)
    requires forall k | 0 <= k < |rejected| :: RejectionOf(payloads, rejected[k], k)
    ensures forall j, k | 0 <= j < k < |valid| :: valid[j].0 != valid[k].0
    ensures forall j, k | 0 <= j < k < |rejected| :: rejected[j].index != rejected[k].index
    ensures forall j, k | 0 <= j < |rejected| && 0 <= k < |valid| :: rejected[j].index != valid[k].0
  {
    hide Uploads;
    forall j, k | 0 <= j < k < |valid|
      ensures valid[j].0 != valid[k].0
    {
      assert ParsedFrom(payloads, valid[j], j) && ParsedFrom(payloads, valid[k], k);
    }
    forall j, k | 0 <= j < k < |rejected|
      ensures rejected[j].index != rejected[k].index
    {
      assert RejectionOf(payloads, rejected[j], j) && RejectionOf(payloads, rejected[k], k);
    }
    forall j, k | 0 <= j < |rejected| && 0 <= k < |valid|
      ensures rejected[j].index != valid[k].0
    {
      assert RejectionOf(payloads, rejected[j], j) && ParsedFrom(payloads, valid[k], k);
    }
  }

  ghost predicate VerdictAt(s: Store, device: string, payloads: seq<Payload>, r: MessageResult) {
    0 <= r.index < |payloads| && r == Verdict(s, device, payloads, r.index)
  }

  /** A batch loses no entry to parsing exactly when all of its entries are acceptable. */
  lemma {:induction false} AllValid(payloads: seq<Payload>, n: nat)
    requires n == |Uploads(payloads)|
    ensures n <= |payloads|
    ensures n == |payloads| <==> forall i | 0 <= i < |payloads| :: Valid(payloads[i])
  {
    if payloads != [] {
      AllValid(payloads[..|payloads| - 1], |Uploads(payloads[..|payloads| - 1])|);
    }
  }

  function Response(s: Store, device: string, payloads: seq<Payload>, partial: bool): BatchResponse {
    var verdicts := Verdicts(s, device, payloads);
    BatchResponse(|payloads|, CountOf(verdicts, Created), CountOf(verdicts, Duplicate),
                  CountOf(verdicts, Rejected), if partial then Some(verdicts) else None)
  }
}
