/** Streaming exports: keyset paging over a table that changes between queries
    (MessageRepository.iter_filtered) and the JSON and CSV streams built on it (export.py). */
module Export {
  import opened Wrappers

  /** A stored message as an export sees it; `id` is the 128-bit value of its UUID. */
  datatype Message = Message(id: nat, receivedAt: int, text: string)

  /** The table, by primary key. */
  type Table = map<nat, Message>

  ghost predicate Keyed(t: Table) {
    forall id | id in t :: t[id].id == id
  }

  /** (received_at, id), compared as the database compares the pair. */
  predicate Before(a: Message, b: Message) {
    a.receivedAt < b.receivedAt || (a.receivedAt == b.receivedAt && a.id < b.id)
  }

  predicate PastCursor(cursor: Option<Message>, m: Message) {
    cursor.None? || Before(cursor.value, m)
  }

  /** The rows the filters let through that lie past the cursor. */
  function Remaining(t: Table, keep: Message -> bool, cursor: Option<Message>): set<Message> {
    set id | id in t && keep(t[id]) && PastCursor(cursor, t[id]) :: t[id]
  }

  ghost predicate Increasing(s: seq<Message>) {
    forall i, j | 0 <= i < j < |s| :: Before(s[i], s[j])
  }

  /** `WHERE .. AND (received_at, id) > cursor ORDER BY received_at, id LIMIT chunk`. */
  ghost predicate IsPage(rows: set<Message>, chunk: nat, page: seq<Message>) {
    && Increasing(page)
    && Elements(page) <= rows
    && |page| == Min(chunk, |rows|)
    && forall m, p | m in rows && m !in page && p in page :: Before(p, m)
  }

  lemma {:induction false} IncreasingIsDistinct(s: seq<Message>)
    requires Increasing(s)
    ensures NoDuplicates(s) && |Elements(s)| == |s|
  {
    DistinctSize(s);
  }

  lemma ShortPageIsAll(rows: set<Message>, chunk: nat, page: seq<Message>)
    requires IsPage(rows, chunk, page) && |page| < chunk
    ensures Elements(page) == rows
  {
    IncreasingIsDistinct(page);
    SubsetSize(Elements(page), rows);
  }

  // ---- walking a table that changes under the walk ----

  /** Query `k` sees snapshot `k`; the walk so far has ended at `cursor`. */
  ghost predicate Walk(tables: seq<Table>, keep: Message -> bool, chunk: nat, cursor: Option<Message>,
                       pages: seq<seq<Message>>)
    requires |tables| == |pages|
    decreases |pages|
  {
    pages == []
    || (&& IsPage(Remaining(tables[0], keep, cursor), chunk, pages[0])
        && (|pages| > 1 ==> |pages[0]| == chunk)
        && Walk(tables[1..], keep, chunk, CursorAfter(cursor, pages[0]), pages[1..]))
  }

  function CursorAfter(cursor: Option<Message>, page: seq<Message>): Option<Message> {
    if page == [] then cursor else Some(page[|page| - 1])
  }

  function Flatten(pages: seq<seq<Message>>): seq<Message> {
    if pages == [] then [] else pages[0] + Flatten(pages[1..])
  }

  lemma BeforeTransitive(a: Message, b: Message, c: Message)
    requires Before(a, b) && Before(b, c)
    ensures Before(a, c)
  {
  }

  /** Everything emitted lies past the cursor, in strictly increasing order. */
  lemma {:induction false} EmittedInOrder(tables: seq<Table>, keep: Message -> bool, chunk: nat,
                                          cursor: Option<Message>, pages: seq<seq<Message>>)
    requires |tables| == |pages| && Walk(tables, keep, chunk, cursor, pages)
    ensures Increasing(Flatten(pages))
    ensures forall m | m in Flatten(pages) :: PastCursor(cursor, m) && keep(m)
    decreases |pages|
  {
    if pages != [] {
      var page, rest := pages[0], Flatten(pages[1..]);
      EmittedInOrder(tables[1..], keep, chunk, CursorAfter(cursor, page), pages[1..]);
      assert forall m | m in page :: m in Remaining(tables[0], keep, cursor);
      if page != [] {
        var last := page[|page| - 1];
        forall m | m in rest
          ensures PastCursor(cursor, m)
        {
          assert last in page;
        }
        forall i, j | 0 <= i < |page| && 0 <= j < |rest|
          ensures Before(page[i], rest[j])
        {
          assert rest[j] in rest;
          if i < |page| - 1 {
            BeforeTransitive(page[i], last, rest[j]);
          }
        }
      }
    }
  }

  /** A row present in every snapshot and past the cursor is emitted. */
  lemma {:induction false} PresentIsEmitted(tables: seq<Table>, keep: Message -> bool, chunk: nat,
                                            cursor: Option<Message>, pages: seq<seq<Message>>, m: Message)
    requires |tables| == |pages| && pages != [] && chunk >= 1
    requires Walk(tables, keep, chunk, cursor, pages)
    requires |pages[|pages| - 1]| < chunk
    requires forall t | t in tables :: m.id in t && t[m.id] == m
    requires keep(m) && PastCursor(cursor, m)
    ensures m in Flatten(pages)
    decreases |pages|
  {
    var page := pages[0];
    assert tables[0] in tables;
    assert m in Remaining(tables[0], keep, cursor);
    if m !in page {
      if |pages| == 1 {
        ShortPageIsAll(Remaining(tables[0], keep, cursor), chunk, page);
      } else {
        assert page[|page| - 1] in page;
        assert pages[1..][|pages[1..]| - 1] == pages[|pages| - 1];
        assert forall t | t in tables[1..] :: t in tables;
        PresentIsEmitted(tables[1..], keep, chunk, CursorAfter(cursor, page), pages[1..], m);
      }
    }
  }

  /** The export under interference, for any chunk size: rows inserted or deleted between
      queries never repeat or reorder what is sent, and a completed export holds every
      matching row that was there throughout. */
  lemma ExportUnderInterference(tables: seq<Table>, keep: Message -> bool, chunk: nat, pages: seq<seq<Message>>)
    requires |tables| == |pages| && pages != [] && chunk >= 1
    requires Walk(tables, keep, chunk, None, pages) && |pages[|pages| - 1]| < chunk
    ensures Increasing(Flatten(pages)) && NoDuplicates(Flatten(pages))
    ensures forall i, j | 0 <= i < j < |Flatten(pages)| ::
              && Flatten(pages)[i].receivedAt <= Flatten(pages)[j].receivedAt
              && (Flatten(pages)[i].receivedAt == Flatten(pages)[j].receivedAt ==>
                    Flatten(pages)[i].id < Flatten(pages)[j].id)
    ensures forall m | m in Flatten(pages) :: keep(m)
    ensures forall m: Message | keep(m) && (forall t | t in tables :: m.id in t && t[m.id] == m) :: m in Flatten(pages)
  {
    EmittedInOrder(tables, keep, chunk, None, pages);
    IncreasingIsDistinct(Flatten(pages));
    forall m: Message | keep(m) && (forall t | t in tables :: m.id in t && t[m.id] == m)
      ensures m in Flatten(pages)
    {
      PresentIsEmitted(tables, keep, chunk, None, pages, m);
    }
  }

  // ---- a table that stands still ----

  lemma {:induction false} IncreasingIsUnique(a: seq<Message>, b: seq<Message>)
    requires Increasing(a) && Increasing(b) && Elements(a) == Elements(b)
    ensures a == b
  {
    IncreasingIsDistinct(a);
    IncreasingIsDistinct(b);
    if a != [] {
      var n := |a| - 1;
      LastIsGreatest(a, b);
      assert Elements(a[..n]) == Elements(a) - {a[n]};
      assert Elements(b[..n]) == Elements(b) - {b[n]};
      IncreasingIsUnique(a[..n], b[..n]);
      assert a == a[..n] + [a[n]] && b == b[..n] + [b[n]];
    }
  }

  lemma LastIsGreatest(a: seq<Message>, b: seq<Message>)
    requires Increasing(a) && Increasing(b) && a != [] && |a| == |b| && Elements(a) == Elements(b)
    ensures a[|a| - 1] == b[|b| - 1]
  {
    var x, y := a[|a| - 1], b[|b| - 1];
    assert x in Elements(b) && y in Elements(a);
  }

  ghost predicate IsSorted(rows: set<Message>, s: seq<Message>) {
    Increasing(s) && Elements(s) == rows
  }

  /** On a table that does not change, the emitted rows are the sorted filter, whatever the
      chunk size; so any two exports of it agree. */
  lemma StillTableIsSorted(t: Table, keep: Message -> bool, chunk: nat, pages: seq<seq<Message>>)
    requires Keyed(t) && pages != [] && chunk >= 1
    requires Walk(seq(|pages|, _ => t), keep, chunk, None, pages) && |pages[|pages| - 1]| < chunk
    ensures IsSorted(Remaining(t, keep, None), Flatten(pages))
  {
    var tables := seq(|pages|, _ => t);
    ExportUnderInterference(tables, keep, chunk, pages);
    EmittedWasThere(tables, keep, chunk, None, pages, t);
    forall m | m in Remaining(t, keep, None)
      ensures m in Elements(Flatten(pages))
    {
      assert forall u | u in tables :: u == t;
    }
  }

  lemma {:induction false} EmittedWasThere(tables: seq<Table>, keep: Message -> bool, chunk: nat,
                                           cursor: Option<Message>, pages: seq<seq<Message>>, t: Table)
    requires |tables| == |pages| && Walk(tables, keep, chunk, cursor, pages)
    requires forall u | u in tables :: u == t
    ensures forall m | m in Flatten(pages) :: m in Remaining(t, keep, None)
    decreases |pages|
  {
    if pages != [] {
      assert tables[0] in tables;
      assert forall u | u in tables[1..] :: u in tables;
      EmittedWasThere(tables[1..], keep, chunk, CursorAfter(cursor, pages[0]), pages[1..], t);
      forall m | m in pages[0]
        ensures m in Remaining(t, keep, None)
      {
        assert m in Remaining(t, keep, cursor);
      }
    }
  }

  // ---- the streams ----

  const JSON_HEAD := "{\"messages\":["
  const JSON_TAIL := "]}"

  function CommaJoin(rows: seq<string>): string {
    if rows == [] then "" else if |rows| == 1 then rows[0]
    else CommaJoin(rows[..|rows| - 1]) + "," + rows[|rows| - 1]
  }

  function Lines(rows: seq<string>): string {
    if rows == [] then "" else Lines(rows[..|rows| - 1]) + rows[|rows| - 1]
  }

  function Rendered(render: Message -> string, rows: seq<Message>): seq<string> {
    seq(|rows|, i requires 0 <= i < |rows| => render(rows[i]))
  }

  /** Everything a stream yields, end to end. */
  function Joined(parts: seq<string>): string {
    Lines(parts)
  }

  lemma LinesGrow(parts: seq<string>, part: string)
    ensures Lines(parts + [part]) == Lines(parts) + part
  {
    assert (parts + [part])[..|parts|] == parts;
  }

  lemma CommaJoinGrows(rows: seq<string>, row: string)
    ensures CommaJoin(rows + [row]) == CommaJoin(rows) + (if rows == [] then "" else ",") + row
  {
    assert (rows + [row])[..|rows|] == rows;
  }

  lemma RenderedGrows(render: Message -> string, rows: seq<Message>, m: Message)
    ensures Rendered(render, rows + [m]) == Rendered(render, rows) + [render(m)]
  {
  }

  lemma {:induction false} FlattenGrows(pages: seq<seq<Message>>, page: seq<Message>)
    ensures Flatten(pages + [page]) == Flatten(pages) + page
    decreases |pages|
  {
    if pages == [] {
      assert [page][1..] == [] && Flatten([page]) == page;
    } else {
      assert (pages + [page])[1..] == pages[1..] + [page];
      FlattenGrows(pages[1..], page);
    }
  }

  /** One chunk of as_json: its rows, each after a comma unless it is the first of all. */
  method JsonChunk(page: seq<Message>, render: Message -> string, ghost had: seq<Message>, first: bool)
    returns (parts: string)
    requires first <==> had == []
    ensures CommaJoin(Rendered(render, had)) + parts == CommaJoin(Rendered(render, had + page))
  {
    hide CommaJoin;
    parts := "";
    var none := first;
    assert had + page[..0] == had;
    for i := 0 to |page|
      invariant none <==> had + page[..i] == []
      invariant CommaJoin(Rendered(render, had)) + parts == CommaJoin(Rendered(render, had + page[..i]))
    {
      RenderedGrows(render, had + page[..i], page[i]);
      CommaJoinGrows(Rendered(render, had + page[..i]), render(page[i]));
      assert had + page[..i + 1] == had + page[..i] + [page[i]];
      parts := parts + (if none then "" else ",") + render(page[i]);
      none := false;
    }
    assert page[..|page|] == page;
  }

  /** as_json: one JSON object, yielded in parts. */
  method AsJson(pages: seq<seq<Message>>, render: Message -> string) returns (yielded: seq<string>)
    ensures Joined(yielded) == "{\"messages\":[" + CommaJoin(Rendered(render, Flatten(pages))) + "]}"
  {
    hide CommaJoin, Lines, Rendered;
    yielded := [JSON_HEAD];
    SinglePart(JSON_HEAD);
    NothingRendered(render);
    var first := true;
    for k := 0 to |pages|
      invariant first <==> Flatten(pages[..k]) == []
      invariant Joined(yielded) == JSON_HEAD + CommaJoin(Rendered(render, Flatten(pages[..k])))
    {
      var parts := JsonChunk(pages[k], render, Flatten(pages[..k]), first);
      assert pages[..k + 1] == pages[..k] + [pages[k]];
      FlattenGrows(pages[..k], pages[k]);
      if pages[k] != [] {
        LinesGrow(yielded, parts);
        yielded := yielded + [parts];
        first := false;
      } else {
        assert Flatten(pages[..k]) + pages[k] == Flatten(pages[..k]);
      }
    }
    assert pages[..|pages|] == pages;
    LinesGrow(yielded, JSON_TAIL);
    yielded := yielded + [JSON_TAIL];
  }

  lemma SinglePart(part: string)
    ensures Joined([part]) == part
  {
    assert [] + [part] == [part];
    LinesGrow([], part);
    assert Lines([]) + part == part;
  }

  lemma NothingRendered(render: Message -> string)
    ensures CommaJoin(Rendered(render, [])) == "" && Lines(Rendered(render, [])) == ""
  {
    assert Rendered(render, []) == [];
  }

  method CsvChunk(page: seq<Message>, render: Message -> string, ghost had: seq<Message>) returns (buffer: string)
    ensures Lines(Rendered(render, had)) + buffer == Lines(Rendered(render, had + page))
  {
    hide Lines;
    buffer := "";
    assert had + page[..0] == had;
    for i := 0 to |page|
      invariant Lines(Rendered(render, had)) + buffer == Lines(Rendered(render, had + page[..i]))
    {
      RenderedGrows(render, had + page[..i], page[i]);
      LinesGrow(Rendered(render, had + page[..i]), render(page[i]));
      assert had + page[..i + 1] == had + page[..i] + [page[i]];
      buffer := buffer + render(page[i]);
    }
    assert page[..|page|] == page;
  }

  /** as_csv: a header, then one part for every chunk through the reused buffer. */
  method AsCsv(pages: seq<seq<Message>>, header: string, render: Message -> string) returns (yielded: seq<string>)
    ensures Joined(yielded) == header + Lines(Rendered(render, Flatten(pages)))
    ensures |yielded| == |pages| + 1
  {
    hide Lines, Rendered;
    yielded := [header];
    SinglePart(header);
    NothingRendered(render);
    for k := 0 to |pages|
      invariant |yielded| == k + 1
      invariant Joined(yielded) == header + Lines(Rendered(render, Flatten(pages[..k])))
    {
      var buffer := CsvChunk(pages[k], render, Flatten(pages[..k]));
      assert pages[..k + 1] == pages[..k] + [pages[k]];
      FlattenGrows(pages[..k], pages[k]);
      LinesGrow(yielded, buffer);
      yielded := yielded + [buffer];
    }
    assert pages[..|pages|] == pages;
  }

  /** The JSON stream of a table that stands still is the comma-join of its sorted filter,
      whatever the chunking. */
  lemma ChunkingIsInvisible(t: Table, keep: Message -> bool, render: Message -> string,
                            chunk: nat, pages: seq<seq<Message>>, chunk': nat, pages': seq<seq<Message>>)
    requires Keyed(t) && pages != [] && pages' != [] && chunk >= 1 && chunk' >= 1
    requires Walk(seq(|pages|, _ => t), keep, chunk, None, pages) && |pages[|pages| - 1]| < chunk
    requires Walk(seq(|pages'|, _ => t), keep, chunk', None, pages') && |pages'[|pages'| - 1]| < chunk'
    ensures CommaJoin(Rendered(render, Flatten(pages))) == CommaJoin(Rendered(render, Flatten(pages')))
    ensures Lines(Rendered(render, Flatten(pages))) == Lines(Rendered(render, Flatten(pages')))
  {
    StillTableIsSorted(t, keep, chunk, pages);
    StillTableIsSorted(t, keep, chunk', pages');
    IncreasingIsUnique(Flatten(pages), Flatten(pages'));
  }

  // ---- the walk as the code runs it ----

  /** One query, by keyset: the rows past the cursor in key order. */
  method Page(t: Table, keep: Message -> bool, chunk: nat, cursor: Option<Message>) returns (page: seq<Message>)
    requires Keyed(t)
    ensures IsPage(Remaining(t, keep, cursor), chunk, page)
    ensures forall m | m in page ::
              && m.id in t && t[m.id] == m && keep(m)
              && (cursor.Some? ==> cursor.value.receivedAt <= m.receivedAt)
              && (cursor.Some? && cursor.value.receivedAt == m.receivedAt ==> cursor.value.id < m.id)
    ensures forall i, j | 0 <= i < j < |page| ::
              && page[i].receivedAt <= page[j].receivedAt
              && (page[i].receivedAt == page[j].receivedAt ==> page[i].id < page[j].id)
  {
    var rest := Remaining(t, keep, cursor);
    page := [];
    while |page| < chunk && rest != {}
      invariant rest <= Remaining(t, keep, cursor)
      invariant forall m :: m in Remaining(t, keep, cursor) <==> m in rest || m in page
      invariant |page| + |rest| == |Remaining(t, keep, cursor)| && |page| <= chunk
      invariant Increasing(page)
      invariant forall m, p | m in rest && p in page :: Before(p, m)
      decreases rest
    {
      ghost var least := LeastMessage(t, rest);
      var next :| next in rest && forall m | m in rest && m != next :: Before(next, m);
      page, rest := page + [next], rest - {next};
    }
  }

  lemma {:induction false} LeastMessage(t: Table, rows: set<Message>) returns (least: Message)
    requires Keyed(t) && rows != {} && forall m | m in rows :: m.id in t && t[m.id] == m
    ensures least in rows && forall m | m in rows && m != least :: Before(least, m)
    decreases rows
  {
    var some :| some in rows;
    var rest := rows - {some};
    if rest == {} {
      assert rows == {some};
      return some;
    }
    var other := LeastMessage(t, rest);
    assert some.id != other.id;
    least := if Before(other, some) then other else some;
    forall m | m in rows && m != least
      ensures Before(least, m)
    {
      if m != some && m != other {
        assert m in rest && Before(other, m);
      }
    }
  }

  /** iter_filtered, on a database whose table other sessions change: query `k` sees
      `tables[k]`. Ends at the first empty or short page, or when the caller stops asking.
      `pages` are the results of its queries; all but an empty last one are yielded. */
  method IterFiltered(tables: seq<Table>, keep: Message -> bool, chunk: nat)
    returns (yielded: seq<seq<Message>>, complete: bool, ghost pages: seq<seq<Message>>)
    requires chunk >= 1 && forall t | t in tables :: Keyed(t)
    ensures |pages| <= |tables| && Walk(tables[..|pages|], keep, chunk, None, pages)
    ensures forall k | 0 <= k < |pages| - 1 :: |pages[k]| == chunk
    ensures complete ==> pages != [] && |pages[|pages| - 1]| < chunk
    ensures !complete ==> |pages| == |tables|
    ensures Flatten(yielded) == Flatten(pages) && [] !in yielded
  {
    yielded, complete, pages := [], false, [];
    var cursor: Option<Message> := None;
    while |yielded| < |tables|
      invariant pages == yielded && |pages| <= |tables| && !complete
      invariant Walk(tables[..|pages|], keep, chunk, None, pages)
      invariant forall page | page in pages :: |page| == chunk
      invariant cursor == EndOf(None, pages)
      decreases |tables| - |yielded|
    {
      var k := |yielded|;
      assert tables[k] in tables;
      var page := Page(tables[k], keep, chunk, cursor);
      WalkGrows(tables[..k], keep, chunk, None, pages, tables[k], page);
      assert tables[..k + 1] == tables[..k] + [tables[k]];
      FlattenGrows(pages, page);
      pages := pages + [page];
      if page == [] {
        complete := true;
        return;
      }
      yielded := yielded + [page];
      if |page| < chunk {
        complete := true;
        return;
      }
      cursor := Some(page[|page| - 1]);
    }
  }

  function EndOf(cursor: Option<Message>, pages: seq<seq<Message>>): Option<Message>
    decreases |pages|
  {
    if pages == [] then cursor else EndOf(CursorAfter(cursor, pages[0]), pages[1..])
  }

  lemma {:induction false} WalkGrows(tables: seq<Table>, keep: Message -> bool, chunk: nat, cursor: Option<Message>,
                                     pages: seq<seq<Message>>, t: Table, page: seq<Message>)
    requires |tables| == |pages| && Walk(tables, keep, chunk, cursor, pages)
    requires forall p | p in pages :: |p| == chunk
    requires IsPage(Remaining(t, keep, EndOf(cursor, pages)), chunk, page)
    ensures Walk(tables + [t], keep, chunk, cursor, pages + [page])
    ensures EndOf(cursor, pages + [page]) == CursorAfter(EndOf(cursor, pages), page)
    decreases |pages|
  {
    if pages == [] {
      assert [page][1..] == [] && (tables + [t])[1..] == [];
    } else {
      assert (pages + [page])[1..] == pages[1..] + [page];
      assert (tables + [t])[1..] == tables[1..] + [t];
      WalkGrows(tables[1..], keep, chunk, CursorAfter(cursor, pages[0]), pages[1..], t, page);
    }
  }
}
