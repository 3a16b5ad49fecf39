/** Matching an event against the comma-joined list a webhook row stores
    (backend/app/repositories.py, backend/app/models.py). */
module Subscriptions {

  /** SQLite compares ASCII letters without case in LIKE; PostgreSQL does not, and it reads a
      backslash as an escape. */
  datatype Dialect = Sqlite | Postgres

  function Fold(d: Dialect, c: char): char {
    if d.Sqlite? && 'A' <= c <= 'Z' then (c as int + 32) as char else c
  }

  /** What the database takes for the same text. */
  predicate Same(d: Dialect, a: string, b: string) {
    |a| == |b| && forall i | 0 <= i < |a| :: Fold(d, a[i]) == Fold(d, b[i])
  }

  /** SQL's LIKE. */
  ghost predicate Like(d: Dialect, text: string, pattern: string)
    decreases |pattern|
  {
    if pattern == "" then text == ""
    else if pattern[0] == '%' then exists k | 0 <= k <= |text| :: Like(d, text[k..], pattern[1..])
    else if text == "" then false
    else if pattern[0] == '_' then Like(d, text[1..], pattern[1..])
    else if d.Postgres? && pattern[0] == '\\' then
      |pattern| > 1 && text[0] == pattern[1] && Like(d, text[1..], pattern[2..])
    else Fold(d, text[0]) == Fold(d, pattern[0]) && Like(d, text[1..], pattern[1..])
  }

  const UPPER := "ABCDEFGHIJKLMNOPQRSTUVWXYZ"
  const LOWER := "abcdefghijklmnopqrstuvwxyz"

  lemma Alphabet(i: nat)
    requires i < 26
    ensures UPPER[i] as int == 65 + i && LOWER[i] as int == 97 + i
  {
    assert UPPER == seq(26, (k: nat) requires k < 26 => (65 + k) as char);
    assert LOWER == seq(26, (k: nat) requires k < 26 => (97 + k) as char);
  }

  /** Two characters are the same to the database when they are equal or, on SQLite only, the two
      cases of one ASCII letter. */
  lemma SameLetter(d: Dialect, a: char, b: char)
    ensures Fold(d, a) == Fold(d, b)
       <==> || a == b
            || (d.Sqlite? && exists i :: 0 <= i < 26 && ((a == UPPER[i] && b == LOWER[i])
                                                         || (a == LOWER[i] && b == UPPER[i])))
  {
    forall i | 0 <= i < 26
      ensures UPPER[i] as int == 65 + i && LOWER[i] as int == 97 + i
    {
      Alphabet(i);
    }
    if d.Sqlite? && a != b && Fold(d, a) == Fold(d, b) {
      var i := (if 'A' <= a <= 'Z' then a else b) as int - 65;
      assert UPPER[i] as int == 65 + i;
    }
  }

  predicate CommaFree(s: string) {
    ',' !in s
  }

  predicate Literal(s: string) {
    '%' !in s && '_' !in s && '\\' !in s
  }

  predicate AllCommaFree(names: seq<string>) {
    forall i | 0 <= i < |names| :: CommaFree(names[i])
  }

  /** Python's `",".join(names)`, as `create` stores the list. */
  function Join(names: seq<string>): string {
    if names == [] then ""
    else if |names| == 1 then names[0]
    else names[0] + "," + Join(names[1..])
  }

  function Pattern(event: string): string {
    "%," + event + ",%"
  }

  /** The WHERE clause of `subscribed_to` on a row created with `names`. */
  ghost predicate Subscribed(d: Dialect, names: seq<string>, event: string) {
    Like(d, "," + Join(names) + ",", Pattern(event))
  }

  ghost predicate Listed(d: Dialect, names: seq<string>, event: string) {
    exists i | 0 <= i < |names| :: Same(d, names[i], event)
  }

  // ---- the pattern is a substring test ----

  ghost predicate OccursAt(d: Dialect, text: string, k: nat, piece: string) {
    k + |piece| <= |text| && Same(d, text[k..k + |piece|], piece)
  }

  /** A wildcard-free piece with a trailing `%` is a prefix test. */
  lemma {:induction false} LikePrefix(d: Dialect, text: string, piece: string)
    requires Literal(piece)
    ensures Like(d, text, piece + "%") <==> OccursAt(d, text, 0, piece)
    decreases |piece|
  {
    if piece == "" {
      assert piece + "%" == "%";
      assert Like(d, text[|text|..], "%"[1..]);
    } else {
      assert piece[0] in piece;
      assert (piece + "%")[1..] == piece[1..] + "%";
      if text != "" {
        LikePrefix(d, text[1..], piece[1..]);
        if OccursAt(d, text, 0, piece) {
          assert text[1..][0..|piece| - 1] == text[0..|piece|][1..];
        }
        if OccursAt(d, text[1..], 0, piece[1..]) && Fold(d, text[0]) == Fold(d, piece[0]) {
          forall i | 0 <= i < |piece|
            ensures Fold(d, text[0..|piece|][i]) == Fold(d, piece[i])
          {
            if i > 0 {
              assert text[1..][0..|piece| - 1][i - 1] == text[i];
            }
          }
        }
      }
    }
  }

  lemma LikeIsOccurrence(d: Dialect, text: string, event: string)
    requires Literal(event)
    ensures Like(d, text, Pattern(event)) <==> exists k: nat :: OccursAt(d, text, k, "," + event + ",")
  {
    var piece := "," + event + ",";
    assert Pattern(event)[1..] == piece + "%";
    forall k | 0 <= k <= |text|
      ensures Like(d, text[k..], Pattern(event)[1..]) <==> OccursAt(d, text, k, piece)
    {
      LikePrefix(d, text[k..], piece);
      if k + |piece| <= |text| {
        assert text[k..][0..|piece|] == text[k..k + |piece|];
      }
    }
  }

  // ---- an occurrence is a list entry ----

  /** Every name with a comma on both sides. */
  function Wrapped(names: seq<string>): string {
    if names == [] then "," else "," + names[0] + Wrapped(names[1..])
  }

  lemma {:induction false} JoinIsWrapped(names: seq<string>)
    requires names != []
    ensures "," + Join(names) + "," == Wrapped(names)
  {
    if |names| == 1 {
      assert names[1..] == [];
    } else {
      JoinIsWrapped(names[1..]);
      assert "," + (names[0] + "," + Join(names[1..])) + "," == "," + names[0] + ("," + Join(names[1..]) + ",");
    }
  }

  lemma WrappedStartsWithComma(names: seq<string>)
    ensures |Wrapped(names)| > 0 && Wrapped(names)[0] == ','
  {
  }

  /** Where the piece sits, its two ends are commas of the text and its middle is the event. */
  lemma Edges(d: Dialect, text: string, k: nat, event: string)
    requires OccursAt(d, text, k, "," + event + ",")
    ensures text[k] == ',' && text[k + 1 + |event|] == ','
    ensures Same(d, text[k + 1..k + 1 + |event|], event)
    ensures CommaFree(event) ==> forall i | k < i <= k + |event| :: text[i] != ','
  {
    var piece := "," + event + ",";
    var window := text[k..k + |piece|];
    assert forall i | 0 <= i < |piece| :: Fold(d, window[i]) == Fold(d, piece[i]) && window[i] == text[k + i];
    assert window[0] == text[k] && window[|event| + 1] == text[k + 1 + |event|];
    assert forall i | 0 <= i < |event| :: text[k + 1..k + 1 + |event|][i] == window[i + 1] && piece[i + 1] == event[i];
    if CommaFree(event) {
      forall i | k < i <= k + |event|
        ensures text[i] != ','
      {
        assert text[i] == window[i - k] && event[i - k - 1] in event;
      }
    }
  }

  lemma OccursLater(d: Dialect, head: string, rest: string, k: nat, piece: string)
    ensures OccursAt(d, head + rest, |head| + k, piece) <==> OccursAt(d, rest, k, piece)
  {
    if k + |piece| <= |rest| {
      assert (head + rest)[|head| + k..|head| + k + |piece|] == rest[k..k + |piece|];
    }
  }

  lemma {:induction false} OccurrenceIsListed(d: Dialect, names: seq<string>, event: string, k: nat)
    requires AllCommaFree(names) && CommaFree(event)
    requires OccursAt(d, Wrapped(names), k, "," + event + ",")
    ensures Listed(d, names, event)
    decreases |names|
  {
    if names != [] {
      var text, name, rest := Wrapped(names), names[0], Wrapped(names[1..]);
      Edges(d, text, k, event);
      WrappedStartsWithComma(names[1..]);
      assert forall i | 1 <= i <= |name| :: text[i] == name[i - 1] && text[i] in name;
      assert text[1 + |name|] == rest[0];
      if k == 0 {
        assert |event| == |name|;
        assert text[1..1 + |name|] == name;
        assert Same(d, names[0], event);
      } else {
        assert k > |name|;
        var k' := k - 1 - |name|;
        OccursLater(d, "," + name, rest, k', "," + event + ",");
        OccurrenceIsListed(d, names[1..], event, k');
        var i :| 0 <= i < |names[1..]| && Same(d, names[1..][i], event);
        assert names[i + 1] == names[1..][i];
      }
    }
  }

  lemma {:induction false} ListedOccurs(d: Dialect, names: seq<string>, event: string, i: nat) returns (k: nat)
    requires i < |names| && Same(d, names[i], event)
    ensures OccursAt(d, Wrapped(names), k, "," + event + ",")
    decreases |names|
  {
    var text, name, rest := Wrapped(names), names[0], Wrapped(names[1..]);
    WrappedStartsWithComma(names[1..]);
    if i == 0 {
      k := 0;
      assert text[0..|event| + 2] == "," + name + ",";
    } else {
      var k' := ListedOccurs(d, names[1..], event, i - 1);
      k := k' + 1 + |name|;
      OccursLater(d, "," + name, rest, k', "," + event + ",");
    }
  }

  /** The comma-wrapped substring test picks exactly the webhooks that listed the event. */
  lemma MatchIsMembership(d: Dialect, names: seq<string>, event: string)
    requires names != [] && AllCommaFree(names)
    requires CommaFree(event) && Literal(event)
    ensures Subscribed(d, names, event) <==> Listed(d, names, event)
  {
    JoinIsWrapped(names);
    LikeIsOccurrence(d, Wrapped(names), event);
    if k: nat :| OccursAt(d, Wrapped(names), k, "," + event + ",") {
      OccurrenceIsListed(d, names, event, k);
    }
    if Listed(d, names, event) {
      var i :| 0 <= i < |names| && Same(d, names[i], event);
      var k := ListedOccurs(d, names, event, i);
    }
  }

  ghost predicate MatchesExactlyTheListed(d: Dialect, event: string) {
    forall names: seq<string> | names != [] && AllCommaFree(names) ::
      Subscribed(d, names, event) <==> Listed(d, names, event)
  }

  /** A pattern without escapes matches any text that differs from it only under a wildcard. */
  lemma {:induction false} LikeItself(d: Dialect, text: string, pattern: string)
    requires '\\' !in pattern && |text| == |pattern|
    requires forall i | 0 <= i < |text| :: text[i] == pattern[i] || pattern[i] == '%' || pattern[i] == '_'
    ensures Like(d, text, pattern + "%")
    decreases |pattern|
  {
    if pattern == "" {
      assert Like(d, text[0..], (pattern + "%")[1..]);
    } else {
      assert pattern[0] in pattern;
      LikeItself(d, text[1..], pattern[1..]);
      assert (pattern + "%")[1..] == pattern[1..] + "%";
      assert pattern[0] == '%' ==> exists k | 0 <= k <= |text| :: Like(d, text[k..], (pattern + "%")[1..]);
    }
  }

  /** The test is right for every list exactly when the event holds no wildcard. */
  lemma RightExactlyForLiterals(d: Dialect, event: string)
    requires CommaFree(event) && '\\' !in event
    ensures MatchesExactlyTheListed(d, event) <==> Literal(event)
  {
    if Literal(event) {
      forall names: seq<string> | names != [] && AllCommaFree(names)
        ensures Subscribed(d, names, event) <==> Listed(d, names, event)
      {
        MatchIsMembership(d, names, event);
      }
    } else {
      var i :| 0 <= i < |event| && (event[i] == '%' || event[i] == '_');
      var other := event[i := 'x'];
      var names := [other];
      var text := "," + other + ",";
      assert ',' !in other;
      LikeItself(d, text, "," + event + ",");
      assert Pattern(event)[1..] == "," + event + "," + "%";
      assert Like(d, text[0..], Pattern(event)[1..]);
      assert Subscribed(d, names, event);
      assert Fold(d, other[i]) != Fold(d, event[i]);
      assert !Listed(d, names, event);
    }
  }

  /** On a list of lower-case names, as the two the API accepts, both databases agree with plain
      membership. */
  lemma LowerCaseIsExact(d: Dialect, names: seq<string>, event: string)
    requires forall i, j | 0 <= i < |names| && 0 <= j < |names[i]| :: !('A' <= names[i][j] <= 'Z')
    requires forall j | 0 <= j < |event| :: !('A' <= event[j] <= 'Z')
    ensures Listed(d, names, event) <==> event in names
  {
    forall i | 0 <= i < |names|
      ensures Same(d, names[i], event) <==> names[i] == event
    {
      if Same(d, names[i], event) {
        assert forall j | 0 <= j < |event| :: Fold(d, names[i][j]) == names[i][j] && Fold(d, event[j]) == event[j];
      }
    }
  }

  // ---- reading the list back ----

  /** Python's `s.split(",")`. */
  /** A name stored with a capital is found on one database and not on the other. */
  lemma CapitalsDivide()
    ensures Subscribed(Sqlite, ["Message.new"], "message.new")
    ensures !Subscribed(Postgres, ["Message.new"], "message.new")
  {
    hide Subscribed;
    var stored, event := "Message.new", "message.new";
    MatchIsMembership(Sqlite, [stored], event);
    MatchIsMembership(Postgres, [stored], event);
    assert stored[1..] == event[1..];
    forall i | 0 <= i < |event|
      ensures i > 0 ==> stored[i] == event[i]
    {
      assert i > 0 ==> stored[1..][i - 1] == event[1..][i - 1];
    }
    SameLetter(Sqlite, 'M', 'm');
    assert UPPER[12] == 'M' && LOWER[12] == 'm';
    assert Same(Sqlite, [stored][0], event);
    SameLetter(Postgres, 'M', 'm');
    assert Fold(Postgres, stored[0]) != Fold(Postgres, event[0]);
  }

  function Split(s: string): seq<string> {
    SplitFrom(s, 0)
  }

  /** Splits `s`, the first `i` characters of which hold no comma. */
  function SplitFrom(s: string, i: nat): seq<string>
    requires i <= |s|
    decreases |s|, |s| - i
  {
    if i == |s| then [s]
    else if s[i] == ',' then [s[..i]] + SplitFrom(s[i + 1..], 0)
    else SplitFrom(s, i + 1)
  }

  function NonEmpty(names: seq<string>): seq<string> {
    if names == [] then []
    else (if names[0] == "" then [] else [names[0]]) + NonEmpty(names[1..])
  }

  function EventNames(stored: string): seq<string> {
    NonEmpty(Split(stored))
  }

  lemma {:induction false} SplitHead(s: string, i: nat, head: string, tail: string)
    requires s == head + "," + tail && CommaFree(head) && i <= |head|
    ensures SplitFrom(s, i) == [head] + Split(tail)
    decreases |head| - i
  {
    if i == |head| {
      assert s[..i] == head && s[i + 1..] == tail;
    } else {
      assert s[i] == head[i] && head[i] in head;
      SplitHead(s, i + 1, head, tail);
    }
  }

  lemma {:induction false} SplitWhole(s: string, i: nat)
    requires CommaFree(s) && i <= |s|
    ensures SplitFrom(s, i) == [s]
    decreases |s| - i
  {
    if i < |s| {
      assert s[i] in s;
      SplitWhole(s, i + 1);
    }
  }

  lemma {:induction false} SplitJoin(names: seq<string>)
    requires names != [] && AllCommaFree(names)
    ensures Split(Join(names)) == names
  {
    if |names| == 1 {
      SplitWhole(names[0], 0);
    } else {
      SplitJoin(names[1..]);
      SplitHead(Join(names), 0, names[0], Join(names[1..]));
    }
  }

  lemma {:induction false} NonEmptyKeepsAll(names: seq<string>)
    ensures |NonEmpty(names)| <= |names|
    ensures NonEmpty(names) == names <==> "" !in names
  {
    if names != [] {
      NonEmptyKeepsAll(names[1..]);
      assert names == [names[0]] + names[1..];
    }
  }

  /** `event_names` gives back the list `create` joined, for every comma-free list without an
      empty name, and for no other comma-free list. */
  lemma ListIsRecovered(names: seq<string>)
    requires AllCommaFree(names)
    ensures EventNames(Join(names)) == NonEmpty(names)
    ensures EventNames(Join(names)) == names <==> "" !in names
  {
    if names != [] {
      SplitJoin(names);
    } else {
      assert Split("") == [""];
      assert NonEmpty([""]) == NonEmpty([]);
    }
    NonEmptyKeepsAll(names);
  }
}
