/** Small building blocks shared by every module: optional values, and lemmas about the
    cardinality and minima of finite sets that SQL-style queries rest on. */
module Wrappers {
  datatype Option<+T> = None | Some(value: T)

  function Min(a: nat, b: nat): nat {
    if a <= b then a else b
  }

  ghost predicate NoDuplicates<T>(s: seq<T>) {
    forall i, j | 0 <= i < j < |s| :: s[i] != s[j]
  }

  function Elements<T>(s: seq<T>): set<T> {
    set x | x in s
  }

  lemma SubsetSize<T>(a: set<T>, b: set<T>)
    requires a <= b
    ensures |a| <= |b|
    ensures |a| == |b| ==> a == b
  {
    assert b == a + (b - a);
  }

  lemma {:induction false} DistinctSize<T>(s: seq<T>)
    requires NoDuplicates(s)
    ensures |Elements(s)| == |s|
  {
    if s == [] {
      assert Elements(s) == {};
    } else {
      var rest := s[..|s| - 1];
      DistinctSize(rest);
      assert Elements(s) == Elements(rest) + {s[|s| - 1]};
      assert s[|s| - 1] !in Elements(rest);
    }
  }

  /** A non-empty finite set has an element with the least weight. */
  lemma {:induction false} LeastExists<T>(s: set<T>, weight: T -> int) returns (least: T)
    requires s != {}
    ensures least in s && forall x | x in s :: weight(least) <= weight(x)
    decreases s
  {
    least :| least in s;
    var rest := s - {least};
    if rest != {} {
      var other := LeastExists(rest, weight);
      if weight(other) < weight(least) {
        least := other;
      }
    }
  }

  /** There is always a number not used yet. */
  lemma {:induction false} UnusedNumber(used: set<nat>) returns (n: nat)
    ensures forall k | k in used :: k < n
    decreases used
  {
    if used == {} {
      n := 0;
    } else {
      var last :| last in used;
      var m := UnusedNumber(used - {last});
      n := if m > last then m else last + 1;
      assert forall k | k in used :: k == last || k in used - {last};
    }
  }

  /** The characters Kotlin's `isWhitespace` accepts. */
  predicate Whitespace(c: char) {
    || '\U{0009}' <= c <= '\U{000D}' || '\U{001C}' <= c <= '\U{0020}'
    || c == '\U{00A0}' || c == '\U{1680}' || '\U{2000}' <= c <= '\U{200A}'
    || c == '\U{2028}' || c == '\U{2029}' || c == '\U{202F}' || c == '\U{205F}' || c == '\U{3000}'
  }

  /** One by one. */
  lemma WhitespaceIs(c: char)
    ensures Whitespace(c) <==>
              c as int in {9, 10, 11, 12, 13, 28, 29, 30, 31, 32, 160, 5760,
                           8192, 8193, 8194, 8195, 8196, 8197, 8198, 8199, 8200, 8201, 8202,
                           8232, 8233, 8239, 8287, 12288}
  {
  }

  /** Kotlin's `isBlank`. */
  predicate Blank(s: string) {
    forall i | 0 <= i < |s| :: Whitespace(s[i])
  }
}
