/** The content-derived message id (MessageIdentity.kt).

    The phone hashes the joined string below into a name-based UUID (section 4.3 of
    RFC 4122). The digest is taken to be injective, so the joined string itself stands
    for the id; what is proved is that joining loses nothing. */
module Identity {
  type Id = string

  datatype Sms = Sms(sender: string, body: string, receivedAt: int)

  const SEPARATOR: char := '\0'

  function Digit(d: nat): char
    requires d < 10
  {
    '0' + d as char
  }

  function Digits(n: nat): string {
    if n < 10 then [Digit(n)] else Digits(n / 10) + [Digit(n % 10)]
  }

  function Decimal(n: int): string {
    if n < 0 then "-" + Digits(-n) else Digits(n)
  }

  function Tail(m: Sms): string {
    m.body + [SEPARATOR] + Decimal(m.receivedAt)
  }

  function Of(m: Sms): Id {
    m.sender + [SEPARATOR] + Tail(m)
  }

  predicate NulFree(s: string) {
    SEPARATOR !in s
  }

  /** Reads decimal digits back; the inverse that makes the rendering injective. */
  function ValueOf(s: string): int {
    if s == [] then 0 else 10 * ValueOf(s[..|s| - 1]) + (s[|s| - 1] as int - '0' as int)
  }

  lemma {:induction false} DigitsRoundTrip(n: nat)
    ensures ValueOf(Digits(n)) == n
    ensures NulFree(Digits(n)) && '-' !in Digits(n) && Digits(n) != ""
  {
    if n < 10 {
      assert Digits(n)[..0] == "";
    } else {
      DigitsRoundTrip(n / 10);
      assert Digits(n)[..|Digits(n)| - 1] == Digits(n / 10);
    }
  }

  lemma DecimalNulFree(n: int)
    ensures NulFree(Decimal(n))
  {
    DigitsRoundTrip(if n < 0 then -n else n);
  }

  lemma DecimalInjective(a: int, b: int)
    requires Decimal(a) == Decimal(b)
    ensures a == b
  {
    DigitsRoundTrip(if a < 0 then -a else a);
    DigitsRoundTrip(if b < 0 then -b else b);
    if a < 0 && b < 0 {
      assert Digits(-a) == Decimal(a)[1..] == Decimal(b)[1..] == Digits(-b);
    }
  }

  /** The first separator of a joined string is where a NUL-free front part ends. */
  lemma SplitAtFirst(a: string, x: string, b: string, y: string)
    requires NulFree(a) && NulFree(b)
    requires a + [SEPARATOR] + x == b + [SEPARATOR] + y
    ensures a == b && x == y
  {
    var joined := a + [SEPARATOR] + x;
    assert joined[|a|] == SEPARATOR && joined[|b|] == SEPARATOR;
    assert forall i | 0 <= i < |a| :: joined[i] == a[i];
    assert forall i | 0 <= i < |b| :: joined[i] == b[i];
    assert a == joined[..|a|] && b == joined[..|b|];
    assert x == joined[|a| + 1..] && y == joined[|b| + 1..];
  }

  /** The last separator of a joined string is where a NUL-free back part begins. */
  lemma SplitAtLast(x: string, a: string, y: string, b: string)
    requires NulFree(a) && NulFree(b)
    requires x + [SEPARATOR] + a == y + [SEPARATOR] + b
    ensures x == y && a == b
  {
    var joined := x + [SEPARATOR] + a;
    assert joined[|x|] == SEPARATOR && joined[|y|] == SEPARATOR;
    assert forall i | |x| < i < |joined| :: joined[i] == a[i - |x| - 1];
    assert forall i | |y| < i < |joined| :: joined[i] == b[i - |y| - 1];
    assert x == joined[..|x|] && y == joined[..|y|];
    assert a == joined[|x| + 1..] && b == joined[|y| + 1..];
  }

  /** Two messages with NUL-free senders share an id only when they are the same message,
      whatever their bodies contain. */
  lemma Injective(m: Sms, n: Sms)
    requires NulFree(m.sender) && NulFree(n.sender)
    ensures Of(m) == Of(n) <==> m == n
  {
    hide Decimal;
    if Of(m) == Of(n) {
      SplitAtFirst(m.sender, Tail(m), n.sender, Tail(n));
      DecimalNulFree(m.receivedAt);
      DecimalNulFree(n.receivedAt);
      SplitAtLast(m.body, Decimal(m.receivedAt), n.body, Decimal(n.receivedAt));
      DecimalInjective(m.receivedAt, n.receivedAt);
    }
  }

  /** The hypothesis is needed: a sender holding a NUL always shares its id with another
      message, namely the one that moves the split point into the body. */
  lemma NulSenderCollides(m: Sms) returns (n: Sms)
    requires !NulFree(m.sender)
    ensures n != m && Of(n) == Of(m)
  {
    var i :| 0 <= i < |m.sender| && m.sender[i] == SEPARATOR;
    n := Sms(m.sender[..i], m.sender[i + 1..] + [SEPARATOR] + m.body, m.receivedAt);
    assert m.sender == m.sender[..i] + [SEPARATOR] + m.sender[i + 1..];
  }
}
