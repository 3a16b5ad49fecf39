/** The in-process rate limiter (ratelimit.py): a fixed window per credential, whose counters
    are evicted in bulk and must still agree with remembering every request. */
module RateLimit {
  import opened Wrappers

  const MAX_COUNTERS: nat := 4096

  datatype Call = Call(identity: string, at: real)

  datatype Decision = Decision(allowed: bool, limit: nat, remaining: nat, retryAfter: int)

  /** `int(now // window_seconds)`. */
  function Window(at: real, seconds: nat): int
    requires seconds > 0
  {
    (at / seconds as real).Floor
  }

  function ResetAt(window: int, seconds: nat): real {
    ((window + 1) * seconds) as real
  }

  /** `max(1, int(reset_at - now))`: what is left of the window, cut down to whole seconds. */
  function RetryAfter(now: real, seconds: nat): int
    requires seconds > 0
  {
    var left := (ResetAt(Window(now, seconds), seconds) - now).Floor;
    if left < 1 then 1 else left
  }

  function Decide(used: nat, now: real, limit: nat, seconds: nat): Decision
    requires seconds > 0
  {
    Decision(used <= limit, limit, if limit > used then limit - used else 0, RetryAfter(now, seconds))
  }

  /** How many of these calls one identity made in one window. */
  function Count(calls: seq<Call>, identity: string, window: int, seconds: nat): nat
    requires seconds > 0
  {
    if calls == [] then 0 else
      var last := calls[|calls| - 1];
      Count(calls[..|calls| - 1], identity, window, seconds)
      + if last.identity == identity && Window(last.at, seconds) == window then 1 else 0
  }

  /** The decision of a limiter that remembers every call. */
  function Ideal(calls: seq<Call>, call: Call, limit: nat, seconds: nat): Decision
    requires seconds > 0
  {
    Decide(Count(calls, call.identity, Window(call.at, seconds), seconds) + 1, call.at, limit, seconds)
  }

  lemma CountGrows(calls: seq<Call>, call: Call, identity: string, window: int, seconds: nat)
    requires seconds > 0
    ensures Count(calls + [call], identity, window, seconds)
         == Count(calls, identity, window, seconds)
            + if call.identity == identity && Window(call.at, seconds) == window then 1 else 0
  {
    assert (calls + [call])[..|calls|] == calls;
  }

  // ---- windows and time ----

  /** A window is the span of `seconds` that starts at its index. */
  lemma WindowBounds(at: real, seconds: nat)
    requires seconds > 0
    ensures (Window(at, seconds) * seconds) as real <= at < ResetAt(Window(at, seconds), seconds)
  {
    QuotientTimes(at, seconds as real);
    ScaledBounds(Window(at, seconds), at / seconds as real, seconds);
  }

  lemma ScaledBounds(w: int, q: real, seconds: nat)
    requires seconds > 0 && w as real <= q < (w + 1) as real
    ensures (w * seconds) as real <= q * (seconds as real) < ((w + 1) * seconds) as real
  {
    FromBelow(w, q, seconds);
    FromAbove(q, w + 1, seconds);
  }

  lemma FromBelow(v: int, q: real, seconds: nat)
    requires seconds > 0 && v as real <= q
    ensures (v * seconds) as real <= q * (seconds as real)
  {
    Scale(v as real, q, seconds as real);
    RealProduct(v, seconds);
  }

  lemma FromAbove(q: real, v: int, seconds: nat)
    requires seconds > 0 && q < v as real
    ensures q * (seconds as real) < (v * seconds) as real
  {
    ScaleStrictly(q, v as real, seconds as real);
    RealProduct(v, seconds);
  }

  lemma QuotientTimes(a: real, s: real)
    requires s > 0.0
    ensures (a / s) * s == a
  {
  }

  lemma RealProduct(a: int, b: int)
    ensures (a as real) * (b as real) == (a * b) as real
  {
  }

  lemma Scale(a: real, b: real, s: real)
    requires a <= b && s > 0.0
    ensures a * s <= b * s
  {
  }

  lemma ScaleStrictly(a: real, b: real, s: real)
    requires a < b && s > 0.0
    ensures a * s < b * s
  {
  }

  lemma WindowOrder(a: int, b: int, seconds: nat)
    requires seconds > 0 && a < b
    ensures (a + 1) * seconds <= b * seconds
  {
  }

  lemma WindowMonotone(a: real, b: real, seconds: nat)
    requires seconds > 0 && a <= b
    ensures Window(a, seconds) <= Window(b, seconds)
  {
    WindowBounds(a, seconds);
    WindowBounds(b, seconds);
    if Window(b, seconds) < Window(a, seconds) {
      WindowOrder(Window(b, seconds), Window(a, seconds), seconds);
    }
  }

  /** A time is at or past the end of a window exactly when it belongs to a later one. */
  lemma PastResetMeansLater(now: real, later: real, seconds: nat)
    requires seconds > 0
    ensures later >= ResetAt(Window(now, seconds), seconds) <==> Window(later, seconds) > Window(now, seconds)
  {
    WindowBounds(now, seconds);
    WindowBounds(later, seconds);
    if Window(later, seconds) > Window(now, seconds) {
      WindowOrder(Window(now, seconds), Window(later, seconds), seconds);
    } else if Window(later, seconds) < Window(now, seconds) {
      WindowOrder(Window(later, seconds), Window(now, seconds), seconds);
      WindowOrder(Window(now, seconds), Window(now, seconds) + 1, seconds);
    }
  }

  /** Waiting exactly `retry_after` reaches the next window if and only if less than a second
      was left, or a whole number of them: the value is cut down, not rounded up. */
  lemma RetryReachesExactlyWhen(now: real, seconds: nat)
    requires seconds > 0
    ensures Window(now + RetryAfter(now, seconds) as real, seconds) > Window(now, seconds)
       <==> var left := ResetAt(Window(now, seconds), seconds) - now;
            left < 1.0 || left.Floor as real == left
  {
    WindowBounds(now, seconds);
    PastResetMeansLater(now, now + RetryAfter(now, seconds) as real, seconds);
  }

  /** With 29.5 of 60 seconds left the limiter says 29, and a caller that waits exactly that
      long is still in the window that refused it. */
  lemma RetryFallsShort()
    ensures ResetAt(Window(30.5, 60), 60) - 30.5 == 29.5 && RetryAfter(30.5, 60) == 29
    ensures Window(30.5 + RetryAfter(30.5, 60) as real, 60) == Window(30.5, 60)
  {
    WindowAt(30.5, 0, 60);
    WindowAt(59.5, 0, 60);
    assert (29.5).Floor == 29;
  }

  // ---- the limiter ----

  type Counters = map<(string, int), nat>

  /** The window of the latest call, where `window` is not before it. */
  ghost predicate UpTo(calls: seq<Call>, window: int, seconds: nat)
    requires seconds > 0
  {
    calls != [] ==> Window(calls[|calls| - 1].at, seconds) <= window
  }

  /** Counters are exact where they exist, none is for a window still to come, and one exists
      wherever a call of the latest window was made. */
  ghost predicate Exact(counters: Counters, calls: seq<Call>, seconds: nat)
    requires seconds > 0
  {
    && (forall key | key in counters :: counters[key] == Count(calls, key.0, key.1, seconds))
    && (forall key | key in counters :: calls != [] && key.1 <= Window(calls[|calls| - 1].at, seconds))
    && (forall identity: string, window: int | (identity, window) !in counters && UpTo(calls, window, seconds) ::
          Count(calls, identity, window, seconds) == 0)
  }

  function Used(counters: Counters, key: (string, int)): nat {
    if key in counters then counters[key] else 0
  }

  lemma {:induction false} OneMoreCall(counters: Counters, calls: seq<Call>, call: Call, seconds: nat)
    requires seconds > 0 && Exact(counters, calls, seconds) && (calls != [] ==> calls[|calls| - 1].at <= call.at)
    ensures var key := (call.identity, Window(call.at, seconds));
            && Used(counters, key) == Count(calls, key.0, key.1, seconds)
            && Exact(counters[key := Used(counters, key) + 1], calls + [call], seconds)
  {
    var key := (call.identity, Window(call.at, seconds));
    if calls != [] {
      WindowMonotone(calls[|calls| - 1].at, call.at, seconds);
    }
    hide Count, Window;
    forall identity: string, window: int
      ensures Count(calls + [call], identity, window, seconds)
           == Count(calls, identity, window, seconds) + if (identity, window) == key then 1 else 0
    {
      CountGrows(calls, call, identity, window, seconds);
    }
  }

  /** Counters of past windows are dead weight: no later decision reads them. */
  lemma EvictionIsSafe(counters: Counters, calls: seq<Call>, window: int, seconds: nat)
    requires seconds > 0 && Exact(counters, calls, seconds)
    requires calls != [] && window == Window(calls[|calls| - 1].at, seconds)
    ensures Exact(map k | k in counters && k.1 >= window :: counters[k], calls, seconds)
    ensures forall k | k in counters && k.1 >= window :: k.1 == window
  {
    hide Count, Window;
  }

  /** The calls one identity made in [from, to). */
  function CallsWithin(calls: seq<Call>, identity: string, from: real, to: real): set<nat> {
    set i: nat | i < |calls| && calls[i].identity == identity && from <= calls[i].at < to
  }

  lemma InWindowExactly(at: real, w: int, seconds: nat)
    requires seconds > 0
    ensures Window(at, seconds) == w <==> (w * seconds) as real <= at < (w * seconds + seconds) as real
  {
    WindowBounds(at, seconds);
    assert (w + 1) * seconds == w * seconds + seconds;
    if (w * seconds) as real <= at < ((w + 1) * seconds) as real {
      WindowAt(at, w, seconds);
    }
  }

  lemma {:induction false} CountIsSize(calls: seq<Call>, identity: string, w: int, seconds: nat)
    requires seconds > 0
    ensures Count(calls, identity, w, seconds)
         == |CallsWithin(calls, identity, (w * seconds) as real, (w * seconds + seconds) as real)|
  {
    hide Window;
    var from, to := (w * seconds) as real, (w * seconds + seconds) as real;
    if calls == [] {
      assert CallsWithin(calls, identity, from, to) == {};
    } else {
      var n := |calls| - 1;
      CountIsSize(calls[..n], identity, w, seconds);
      InWindowExactly(calls[n].at, w, seconds);
      assert CallsWithin(calls, identity, from, to)
          == CallsWithin(calls[..n], identity, from, to)
             + if calls[n].identity == identity && from <= calls[n].at < to then {n} else {};
    }
  }

  /** The decision, by the calls themselves: how many this identity made in the window, this one
      included, against the limit; and the whole seconds left of the window, but at least one. */
  lemma IdealByCalls(calls: seq<Call>, call: Call, limit: nat, seconds: nat)
    requires seconds > 0
    ensures var start := Window(call.at, seconds) * seconds;
            var used := |CallsWithin(calls + [call], call.identity, start as real, (start + seconds) as real)|;
            var left := (start + seconds) as real - call.at;
            var decision := Ideal(calls, call, limit, seconds);
            && 0.0 < left <= seconds as real
            && (decision.allowed <==> used <= limit) && decision.limit == limit
            && decision.remaining == (if used < limit then limit - used else 0)
            && 1 <= decision.retryAfter && left < decision.retryAfter as real + 1.0
            && (decision.retryAfter > 1 ==> decision.retryAfter as real <= left)
  {
    var w := Window(call.at, seconds);
    CountIsSize(calls + [call], call.identity, w, seconds);
    CountGrows(calls, call, call.identity, w, seconds);
    InWindowExactly(call.at, w, seconds);
    assert (w + 1) * seconds == w * seconds + seconds;
    hide Window, CallsWithin, Count;
  }

  class RateLimiter {
    const limit: nat
    const seconds: nat
    var counters: Counters
    /** Every call so far; only the proof reads it. */
    ghost var calls: seq<Call>

    constructor (limit: nat, seconds: nat)
      requires seconds > 0
      ensures Valid() && this.limit == limit && this.seconds == seconds && calls == []
    {
      this.limit, this.seconds := limit, seconds;
      counters := map[];
      calls := [];
    }

    ghost predicate Valid()
      reads this
    {
      seconds > 0 && Exact(counters, calls, seconds)
    }

    /** The refinement: evicting old counters never changes a decision, as long as the clock
        does not run backwards. */
    method Check(identity: string, now: real) returns (decision: Decision)
      requires Valid() && (calls != [] ==> calls[|calls| - 1].at <= now)
      modifies this
      ensures Valid() && calls == old(calls) + [Call(identity, now)]
      ensures decision == Ideal(old(calls), Call(identity, now), limit, seconds)
      ensures var start := Window(now, seconds) * seconds;
              var used := |CallsWithin(calls, identity, start as real, (start + seconds) as real)|;
              var left := (start + seconds) as real - now;
              && 0.0 < left <= seconds as real
              && (decision.allowed <==> used <= limit) && decision.limit == limit
              && decision.remaining == (if used < limit then limit - used else 0)
              && 1 <= decision.retryAfter && left < decision.retryAfter as real + 1.0
              && (decision.retryAfter > 1 ==> decision.retryAfter as real <= left)
      ensures |counters| <= 4096 || forall key | key in counters :: key.1 == Window(now, seconds)
    {
      hide Exact;
      IdealByCalls(calls, Call(identity, now), limit, seconds);
      var window := Window(now, seconds);
      var key := (identity, window);
      var used := (if key in counters then counters[key] else 0) + 1;
      OneMoreCall(counters, calls, Call(identity, now), seconds);
      counters := counters[key := used];
      calls := calls + [Call(identity, now)];
      if |counters| > MAX_COUNTERS {
        EvictionIsSafe(counters, calls, window, seconds);
        counters := map k | k in counters && k.1 >= window :: counters[k];
      }
      decision := Decide(used, now, limit, seconds);
    }
  }

  // ---- how much gets through ----

  predicate Allowed(calls: seq<Call>, k: nat, limit: nat, seconds: nat)
    requires seconds > 0 && k < |calls|
  {
    Ideal(calls[..k], calls[k], limit, seconds).allowed
  }

  /** Calls of one identity let through with a time in [from, to). */
  function Admitted(calls: seq<Call>, identity: string, from: real, to: real, limit: nat, seconds: nat): nat
    requires seconds > 0
  {
    if calls == [] then 0 else
      var n := |calls| - 1;
      Admitted(calls[..n], identity, from, to, limit, seconds)
      + if calls[n].identity == identity && from <= calls[n].at < to && Allowed(calls, n, limit, seconds) then 1 else 0
  }

  /** Whatever the calls, an interval of one window length lets through at most what two
      windows have left of their limits. */
  lemma {:induction false} AdmittedByWindows(calls: seq<Call>, identity: string, from: real, limit: nat, seconds: nat)
    requires seconds > 0
    ensures var w := Window(from, seconds);
            Admitted(calls, identity, from, from + seconds as real, limit, seconds)
            <= Min(limit, Count(calls, identity, w, seconds)) + Min(limit, Count(calls, identity, w + 1, seconds))
  {
    if calls != [] {
      var n := |calls| - 1;
      var call := calls[n];
      AdmittedByWindows(calls[..n], identity, from, limit, seconds);
      assert calls == calls[..n] + [call];
      CountGrows(calls[..n], call, identity, Window(from, seconds), seconds);
      CountGrows(calls[..n], call, identity, Window(from, seconds) + 1, seconds);
      if from <= call.at < from + seconds as real {
        TwoWindows(from, call.at, seconds);
      }
    }
  }

  lemma TwoWindows(from: real, at: real, seconds: nat)
    requires seconds > 0 && from <= at < from + seconds as real
    ensures Window(at, seconds) == Window(from, seconds) || Window(at, seconds) == Window(from, seconds) + 1
  {
    WindowMonotone(from, at, seconds);
    WindowBounds(from, seconds);
    WindowBounds(at, seconds);
    var w := Window(from, seconds);
    assert (w + 2) * seconds == (w + 1) * seconds + seconds;
    if Window(at, seconds) > w + 1 {
      WindowOrder(w + 1, Window(at, seconds), seconds);
    }
  }

  /** At most twice the limit gets through in any interval of one window length, wherever it
      starts, and whatever the clock does. */
  lemma AtMostTwiceTheLimit(calls: seq<Call>, identity: string, from: real, limit: nat, seconds: nat)
    requires seconds > 0
    ensures Admitted(calls, identity, from, from + seconds as real, limit, seconds) <= 2 * limit
  {
    AdmittedByWindows(calls, identity, from, limit, seconds);
  }

  // ---- the bound is attained ----

  function Burst(n: nat, identity: string, at: real): seq<Call> {
    seq(n, _ => Call(identity, at))
  }

  /** A burst at one instant is let through up to the limit of its window. */
  lemma {:induction false} BurstAdmitted(calls: seq<Call>, n: nat, identity: string, at: real,
                                         from: real, to: real, limit: nat, seconds: nat)
    requires seconds > 0 && from <= at < to && n <= limit
    requires Count(calls, identity, Window(at, seconds), seconds) == 0
    ensures Admitted(calls + Burst(n, identity, at), identity, from, to, limit, seconds)
         == Admitted(calls, identity, from, to, limit, seconds) + n
    ensures Count(calls + Burst(n, identity, at), identity, Window(at, seconds), seconds) == n
    ensures forall w | w != Window(at, seconds) ::
              Count(calls + Burst(n, identity, at), identity, w, seconds) == Count(calls, identity, w, seconds)
  {
    hide Window, Admitted, Count, Burst;
    if n == 0 {
      BurstGrows(0, identity, at);
      assert calls + Burst(0, identity, at) == calls;
    } else {
      BurstGrows(n - 1, identity, at);
      BurstAdmitted(calls, n - 1, identity, at, from, to, limit, seconds);
      var before, call := calls + Burst(n - 1, identity, at), Call(identity, at);
      assert calls + Burst(n, identity, at) == before + [call];
      AdmittedGrows(before, call, identity, from, to, limit, seconds);
      forall w
        ensures Count(before + [call], identity, w, seconds)
             == Count(before, identity, w, seconds) + if w == Window(at, seconds) then 1 else 0
      {
        CountGrows(before, call, identity, w, seconds);
      }
    }
  }

  lemma BurstGrows(n: nat, identity: string, at: real)
    ensures Burst(0, identity, at) == []
    ensures Burst(n + 1, identity, at) == Burst(n, identity, at) + [Call(identity, at)]
  {
  }

  /** One more call of this identity inside the interval is one more let through, exactly when
      its window has room. */
  lemma AdmittedGrows(calls: seq<Call>, call: Call, identity: string, from: real, to: real, limit: nat, seconds: nat)
    requires seconds > 0 && call.identity == identity && from <= call.at < to
    ensures Admitted(calls + [call], identity, from, to, limit, seconds)
         == Admitted(calls, identity, from, to, limit, seconds)
            + if Count(calls, identity, Window(call.at, seconds), seconds) < limit then 1 else 0
  {
    hide Window, RetryAfter, Count;
    var all := calls + [call];
    assert all[..|calls|] == calls && all[|calls|] == call;
  }

  /** Twice the limit does get through: a burst at the end of one window and another at the
      start of the next, half a window apart. */
  lemma TwiceTheLimitHappens(identity: string, limit: nat, seconds: nat) returns (calls: seq<Call>)
    requires seconds > 0
    ensures Admitted(calls, identity, seconds as real / 2.0, seconds as real / 2.0 + seconds as real, limit, seconds)
         == 2 * limit
  {
    var s := seconds as real;
    var half := s / 2.0;
    WindowAt(half, 0, seconds);
    WindowAt(s, 1, seconds);
    var first := Burst(limit, identity, half);
    assert [] + first == first;
    BurstAdmitted([], limit, identity, half, half, half + s, limit, seconds);
    BurstAdmitted(first, limit, identity, s, half, half + s, limit, seconds);
    calls := first + Burst(limit, identity, s);
  }

  lemma WindowAt(at: real, w: int, seconds: nat)
    requires seconds > 0 && (w * seconds) as real <= at < ((w + 1) * seconds) as real
    ensures Window(at, seconds) == w
  {
    WindowBounds(at, seconds);
    if Window(at, seconds) < w {
      WindowOrder(Window(at, seconds), w, seconds);
    } else if Window(at, seconds) > w {
      WindowOrder(w, Window(at, seconds), seconds);
    }
  }
}
