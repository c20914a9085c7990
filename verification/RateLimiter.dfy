/** Token-bucket rate limiter with lazy refill.

    Tokens are counted in nano-tokens (10^-9 token) and time in nanoseconds, so
    that a refill of `elapsed * tokensPerSec` is exact integer arithmetic. */
module RateLimiter {

  /** Nano-tokens in a token, and nanoseconds in a second. */
  const UNIT: int := 1_000_000_000

  const DEFAULT_RATE: int := 10

  datatype Bucket = Bucket(capacity: int, rate: int, tokens: int, lastRefill: int, stopped: bool) {
    ghost predicate Valid() {
      0 <= rate && 1 <= capacity && 0 <= tokens <= capacity * UNIT
    }

    ghost predicate Full() {
      Valid() && !stopped && tokens == capacity * UNIT
    }
  }

  /** One lock-held step. `WaitTurn` is one iteration of the loop in Wait. */
  datatype Call = TryAcquire | WaitTurn | Available | Stop

  datatype Event = Event(call: Call, now: int)

  datatype Outcome = Granted | Refused | Cancelled | Peeked(available: int) | Stopped

  function NewBucket(requestsPerSecond: int, now: int): (b: Bucket)
    ensures b.Full() && b.lastRefill == now && b.rate == b.capacity
    ensures b.capacity == (if requestsPerSecond > 0 then requestsPerSecond else 10)
  {
    var rps := if requestsPerSecond <= 0 then DEFAULT_RATE else requestsPerSecond;
    Bucket(rps, rps, rps * UNIT, now, false)
  }

  /** Nano-tokens earned in `dt` nanoseconds: `rate` for each of them. Written as a
      sum, so that only EarnedIsProduct reasons about a product of two variables. */
  function Earned(rate: int, dt: int): int
    decreases if dt < 0 then -dt else dt
  {
    if dt == 0 then 0
    else if dt > 0 then Earned(rate, dt - 1) + rate
    else Earned(rate, dt + 1) - rate
  }

  lemma {:induction false} EarnedIsProduct(rate: int, dt: int)
    ensures Earned(rate, dt) == rate * dt
    decreases if dt < 0 then -dt else dt
  {
    if dt > 0 {
      EarnedIsProduct(rate, dt - 1);
    } else if dt < 0 {
      EarnedIsProduct(rate, dt + 1);
    }
  }

  function Refill(b: Bucket, now: int): Bucket {
    if b.stopped then b else
    var t := b.tokens + Earned(b.rate, now - b.lastRefill);
    b.(tokens := if t > b.capacity * UNIT then b.capacity * UNIT else t, lastRefill := now)
  }

  function Step(b: Bucket, e: Event): (Bucket, Outcome) {
    match e.call
    case Stop => (b.(stopped := true), Stopped)
    case Available => var r := Refill(b, e.now); (r, Peeked(r.tokens / UNIT))
    case TryAcquire => Take(Refill(b, e.now))
    case WaitTurn => if b.stopped then (b, Cancelled) else Take(Refill(b, e.now))
  }

  function Take(b: Bucket): (Bucket, Outcome) {
    if b.tokens >= UNIT then (b.(tokens := b.tokens - UNIT), Granted) else (b, Refused)
  }

  /** How long Wait sleeps after a refused turn: the missing tokens divided by the
      rate, truncated to whole nanoseconds. */
  function SleepFor(b: Bucket): int
    requires b.rate > 0
  {
    (UNIT - b.tokens) / b.rate
  }

  // ----- runs ------------------------------------------------------------------

  /** The bucket after the first n events of a run. */
  function After(b: Bucket, es: seq<Event>, n: nat): Bucket
    requires n <= |es|
  {
    if n == 0 then b else Step(After(b, es, n - 1), es[n - 1]).0
  }

  function OutcomeAt(b: Bucket, es: seq<Event>, k: nat): Outcome
    requires k < |es|
  {
    Step(After(b, es, k), es[k]).1
  }

  /** Number of grants among events i, ..., n-1. */
  function GrantsIn(b: Bucket, es: seq<Event>, i: nat, n: nat): (g: nat)
    requires i <= n <= |es|
  {
    if n == i then 0 else
    GrantsIn(b, es, i, n - 1) + if OutcomeAt(b, es, n - 1) == Granted then 1 else 0
  }

  /** The clock never runs backwards: neither from the last refill nor between calls. */
  ghost predicate Monotone(b: Bucket, es: seq<Event>) {
    && (forall k :: 0 <= k < |es| ==> b.lastRefill <= es[k].now)
    && (forall i, j :: 0 <= i < j < |es| ==> es[i].now <= es[j].now)
  }

  ghost predicate NoStop(es: seq<Event>) {
    forall k :: 0 <= k < |es| ==> es[k].call != Stop
  }

  lemma EarnedSplits(rate: int, from: int, mid: int, to: int)
    ensures Earned(rate, to - from) == Earned(rate, to - mid) + Earned(rate, mid - from)
    ensures Earned(rate, from - from) == 0
  {
    EarnedIsProduct(rate, to - from);
    EarnedIsProduct(rate, to - mid);
    EarnedIsProduct(rate, mid - from);
  }

  lemma EarnedGrows(rate: int, x: int, y: int)
    requires rate >= 0 && x <= y
    ensures Earned(rate, x) <= Earned(rate, y)
  {
    EarnedIsProduct(rate, x);
    EarnedIsProduct(rate, y);
    assert rate * (y - x) >= 0;
  }

  /** What one step does to a valid bucket, with the accrued tokens as one term. */
  lemma StepFacts(b: Bucket, e: Event)
    requires b.Valid() && b.lastRefill <= e.now
    ensures var (a, o) := Step(b, e);
            var earned := Earned(b.rate, e.now - b.lastRefill);
            var spent := if o == Granted then UNIT else 0;
            && a.Valid() && a.capacity == b.capacity && a.rate == b.rate && earned >= 0
            && a.tokens <= b.capacity * UNIT - spent
            && (b.stopped ==> a.stopped && a.lastRefill == b.lastRefill && a.tokens == b.tokens - spent)
            && (!b.stopped && e.call != Stop ==>
                  && !a.stopped && a.lastRefill == e.now
                  && (b.tokens + earned <= b.capacity * UNIT ==> a.tokens == b.tokens + earned - spent)
                  && (b.tokens + earned > b.capacity * UNIT ==> a.tokens == b.capacity * UNIT - spent))
            && (!b.stopped && e.call == Stop ==> a.stopped && a.tokens == b.tokens && o == Stopped)
  {
    EarnedGrows(b.rate, 0, e.now - b.lastRefill);
  }

  /** Tokens stay within [0, capacity] at every point of every run, and the last
      refill is never in the future. */
  lemma {:induction false} TokensStayInRange(b: Bucket, es: seq<Event>, n: nat)
    requires b.Valid() && n <= |es| && Monotone(b, es)
    ensures var a := After(b, es, n);
            && a.Valid() && a.capacity == b.capacity && a.rate == b.rate
            && (n < |es| ==> a.lastRefill <= es[n].now)
            && (!a.stopped ==> a.lastRefill == if n == 0 then b.lastRefill else es[n - 1].now)
  {
    if n > 0 {
      hide Step, Earned;
      TokensStayInRange(b, es, n - 1);
      StepFacts(After(b, es, n - 1), es[n - 1]);
    }
  }

  /** Upper half of the token formula: a window that opened at event i limits
      what is left at event n. */
  lemma {:induction false} TokensBelowEveryWindow(b: Bucket, es: seq<Event>, i: nat, n: nat)
    requires b.Valid() && i < n <= |es| && Monotone(b, es)
    ensures After(b, es, n).tokens
         <= b.capacity * UNIT - GrantsIn(b, es, i, n) * UNIT + Earned(b.rate, es[n - 1].now - es[i].now)
  {
    hide Step, Earned;
    TokensStayInRange(b, es, n - 1);
    StepFacts(After(b, es, n - 1), es[n - 1]);
    if n == i + 1 {
      assert GrantsIn(b, es, i, i) == 0;
      EarnedSplits(b.rate, es[i].now, es[i].now, es[i].now);
    } else {
      TokensBelowEveryWindow(b, es, i, n - 1);
      EarnedSplits(b.rate, es[i].now, es[n - 2].now, es[n - 1].now);
      EarnedGrows(b.rate, 0, es[n - 1].now - es[n - 2].now);
    }
  }

  /** In any time window [from, to] of any run -- stopped or not, whatever happened
      before it -- TryAcquire and Wait together grant at most
      capacity + rate * (to - from) requests. */
  lemma WindowBound(b: Bucket, es: seq<Event>, i: nat, j: nat, from: int, to: int)
    requires b.Valid() && i <= j <= |es| && Monotone(b, es) && from <= to
    requires forall k :: i <= k < j ==> from <= es[k].now <= to
    ensures GrantsIn(b, es, i, j) * UNIT <= b.capacity * UNIT + Earned(b.rate, to - from)
  {
    if i < j {
      TokensBelowEveryWindow(b, es, i, j);
      TokensStayInRange(b, es, j);
      EarnedGrows(b.rate, es[j - 1].now - es[i].now, to - from);
    } else {
      EarnedGrows(b.rate, 0, to - from);
    }
  }

  /** Lower half of the token formula: some window is used up exactly. */
  lemma {:induction false} SomeWindowIsTight(b: Bucket, es: seq<Event>, n: nat) returns (i: nat)
    requires b.Full() && 0 < n <= |es| && Monotone(b, es) && NoStop(es)
    ensures i < n
    ensures !After(b, es, n).stopped
    ensures After(b, es, n).tokens
         == b.capacity * UNIT - GrantsIn(b, es, i, n) * UNIT + Earned(b.rate, es[n - 1].now - es[i].now)
  {
    hide Step, Earned;
    TokensStayInRange(b, es, n - 1);
    var a := After(b, es, n - 1);
    StepFacts(a, es[n - 1]);
    assert GrantsIn(b, es, n - 1, n - 1) == 0;
    EarnedSplits(b.rate, es[n - 1].now, es[n - 1].now, es[n - 1].now);
    if n == 1 {
      i := 0;
    } else {
      i := SomeWindowIsTight(b, es, n - 1);
      EarnedSplits(b.rate, es[i].now, es[n - 2].now, es[n - 1].now);
      if a.tokens + Earned(b.rate, es[n - 1].now - a.lastRefill) > b.capacity * UNIT {
        i := n - 1;
      }
    }
  }

  ghost predicate EveryWindowAllows(b: Bucket, es: seq<Event>, n: nat)
    requires n < |es|
  {
    forall i: nat :: i <= n ==>
      (GrantsIn(b, es, i, n) + 1) * UNIT <= b.capacity * UNIT + Earned(b.rate, es[n].now - es[i].now)
  }

  /** The limiter is exact: a request is granted if and only if granting it keeps
      every window that ends at it within capacity + rate * length. */
  lemma GrantedIffEveryWindowAllows(b: Bucket, es: seq<Event>, n: nat)
    requires b.Full() && n < |es| && Monotone(b, es) && NoStop(es)
    requires es[n].call == TryAcquire || es[n].call == WaitTurn
    ensures OutcomeAt(b, es, n) == Granted <==> EveryWindowAllows(b, es, n)
  {
    assert b.Valid();
    hide OutcomeAt, After, Step, GrantsIn, Earned;
    if OutcomeAt(b, es, n) == Granted {
      forall i: nat | i <= n
        ensures (GrantsIn(b, es, i, n) + 1) * UNIT <= b.capacity * UNIT + Earned(b.rate, es[n].now - es[i].now)
      {
        WindowAllows(b, es, i, n);
      }
    } else {
      var i := SomeWindowRefuses(b, es, n);
    }
  }

  lemma SomeWindowRefuses(b: Bucket, es: seq<Event>, n: nat) returns (i: nat)
    requires b.Full() && n < |es| && Monotone(b, es) && NoStop(es)
    requires es[n].call == TryAcquire || es[n].call == WaitTurn
    requires OutcomeAt(b, es, n) != Granted
    ensures i <= n && (GrantsIn(b, es, i, n) + 1) * UNIT > b.capacity * UNIT + Earned(b.rate, es[n].now - es[i].now)
  {
    hide Step, Refill, Earned;
    TokensStayInRange(b, es, n);
    NeverStopped(b, es, n);
    GrantedIffEarnedToken(After(b, es, n), es[n]);
    if n == 0 {
      i := 0;
      EarnedGrows(b.rate, 0, es[0].now - b.lastRefill);
    } else {
      i := SomeWindowIsTight(b, es, n);
      EarnedSplits(b.rate, es[i].now, es[n - 1].now, es[n].now);
    }
  }

  lemma WindowAllows(b: Bucket, es: seq<Event>, i: nat, n: nat)
    requires b.Valid() && i <= n < |es| && Monotone(b, es) && OutcomeAt(b, es, n) == Granted
    ensures (GrantsIn(b, es, i, n) + 1) * UNIT <= b.capacity * UNIT + Earned(b.rate, es[n].now - es[i].now)
  {
    hide Step, Earned;
    WindowBound(b, es, i, n + 1, es[i].now, es[n].now);
    assert GrantsIn(b, es, i, n + 1) == GrantsIn(b, es, i, n) + 1;
  }

  lemma {:induction false} NeverStopped(b: Bucket, es: seq<Event>, n: nat)
    requires !b.stopped && n <= |es| && NoStop(es)
    ensures !After(b, es, n).stopped
  {
    if n > 0 {
      NeverStopped(b, es, n - 1);
    }
  }

  lemma GrantedIffEarnedToken(b: Bucket, e: Event)
    requires b.Valid() && !b.stopped && b.lastRefill <= e.now
    requires e.call == TryAcquire || e.call == WaitTurn
    ensures Step(b, e).1 == Granted <==> b.tokens + Earned(b.rate, e.now - b.lastRefill) >= UNIT
  {}

  function TryAcquires(es: seq<Event>, n: nat): nat
    requires n <= |es|
  {
    if n == 0 then 0 else TryAcquires(es, n - 1) + if es[n - 1].call == TryAcquire then 1 else 0
  }

  /** Once stopped, the limiter hands out exactly the whole tokens it still held --
      one per TryAcquire -- and nothing after that, at whatever times it is called. */
  lemma {:induction false} StoppedGrantsWhatIsLeft(b: Bucket, es: seq<Event>, n: nat)
    requires b.Valid() && b.stopped && n <= |es|
    ensures var asked := TryAcquires(es, n);
            var held := b.tokens / UNIT;
            && After(b, es, n).stopped
            && After(b, es, n).tokens == b.tokens - GrantsIn(b, es, 0, n) * UNIT
            && GrantsIn(b, es, 0, n) == if asked < held then asked else held
  {
    if n > 0 {
      StoppedGrantsWhatIsLeft(b, es, n - 1);
    }
  }

  /** What Available reports is a promise: of any number of TryAcquires at that instant
      exactly that many are granted, and the report itself takes none of them. */
  lemma PeekIsWhatIsGranted(b: Bucket, es: seq<Event>, now: int)
    requires b.Valid() && !b.stopped && b.lastRefill <= now
    requires forall k :: 0 <= k < |es| ==> es[k] == Event(TryAcquire, now)
    ensures var (peeked, o) := Step(b, Event(Available, now));
            && o.Peeked?
            && GrantsIn(b, es, 0, |es|) == Min(|es|, o.available)
            && GrantsIn(peeked, es, 0, |es|) == Min(|es|, o.available)
  {
    var r := Refill(b, now);
    RefillsCompose(b, now, now);
    AtOneInstant(b, es, now, |es|);
    AtOneInstant(r, es, now, |es|);
  }

  lemma {:induction false} AtOneInstant(b: Bucket, es: seq<Event>, now: int, n: nat)
    requires b.Valid() && !b.stopped && b.lastRefill <= now && n <= |es|
    requires forall k :: 0 <= k < |es| ==> es[k] == Event(TryAcquire, now)
    ensures Refill(b, now).Valid()
    ensures GrantsIn(b, es, 0, n) == Min(n, Refill(b, now).tokens / UNIT)
    ensures var a := After(b, es, n);
            && a.Valid() && !a.stopped && a.lastRefill <= now
            && Refill(a, now) == Refill(b, now).(tokens := Refill(b, now).tokens - GrantsIn(b, es, 0, n) * UNIT)
  {
    RefillsCompose(b, now, now);
    if n > 0 {
      AtOneInstant(b, es, now, n - 1);
      var a := After(b, es, n - 1);
      EarnedSplits(b.rate, now, now, now);
      RefillsCompose(a, now, now);
    }
  }

  // ----- lazy refill is eager refill ----------------------------------------------

  /** Capped refills compose under the clock. */
  lemma RefillsCompose(b: Bucket, t: int, now: int)
    requires b.Valid() && b.lastRefill <= t <= now
    ensures Refill(Refill(b, t), now) == Refill(b, now)
    ensures Refill(b, t).Valid()
  {
    EarnedSplits(b.rate, b.lastRefill, t, now);
    EarnedGrows(b.rate, 0, now - t);
    EarnedGrows(b.rate, 0, t - b.lastRefill);
  }

  function WithoutPeeks(es: seq<Event>): seq<Event> {
    if es == [] then [] else
    var rest := WithoutPeeks(es[1..]);
    if es[0].call == Available then rest else [es[0]] + rest
  }

  /** The verdicts of a run, in order, leaving out what Available reported. */
  function Verdicts(b: Bucket, es: seq<Event>): seq<Outcome>
    decreases |es|
  {
    if es == [] then [] else
    var (a, o) := Step(b, es[0]);
    var rest := Verdicts(a, es[1..]);
    if o.Peeked? then rest else [o] + rest
  }

  lemma {:induction false} PeeksFrom(b: Bucket, c: Bucket, t: int, es: seq<Event>)
    requires b.Valid() && c.Valid() && !b.stopped && !c.stopped
    requires b.lastRefill <= t && c.lastRefill <= t && Refill(b, t) == Refill(c, t)
    requires Monotone(b.(lastRefill := t), es) && NoStop(es)
    ensures Verdicts(b, es) == Verdicts(c, WithoutPeeks(es))
    decreases |es|
  {
    if es != [] {
      var now := es[0].now;
      RefillsCompose(b, t, now);
      RefillsCompose(c, t, now);
      RefillsCompose(b, now, now);
      RefillsCompose(c, now, now);
      assert Refill(b, now) == Refill(c, now);
      var b' := Step(b, es[0]).0;
      if es[0].call == Available {
        PeeksFrom(b', c, now, es[1..]);
        assert WithoutPeeks(es) == WithoutPeeks(es[1..]);
      } else {
        PeeksFrom(b', Step(c, es[0]).0, now, es[1..]);
        assert WithoutPeeks(es) == [es[0]] + WithoutPeeks(es[1..]);
        assert WithoutPeeks(es)[1..] == WithoutPeeks(es[1..]);
      }
    }
  }

  /** Any number of Available calls, at any times, changes no grant and no refusal
      of a run that is never stopped. */
  lemma PeeksChangeNothing(b: Bucket, es: seq<Event>)
    requires b.Valid() && !b.stopped && Monotone(b, es) && NoStop(es)
    ensures Verdicts(b, es) == Verdicts(b, WithoutPeeks(es))
  {
    PeeksFrom(b, b, b.lastRefill, es);
  }

  // ----- and when it is not: after a stop ---------------------------------------------

  function Min(a: int, b: int): int {
    if a < b then a else b
  }

  lemma {:induction false} TryAcquiresFront(es: seq<Event>, n: nat)
    requires 0 < n <= |es|
    ensures TryAcquires(es, n) == (if es[0].call == TryAcquire then 1 else 0) + TryAcquires(es[1..], n - 1)
  {
    if n > 1 {
      TryAcquiresFront(es, n - 1);
    }
  }

  /** What one call does to a stopped bucket. */
  lemma StoppedStep(b: Bucket, e: Event)
    requires b.Valid() && b.stopped
    ensures var (a, o) := Step(b, e);
            && a.Valid() && a.stopped
            && match e.call {
              case TryAcquire =>
                && o == (if b.tokens / UNIT > 0 then Granted else Refused)
                && a.tokens / UNIT == (if o == Granted then b.tokens / UNIT - 1 else b.tokens / UNIT)
              case WaitTurn => o == Cancelled && a.tokens == b.tokens
              case Available => o.Peeked? && a.tokens == b.tokens
              case Stop => o == Stopped && a.tokens == b.tokens
            }
  {}

  /** Two stopped buckets give the same verdicts if and only if they hold the same
      number of whole tokens, as far as these calls ask for them. */
  lemma {:induction false} StoppedVerdictsAgreeIff(x: Bucket, y: Bucket, es: seq<Event>)
    requires x.Valid() && y.Valid() && x.stopped && y.stopped
    ensures Verdicts(x, es) == Verdicts(y, WithoutPeeks(es)) <==>
            Min(TryAcquires(es, |es|), x.tokens / UNIT) == Min(TryAcquires(es, |es|), y.tokens / UNIT)
    decreases |es|
  {
    hide Step;
    if es != [] {
      var e, rest := es[0], es[1..];
      assert es == [e] + rest;
      Unroll(x, e, rest);
      TryAcquiresFront(es, |es|);
      StoppedStep(x, e);
      StoppedStep(y, e);
      var x', y' := Step(x, e).0, Step(y, e).0;
      if e.call == Available {
        StoppedVerdictsAgreeIff(x', y, rest);
      } else {
        StoppedVerdictsAgreeIff(x', y', rest);
        Unroll(y, e, WithoutPeeks(rest));
        SameTail(Step(x, e).1, Step(y, e).1, Verdicts(x', rest), Verdicts(y', WithoutPeeks(rest)));
      }
    }
  }

  lemma SameTail(o: Outcome, p: Outcome, xs: seq<Outcome>, ys: seq<Outcome>)
    ensures [o] + xs == [p] + ys <==> o == p && xs == ys
  {
    assert ([o] + xs)[1..] == xs && ([p] + ys)[1..] == ys;
    assert ([o] + xs)[0] == o && ([p] + ys)[0] == p;
  }

  /** Runs compose: first one part, then the other from where it led. */
  lemma {:induction false} VerdictsSplit(b: Bucket, pre: seq<Event>, rest: seq<Event>)
    ensures Verdicts(b, pre + rest) == Verdicts(b, pre) + Verdicts(After(b, pre, |pre|), rest)
    decreases |pre|
  {
    hide Step;
    if pre == [] {
      assert pre + rest == rest;
    } else {
      var e, tail := pre[0], pre[1..];
      var (a, o) := Step(b, e);
      assert pre == [e] + tail && pre + rest == [e] + (tail + rest);
      VerdictsSplit(a, tail, rest);
      AfterFirst(b, e, tail, |tail|);
      Unroll(b, e, tail);
      Unroll(b, e, tail + rest);
      hide *;
      OneThenTwo(o, Verdicts(a, tail), Verdicts(After(a, tail, |tail|), rest));
    }
  }

  lemma {:induction false} AfterFirst(b: Bucket, e: Event, es: seq<Event>, n: nat)
    requires n <= |es|
    ensures After(b, [e] + es, n + 1) == After(Step(b, e).0, es, n)
  {
    hide Step;
    if n > 0 {
      AfterFirst(b, e, es, n - 1);
    } else {
      assert After(b, [e] + es, 0) == b;
    }
  }

  lemma OneThenTwo<T>(x: T, ys: seq<T>, zs: seq<T>)
    ensures [x] + (ys + zs) == [x] + ys + zs
  {}

  lemma {:induction false} WithoutPeeksSplit(pre: seq<Event>, rest: seq<Event>)
    ensures WithoutPeeks(pre + rest) == WithoutPeeks(pre) + WithoutPeeks(rest)
  {
    if pre == [] {
      assert pre + rest == rest;
    } else {
      var e, tail := pre[0], pre[1..];
      assert pre == [e] + tail && pre + rest == [e] + (tail + rest);
      WithoutPeeksSplit(tail, rest);
      PeeksUnroll(e, tail);
      PeeksUnroll(e, tail + rest);
      hide *;
      OneThenTwo(e, WithoutPeeks(tail), WithoutPeeks(rest));
    }
  }

  lemma {:induction false} WithoutPeeksKeepsOrder(b: Bucket, es: seq<Event>)
    requires Monotone(b, es) && NoStop(es)
    ensures Monotone(b, WithoutPeeks(es)) && NoStop(WithoutPeeks(es))
    ensures forall e :: e in WithoutPeeks(es) ==> e in es
  {
    if es != [] {
      assert es == [es[0]] + es[1..];
      WithoutPeeksKeepsOrder(b, es[1..]);
      var rest := WithoutPeeks(es[1..]);
      assert forall i :: 0 <= i < |rest| ==> rest[i] in es[1..];
    }
  }

  /** A run that is stopped after `pre`: the stopped bucket, and the verdicts. */
  lemma StoppedAfter(b: Bucket, pre: seq<Event>, stop: Event, post: seq<Event>) returns (x: Bucket)
    requires b.Valid() && Monotone(b, pre) && stop.call == Stop
    ensures x.Valid() && x.stopped && x.tokens == After(b, pre, |pre|).tokens
    ensures Verdicts(b, pre + ([stop] + post)) == Verdicts(b, pre) + ([Stopped] + Verdicts(x, post))
  {
    hide After, Verdicts;
    TokensStayInRange(b, pre, |pre|);
    var a := After(b, pre, |pre|);
    x := a.(stopped := true);
    VerdictsSplit(b, pre, [stop] + post);
    Unroll(a, stop, post);
  }

  /** A run that is stopped after `pre`, compared with the same run without its peeks:
      the verdicts are the same if and only if, as far as the later calls ask for them,
      the peeks of `pre` leave the same number of whole tokens at the stop. */
  lemma PeeksInvisibleIff(b: Bucket, pre: seq<Event>, stop: Event, post: seq<Event>)
    requires b.Valid() && !b.stopped && Monotone(b, pre) && NoStop(pre) && stop.call == Stop
    ensures var es := pre + ([stop] + post);
            var asked := TryAcquires(post, |post|);
            var without := WithoutPeeks(pre);
            Verdicts(b, es) == Verdicts(b, WithoutPeeks(es)) <==>
              Min(asked, After(b, pre, |pre|).tokens / UNIT) == Min(asked, After(b, without, |without|).tokens / UNIT)
  {
    hide Step, After, Verdicts, WithoutPeeks, TryAcquires, Monotone, NoStop;
    var without := WithoutPeeks(pre);
    WithoutPeeksKeepsOrder(b, pre);
    PeeksChangeNothing(b, pre);
    var x' := StoppedAfter(b, pre, stop, post);
    var y' := StoppedAfter(b, without, stop, WithoutPeeks(post));
    StoppedVerdictsAgreeIff(x', y', post);
    WithoutPeeksSplit(pre, [stop] + post);
    Unroll(b, stop, post);
    SamePrefix(Verdicts(b, pre), [Stopped] + Verdicts(x', post), [Stopped] + Verdicts(y', WithoutPeeks(post)));
    SameTail(Stopped, Stopped, Verdicts(x', post), Verdicts(y', WithoutPeeks(post)));
  }

  lemma SamePrefix(p: seq<Outcome>, xs: seq<Outcome>, ys: seq<Outcome>)
    ensures p + xs == p + ys <==> xs == ys
  {
    assert (p + xs)[|p|..] == xs && (p + ys)[|p|..] == ys;
  }

  /** An instance where they differ: a stop freezes the bucket as the last refill left
      it, and Available is a refill. */
  lemma StopMakesPeeksVisible() returns (b: Bucket, es: seq<Event>)
    ensures b == NewBucket(1, 0) && Monotone(b, es)
    ensures Verdicts(b, es) == [Granted] + [Stopped, Granted]
    ensures Verdicts(b, WithoutPeeks(es)) == [Granted] + [Stopped, Refused]
  {
    b := NewBucket(1, 0);
    var drained, refilled := Bucket(1, 1, 0, 0, false), Bucket(1, 1, UNIT, UNIT, false);
    var ask, peek, tail := Event(TryAcquire, 0), Event(Available, UNIT), [Event(Stop, UNIT), Event(TryAcquire, UNIT)];
    es := [ask] + ([peek] + tail);
    StopThenAsk(drained);
    StopThenAsk(refilled);
    EarnedIsProduct(1, UNIT);
    EarnedIsProduct(1, 0);
    assert Step(b, ask) == (drained, Granted);
    assert Step(drained, peek) == (refilled, Peeked(1));
    hide *;
    assert Verdicts(drained, [peek] + tail) == Verdicts(refilled, tail) by {
      Unroll(drained, peek, tail);
    }
    assert Verdicts(b, es) == [Granted] + Verdicts(drained, [peek] + tail) by {
      Unroll(b, ask, [peek] + tail);
    }
    assert Verdicts(b, [ask] + tail) == [Granted] + Verdicts(drained, tail) by {
      Unroll(b, ask, tail);
    }
    assert WithoutPeeks(es) == [ask] + tail by {
      Unroll(b, ask, [peek] + tail);
      Unroll(b, peek, tail);
    }
  }

  lemma Unroll(b: Bucket, e: Event, es: seq<Event>)
    ensures var (a, o) := Step(b, e);
            Verdicts(b, [e] + es) == if o.Peeked? then Verdicts(a, es) else [o] + Verdicts(a, es)
    ensures WithoutPeeks([e] + es) == if e.call == Available then WithoutPeeks(es) else [e] + WithoutPeeks(es)
  {
    assert ([e] + es)[1..] == es;
    PeeksUnroll(e, es);
  }

  lemma PeeksUnroll(e: Event, es: seq<Event>)
    ensures WithoutPeeks([e] + es) == if e.call == Available then WithoutPeeks(es) else [e] + WithoutPeeks(es)
  {
    assert ([e] + es)[1..] == es;
  }

  lemma StopThenAsk(b: Bucket)
    requires b.Valid()
    ensures var es := [Event(Stop, UNIT), Event(TryAcquire, UNIT)];
            && WithoutPeeks(es) == es
            && Verdicts(b, es) == [Stopped, if b.tokens >= UNIT then Granted else Refused]
  {
    var stop, ask := Event(Stop, UNIT), Event(TryAcquire, UNIT);
    Unroll(b, stop, [ask]);
    Unroll(Step(b, stop).0, ask, []);
    assert [stop] + [ask] == [stop, ask] && [ask] + [] == [ask];
  }

  /** Wait's sleep is tight: at no instant before its end is there a token, and one
      nanosecond after it there always is one. */
  lemma SleepIsTight(b: Bucket, t: int)
    requires b.Valid() && !b.stopped && b.rate > 0 && b.tokens < UNIT && b.lastRefill <= t
    ensures t < b.lastRefill + SleepFor(b) ==> Take(Refill(b, t)).1 == Refused
    ensures t > b.lastRefill + SleepFor(b) ==> Take(Refill(b, t)).1 == Granted
  {
    var need := UNIT - b.tokens;
    var q := SleepFor(b);
    assert need == q * b.rate + need % b.rate;
    var dt := t - b.lastRefill;
    EarnedIsProduct(b.rate, q);
    if dt < q {
      EarnedGrows(b.rate, dt + 1, q);
    } else if dt > q {
      EarnedGrows(b.rate, q + 1, dt);
    }
  }

  // ----- the object ----------------------------------------------------------------

  datatype WaitResult = Acquired | Canceled | ContextDone | StillWaiting

  class Limiter {
    const capacity: int
    const tokensPerSec: int
    var tokens: int
    var lastRefill: int
    var stopped: bool

    function View(): Bucket
      reads this
    {
      Bucket(capacity, tokensPerSec, tokens, lastRefill, stopped)
    }

    constructor (requestsPerSecond: int, now: int)
      ensures View() == NewBucket(requestsPerSecond, now)
    {
      var rps := requestsPerSecond;
      if rps <= 0 {
        rps := DEFAULT_RATE;
      }
      capacity := rps;
      tokensPerSec := rps;
      tokens := rps * UNIT;
      lastRefill := now;
      stopped := false;
    }

    method RefillTokens(now: int)
      modifies this
      ensures View() == Refill(old(View()), now)
    {
      if stopped {
        return;
      }
      var elapsed := now - lastRefill;
      EarnedIsProduct(tokensPerSec, elapsed);
      tokens := tokens + elapsed * tokensPerSec;
      if tokens > capacity * UNIT {
        tokens := capacity * UNIT;
      }
      lastRefill := now;
    }

    method TryAcquire(now: int) returns (ok: bool)
      modifies this
      ensures Step(old(View()), Event(Call.TryAcquire, now)) == (View(), if ok then Granted else Refused)
    {
      RefillTokens(now);
      if tokens >= UNIT {
        tokens := tokens - UNIT;
        return true;
      }
      return false;
    }

    method Available(now: int) returns (n: int)
      modifies this
      ensures Step(old(View()), Event(Call.Available, now)) == (View(), Peeked(n))
    {
      RefillTokens(now);
      n := tokens / UNIT;
    }

    method Stop(now: int)
      modifies this
      ensures Step(old(View()), Event(Call.Stop, now)) == (View(), Stopped)
    {
      stopped := true;
    }

    /** Wait without interference: `clock[k]` is the time of the k-th wake-up and
        `done[k]` says that the context ended during the sleep that follows it.
        `turns` counts the turns taken; the bucket is the one after those turns, and
        every turn but the last was refused. */
    method Wait(clock: seq<int>, done: seq<bool>) returns (r: WaitResult, ghost turns: seq<Event>)
      requires |clock| == |done|
      modifies this
      ensures |turns| <= |clock|
      ensures forall k :: 0 <= k < |turns| ==> turns[k] == Event(WaitTurn, clock[k])
      ensures View() == After(old(View()), turns, |turns|)
      ensures forall k :: 0 <= k < |turns| - 1 ==> OutcomeAt(old(View()), turns, k) == Refused && !done[k]
      ensures r.StillWaiting? ==> |turns| == |clock|
      ensures |turns| > 0 ==>
        var last := OutcomeAt(old(View()), turns, |turns| - 1);
        match r {
          case Acquired => last == Granted
          case Canceled => last == Cancelled
          case ContextDone => last == Refused && done[|turns| - 1]
          case StillWaiting => last == Refused && !done[|turns| - 1]
        }
      ensures !r.StillWaiting? ==> |turns| > 0
    {
      turns := [];
      var k := 0;
      hide Earned;
      while k < |clock|
        invariant 0 <= k <= |clock| && |turns| == k
        invariant forall j :: 0 <= j < k ==> turns[j] == Event(WaitTurn, clock[j])
        invariant View() == After(old(View()), turns, k)
        invariant forall j :: 0 <= j < k ==> OutcomeAt(old(View()), turns, j) == Refused && !done[j]
      {
        ghost var longer := turns + [Event(WaitTurn, clock[k])];
        SameRun(old(View()), turns, longer, k);
        forall j | 0 <= j < k
          ensures OutcomeAt(old(View()), longer, j) == OutcomeAt(old(View()), turns, j)
        {
          SameRun(old(View()), turns, longer, j);
        }
        turns := longer;
        if stopped {
          return Canceled, turns;
        }
        RefillTokens(clock[k]);
        if tokens >= UNIT {
          tokens := tokens - UNIT;
          return Acquired, turns;
        }
        if done[k] {
          return ContextDone, turns;
        }
        k := k + 1;
      }
      r := StillWaiting;
    }
  }

  /** A run only depends on the events it has consumed. */
  lemma {:induction false} SameRun(b: Bucket, es: seq<Event>, longer: seq<Event>, n: nat)
    requires n <= |es| && es <= longer
    ensures After(b, es, n) == After(b, longer, n)
  {
    if n > 0 {
      SameRun(b, es, longer, n - 1);
    }
  }
}
