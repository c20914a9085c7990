/** Trading breaker: five trip reasons, a cooldown, a daily loss that rolls over at a
    UTC hour, and a position per token. Times are nanoseconds since the epoch and
    amounts are exact reals. */
module RiskBreaker {
  import opened Sums

  const SECOND: int := 1_000_000_000
  const HOUR: int := 3600 * SECOND
  const DAY: int := 24 * HOUR

  datatype Reason = ConsecutiveErrors | DailyLossLimit | PositionPerMarket | TotalPosition | ManualHalt

  datatype Policy = Policy(dailyLossLimit: real, resetHour: int, maxErrors: int, coolDownSecs: int,
                           maxPerMarket: real, maxTotal: real)

  /** A time that may still be the zero time. */
  datatype Moment = Never | At(time: int)

  datatype State = State(errors: int, dailyLoss: real, lossReset: Moment, lastBreak: Moment,
                         halted: bool, reason: Reason, positions: map<string, real>)

  const FRESH := State(0, 0.0, Never, Never, false, ConsecutiveErrors, map[])

  datatype Op =
    | RecordError | RecordSuccess | RecordLoss(amount: real) | RecordPosition(token: string, size: real)
    | Halt | Status | CanProceed | Reset

  datatype Event = Event(op: Op, now: int)

  // ----- the small predicates at the end of the file ----------------------------------

  function Abs(v: real): real {
    if v < 0.0 then -v else v
  }

  function ClampNonNegative(v: real): real {
    if v < 0.0 then 0.0 else v
  }

  ghost function TotalAbs(positions: map<string, real>): real {
    Sum(map k | k in positions :: Abs(positions[k]))
  }

  predicate OverPerMarket(p: Policy, size: real) {
    p.maxPerMarket > 0.0 && Abs(size) > p.maxPerMarket
  }

  predicate OverTotal(p: Policy, total: real) {
    p.maxTotal > 0.0 && total > p.maxTotal
  }

  function DayOf(t: int): int { t / DAY }

  function HourOf(t: int): int { (t % DAY) / HOUR }

  /** They are the UTC day since the epoch and the hour of that day. */
  lemma ClockReading(t: int)
    ensures var rest := t - DayOf(t) * 86400 * 1_000_000_000 - HourOf(t) * 3600 * 1_000_000_000;
            0 <= HourOf(t) < 24 && 0 <= rest < 3600 * 1_000_000_000
  {
    assert t == DayOf(t) * DAY + t % DAY;
    assert t % DAY == HourOf(t) * HOUR + (t % DAY) % HOUR;
  }

  predicate ShouldResetDailyLoss(now: int, lastReset: int, resetHour: int) {
    DayOf(now) != DayOf(lastReset) && HourOf(now) >= resetHour
  }

  // ----- one step ----------------------------------------------------------------------

  predicate RollsOver(p: Policy, s: State, now: int) {
    p.dailyLossLimit > 0.0 && s.lossReset.At? && ShouldResetDailyLoss(now, s.lossReset.time, p.resetHour)
  }

  function CheckDailyReset(p: Policy, s: State, now: int): State {
    if p.dailyLossLimit <= 0.0 then s
    else if s.lossReset == Never then s.(lossReset := At(now))
    else if RollsOver(p, s, now) then s.(dailyLoss := 0.0, lossReset := At(now))
    else s
  }

  function Trip(s: State, r: Reason, now: int): State {
    s.(halted := true, reason := r, lastBreak := At(now))
  }

  predicate CooledDown(p: Policy, s: State, now: int) {
    p.coolDownSecs > 0 && (s.lastBreak.At? ==> now - s.lastBreak.time > p.coolDownSecs * SECOND)
  }

  predicate LossBreached(p: Policy, s: State) {
    p.dailyLossLimit > 0.0 && s.dailyLoss >= p.dailyLossLimit
  }

  ghost predicate MarketBreached(p: Policy, s: State) {
    exists k :: k in s.positions && OverPerMarket(p, s.positions[k])
  }

  ghost predicate TotalBreached(p: Policy, s: State) {
    OverTotal(p, TotalAbs(s.positions))
  }

  /** The limit that a reason stands for is breached; errors and manual halts are
      transient and stand for none. */
  ghost predicate LimitBreached(p: Policy, s: State, r: Reason) {
    match r
    case DailyLossLimit => LossBreached(p, s)
    case PositionPerMarket => MarketBreached(p, s)
    case TotalPosition => TotalBreached(p, s)
    case _ => false
  }

  /** The state after an event and what the call returns (for Halt, Reset,
      RecordSuccess and Status, which return no verdict: false). */
  ghost function Step(p: Policy, s: State, e: Event): (State, bool) {
    match e.op
    case RecordError =>
      var c := CheckDailyReset(p, s, e.now);
      var c := c.(errors := c.errors + 1);
      if c.errors >= p.maxErrors then (Trip(c, ConsecutiveErrors, e.now), true) else (c, false)
    case RecordSuccess => (s.(errors := 0), false)
    case RecordLoss(amount) =>
      var c := CheckDailyReset(p, s, e.now);
      var c := c.(dailyLoss := c.dailyLoss + ClampNonNegative(amount));
      if c.dailyLoss >= p.dailyLossLimit then (Trip(c, DailyLossLimit, e.now), true) else (c, false)
    case RecordPosition(token, size) =>
      var c := s.(positions := s.positions[token := size]);
      if OverPerMarket(p, size) then (Trip(c, PositionPerMarket, e.now), true)
      else if OverTotal(p, TotalAbs(c.positions)) then (Trip(c, TotalPosition, e.now), true)
      else (c, false)
    case Halt => (Trip(s, ManualHalt, e.now), false)
    case Status => (CheckDailyReset(p, s, e.now), false)
    case CanProceed =>
      var c := CheckDailyReset(p, s, e.now);
      if !c.halted then (c, true)
      else if CooledDown(p, c, e.now) && !LimitBreached(p, c, c.reason)
      then (c.(halted := false, errors := 0, reason := ConsecutiveErrors), true)
      else (c, false)
    case Reset => (FRESH, false)
  }

  // ----- runs ----------------------------------------------------------------------------

  /** The state after the first n events, starting from a new breaker. */
  ghost function After(p: Policy, es: seq<Event>, n: nat): State
    requires n <= |es|
  {
    if n == 0 then FRESH else Step(p, After(p, es, n - 1), es[n - 1]).0
  }

  ghost function Verdict(p: Policy, es: seq<Event>, k: nat): bool
    requires k < |es|
  {
    Step(p, After(p, es, k), es[k]).1
  }

  ghost predicate Monotone(es: seq<Event>) {
    forall i, j :: 0 <= i < j < |es| ==> es[i].now <= es[j].now
  }

  // ----- limits hold whenever the breaker is running -----------------------------------------

  /** Every limit that is switched on (positive) is respected. */
  ghost predicate Within(p: Policy, s: State) {
    && (p.maxErrors > 0 ==> s.errors < p.maxErrors)
    && !LossBreached(p, s) && !MarketBreached(p, s) && !TotalBreached(p, s)
  }

  /** The one way in which a running breaker can get over a limit: the cooldown has
      passed and the recorded reason's limit is respected, while another limit --
      whose trip was overwritten -- is still breached. */
  ghost predicate FailsOpen(p: Policy, s: State, e: Event) {
    var c := CheckDailyReset(p, s, e.now);
    && e.op == CanProceed && c.halted && CooledDown(p, c, e.now)
    && !LimitBreached(p, c, c.reason)
    && (LossBreached(p, c) || MarketBreached(p, c) || TotalBreached(p, c))
  }

  ghost predicate SafeUpTo(p: Policy, es: seq<Event>, n: nat)
    requires n <= |es|
  {
    forall i :: 0 <= i <= n && !After(p, es, i).halted ==> Within(p, After(p, es, i))
  }

  ghost predicate NeverFailsOpen(p: Policy, es: seq<Event>, n: nat)
    requires n <= |es|
  {
    forall i :: 0 <= i < n ==> !FailsOpen(p, After(p, es, i), es[i])
  }

  lemma FreshIsSafe(p: Policy)
    ensures Within(p, FRESH)
  {
    var sizes := map k | k in FRESH.positions :: Abs(FRESH.positions[k]);
    assert |sizes| == 0;
    assert Sum(sizes) == 0.0;
  }

  lemma SafeStep(p: Policy, s: State, e: Event)
    requires !s.halted ==> Within(p, s)
    ensures var s' := Step(p, s, e).0;
            && (!s'.halted ==> (Within(p, s') <==> !FailsOpen(p, s, e)))
            && (FailsOpen(p, s, e) ==> !s'.halted)
  {
    if e.op == Reset {
      FreshIsSafe(p);
    }
  }

  /** A run respects every positive limit whenever the breaker is running, if and
      only if no call of CanProceed in it fails open. */
  lemma {:induction false} SafeIffNeverFailsOpen(p: Policy, es: seq<Event>, n: nat)
    requires n <= |es|
    ensures SafeUpTo(p, es, n) <==> NeverFailsOpen(p, es, n)
  {
    hide Within, FailsOpen, Step;
    if n == 0 {
      FreshIsSafe(p);
    } else {
      SafeIffNeverFailsOpen(p, es, n - 1);
      assert NeverFailsOpen(p, es, n) <==>
             NeverFailsOpen(p, es, n - 1) && !FailsOpen(p, After(p, es, n - 1), es[n - 1]);
      if SafeUpTo(p, es, n - 1) {
        assert !After(p, es, n - 1).halted ==> Within(p, After(p, es, n - 1));
        SafeStep(p, After(p, es, n - 1), es[n - 1]);
        assert SafeUpTo(p, es, n) <==> !After(p, es, n).halted ==> Within(p, After(p, es, n));
      }
    }
  }

  /** A trip for another reason is recorded over a limit that is still breached. */
  ghost predicate Masks(p: Policy, s: State, s': State) {
    s.halted && s'.halted && s.reason != s'.reason && LimitBreached(p, s', s.reason)
  }

  /** While halted, only the recorded reason's limit may be breached -- except that a
      per-market trip returns early, so the total may be over too, but then some
      market still is. */
  ghost predicate OnlyReasonBreached(p: Policy, s: State) {
    && (!s.halted ==> Within(p, s))
    && (s.halted ==>
          && (LossBreached(p, s) ==> s.reason == DailyLossLimit)
          && (MarketBreached(p, s) ==> s.reason == PositionPerMarket)
          && (TotalBreached(p, s) ==> s.reason == TotalPosition || (s.reason == PositionPerMarket && MarketBreached(p, s))))
  }

  lemma PositionStep(p: Policy, s: State, e: Event)
    requires OnlyReasonBreached(p, s) && !Masks(p, s, Step(p, s, e).0) && e.op.RecordPosition?
    ensures OnlyReasonBreached(p, Step(p, s, e).0)
  {
    hide TotalAbs;
    var s' := Step(p, s, e).0;
    assert MarketBreached(p, s') && !OverPerMarket(p, e.op.size) ==> MarketBreached(p, s);
    assert OverPerMarket(p, e.op.size) ==> s'.positions[e.op.token] == e.op.size && MarketBreached(p, s');
    assert !OverPerMarket(p, e.op.size) && !TotalBreached(p, s') ==> s'.halted == s.halted && s'.reason == s.reason;
  }

  lemma SamePositions(p: Policy, s: State, s': State)
    requires s.positions == s'.positions
    ensures MarketBreached(p, s) <==> MarketBreached(p, s')
    ensures TotalBreached(p, s) <==> TotalBreached(p, s')
  {}

  lemma UnmaskedStep(p: Policy, s: State, e: Event)
    requires OnlyReasonBreached(p, s) && !Masks(p, s, Step(p, s, e).0)
    ensures OnlyReasonBreached(p, Step(p, s, e).0)
  {
    var s' := Step(p, s, e).0;
    if e.op.RecordPosition? {
      PositionStep(p, s, e);
    } else if e.op == Reset {
      FreshIsSafe(p);
    } else {
      SamePositions(p, s, s');
      SamePositions(p, s, CheckDailyReset(p, s, e.now));
      hide MarketBreached, TotalBreached, OverTotal, OverPerMarket, CooledDown, ShouldResetDailyLoss;
    }
  }

  /** Over every run in which no trip is recorded over a different reason whose limit
      is still breached -- in particular, over every run in which no halted episode is
      re-tripped for a different reason -- all positive limits hold whenever the
      breaker is running. */
  lemma {:induction false} UnmaskedRunsAreSafe(p: Policy, es: seq<Event>, n: nat)
    requires n <= |es|
    requires forall i :: 0 <= i < n ==> !Masks(p, After(p, es, i), After(p, es, i + 1))
    ensures OnlyReasonBreached(p, After(p, es, n)) && SafeUpTo(p, es, n)
  {
    if n == 0 {
      FreshIsSafe(p);
    } else {
      hide Masks, Step, Within, LossBreached, MarketBreached, TotalBreached;
      UnmaskedRunsAreSafe(p, es, n - 1);
      assert !Masks(p, After(p, es, n - 1), After(p, es, n - 1 + 1));
      UnmaskedStep(p, After(p, es, n - 1), es[n - 1]);
    }
  }

  /** What that means for the account: while the breaker runs, no size is further from
      zero than its limit, long or short, and all of them together are within theirs. */
  lemma RunningAccountsAreWithinLimits(p: Policy, es: seq<Event>, n: nat, token: string)
    requires n <= |es| && !After(p, es, n).halted
    requires forall i :: 0 <= i < n ==> !Masks(p, After(p, es, i), After(p, es, i + 1))
    ensures p.maxPerMarket > 0.0 ==>
      match LatestSize(es, token, n) { case Tracked(x) => -p.maxPerMarket <= x <= p.maxPerMarket case Untracked => true }
    ensures var m := After(p, es, n).positions;
            p.maxTotal > 0.0 ==> Sum(map k | k in m :: if m[k] < 0.0 then -m[k] else m[k]) <= p.maxTotal
    ensures p.dailyLossLimit > 0.0 ==> LossesIn(es, ClearedFrom(p, es, n), n) < p.dailyLossLimit
    ensures p.maxErrors > 0 ==> ErrorsInARow(p, es, n) < p.maxErrors
  {
    UnmaskedRunsAreSafe(p, es, n);
    PositionsAreLatest(p, es, token, n);
    DailyLossIsSum(p, es, n);
    ErrorsTripAtTheLimit(p, es, n);
    hide After, Step, LatestSize, Masks;
    var m := After(p, es, n).positions;
    assert token in m ==> !OverPerMarket(p, m[token]);
    SumOfSizes(m);
  }

  lemma SumOfSizes(m: map<string, real>)
    ensures TotalAbs(m) == Sum(map k | k in m :: if m[k] < 0.0 then -m[k] else m[k])
  {
    assert (map k | k in m :: Abs(m[k])) == map k | k in m :: if m[k] < 0.0 then -m[k] else m[k];
  }

  /** When a position trips the breaker: for its market if it exceeds that limit long or
      short, and otherwise for the total of all sizes without their signs. */
  lemma PositionTripsIff(p: Policy, s: State, token: string, size: real, now: int)
    ensures var (t, tripped) := Step(p, s, Event(RecordPosition(token, size), now));
            var m := s.positions[token := size];
            var tooLarge := p.maxPerMarket > 0.0 && (size > p.maxPerMarket || -size > p.maxPerMarket);
            var tooMuch := p.maxTotal > 0.0 && Sum(map k | k in m :: if m[k] < 0.0 then -m[k] else m[k]) > p.maxTotal;
            && (tripped <==> tooLarge || tooMuch)
            && t == if tripped then s.(positions := m, halted := true, lastBreak := At(now),
                                       reason := if tooLarge then PositionPerMarket else TotalPosition)
                    else s.(positions := m)
  {
    SumOfSizes(s.positions[token := size]);
    hide TotalAbs;
  }

  /** A short position counts like the long one of the same size, whatever else is held. */
  lemma ShortCountsLikeLong(p: Policy, s: State, token: string, size: real, now: int)
    ensures var (t, tripped) := Step(p, s, Event(RecordPosition(token, size), now));
            var (t', tripped') := Step(p, s, Event(RecordPosition(token, -size), now));
            tripped == tripped' && t' == t.(positions := t'.positions)
  {
    var m, m' := s.positions[token := size], s.positions[token := -size];
    assert (map k | k in m :: Abs(m[k])) == map k | k in m' :: Abs(m'[k]);
    assert TotalAbs(m) == TotalAbs(m');
    hide TotalAbs;
  }

  /** Without that hypothesis the breaker can fail open: a manual halt is recorded
      over a daily loss at twice its limit, and clears after the cooldown. */
  lemma HaltMasksLoss(p: Policy) returns (es: seq<Event>)
    requires p.dailyLossLimit > 0.0 && 0 < p.coolDownSecs < 86399
    ensures |es| == 3 && Monotone(es)
    ensures Verdict(p, es, 2) && !After(p, es, 3).halted
    ensures After(p, es, 3).dailyLoss == 2.0 * p.dailyLossLimit
  {
    es := [Event(RecordLoss(2.0 * p.dailyLossLimit), 0), Event(Halt, 0), Event(CanProceed, (p.coolDownSecs + 1) * SECOND)];
    var tripped := State(0, 2.0 * p.dailyLossLimit, At(0), At(0), true, DailyLossLimit, map[]);
    assert After(p, es, 0) == FRESH;
    assert Step(p, FRESH, es[0]).0 == tripped;
    assert Step(p, tripped, es[1]).0 == tripped.(reason := ManualHalt);
    assert Step(p, tripped.(reason := ManualHalt), es[2]) == (tripped.(halted := false, reason := ConsecutiveErrors), true) by {
      assert DayOf((p.coolDownSecs + 1) * SECOND) == 0;
    }
    hide Step;
    assert After(p, es, 1) == tripped;
    assert After(p, es, 2) == tripped.(reason := ManualHalt);
  }

  /** And so can any breaker that is halted for a transient reason or a daily loss
      while a position limit is breached: waiting for the end of a later day, by which
      time the loss has rolled over and the cooldown has passed, resumes it. */
  lemma MaskedPositionFailsOpen(p: Policy, s: State) returns (e: Event)
    requires s.halted && s.reason != PositionPerMarket && s.reason != TotalPosition
    requires MarketBreached(p, s) || TotalBreached(p, s)
    requires p.coolDownSecs > 0 && p.resetHour <= 23
    requires p.dailyLossLimit > 0.0 && s.reason == DailyLossLimit ==> s.lossReset.At?
    ensures FailsOpen(p, s, e) && Step(p, s, e).1
    ensures s.lastBreak.At? ==> s.lastBreak.time < e.now
  {
    var a := if s.lastBreak.At? then s.lastBreak.time else 0;
    var b := if s.lossReset.At? then s.lossReset.time else 0;
    var later := (if a > b then a else b) + p.coolDownSecs * SECOND;
    e := Event(CanProceed, (DayOf(later) + 2) * DAY - 1);
    EndOfLaterDay(b, later);
    var c := CheckDailyReset(p, s, e.now);
    assert c.positions == s.positions;
  }

  lemma EndOfLaterDay(b: int, later: int)
    requires b <= later
    ensures var t := (DayOf(later) + 2) * DAY - 1;
            HourOf(t) == 23 && DayOf(t) > DayOf(b) && t > later
  {
    var t := (DayOf(later) + 2) * DAY - 1;
    assert t == (DayOf(later) + 1) * DAY + (DAY - 1);
    assert DayOf(t) == DayOf(later) + 1 && t % DAY == DAY - 1;
  }

  // ----- the daily loss and its rollover ---------------------------------------------------

  predicate Checks(op: Op) {
    op.RecordError? || op.RecordLoss? || op.Status? || op.CanProceed?
  }

  /** Event k rolls the daily loss over. */
  ghost predicate RolledAt(p: Policy, es: seq<Event>, k: nat)
    requires k < |es|
  {
    Checks(es[k].op) && RollsOver(p, After(p, es, k), es[k].now)
  }

  /** The first event that the daily loss after n events still remembers: the latest
      rollover, or the one after the latest Reset, or the beginning. */
  ghost function ClearedFrom(p: Policy, es: seq<Event>, n: nat): (k: nat)
    requires n <= |es|
    ensures k <= n
  {
    if n == 0 then 0
    else if es[n - 1].op == Reset then n
    else if RolledAt(p, es, n - 1) then n - 1
    else ClearedFrom(p, es, n - 1)
  }

  /** The losses recorded by events j, ..., n-1, negative amounts counting as zero. */
  function LossesIn(es: seq<Event>, j: nat, n: nat): real
    requires j <= n <= |es|
  {
    if j == n then 0.0 else
    LossesIn(es, j, n - 1) + match es[n - 1].op { case RecordLoss(a) => if a > 0.0 then a else 0.0 case _ => 0.0 }
  }

  /** The daily loss is exactly what was lost since the latest rollover or Reset, and
      RecordLoss trips exactly when that reaches the limit. */
  lemma {:induction false} DailyLossIsSum(p: Policy, es: seq<Event>, n: nat)
    requires n <= |es|
    ensures After(p, es, n).dailyLoss == LossesIn(es, ClearedFrom(p, es, n), n)
    ensures n > 0 && es[n - 1].op.RecordLoss? ==>
      (Verdict(p, es, n - 1) <==> LossesIn(es, ClearedFrom(p, es, n), n) >= p.dailyLossLimit)
  {
    if n > 0 {
      DailyLossIsSum(p, es, n - 1);
      hide TotalAbs, OverTotal, OverPerMarket, CooledDown, LimitBreached, ShouldResetDailyLoss;
      LossStep(p, After(p, es, n - 1), es[n - 1]);
      hide Step, RollsOver;
      if RolledAt(p, es, n - 1) {
        assert LossesIn(es, n - 1, n - 1) == 0.0;
      }
    }
  }

  /** What one event does to the daily loss and its reset time. */
  lemma LossStep(p: Policy, s: State, e: Event)
    ensures var s' := Step(p, s, e).0;
            var rolled := Checks(e.op) && RollsOver(p, s, e.now);
            var added := match e.op { case RecordLoss(a) => ClampNonNegative(a) case _ => 0.0 };
            && (e.op != Reset ==> s'.dailyLoss == (if rolled then 0.0 else s.dailyLoss) + added)
            && (e.op == Reset ==> s'.dailyLoss == 0.0 && s'.lossReset == Never)
            && (rolled ==> s'.lossReset == At(e.now))
            && (!rolled && e.op != Reset ==> s'.lossReset == s.lossReset || (s.lossReset == Never && s'.lossReset == At(e.now)))
            && (Checks(e.op) && p.dailyLossLimit > 0.0 ==> s'.lossReset.At?)
            && (p.dailyLossLimit <= 0.0 ==> !rolled)
            && (e.op.RecordLoss? ==> (Step(p, s, e).1 <==> s'.dailyLoss >= p.dailyLossLimit))
  {
    hide TotalAbs, OverTotal, OverPerMarket, LimitBreached, CooledDown, ShouldResetDailyLoss;
  }

  ghost predicate NoResetIn(es: seq<Event>, i: nat, n: nat) {
    forall k :: i <= k < n && k < |es| ==> es[k].op != Reset
  }

  /** The reset time never lies in the future, nor before a rollover that no Reset
      has wiped out. */
  lemma {:induction false} ResetTimeBounds(p: Policy, es: seq<Event>, i: nat, n: nat)
    requires i <= n <= |es| && Monotone(es) && NoResetIn(es, i, n)
    ensures var r := After(p, es, n).lossReset;
            && (r.At? ==> n > 0 && r.time <= es[n - 1].now)
            && (i < n && RolledAt(p, es, i) ==> r.At? && es[i].now <= r.time)
    decreases n
  {
    if n > 0 {
      ResetTimeBounds(p, es, if i == n then n - 1 else i, n - 1);
      LossStep(p, After(p, es, n - 1), es[n - 1]);
      hide Step, RollsOver;
    }
  }

  /** Rollovers that no Reset separates happen on strictly increasing UTC days, and
      each of them at or after the reset hour. */
  lemma RolloversOnLaterDays(p: Policy, es: seq<Event>, i: nat, j: nat)
    requires i < j < |es| && Monotone(es) && NoResetIn(es, i, j)
    requires RolledAt(p, es, i) && RolledAt(p, es, j)
    ensures DayOf(es[i].now) < DayOf(es[j].now)
    ensures HourOf(es[i].now) >= p.resetHour && HourOf(es[j].now) >= p.resetHour
  {
    ResetTimeBounds(p, es, i, j);
    var r := After(p, es, j).lossReset.time;
    hide After;
    DaysAreOrdered(es[i].now, r);
    DaysAreOrdered(r, es[j].now);
  }

  lemma DaysAreOrdered(a: int, b: int)
    requires a <= b
    ensures DayOf(a) <= DayOf(b)
  {}

  /** The reset time is at or before every loss that is still counted. */
  lemma {:induction false} CountedLossesFollowReset(p: Policy, es: seq<Event>, n: nat, k: nat)
    requires n <= |es| && Monotone(es) && p.dailyLossLimit > 0.0
    requires ClearedFrom(p, es, n) <= k < n && es[k].op.RecordLoss?
    ensures After(p, es, n).lossReset.At? && After(p, es, n).lossReset.time <= es[k].now
  {
    LossStep(p, After(p, es, n - 1), es[n - 1]);
    hide Step, RollsOver;
    if k < n - 1 {
      CountedLossesFollowReset(p, es, n - 1, k);
    } else {
      ResetTimeBounds(p, es, n, n);
    }
  }

  /** At or after the reset hour, any call that checks the rollover leaves only losses
      of the current UTC day in the daily loss. */
  lemma OnlyTodayCounts(p: Policy, es: seq<Event>, n: nat, k: nat)
    requires 0 < n <= |es| && Monotone(es) && p.dailyLossLimit > 0.0
    requires Checks(es[n - 1].op) && HourOf(es[n - 1].now) >= p.resetHour
    requires ClearedFrom(p, es, n) <= k < n && es[k].op.RecordLoss?
    ensures DayOf(es[k].now) == DayOf(es[n - 1].now)
  {
    var now := es[n - 1].now;
    CountedLossesFollowReset(p, es, n, k);
    ResetTimeBounds(p, es, n, n);
    LossStep(p, After(p, es, n - 1), es[n - 1]);
    var r := After(p, es, n).lossReset.time;
    assert DayOf(r) == DayOf(now) by {
      hide Step, LimitBreached, TotalAbs;
    }
    DaysAreOrdered(r, es[k].now);
    DaysAreOrdered(es[k].now, now);
  }

  // ----- the cooldown ------------------------------------------------------------------------

  /** Event k trips the breaker. */
  ghost predicate TripsAt(p: Policy, es: seq<Event>, k: nat)
    requires k < |es|
  {
    match es[k].op
    case Halt => true
    case RecordError => Verdict(p, es, k)
    case RecordLoss(_) => Verdict(p, es, k)
    case RecordPosition(_, _) => Verdict(p, es, k)
    case _ => false
  }

  /** The time of the latest trip among the first n events, forgotten by Reset. */
  ghost function LatestTrip(p: Policy, es: seq<Event>, n: nat): Moment
    requires n <= |es|
  {
    if n == 0 then Never
    else if es[n - 1].op == Reset then Never
    else if TripsAt(p, es, n - 1) then At(es[n - 1].now)
    else LatestTrip(p, es, n - 1)
  }

  ghost predicate Cooled(p: Policy, trip: Moment, now: int) {
    trip.At? ==> p.coolDownSecs > 0 && now - trip.time > p.coolDownSecs * SECOND
  }

  /** What one event does to the halt and to the time of the latest trip. */
  lemma HaltStep(p: Policy, s: State, e: Event)
    ensures var (s', v) := Step(p, s, e);
            var trips := e.op.Halt? || (v && !e.op.CanProceed?);
            && (trips ==> s'.halted && s'.lastBreak == At(e.now) && e.op != Reset)
            && (e.op == Reset ==> !s'.halted && !v)
            && (!trips && e.op != Reset ==>
                  && (s'.halted ==> s.halted && s'.lastBreak == s.lastBreak)
                  && (s.halted && !s'.halted ==> e.op == CanProceed && CooledDown(p, s, e.now)))
            && (e.op == CanProceed ==> v == !s'.halted)
  {
    hide TotalAbs, OverTotal, OverPerMarket, LimitBreached, ShouldResetDailyLoss;
  }

  lemma {:induction false} HaltedSinceLatestTrip(p: Policy, es: seq<Event>, n: nat)
    requires n <= |es| && Monotone(es)
    ensures var s := After(p, es, n);
            && (s.halted ==> LatestTrip(p, es, n).At? && s.lastBreak == LatestTrip(p, es, n))
            && (!s.halted && n > 0 ==> Cooled(p, LatestTrip(p, es, n), es[n - 1].now))
            && (n == 0 ==> LatestTrip(p, es, n) == Never)
  {
    if n > 0 {
      HaltedSinceLatestTrip(p, es, n - 1);
      HaltStep(p, After(p, es, n - 1), es[n - 1]);
      hide Step;
    }
  }

  /** After any trip CanProceed answers false until strictly more than the cooldown
      has passed since the latest trip -- forever, if the cooldown is not positive --
      unless Reset intervenes. */
  lemma NoTradingBeforeCooldown(p: Policy, es: seq<Event>, n: nat)
    requires n < |es| && Monotone(es) && es[n].op == CanProceed
    ensures Verdict(p, es, n) ==> Cooled(p, LatestTrip(p, es, n), es[n].now)
    ensures LatestTrip(p, es, n).At? && p.coolDownSecs <= 0 ==> !Verdict(p, es, n)
  {
    HaltedSinceLatestTrip(p, es, n);
    HaltStep(p, After(p, es, n), es[n]);
    hide Step, After, LatestTrip;
  }

  /** The reason of the latest trip among the first n events, for which the breaker halted. */
  ghost function LatestReason(p: Policy, es: seq<Event>, n: nat): Reason
    requires n <= |es|
  {
    if n == 0 then ConsecutiveErrors
    else if !TripsAt(p, es, n - 1) then LatestReason(p, es, n - 1)
    else match es[n - 1].op
      case RecordError => ConsecutiveErrors
      case RecordLoss(_) => DailyLossLimit
      case RecordPosition(_, size) =>
        if p.maxPerMarket > 0.0 && (size > p.maxPerMarket || -size > p.maxPerMarket) then PositionPerMarket else TotalPosition
      case _ => ManualHalt
  }

  /** The limit of that reason is respected again: losses and sizes as they then are. */
  ghost predicate Recovered(p: Policy, es: seq<Event>, n: nat, why: Reason)
    requires n <= |es|
  {
    var m := After(p, es, n).positions;
    match why
    case DailyLossLimit => p.dailyLossLimit > 0.0 ==> LossesIn(es, ClearedFrom(p, es, n), n) < p.dailyLossLimit
    case PositionPerMarket => p.maxPerMarket > 0.0 ==> forall k :: k in m ==> -p.maxPerMarket <= m[k] <= p.maxPerMarket
    case TotalPosition => p.maxTotal > 0.0 ==> Sum(map k | k in m :: if m[k] < 0.0 then -m[k] else m[k]) <= p.maxTotal
    case _ => true
  }

  lemma {:induction false} HaltedForLatestReason(p: Policy, es: seq<Event>, n: nat)
    requires n <= |es|
    ensures After(p, es, n).halted ==> After(p, es, n).reason == LatestReason(p, es, n)
  {
    if n > 0 {
      HaltedForLatestReason(p, es, n - 1);
      ReasonStep(p, After(p, es, n - 1), es[n - 1]);
      hide Step;
    }
  }

  lemma ReasonStep(p: Policy, s: State, e: Event)
    ensures var (s', v) := Step(p, s, e);
            var trips := e.op.Halt? || (v && !e.op.CanProceed?);
            && (!trips && s'.halted ==> s.halted && s'.reason == s.reason)
            && (trips ==> s'.reason == match e.op {
                  case RecordError => ConsecutiveErrors
                  case RecordLoss(_) => DailyLossLimit
                  case RecordPosition(_, size) =>
                    if p.maxPerMarket > 0.0 && (size > p.maxPerMarket || -size > p.maxPerMarket) then PositionPerMarket
                    else TotalPosition
                  case _ => ManualHalt })
  {
    if e.op.RecordPosition? {
      PositionTripsIff(p, s, e.op.token, e.op.size, e.now);
    }
    hide TotalAbs, OverTotal, LimitBreached, CooledDown, ShouldResetDailyLoss;
  }

  /** A halted breaker resumes exactly when the cooldown since the latest trip has passed
      and the limit of that trip's reason is respected again -- no other limit is asked. */
  lemma ResumesIff(p: Policy, es: seq<Event>, n: nat)
    requires n < |es| && Monotone(es) && es[n].op == CanProceed && After(p, es, n).halted
    ensures LatestTrip(p, es, n).At?
    ensures Verdict(p, es, n) <==>
            && p.coolDownSecs > 0 && es[n].now - LatestTrip(p, es, n).time > p.coolDownSecs * SECOND
            && Recovered(p, es, n + 1, LatestReason(p, es, n))
    ensures var t := After(p, es, n + 1);
            if Verdict(p, es, n) then !t.halted && t.errors == 0 && t.reason == ConsecutiveErrors
            else t.halted && t.reason == LatestReason(p, es, n) && t.lastBreak == LatestTrip(p, es, n)
  {
    HaltedSinceLatestTrip(p, es, n);
    HaltedForLatestReason(p, es, n);
    DailyLossIsSum(p, es, n + 1);
    SumOfSizes(After(p, es, n + 1).positions);
    var s, t := After(p, es, n), After(p, es, n + 1);
    assert t == Step(p, s, es[n]).0;
    ResumeStep(p, s, es[n]);
    hide Step, After, LatestTrip, LatestReason, TotalAbs;
  }

  lemma ResumeStep(p: Policy, s: State, e: Event)
    requires e.op == CanProceed && s.halted
    ensures var (t, v) := Step(p, s, e);
            && t.positions == s.positions
            && (v <==> CooledDown(p, s, e.now) && !LimitBreached(p, t, s.reason))
            && (if v then !t.halted && t.errors == 0 && t.reason == ConsecutiveErrors
                else t.halted && t.reason == s.reason && t.lastBreak == s.lastBreak)
  {
    var c := CheckDailyReset(p, s, e.now);
    SamePositions(p, c, Step(p, s, e).0);
    hide TotalAbs, OverTotal, OverPerMarket, CooledDown, ShouldResetDailyLoss;
  }

  // ----- errors and positions ------------------------------------------------------------------

  /** Errors recorded since the latest success, Reset or automatic resume. */
  ghost function ErrorsInARow(p: Policy, es: seq<Event>, n: nat): nat
    requires n <= |es|
  {
    if n == 0 then 0 else
    match es[n - 1].op
    case RecordError => ErrorsInARow(p, es, n - 1) + 1
    case RecordSuccess => 0
    case Reset => 0
    case CanProceed =>
      if After(p, es, n - 1).halted && Verdict(p, es, n - 1) then 0 else ErrorsInARow(p, es, n - 1)
    case _ => ErrorsInARow(p, es, n - 1)
  }

  /** RecordError trips exactly when that count reaches the limit. */
  lemma {:induction false} ErrorsTripAtTheLimit(p: Policy, es: seq<Event>, n: nat)
    requires n <= |es|
    ensures After(p, es, n).errors == ErrorsInARow(p, es, n)
    ensures n > 0 && es[n - 1].op == RecordError ==>
      (Verdict(p, es, n - 1) <==> ErrorsInARow(p, es, n) >= p.maxErrors)
  {
    hide Step;
    if n > 0 {
      ErrorsTripAtTheLimit(p, es, n - 1);
      ErrorsStep(p, After(p, es, n - 1), es[n - 1]);
    }
  }

  datatype Size = Untracked | Tracked(size: real)

  /** The size last recorded for a token since the latest Reset. */
  function LatestSize(es: seq<Event>, token: string, n: nat): Size
    requires n <= |es|
  {
    if n == 0 then Untracked else
    match es[n - 1].op
    case RecordPosition(t, size) => if t == token then Tracked(size) else LatestSize(es, token, n - 1)
    case Reset => Untracked
    case _ => LatestSize(es, token, n - 1)
  }

  lemma SizesStep(p: Policy, s: State, e: Event)
    ensures Step(p, s, e).0.positions ==
      match e.op { case RecordPosition(t, size) => s.positions[t := size] case Reset => map[] case _ => s.positions }
  {
    hide TotalAbs, OverTotal, OverPerMarket, LimitBreached, CooledDown, ShouldResetDailyLoss;
  }

  lemma ErrorsStep(p: Policy, s: State, e: Event)
    ensures var (s', v) := Step(p, s, e);
            && s'.errors == (match e.op {
                 case RecordError => s.errors + 1
                 case RecordSuccess => 0
                 case Reset => 0
                 case CanProceed => if s.halted && v then 0 else s.errors
                 case _ => s.errors })
            && (e.op == RecordError ==> (v <==> s'.errors >= p.maxErrors))
  {
    hide TotalAbs, OverTotal, OverPerMarket, LimitBreached, CooledDown, ShouldResetDailyLoss;
  }

  /** The position map holds exactly the latest sizes; nothing else -- no trip, no
      resume, no rollover -- touches it. */
  lemma {:induction false} PositionsAreLatest(p: Policy, es: seq<Event>, token: string, n: nat)
    requires n <= |es|
    ensures var m := After(p, es, n).positions;
            LatestSize(es, token, n) == if token in m then Tracked(m[token]) else Untracked
  {
    hide Step;
    if n > 0 {
      PositionsAreLatest(p, es, token, n - 1);
      SizesStep(p, After(p, es, n - 1), es[n - 1]);
    }
  }

  // ----- the object -----------------------------------------------------------------------------

  datatype Snapshot = Snapshot(halted: bool, reason: Reason, lastBreak: Moment, errors: int, dailyLoss: real,
                               total: real, positions: map<string, real>, coolDownReady: bool)

  class Breaker {
    const policy: Policy
    var consecutiveErrs: int
    var dailyLoss: real
    var dailyLossReset: Moment
    var lastBreak: Moment
    var halted: bool
    var tripReason: Reason
    var positions: map<string, real>

    ghost function View(): State
      reads this
    {
      State(consecutiveErrs, dailyLoss, dailyLossReset, lastBreak, halted, tripReason, positions)
    }

    constructor (policy: Policy)
      ensures View() == FRESH && this.policy == policy
    {
      this.policy := policy;
      consecutiveErrs, dailyLoss, dailyLossReset, lastBreak := 0, 0.0, Never, Never;
      halted, tripReason, positions := false, ConsecutiveErrors, map[];
    }

    method CheckDailyResetLocked(now: int)
      modifies this
      ensures View() == CheckDailyReset(policy, old(View()), now)
    {
      if policy.dailyLossLimit <= 0.0 {
        return;
      }
      if dailyLossReset == Never {
        dailyLossReset := At(now);
        return;
      }
      if ShouldResetDailyLoss(now, dailyLossReset.time, policy.resetHour) {
        dailyLoss := 0.0;
        dailyLossReset := At(now);
      }
    }

    /** The total over the map, iterated in any order. */
    method ComputeTotalAbsPosition() returns (total: real)
      ensures total == TotalAbs(positions)
      ensures total == Sum(map k | k in positions :: if positions[k] < 0.0 then -positions[k] else positions[k])
    {
      SumOfSizes(positions);
      total := 0.0;
      ghost var sizes := map k | k in positions :: Abs(positions[k]);
      var rest := positions.Keys;
      assert sizes - (positions.Keys - rest) == sizes;
      while rest != {}
        invariant rest <= positions.Keys
        invariant total + Sum(sizes - (positions.Keys - rest)) == Sum(sizes)
        decreases rest
      {
        var k :| k in rest;
        SumWithout(sizes - (positions.Keys - rest), k);
        assert sizes - (positions.Keys - rest) - {k} == sizes - (positions.Keys - (rest - {k}));
        total := total + Abs(positions[k]);
        rest := rest - {k};
      }
      assert sizes - positions.Keys == map[];
    }

    method RecordError(now: int) returns (tripped: bool)
      modifies this
      ensures (View(), tripped) == Step(policy, old(View()), Event(Op.RecordError, now))
    {
      CheckDailyResetLocked(now);
      consecutiveErrs := consecutiveErrs + 1;
      if consecutiveErrs >= policy.maxErrors {
        halted, tripReason, lastBreak := true, ConsecutiveErrors, At(now);
        return true;
      }
      return false;
    }

    method RecordSuccess(now: int)
      modifies this
      ensures View() == Step(policy, old(View()), Event(Op.RecordSuccess, now)).0
    {
      consecutiveErrs := 0;
    }

    method RecordLoss(amount: real, now: int) returns (tripped: bool)
      modifies this
      ensures (View(), tripped) == Step(policy, old(View()), Event(Op.RecordLoss(amount), now))
    {
      CheckDailyResetLocked(now);
      dailyLoss := dailyLoss + ClampNonNegative(amount);
      if dailyLoss >= policy.dailyLossLimit {
        halted, tripReason, lastBreak := true, DailyLossLimit, At(now);
        return true;
      }
      return false;
    }

    method RecordPosition(token: string, size: real, now: int) returns (tripped: bool)
      modifies this
      ensures (View(), tripped) == Step(policy, old(View()), Event(Op.RecordPosition(token, size), now))
      ensures policy.maxPerMarket > 0.0 && (size > policy.maxPerMarket || -size > policy.maxPerMarket) ==>
        tripped && halted && tripReason == PositionPerMarket
      ensures policy.maxPerMarket > 0.0 && -policy.maxPerMarket <= size <= policy.maxPerMarket && tripped ==>
        tripReason == TotalPosition
    {
      positions := positions[token := size];
      var total := ComputeTotalAbsPosition();
      if OverPerMarket(policy, size) {
        halted, tripReason, lastBreak := true, PositionPerMarket, At(now);
        return true;
      }
      if OverTotal(policy, total) {
        halted, tripReason, lastBreak := true, TotalPosition, At(now);
        return true;
      }
      return false;
    }

    method Halt(now: int)
      modifies this
      ensures View() == Step(policy, old(View()), Event(Op.Halt, now)).0
    {
      halted, tripReason, lastBreak := true, ManualHalt, At(now);
    }

    method CanProceed(now: int) returns (ok: bool)
      modifies this
      ensures (View(), ok) == Step(policy, old(View()), Event(Op.CanProceed, now))
    {
      CheckDailyResetLocked(now);
      if halted {
        if policy.coolDownSecs > 0 {
          if lastBreak == Never || now - lastBreak.time > policy.coolDownSecs * SECOND {
            var active := TripConditionStillActiveLocked();
            if active {
              return false;
            }
            halted := false;
            consecutiveErrs := 0;
            tripReason := ConsecutiveErrors;
            return true;
          }
        }
        return false;
      }
      return true;
    }

    method TripConditionStillActiveLocked() returns (active: bool)
      ensures active == LimitBreached(policy, View(), tripReason)
    {
      match tripReason {
        case DailyLossLimit =>
          return policy.dailyLossLimit > 0.0 && dailyLoss >= policy.dailyLossLimit;
        case PositionPerMarket =>
          var rest := positions.Keys;
          while rest != {}
            invariant rest <= positions.Keys
            invariant forall k :: k in positions && k !in rest ==> !OverPerMarket(policy, positions[k])
            decreases rest
          {
            var k :| k in rest;
            if OverPerMarket(policy, positions[k]) {
              return true;
            }
            rest := rest - {k};
          }
          return false;
        case TotalPosition =>
          var total := ComputeTotalAbsPosition();
          return OverTotal(policy, total);
        case _ =>
          return false;
      }
    }

    method Reset(now: int)
      modifies this
      ensures View() == Step(policy, old(View()), Event(Op.Reset, now)).0
      ensures View() == State(0, 0.0, Never, Never, false, ConsecutiveErrors, map[])
    {
      halted, tripReason, consecutiveErrs, dailyLoss := false, ConsecutiveErrors, 0, 0.0;
      positions := map[];
      dailyLossReset, lastBreak := Never, Never;
    }

    /** The snapshot after the rollover check: the fields as they then are, the total,
        and whether the cooldown of a halted breaker has passed. */
    method Status(now: int) returns (status: Snapshot)
      modifies this
      ensures View() == Step(policy, old(View()), Event(Op.Status, now)).0
      ensures status.halted == halted && status.reason == tripReason && status.lastBreak == lastBreak
      ensures status.errors == consecutiveErrs && status.dailyLoss == dailyLoss && status.positions == positions
      ensures status.total == TotalAbs(positions)
      ensures status.coolDownReady == (halted && CooledDown(policy, View(), now))
    {
      CheckDailyResetLocked(now);
      var coolDownReady := false;
      if halted && policy.coolDownSecs > 0 {
        coolDownReady := lastBreak == Never || now - lastBreak.time > policy.coolDownSecs * SECOND;
      }
      var total := ComputeTotalAbsPosition();
      var copy: map<string, real> := map[];
      var rest := positions.Keys;
      while rest != {}
        invariant rest <= positions.Keys
        invariant copy == positions - rest
        decreases rest
      {
        var k :| k in rest;
        copy := copy[k := positions[k]];
        rest := rest - {k};
      }
      assert positions - rest == positions;
      status := Snapshot(halted, tripReason, lastBreak, consecutiveErrs, dailyLoss, total, copy, coolDownReady);
    }
  }
}
