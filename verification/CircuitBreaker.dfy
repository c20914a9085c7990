/** Circuit breaker of the HTTP transport. Admission and completion are separate
    lock-held steps, so requests interleave and may complete in another state than
    the one that admitted them. Times are nanoseconds. */
module CircuitBreaker {

  datatype Mode = Closed | Open | HalfOpen

  datatype Config = Config(maxFailures: int, resetTimeout: int, halfOpenMax: int) {
    ghost predicate Valid() {
      maxFailures > 0 && resetTimeout > 0 && halfOpenMax > 0
    }
  }

  const SECOND: int := 1_000_000_000

  /** Non-positive settings are replaced by the defaults. */
  function WithDefaults(c: Config): (d: Config)
    ensures d.Valid() && (c.Valid() ==> d == c)
    ensures c.maxFailures <= 0 && c.resetTimeout <= 0 && c.halfOpenMax <= 0 ==> d == Config(5, 60 * SECOND, 3)
    ensures (c.maxFailures > 0 ==> d.maxFailures == c.maxFailures) && (c.resetTimeout > 0 ==> d.resetTimeout == c.resetTimeout)
    ensures c.halfOpenMax > 0 ==> d.halfOpenMax == c.halfOpenMax
  {
    Config(if c.maxFailures <= 0 then 5 else c.maxFailures,
           if c.resetTimeout <= 0 then 60 * SECOND else c.resetTimeout,
           if c.halfOpenMax <= 0 then 3 else c.halfOpenMax)
  }

  datatype CB = CB(mode: Mode, failures: int, lastFail: int, reqs: int, successes: int)

  datatype Admission = Admitted | CircuitOpen | TooManyProbes

  const FRESH := CB(Closed, 0, 0, 0, 0)

  function Admit(c: Config, s: CB, now: int): (CB, Admission) {
    match s.mode
    case Closed => (s, Admitted)
    case Open =>
      if now - s.lastFail <= c.resetTimeout then (s, CircuitOpen)
      else Probe(c, s.(mode := HalfOpen, reqs := 0, successes := 0))
    case HalfOpen => Probe(c, s)
  }

  function Probe(c: Config, s: CB): (CB, Admission) {
    if s.reqs >= c.halfOpenMax then (s, TooManyProbes) else (s.(reqs := s.reqs + 1), Admitted)
  }

  function Complete(c: Config, s: CB, failed: bool, now: int): CB {
    if failed then OnFailure(c, s, now) else OnSuccess(c, s)
  }

  function OnFailure(c: Config, s: CB, now: int): CB {
    var t := s.(lastFail := now);
    match s.mode
    case Closed =>
      var t := t.(failures := s.failures + 1);
      if t.failures >= c.maxFailures then t.(mode := Open) else t
    case HalfOpen => t.(mode := Open, failures := c.maxFailures)
    case Open => t
  }

  function OnSuccess(c: Config, s: CB): CB {
    match s.mode
    case Closed => s.(failures := 0)
    case HalfOpen =>
      var t := s.(successes := s.successes + 1);
      if t.successes >= c.halfOpenMax then t.(mode := Closed, failures := 0) else t
    case Open => s
  }

  function ResetState(s: CB): CB {
    CB(Closed, 0, s.lastFail, 0, 0)
  }

  // ----- concurrent requests ------------------------------------------------------------

  /** What an unfinished request was told: admitted while closed, admitted as a probe
      of some half-open episode, or rejected but still to be recorded. */
  datatype Ticket = Ordinary | ProbeOf(episode: nat) | TurnedAway

  /** The breaker with the requests in flight and what has happened so far: probes
      admitted per episode, and the results (true: a counted failure) recorded since
      the breaker last closed and since it last went half-open. */
  datatype System = System(cb: CB, episode: nat, inFlight: multiset<Ticket>, probes: multiset<nat>,
                           sinceClosed: seq<bool>, sinceHalfOpen: seq<bool>)

  /** `Begin(_, true)` is a request of doWithHeaders, which also records a rejection
      as a result; `Begin(_, false)` is one of CallWithPredicate, which does not. */
  datatype Action = Begin(now: int, recordsRejection: bool) | Finish(ticket: Ticket, failed: bool, now: int) | ResetAll

  const START := System(FRESH, 0, multiset{}, multiset{}, [], [])

  predicate Enabled(s: System, a: Action) {
    a.Finish? ==> a.ticket in s.inFlight && (a.ticket == TurnedAway ==> a.failed)
  }

  /** What a request holds after admission; a rejection that is not recorded: nothing. */
  function Issued(mode: Mode, admission: Admission, episode: nat, recordsRejection: bool): multiset<Ticket> {
    if admission != Admitted then if recordsRejection then multiset{TurnedAway} else multiset{}
    else if mode == HalfOpen then multiset{ProbeOf(episode)}
    else multiset{Ordinary}
  }

  function BeginRequest(c: Config, s: System, now: int, recordsRejection: bool): System {
    var (cb, admission) := Admit(c, s.cb, now);
    var opensEpisode := s.cb.mode == Open && cb.mode == HalfOpen;
    var episode := if opensEpisode then s.episode + 1 else s.episode;
    System(cb, episode,
           s.inFlight + Issued(cb.mode, admission, episode, recordsRejection),
           if admission == Admitted && cb.mode == HalfOpen then s.probes + multiset{episode} else s.probes,
           s.sinceClosed,
           if opensEpisode then [] else s.sinceHalfOpen)
  }

  function FinishRequest(c: Config, s: System, ticket: Ticket, failed: bool, now: int): System {
    var cb := Complete(c, s.cb, failed, now);
    var closes := s.cb.mode != Closed && cb.mode == Closed;
    System(cb, s.episode, s.inFlight - multiset{ticket}, s.probes,
           if closes then [] else s.sinceClosed + [failed],
           s.sinceHalfOpen + [failed])
  }

  function Next(c: Config, s: System, a: Action): System {
    match a
    case Begin(now, recordsRejection) => BeginRequest(c, s, now, recordsRejection)
    case Finish(ticket, failed, now) => FinishRequest(c, s, ticket, failed, now)
    case ResetAll => s.(cb := ResetState(s.cb), sinceClosed := [])
  }

  /** trace[n] is the system after n actions. */
  ghost predicate IsRun(c: Config, acts: seq<Action>, trace: seq<System>) {
    && c.Valid() && |trace| == |acts| + 1 && trace[0] == START
    && forall k :: 0 <= k < |acts| ==> Enabled(trace[k], acts[k]) && trace[k + 1] == Next(c, trace[k], acts[k])
  }

  /** Length of the trailing run of counted failures. */
  function TrailingFailures(log: seq<bool>): nat {
    if log == [] || !log[|log| - 1] then 0 else 1 + TrailingFailures(log[..|log| - 1])
  }

  ghost predicate NoFailure(log: seq<bool>) {
    forall i :: 0 <= i < |log| ==> !log[i]
  }

  ghost predicate Inv(c: Config, s: System) {
    var cb := s.cb;
    && (cb.mode == Closed ==> 0 <= cb.failures == TrailingFailures(s.sinceClosed) < c.maxFailures)
    && (cb.mode != Closed ==> cb.failures == c.maxFailures)
    && (cb.mode == HalfOpen ==>
          && s.probes[s.episode] == cb.reqs <= c.halfOpenMax
          && 0 <= cb.successes == |s.sinceHalfOpen| < c.halfOpenMax
          && NoFailure(s.sinceHalfOpen)
          && cb.successes + s.inFlight[ProbeOf(s.episode)] >= cb.reqs)
    && (forall e :: s.probes[e] <= c.halfOpenMax)
    && (forall e :: e > s.episode ==> s.probes[e] == 0)
  }

  lemma BeginKeepsInv(c: Config, s: System, a: Action)
    requires c.Valid() && Inv(c, s) && a.Begin?
    ensures Inv(c, Next(c, s, a))
  {
    assert NoFailure([]);
    hide NoFailure, TrailingFailures;
    var s' := Next(c, s, a);
    if s'.cb.mode != HalfOpen {
      assert s'.probes == s.probes && s'.episode == s.episode;
    } else if s.cb.mode == Open {
      assert s'.probes[s'.episode] == 1 == s'.cb.reqs;
      assert s'.inFlight[ProbeOf(s'.episode)] >= 1;
    } else {
      assert s'.episode == s.episode && s'.sinceHalfOpen == s.sinceHalfOpen;
    }
  }

  lemma FinishKeepsInv(c: Config, s: System, a: Action)
    requires c.Valid() && Inv(c, s) && Enabled(s, a) && a.Finish?
    ensures Inv(c, Next(c, s, a))
  {
    TrailingGrows(s.sinceClosed, a.failed);
    hide TrailingFailures;
    var cb := s.cb;
    var s' := Next(c, s, a);
    if cb.mode == HalfOpen && s'.cb.mode == HalfOpen {
      assert s'.sinceHalfOpen == s.sinceHalfOpen + [false];
    }
  }

  lemma TrailingGrows(log: seq<bool>, failed: bool)
    ensures TrailingFailures(log + [failed]) == if failed then TrailingFailures(log) + 1 else 0
    ensures TrailingFailures([]) == 0
  {
    assert (log + [failed])[..|log|] == log;
  }

  lemma InvStep(c: Config, s: System, a: Action)
    requires c.Valid() && Inv(c, s) && Enabled(s, a)
    ensures Inv(c, Next(c, s, a))
  {
    match a {
      case Begin(_, _) => BeginKeepsInv(c, s, a);
      case Finish(_, _, _) => FinishKeepsInv(c, s, a);
      case ResetAll =>
    }
  }

  lemma {:induction false} InvHolds(c: Config, acts: seq<Action>, trace: seq<System>, n: nat)
    requires IsRun(c, acts, trace) && n <= |acts|
    ensures Inv(c, trace[n])
  {
    if n > 0 {
      InvHolds(c, acts, trace, n - 1);
      Follows(c, acts, trace, n - 1);
      InvStep(c, trace[n - 1], acts[n - 1]);
    }
  }

  lemma Follows(c: Config, acts: seq<Action>, trace: seq<System>, k: nat)
    requires IsRun(c, acts, trace) && k < |acts|
    ensures Enabled(trace[k], acts[k]) && trace[k + 1] == Next(c, trace[k], acts[k])
  {}

  /** However requests interleave, no half-open episode ever admits more than
      halfOpenMax probes. */
  lemma EpisodesAreBounded(c: Config, acts: seq<Action>, trace: seq<System>, n: nat, episode: nat)
    requires IsRun(c, acts, trace) && n <= |acts|
    ensures trace[n].probes[episode] <= c.halfOpenMax
  {
    InvHolds(c, acts, trace, n);
  }

  /** The breaker never sticks half-open: with none of the episode's probes in flight,
      the next request is admitted at whatever time it comes. */
  lemma NeverSticks(c: Config, acts: seq<Action>, trace: seq<System>, n: nat, now: int)
    requires IsRun(c, acts, trace) && n <= |acts|
    requires var s := trace[n]; s.cb.mode == HalfOpen && s.inFlight[ProbeOf(s.episode)] == 0
    ensures Admit(c, trace[n].cb, now).1 == Admitted
  {
    InvHolds(c, acts, trace, n);
  }

  /** Closed, `failures` is the number of counted failures in a row since the breaker
      last closed; open or half-open, it is maxFailures. */
  lemma FailuresCountTheTrailingRun(c: Config, acts: seq<Action>, trace: seq<System>, n: nat)
    requires IsRun(c, acts, trace) && n <= |acts|
    ensures var s := trace[n];
            s.cb.failures == if s.cb.mode == Closed then TrailingFailures(s.sinceClosed) else c.maxFailures
  {
    InvHolds(c, acts, trace, n);
  }

  /** A closed breaker opens exactly at the maxFailures-th counted failure in a row. */
  lemma OpensExactlyAtMaxFailures(c: Config, acts: seq<Action>, trace: seq<System>, n: nat)
    requires IsRun(c, acts, trace) && n < |acts| && trace[n].cb.mode == Closed
    ensures trace[n + 1].cb.mode == Open <==>
            acts[n].Finish? && TrailingFailures(trace[n].sinceClosed + [acts[n].failed]) == c.maxFailures
  {
    hide TrailingFailures, NoFailure;
    InvHolds(c, acts, trace, n);
    var s := trace[n];
    Follows(c, acts, trace, n);
    hide IsRun;
    TrailingGrows(s.sinceClosed, acts[n].Finish? && acts[n].failed);
  }

  /** A half-open breaker closes exactly when a success is recorded that makes
      halfOpenMax of them -- with no counted failure among them -- since it went
      half-open (or on Reset). */
  lemma ClosesExactlyAfterProbesSucceed(c: Config, acts: seq<Action>, trace: seq<System>, n: nat)
    requires IsRun(c, acts, trace) && n < |acts| && trace[n].cb.mode == HalfOpen
    ensures var log := trace[n].sinceHalfOpen;
            trace[n + 1].cb.mode == Closed <==>
              acts[n] == ResetAll ||
              (acts[n].Finish? && |log + [acts[n].failed]| == c.halfOpenMax && NoFailure(log + [acts[n].failed]))
  {
    InvHolds(c, acts, trace, n);
    Follows(c, acts, trace, n);
    hide TrailingFailures;
    if acts[n].Finish? {
      NoFailureGrows(trace[n].sinceHalfOpen, acts[n].failed);
    }
    hide NoFailure;
  }

  lemma NoFailureGrows(log: seq<bool>, failed: bool)
    ensures NoFailure(log + [failed]) <==> NoFailure(log) && !failed
  {
    assert (log + [failed])[|log|] == failed;
    assert forall i :: 0 <= i < |log| ==> (log + [failed])[i] == log[i];
  }

  /** The time of the latest counted failure among the first n actions. */
  function LatestFailure(acts: seq<Action>, n: nat): int
    requires n <= |acts|
  {
    if n == 0 then FRESH.lastFail
    else if acts[n - 1].Finish? && acts[n - 1].failed then acts[n - 1].now
    else LatestFailure(acts, n - 1)
  }

  /** The timeout of an open breaker counts from the latest counted failure, whichever
      state it was recorded in -- also one recorded while the breaker was open. */
  lemma {:induction false} TimeoutCountsFromLatestFailure(c: Config, acts: seq<Action>, trace: seq<System>, n: nat)
    requires IsRun(c, acts, trace) && n <= |acts|
    ensures trace[n].cb.lastFail == LatestFailure(acts, n)
  {
    hide Next;
    if n > 0 {
      Follows(c, acts, trace, n - 1);
      LastFailStep(c, trace[n - 1], acts[n - 1]);
      TimeoutCountsFromLatestFailure(c, acts, trace, n - 1);
    }
  }

  lemma LastFailStep(c: Config, s: System, a: Action)
    ensures Next(c, s, a).cb.lastFail == if a.Finish? && a.failed then a.now else s.cb.lastFail
  {}

  /** Exactly which requests are turned away, however they interleave: those within the
      timeout of the latest counted failure while the breaker is open, and those beyond
      the episode's probes while it is half-open. A request that is turned away changes
      nothing; every other one is let through, as an ordinary request while the breaker
      is closed and otherwise as a probe, the first of a new episode if it was open. */
  lemma TurnedAwayIff(c: Config, acts: seq<Action>, trace: seq<System>, n: nat)
    requires IsRun(c, acts, trace) && n < |acts| && acts[n].Begin?
    ensures var s, t, now := trace[n], trace[n + 1], acts[n].now;
            var tooSoon := s.cb.mode == Open && now - LatestFailure(acts, n) <= c.resetTimeout;
            var tooMany := s.cb.mode == HalfOpen && s.probes[s.episode] == c.halfOpenMax;
            if tooSoon || tooMany then
              && Admit(c, s.cb, now).1 == (if tooSoon then CircuitOpen else TooManyProbes)
              && t == s.(inFlight := s.inFlight + if acts[n].recordsRejection then multiset{TurnedAway} else multiset{})
            else
              && Admit(c, s.cb, now).1 == Admitted
              && t.episode == (if s.cb.mode == Open then s.episode + 1 else s.episode)
              && t.cb.mode == (if s.cb.mode == Closed then Closed else HalfOpen)
              && t.inFlight == s.inFlight + multiset{if s.cb.mode == Closed then Ordinary else ProbeOf(t.episode)}
              && t.probes == if s.cb.mode == Closed then s.probes else s.probes + multiset{t.episode}
  {
    InvHolds(c, acts, trace, n);
    TimeoutCountsFromLatestFailure(c, acts, trace, n);
    Follows(c, acts, trace, n);
    hide IsRun, TrailingFailures, NoFailure;
  }

  /** The other changes of mode. An open breaker goes half-open exactly with a request
      later than the timeout and closes only on Reset; a half-open one opens exactly with
      a counted failure, whosever it is; a closed one never goes half-open. */
  lemma ModeChangesIff(c: Config, acts: seq<Action>, trace: seq<System>, n: nat)
    requires IsRun(c, acts, trace) && n < |acts|
    ensures var from, to, a := trace[n].cb.mode, trace[n + 1].cb.mode, acts[n];
            && (from == Open ==>
                  && (to == HalfOpen <==> a.Begin? && a.now - LatestFailure(acts, n) > c.resetTimeout)
                  && (to == Closed <==> a == ResetAll))
            && (from == HalfOpen ==> (to == Open <==> a.Finish? && a.failed))
            && (from == Closed ==> to != HalfOpen)
  {
    InvHolds(c, acts, trace, n);
    TimeoutCountsFromLatestFailure(c, acts, trace, n);
    Follows(c, acts, trace, n);
    hide IsRun, TrailingFailures, NoFailure;
  }

  /** The results recorded since the latest Reset. */
  function ResultsSinceReset(acts: seq<Action>, n: nat): seq<bool>
    requires n <= |acts|
  {
    if n == 0 then [] else
    match acts[n - 1]
    case Begin(_, _) => ResultsSinceReset(acts, n - 1)
    case Finish(_, failed, _) => ResultsSinceReset(acts, n - 1) + [failed]
    case ResetAll => []
  }

  /** At no point of the first n actions had maxFailures counted failures in a row been
      recorded. */
  ghost predicate NeverTooManyFailures(c: Config, acts: seq<Action>, n: nat)
    requires n <= |acts|
  {
    forall k :: 0 <= k <= n ==> TrailingFailures(ResultsSinceReset(acts, k)) < c.maxFailures
  }

  lemma {:induction false} StaysClosed(c: Config, acts: seq<Action>, trace: seq<System>, n: nat)
    requires IsRun(c, acts, trace) && n <= |acts| && NeverTooManyFailures(c, acts, n)
    ensures trace[n].cb.mode == Closed && trace[n].sinceClosed == ResultsSinceReset(acts, n)
  {
    if n > 0 {
      StaysClosed(c, acts, trace, n - 1);
      OpensExactlyAtMaxFailures(c, acts, trace, n - 1);
      ModeChangesIff(c, acts, trace, n - 1);
      Follows(c, acts, trace, n - 1);
      assert TrailingFailures(ResultsSinceReset(acts, n)) < c.maxFailures;
      hide IsRun, TrailingFailures;
    }
  }

  /** Without maxFailures counted failures in a row every request is let through, as an
      ordinary one. */
  lemma HealthyRunsAdmitAll(c: Config, acts: seq<Action>, trace: seq<System>, n: nat)
    requires IsRun(c, acts, trace) && n < |acts| && acts[n].Begin? && NeverTooManyFailures(c, acts, n)
    ensures Admit(c, trace[n].cb, acts[n].now).1 == Admitted
    ensures trace[n + 1].inFlight == trace[n].inFlight + multiset{Ordinary}
  {
    StaysClosed(c, acts, trace, n);
    TurnedAwayIff(c, acts, trace, n);
  }

  /** Half-open at every point from action i to action j. */
  ghost predicate HalfOpenDuring(trace: seq<System>, i: nat, j: nat)
    requires i <= j < |trace|
  {
    forall k :: i <= k <= j ==> trace[k].cb.mode == HalfOpen
  }

  lemma {:induction false} SameEpisode(c: Config, acts: seq<Action>, trace: seq<System>, i: nat, j: nat)
    requires IsRun(c, acts, trace) && i <= j <= |acts| && HalfOpenDuring(trace, i, j)
    ensures trace[i].episode == trace[j].episode
    decreases j
  {
    if i < j {
      SameEpisode(c, acts, trace, i, j - 1);
      Follows(c, acts, trace, j - 1);
    }
  }

  /** A request of doWithHeaders beyond the episode's probes is rejected, and if that
      rejection is recorded before the episode is over, it ends the episode open --
      even if every probe would have succeeded -- and re-arms the timeout. */
  lemma RecordedOverLimitReopens(c: Config, acts: seq<Action>, trace: seq<System>, i: nat, j: nat, later: int)
    requires IsRun(c, acts, trace) && i < j < |acts| && HalfOpenDuring(trace, i, j)
    requires acts[i].Begin? && acts[i].recordsRejection && trace[i].cb.reqs >= c.halfOpenMax
    requires acts[j].Finish? && acts[j].ticket == TurnedAway
    ensures Admit(c, trace[i].cb, acts[i].now).1 == TooManyProbes
    ensures trace[i + 1].inFlight[TurnedAway] == trace[i].inFlight[TurnedAway] + 1
    ensures trace[j].episode == trace[i].episode && trace[j + 1].episode == trace[i].episode
    ensures trace[j + 1].cb.mode == Open && trace[j + 1].cb.lastFail == acts[j].now
    ensures later - acts[j].now <= c.resetTimeout ==> Admit(c, trace[j + 1].cb, later).1 == CircuitOpen
  {
    SameEpisode(c, acts, trace, i, j);
    Follows(c, acts, trace, i);
    Follows(c, acts, trace, j);
    hide IsRun;
  }

  // ----- rejections that are recorded and rejections that are not --------------------------

  /** A rejected CallWithPredicate leaves no trace, so an open breaker admits the first
      call later than resetTimeout after the last recorded failure -- and no earlier. */
  lemma OpenAdmitsExactlyAfterTimeout(c: Config, s: CB, now: int)
    requires c.Valid() && s.mode == Open
    ensures Admit(c, s, now) ==
            if now - s.lastFail > c.resetTimeout then (s.(mode := HalfOpen, reqs := 1, successes := 0), Admitted)
            else (s, CircuitOpen)
  {}

  /** The breaker after n calls of CallWithPredicate, none of which is finished. */
  function Asked(c: Config, s: CB, times: seq<int>, n: nat): CB
    requires n <= |times|
  {
    if n == 0 then s else Admit(c, Asked(c, s, times, n - 1), times[n - 1]).0
  }

  /** Call k is later than `timeout` after the last recorded failure. */
  predicate Late(s: CB, times: seq<int>, timeout: int, k: nat)
    requires k < |times|
  {
    times[k] - s.lastFail > timeout
  }

  predicate TurnedBackAt(c: Config, s: CB, times: seq<int>, k: nat)
    requires k < |times|
  {
    Admit(c, Asked(c, s, times, k), times[k]).1 == CircuitOpen
  }

  /** An unrecorded rejection leaves no trace: over any sequence of calls of an open
      breaker, the first one later than resetTimeout after the last recorded failure is
      admitted, as the first probe of a half-open episode, however often the breaker was
      asked before -- and no earlier one is. */
  lemma {:induction false} FirstLateCallIsAdmitted(c: Config, s: CB, times: seq<int>, n: nat)
    requires c.Valid() && s.mode == Open && n < |times|
    requires forall k :: 0 <= k < n ==> !Late(s, times, c.resetTimeout, k)
    ensures forall k :: 0 <= k < n ==> TurnedBackAt(c, s, times, k)
    ensures Asked(c, s, times, n) == s
    ensures Admit(c, Asked(c, s, times, n), times[n]) ==
            if Late(s, times, c.resetTimeout, n) then (s.(mode := HalfOpen, reqs := 1, successes := 0), Admitted)
            else (s, CircuitOpen)
  {
    hide Admit;
    if n > 0 {
      FirstLateCallIsAdmitted(c, s, times, n - 1);
    }
    OpenAdmitsExactlyAfterTimeout(c, s, times[n]);
  }

  /** The breaker after n calls of doWithHeaders, one after the other, each of which
      records its rejection as a failure. */
  function Polled(c: Config, s: CB, times: seq<int>, n: nat): CB
    requires n <= |times|
  {
    if n == 0 then s else
    Complete(c, Admit(c, Polled(c, s, times, n - 1), times[n - 1]).0, true, times[n - 1])
  }

  /** Call k comes at most `timeout` after the call before it (the first one: after
      the last recorded failure). */
  predicate GapWithin(s: CB, times: seq<int>, timeout: int, k: nat)
    requires k < |times|
  {
    times[k] - (if k == 0 then s.lastFail else times[k - 1]) <= timeout
  }

  ghost predicate AllGapsWithin(s: CB, times: seq<int>, timeout: int, n: nat)
    requires n <= |times|
  {
    forall k :: 0 <= k < n ==> GapWithin(s, times, timeout, k)
  }

  predicate RejectedAt(c: Config, s: CB, times: seq<int>, k: nat)
    requires k < |times|
  {
    Admit(c, Polled(c, s, times, k), times[k]).1 == CircuitOpen
  }

  ghost predicate AllRejected(c: Config, s: CB, times: seq<int>, n: nat)
    requires n <= |times|
  {
    forall k :: 0 <= k < n ==> RejectedAt(c, s, times, k)
  }

  /** Through doWithHeaders a rejection re-arms the timeout: an open breaker that is
      polled rejects every call if and only if no two successive calls (nor the last
      failure and the first call) are more than resetTimeout apart -- so it may stay
      open forever. */
  lemma {:induction false} PollingKeepsItOpen(c: Config, s: CB, times: seq<int>, n: nat)
    requires c.Valid() && s.mode == Open && n <= |times|
    ensures AllRejected(c, s, times, n) <==> AllGapsWithin(s, times, c.resetTimeout, n)
    ensures AllRejected(c, s, times, n) ==>
      Polled(c, s, times, n) == s.(lastFail := if n == 0 then s.lastFail else times[n - 1])
  {
    if n > 0 {
      PollingKeepsItOpen(c, s, times, n - 1);
      assert AllRejected(c, s, times, n) <==> AllRejected(c, s, times, n - 1) && RejectedAt(c, s, times, n - 1);
      assert AllGapsWithin(s, times, c.resetTimeout, n) <==>
             AllGapsWithin(s, times, c.resetTimeout, n - 1) && GapWithin(s, times, c.resetTimeout, n - 1);
      if AllRejected(c, s, times, n - 1) {
        PolledOnce(c, s, times, n - 1);
      }
    }
  }

  lemma PolledOnce(c: Config, s: CB, times: seq<int>, k: nat)
    requires c.Valid() && s.mode == Open && k < |times|
    requires Polled(c, s, times, k) == s.(lastFail := if k == 0 then s.lastFail else times[k - 1])
    ensures RejectedAt(c, s, times, k) <==> GapWithin(s, times, c.resetTimeout, k)
    ensures RejectedAt(c, s, times, k) ==> Polled(c, s, times, k + 1) == s.(lastFail := times[k])
  {
    assert Polled(c, s, times, k + 1) == Complete(c, Admit(c, Polled(c, s, times, k), times[k]).0, true, times[k]);
  }

  // ----- the object --------------------------------------------------------------------------

  class Breaker {
    const config: Config
    var mode: Mode
    var failures: int
    var lastFailTime: int
    var halfOpenReqs: int
    var halfOpenSuccess: int

    function View(): CB
      reads this
    {
      CB(mode, failures, lastFailTime, halfOpenReqs, halfOpenSuccess)
    }

    constructor (settings: Config)
      ensures config == WithDefaults(settings) && View() == FRESH
    {
      config := WithDefaults(settings);
      mode, failures, lastFailTime, halfOpenReqs, halfOpenSuccess := Closed, 0, 0, 0, 0;
    }

    method BeforeRequest(now: int) returns (admission: Admission)
      modifies this
      ensures (View(), admission) == Admit(config, old(View()), now)
      ensures old(mode) == Closed ==> admission == Admitted && View() == old(View())
      ensures admission == CircuitOpen <==> old(mode) == Open && now - old(lastFailTime) <= config.resetTimeout
      ensures old(mode) == HalfOpen ==> (admission == Admitted <==> old(halfOpenReqs) < config.halfOpenMax)
    {
      if mode == Closed {
        return Admitted;
      }
      if mode == Open {
        if now - lastFailTime <= config.resetTimeout {
          return CircuitOpen;
        }
        mode := HalfOpen;
        halfOpenReqs := 0;
        halfOpenSuccess := 0;
      }
      if halfOpenReqs >= config.halfOpenMax {
        return TooManyProbes;
      }
      halfOpenReqs := halfOpenReqs + 1;
      return Admitted;
    }

    method AfterRequest(isError: bool, countFailure: bool, now: int)
      modifies this
      ensures View() == Complete(config, old(View()), isError && countFailure, now)
    {
      if isError && countFailure {
        RecordFailure(now);
        return;
      }
      RecordSuccess();
    }

    method RecordFailure(now: int)
      modifies this
      ensures View() == OnFailure(config, old(View()), now)
    {
      lastFailTime := now;
      match mode {
        case Closed =>
          failures := failures + 1;
          if failures >= config.maxFailures {
            mode := Open;
          }
        case HalfOpen =>
          mode := Open;
          failures := config.maxFailures;
        case Open =>
      }
    }

    method RecordSuccess()
      modifies this
      ensures View() == OnSuccess(config, old(View()))
    {
      match mode {
        case Closed =>
          failures := 0;
        case HalfOpen =>
          halfOpenSuccess := halfOpenSuccess + 1;
          if halfOpenSuccess >= config.halfOpenMax {
            mode := Closed;
            failures := 0;
          }
        case Open =>
      }
    }

    /** A rejected call returns at once: the function does not run and nothing is
        recorded. `fails` and `counts` are what the function and the predicate say. */
    method CallWithPredicate(start: int, fails: bool, counts: bool, finish: int) returns (admission: Admission)
      modifies this
      ensures admission == Admit(config, old(View()), start).1
      ensures var begun := Admit(config, old(View()), start).0;
              View() == if admission == Admitted
                        then Complete(config, begun, fails && counts, finish)
                        else begun
    {
      admission := BeforeRequest(start);
      if admission != Admitted {
        return;
      }
      AfterRequest(fails, fails && counts, finish);
    }

    method RecordResult(isError: bool, now: int)
      modifies this
      ensures View() == Complete(config, old(View()), isError, now)
    {
      AfterRequest(isError, isError, now);
    }

    method Reset()
      modifies this
      ensures View() == ResetState(old(View()))
    {
      mode, failures, halfOpenReqs, halfOpenSuccess := Closed, 0, 0, 0;
    }
  }
}
