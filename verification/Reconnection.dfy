/** How the market client reconnects. A reader whose connection drops makes at most one
    attempt; a failed attempt leaves no reader until the caller connects again; and the
    attempt counter outlives all of them. First as if every attempt were one step, then
    step by step with several readers sharing the counter. */
module Reconnection {
  import opened Powers

  function Capped(d: int, max: int): int {
    if d > max then max else d
  }

  datatype Policy = Policy(enabled: bool, maxAttempts: int, delay: int, maxDelay: int) {
    /** Whether a drop is answered by an attempt. */
    predicate Allows(counter: nat) {
      enabled && counter < maxAttempts
    }

    /** The delay after so many rounds of the loop that doubles and caps it. */
    function Delay(rounds: nat): int {
      if rounds == 0 then delay else Capped(Delay(rounds - 1) * 2, maxDelay)
    }
  }

  lemma {:induction false} DelayClosedForm(p: Policy, rounds: nat)
    requires 0 <= p.delay && 0 <= p.maxDelay && 0 < rounds
    ensures p.Delay(rounds) == Capped(p.delay * Pow2(rounds), p.maxDelay)
  {
    Doubling(p.delay, rounds - 1);
    if rounds > 1 {
      DelayClosedForm(p, rounds - 1);
    } else {
      assert Pow2(0) == 1;
    }
  }

  lemma Doubling(d: int, i: nat)
    ensures d * Pow2(i + 1) == 2 * (d * Pow2(i))
    ensures d >= 0 ==> d * Pow2(i) >= 0
  {
    assert d * (2 * Pow2(i)) == 2 * (d * Pow2(i));
  }

  // ----- one attempt after the other --------------------------------------------------------

  /** What follows a dropped connection: whether the context ended during the sleep, and
      whether the new dial succeeded. */
  datatype Drop = Drop(ctxDone: bool, dialOk: bool) {
    predicate Reconnects() {
      !ctxDone && dialOk
    }
  }

  datatype Event = Connect(ok: bool) | Dropped(drop: Drop)

  datatype Reply = Nothing | Unanswered | Attempt(slept: int, connected: bool)

  /** How many connections are being read, and the attempt counter. */
  datatype Client = Client(readers: nat, counter: nat)

  function Answer(p: Policy, counter: nat, d: Drop): (nat, Reply) {
    if !p.Allows(counter) then (counter, Unanswered)
    else (if d.Reconnects() then 0 else counter + 1, Attempt(p.Delay(counter + 1), d.Reconnects()))
  }

  function Step(p: Policy, s: Client, e: Event): (Client, Reply) {
    match e
    case Connect(ok) => (if ok then s.(readers := s.readers + 1) else s, Nothing)
    case Dropped(d) =>
      if s.readers == 0 then (s, Nothing)
      else
        var (counter, reply) := Answer(p, s.counter, d);
        (Client(if reply.Attempt? && reply.connected then s.readers else s.readers - 1, counter), reply)
  }

  /** The whole life of a client: the caller's connects and the drops, in any order. */
  function Live(p: Policy, es: seq<Event>): (Client, seq<Reply>) {
    if es == [] then (Client(0, 0), []) else
    var (s, replies) := Live(p, es[..|es| - 1]);
    var (t, reply) := Step(p, s, es[|es| - 1]);
    (t, replies + [reply])
  }

  /** The failed attempts since the last attempt that succeeded. */
  function FailuresInARow(replies: seq<Reply>): nat {
    if replies == [] then 0 else
    var before := FailuresInARow(replies[..|replies| - 1]);
    match replies[|replies| - 1]
    case Attempt(_, connected) => if connected then 0 else before + 1
    case _ => before
  }

  lemma LiveOn(p: Policy, es: seq<Event>, e: Event)
    ensures var (s, replies) := Live(p, es);
            var (t, reply) := Step(p, s, e);
            Live(p, es + [e]) == (t, replies + [reply])
  {
    assert (es + [e])[..|es|] == es;
  }

  /** The counter is the number of failures in a row -- connecting anew does not clear it
      -- and never exceeds the configured maximum. */
  lemma {:induction false} CounterIsFailuresInARow(p: Policy, es: seq<Event>)
    ensures var (s, replies) := Live(p, es);
            && |replies| == |es|
            && s.counter == FailuresInARow(replies)
            && (s.counter == 0 || s.counter <= p.maxAttempts)
  {
    if es != [] {
      var front, e := es[..|es| - 1], es[|es| - 1];
      CounterIsFailuresInARow(p, front);
      var (s, replies) := Live(p, front);
      var reply := Step(p, s, e).1;
      assert (replies + [reply])[..|replies|] == replies;
    }
  }

  /** A drop is answered if and only if fewer than the maximum of attempts have failed in
      a row, in whatever sessions; and the sleep has doubled once for each of them and
      once more. */
  lemma DropIsAnsweredIff(p: Policy, es: seq<Event>, d: Drop)
    requires Live(p, es).0.readers > 0
    ensures var replies := Live(p, es).1;
            var failures := FailuresInARow(replies);
            && Live(p, es + [Dropped(d)]).1 ==
               replies + [if p.enabled && failures < p.maxAttempts then Attempt(p.Delay(failures + 1), d.Reconnects())
                          else Unanswered]
            && (0 <= p.delay && 0 <= p.maxDelay ==>
                  p.Delay(failures + 1) == Capped(p.delay * Pow2(failures + 1), p.maxDelay))
  {
    LiveOn(p, es, Dropped(d));
    CounterIsFailuresInARow(p, es);
    if 0 <= p.delay && 0 <= p.maxDelay {
      DelayClosedForm(p, FailuresInARow(Live(p, es).1) + 1);
    }
  }

  /** Among the events after `es` some drop is answered. */
  ghost predicate AttemptsAgain(p: Policy, es: seq<Event>, more: seq<Event>) {
    exists i :: |es| <= i < |Live(p, es + more).1| && Live(p, es + more).1[i].Attempt?
  }

  /** A client attempts again, if the caller connects it again, unless the maximum of
      attempts have failed in a row; then it never does, however often it is connected. */
  lemma GivesUpForGoodIff(p: Policy, es: seq<Event>)
    ensures (forall more :: !AttemptsAgain(p, es, more)) <==>
            !(p.enabled && FailuresInARow(Live(p, es).1) < p.maxAttempts)
  {
    CounterIsFailuresInARow(p, es);
    if p.Allows(Live(p, es).0.counter) {
      var more := [Connect(true), Dropped(Drop(false, true))];
      LiveOn(p, es, Connect(true));
      LiveOn(p, es + [Connect(true)], Dropped(Drop(false, true)));
      assert es + [Connect(true)] + [Dropped(Drop(false, true))] == es + more;
      assert Live(p, es + more).1[|es| + 1].Attempt?;
      assert AttemptsAgain(p, es, more);
    } else {
      forall more ensures !AttemptsAgain(p, es, more) {
        StaysSilent(p, es, more);
      }
    }
  }

  lemma {:induction false} StaysSilent(p: Policy, es: seq<Event>, more: seq<Event>)
    requires !p.Allows(Live(p, es).0.counter)
    ensures Live(p, es + more).0.counter == Live(p, es).0.counter
    ensures |Live(p, es + more).1| == |es| + |more|
    ensures forall i :: |es| <= i < |es| + |more| ==> !Live(p, es + more).1[i].Attempt?
    decreases |more|
  {
    if more == [] {
      assert es + more == es;
      CounterIsFailuresInARow(p, es);
    } else {
      var front, e := more[..|more| - 1], more[|more| - 1];
      StaysSilent(p, es, front);
      LiveOn(p, es + front, e);
      assert es + front + [e] == es + more;
    }
  }

  // ----- several readers sharing the counter ------------------------------------------------

  /** How many goroutines are reading; have passed the check of the counter and not yet
      added to it; are doubling the delay or sleeping, each with its rounds so far; and
      have dialled, so that a new reader runs, and not yet reset the counter. */
  datatype Racing = Racing(counter: nat, reading: nat, checked: nat, doubling: multiset<nat>,
                           sleeping: multiset<nat>, dialed: nat) {
    /** All but those that already have a successor. */
    function Readers(): nat {
      reading + checked + |doubling| + |sleeping|
    }
  }

  /** `Quit` is a reader that sees the context done. The delay loop reads the counter anew
      in every round. */
  datatype Move = Connected | Quit | Check | Add | Round(rounds: nat) | Sleep(rounds: nat)
                | Redial(rounds: nat, ok: bool) | Zero

  const IDLE: Racing := Racing(0, 0, 0, multiset{}, multiset{}, 0)

  predicate Enabled(s: Racing, m: Move) {
    match m
    case Connected => true
    case Quit => s.reading > 0
    case Check => s.reading > 0
    case Add => s.checked > 0
    case Round(r) => r in s.doubling && r < s.counter
    case Sleep(r) => r in s.doubling && r >= s.counter
    case Redial(r, _) => r in s.sleeping
    case Zero => s.dialed > 0
  }

  function Moved(p: Policy, s: Racing, m: Move): Racing
    requires Enabled(s, m)
  {
    match m
    case Connected => s.(reading := s.reading + 1)
    case Quit => s.(reading := s.reading - 1)
    case Check =>
      if p.Allows(s.counter) then s.(reading := s.reading - 1, checked := s.checked + 1)
      else s.(reading := s.reading - 1)
    case Add => s.(counter := s.counter + 1, checked := s.checked - 1, doubling := s.doubling + multiset{0})
    case Round(r) => s.(doubling := s.doubling - multiset{r} + multiset{r + 1})
    case Sleep(r) => s.(doubling := s.doubling - multiset{r}, sleeping := s.sleeping + multiset{r})
    case Redial(r, ok) =>
      if ok then s.(sleeping := s.sleeping - multiset{r}, reading := s.reading + 1, dialed := s.dialed + 1)
      else s.(sleeping := s.sleeping - multiset{r})
    case Zero => s.(counter := 0, dialed := s.dialed - 1)
  }

  predicate Possible(p: Policy, s: Racing, ms: seq<Move>)
    decreases |ms|
  {
    ms == [] || (Enabled(s, ms[0]) && Possible(p, Moved(p, s, ms[0]), ms[1..]))
  }

  function End(p: Policy, s: Racing, ms: seq<Move>): Racing
    requires Possible(p, s, ms)
    decreases |ms|
  {
    if ms == [] then s else End(p, Moved(p, s, ms[0]), ms[1..])
  }

  /** The most readers there are at any time. */
  function Peak(p: Policy, s: Racing, ms: seq<Move>): nat
    requires Possible(p, s, ms)
    decreases |ms|
  {
    if ms == [] then s.Readers() else
    var later := Peak(p, Moved(p, s, ms[0]), ms[1..]);
    if s.Readers() > later then s.Readers() else later
  }

  function Connects(ms: seq<Move>): nat {
    if ms == [] then 0 else (if ms[0] == Connected then 1 else 0) + Connects(ms[1..])
  }

  /** The check and the addition are two steps, so each further reader may add one. */
  function Ceiling(p: Policy, readers: nat): nat {
    if p.enabled && p.maxAttempts > 0 && readers > 0 then p.maxAttempts + readers - 1 else 0
  }

  ghost predicate Inv(p: Policy, s: Racing, readers: nat) {
    && s.counter + s.checked <= Ceiling(p, readers)
    && forall r :: r in s.doubling || r in s.sleeping ==> r <= Ceiling(p, readers)
  }

  lemma MoveKeepsInv(p: Policy, s: Racing, m: Move, readers: nat)
    requires Inv(p, s, readers) && s.Readers() <= readers && Enabled(s, m)
    requires Moved(p, s, m).Readers() <= readers
    ensures Inv(p, Moved(p, s, m), readers)
  {}

  lemma {:induction false} InvHolds(p: Policy, s: Racing, ms: seq<Move>, readers: nat)
    requires Possible(p, s, ms) && Inv(p, s, readers) && Peak(p, s, ms) <= readers
    ensures Inv(p, End(p, s, ms), readers)
    decreases |ms|
  {
    if ms != [] {
      var t := Moved(p, s, ms[0]);
      PeakIsAtLeastFirst(p, t, ms[1..]);
      MoveKeepsInv(p, s, ms[0], readers);
      InvHolds(p, t, ms[1..], readers);
    }
  }

  lemma PeakIsAtLeastFirst(p: Policy, s: Racing, ms: seq<Move>)
    requires Possible(p, s, ms)
    ensures s.Readers() <= Peak(p, s, ms)
  {}

  /** However the steps of reconnecting goroutines interleave, the counter never exceeds
      the maximum by more than the further readers there ever were at once, and no delay
      is doubled more often than that. */
  lemma CounterIsBounded(p: Policy, ms: seq<Move>)
    requires Possible(p, IDLE, ms)
    ensures var s, most := End(p, IDLE, ms), Ceiling(p, Peak(p, IDLE, ms));
            && s.counter <= most
            && forall r :: r in s.sleeping ==> r <= most
  {
    InvHolds(p, IDLE, ms, Peak(p, IDLE, ms));
  }

  /** There are never more readers than successful connects: so a client that is connected
      once keeps within the maximum, although each new reader starts before the counter
      is reset. */
  lemma {:induction false} ReadersAreConnects(p: Policy, s: Racing, ms: seq<Move>)
    requires Possible(p, s, ms)
    ensures Peak(p, s, ms) <= s.Readers() + Connects(ms)
    decreases |ms|
  {
    if ms != [] {
      ReadersAreConnects(p, Moved(p, s, ms[0]), ms[1..]);
    }
  }

  lemma OneConnectKeepsTheMaximum(p: Policy, ms: seq<Move>)
    requires Possible(p, IDLE, ms) && Connects(ms) <= 1
    ensures End(p, IDLE, ms).counter <= if p.enabled && p.maxAttempts > 0 then p.maxAttempts else 0
  {
    ReadersAreConnects(p, IDLE, ms);
    CounterIsBounded(p, ms);
  }

  // ----- runs step by step: the bound is attained ----------------------------------------------------------------

  ghost predicate Leads(p: Policy, s: Racing, ms: seq<Move>, t: Racing, readers: nat) {
    Possible(p, s, ms) && End(p, s, ms) == t && Peak(p, s, ms) <= readers
  }

  lemma {:induction false} Chain(p: Policy, s: Racing, a: seq<Move>, t: Racing, b: seq<Move>, u: Racing, readers: nat)
    requires Leads(p, s, a, t, readers) && Leads(p, t, b, u, readers)
    ensures Leads(p, s, a + b, u, readers)
    decreases |a|
  {
    if a == [] {
      assert a + b == b;
    } else {
      Chain(p, Moved(p, s, a[0]), a[1..], t, b, u, readers);
      assert (a + b)[1..] == a[1..] + b;
    }
  }

  /** One more move at the end. */
  lemma AndThen(p: Policy, s: Racing, ms: seq<Move>, t: Racing, m: Move, readers: nat)
    requires Leads(p, s, ms, t, readers) && Enabled(t, m)
    requires t.Readers() <= readers && Moved(p, t, m).Readers() <= readers
    ensures Leads(p, s, ms + [m], Moved(p, t, m), readers)
  {
    var u := Moved(p, t, m);
    assert [m][1..] == [];
    assert Possible(p, u, []) && End(p, u, []) == u;
    assert Leads(p, t, [m], u, readers);
    Chain(p, s, ms, t, [m], u, readers);
  }

  function Alone(counter: nat, reading: nat, checked: nat): Racing {
    Racing(counter, reading, checked, multiset{}, multiset{}, 0)
  }

  lemma {:induction false} DoubleUpTo(p: Policy, start: Racing, before: seq<Move>, others: nat, k: nat, r: nat) returns (ms: seq<Move>)
    requires r <= k && Leads(p, start, before, Alone(k, others, 0).(doubling := multiset{0}), others + 1)
    ensures Leads(p, start, ms, Alone(k, others, 0).(doubling := multiset{r}), others + 1)
  {
    ms := before;
    if r > 0 {
      ms := DoubleUpTo(p, start, before, others, k, r - 1);
      AndThen(p, start, ms, Alone(k, others, 0).(doubling := multiset{r - 1}), Round(r - 1), others + 1);
      ms := ms + [Round(r - 1)];
    }
  }

  /** Nothing but this attempt happening, the steps of a reconnect, taken by one of
      `others` + 1 readers, come to the answer of the first part. */
  lemma UninterruptedAttempt(p: Policy, c: nat, others: nat, d: Drop) returns (ms: seq<Move>)
    ensures var (counter, reply) := Answer(p, c, d);
            var stays := reply.Attempt? && reply.connected;
            Leads(p, Alone(c, others + 1, 0), ms, Alone(counter, if stays then others + 1 else others, 0), others + 1)
    ensures Answer(p, c, d).1.Attempt? ==> Sleep(c + 1) in ms && Answer(p, c, d).1.slept == p.Delay(c + 1)
  {
    var start, k, n := Alone(c, others + 1, 0), c + 1, others + 1;
    ms := [];
    AndThen(p, start, ms, start, Check, n);
    ms := ms + [Check];
    if p.Allows(c) {
      ms := SleepsAfterAdding(p, start, ms, c, others);
      AndThen(p, start, ms, Alone(k, others, 0).(sleeping := multiset{k}), Redial(k, d.Reconnects()), n);
      ms := ms + [Redial(k, d.Reconnects())];
      if d.Reconnects() {
        AndThen(p, start, ms, Alone(k, n, 0).(dialed := 1), Zero, n);
        ms := ms + [Zero];
      }
    }
  }

  lemma SleepsAfterAdding(p: Policy, start: Racing, before: seq<Move>, c: nat, others: nat) returns (ms: seq<Move>)
    requires Leads(p, start, before, Alone(c, others, 1), others + 1)
    ensures Leads(p, start, ms, Alone(c + 1, others, 0).(sleeping := multiset{c + 1}), others + 1)
    ensures Sleep(c + 1) in ms
  {
    AndThen(p, start, before, Alone(c, others, 1), Add, others + 1);
    ms := DoubleUpTo(p, start, before + [Add], others, c + 1, c + 1);
    AndThen(p, start, ms, Alone(c + 1, others, 0).(doubling := multiset{c + 1}), Sleep(c + 1), others + 1);
    ms := ms + [Sleep(c + 1)];
  }

  /** Attempts that fail one after the other raise the counter up to the maximum. */
  lemma {:induction false} Climb(p: Policy, k: nat) returns (ms: seq<Move>)
    requires p.enabled && k < p.maxAttempts
    ensures Leads(p, IDLE, ms, Alone(k, 0, 0), 1)
  {
    ms := [];
    if k > 0 {
      ms := Climb(p, k - 1);
      AndThen(p, IDLE, ms, Alone(k - 1, 0, 0), Connected, 1);
      var more := UninterruptedAttempt(p, k - 1, 0, Drop(true, false));
      Chain(p, IDLE, ms + [Connected], Alone(k - 1, 1, 0), more, Alone(k, 0, 0), 1);
      ms := ms + [Connected] + more;
    }
  }

  /** `n` connects, all of which drop and pass the check before any adds to the counter. */
  lemma {:induction false} Gather(p: Policy, c: nat, before: seq<Move>, n: nat, readers: nat) returns (ms: seq<Move>)
    requires p.Allows(c) && n <= readers && Leads(p, IDLE, before, Alone(c, 0, 0), readers)
    ensures Leads(p, IDLE, ms, Alone(c, 0, n), readers)
  {
    ms := before;
    if n > 0 {
      ms := Gather(p, c, before, n - 1, readers);
      AndThen(p, IDLE, ms, Alone(c, 0, n - 1), Connected, readers);
      ms := ms + [Connected];
      AndThen(p, IDLE, ms, Alone(c, 1, n - 1), Check, readers);
      ms := ms + [Check];
    }
  }

  lemma {:induction false} AddAll(p: Policy, before: seq<Move>, s: Racing, readers: nat) returns (ms: seq<Move>)
    requires Leads(p, IDLE, before, s, readers) && s.Readers() <= readers
    ensures before <= ms && Possible(p, IDLE, ms) && Peak(p, IDLE, ms) <= readers
    ensures End(p, IDLE, ms).counter == s.counter + s.checked
    decreases s.checked
  {
    ms := before;
    if s.checked > 0 {
      AndThen(p, IDLE, ms, s, Add, readers);
      ms := AddAll(p, ms + [Add], Moved(p, s, Add), readers);
    }
  }

  /** The bound is exact: for every number of readers some run with no more of them at a
      time ends with the counter at the ceiling. */
  lemma BoundIsAttained(p: Policy, readers: nat) returns (ms: seq<Move>)
    requires p.enabled && p.maxAttempts > 0 && readers > 0
    ensures Possible(p, IDLE, ms) && Peak(p, IDLE, ms) == readers
    ensures End(p, IDLE, ms).counter == Ceiling(p, readers) == p.maxAttempts + readers - 1
  {
    var c := p.maxAttempts - 1;
    ms := Climb(p, c);
    ms := Gather(p, c, ms, readers, readers);
    ms := AddAll(p, ms, Alone(c, 0, readers), readers);
    CounterIsBounded(p, ms);
  }


  lemma FirstSucceeds(p: Policy) returns (ms: seq<Move>)
    requires p.enabled && p.maxAttempts >= 2
    ensures Leads(p, IDLE, ms, Alone(1, 1, 0).(dialed := 1), 1)
  {
    AndThen(p, IDLE, [], IDLE, Connected, 1);
    AndThen(p, IDLE, [Connected], Alone(0, 1, 0), Check, 1);
    ms := SleepsAfterAdding(p, IDLE, [Connected] + [Check], 0, 0);
    AndThen(p, IDLE, ms, Alone(1, 0, 0).(sleeping := multiset{1}), Redial(1, true), 1);
    ms := ms + [Redial(1, true)];
  }

  /** What does not survive: an attempt that succeeded may reset the counter after its
      successor has already dropped, passed the check and added its own attempt, which
      then sleeps without any doubling and with the counter at zero -- with a single
      reader at any time. */
  lemma LateResetForgets(p: Policy) returns (ms: seq<Move>)
    requires p.enabled && p.maxAttempts >= 2
    ensures Leads(p, IDLE, ms, Alone(0, 0, 0).(sleeping := multiset{0}), 1)
  {
    ms := FirstSucceeds(p);
    AndThen(p, IDLE, ms, Alone(1, 1, 0).(dialed := 1), Check, 1);
    ms := ms + [Check];
    AndThen(p, IDLE, ms, Alone(1, 0, 1).(dialed := 1), Add, 1);
    ms := ms + [Add];
    AndThen(p, IDLE, ms, Alone(2, 0, 0).(doubling := multiset{0}, dialed := 1), Zero, 1);
    ms := ms + [Zero];
    AndThen(p, IDLE, ms, Alone(0, 0, 0).(doubling := multiset{0}), Sleep(0), 1);
    ms := ms + [Sleep(0)];
  }
}
