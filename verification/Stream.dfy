/** The market stream: every raw message goes through the deduplicator and then, if
    new, through dispatch, which counts it as an event or as invalid. */
module Stream {
  import opened Dedup
  import opened Sums
  import opened Powers
  import opened Reconnection

  /** What decoding a message yields: no JSON envelope, or an event type together
      with whether the typed payload decodes. */
  datatype Decoded = NoEnvelope | Envelope(eventType: string, payloadOk: bool)

  datatype Message = Message(key: Key, now: int, decoded: Decoded)

  const EVENT_TYPES: set<string> :=
    {"book", "price_change", "last_trade_price", "tick_size_change", "best_bid_ask", "new_market", "market_resolved"}

  predicate Valid(d: Decoded) {
    d.Envelope? && d.eventType in EVENT_TYPES && d.payloadOk
  }

  function AsInputs(ms: seq<Message>): seq<Input> {
    seq(|ms|, i requires 0 <= i < |ms| => Input(ms[i].key, ms[i].now))
  }

  /** How many of the first n messages were passed on and are valid (or are not). */
  function PassedOn(ms: seq<Message>, verdicts: seq<bool>, valid: bool, n: nat): nat
    requires n <= |ms| && n <= |verdicts|
  {
    if n == 0 then 0 else
    PassedOn(ms, verdicts, valid, n - 1) + if verdicts[n - 1] && Valid(ms[n - 1].decoded) == valid then 1 else 0
  }

  function AsReals(counts: map<string, int>): map<string, real> {
    map k | k in counts :: counts[k] as real
  }

  function CountIn(counts: map<string, int>, t: string): int {
    if t in counts then counts[t] else 0
  }

  function Bumped(counts: map<string, int>, t: string): map<string, int> {
    if t == "" then counts else counts[t := CountIn(counts, t) + 1]
  }

  lemma BumpedSum(counts: map<string, int>, t: string)
    ensures Sum(AsReals(Bumped(counts, t))) == Sum(AsReals(counts)) + if t == "" then 0.0 else 1.0
  {
    if t != "" {
      var n := (CountIn(counts, t) + 1) as real;
      SumPut(AsReals(counts), t, n);
      assert AsReals(Bumped(counts, t)) == AsReals(counts)[t := n];
    }
  }

  /** How many of the first n messages were counted as events of type t. */
  function EventsOf(ms: seq<Message>, verdicts: seq<bool>, t: string, n: nat): nat
    requires n <= |ms| && n <= |verdicts|
  {
    if n == 0 then 0 else
    var d := ms[n - 1].decoded;
    EventsOf(ms, verdicts, t, n - 1) + if verdicts[n - 1] && Valid(d) && d.eventType == t then 1 else 0
  }

  /** The counters after n messages are what the verdicts and the decoder dictate. */
  ghost predicate Tallied(messages: int, invalid: int, counts: map<string, int>,
                          ms: seq<Message>, verdicts: seq<bool>, n: nat)
    requires n <= |ms| && n <= |verdicts|
  {
    && messages == PassedOn(ms, verdicts, true, n)
    && invalid == PassedOn(ms, verdicts, false, n)
    && forall t :: CountIn(counts, t) == EventsOf(ms, verdicts, t, n)
  }

  lemma TallyOne(messages: int, invalid: int, counts: map<string, int>, ms: seq<Message>, verdicts: seq<bool>, isNew: bool)
    requires |verdicts| < |ms| && Tallied(messages, invalid, counts, ms, verdicts, |verdicts|)
    ensures var d := ms[|verdicts|].decoded;
            var valid := isNew && Valid(d);
            Tallied(messages + (if valid then 1 else 0),
                    invalid + (if isNew && !Valid(d) then 1 else 0),
                    if valid then Bumped(counts, d.eventType) else counts,
                    ms, verdicts + [isNew], |verdicts| + 1)
  {
    var n, longer := |verdicts|, verdicts + [isNew];
    SameCount(ms, verdicts, longer, true, n);
    SameCount(ms, verdicts, longer, false, n);
    forall t ensures EventsOf(ms, verdicts, t, n) == EventsOf(ms, longer, t, n) {
      SameEvents(ms, verdicts, longer, t, n);
    }
    hide Valid;
    var d := ms[n].decoded;
    var counts' := if isNew && Valid(d) then Bumped(counts, d.eventType) else counts;
    forall t ensures CountIn(counts', t) == EventsOf(ms, longer, t, n + 1) {
      NotEmpty(d);
      assert EventsOf(ms, longer, t, n + 1) ==
             EventsOf(ms, longer, t, n) + if isNew && Valid(d) && d.eventType == t then 1 else 0;
    }
  }

  lemma NotEmpty(d: Decoded)
    ensures Valid(d) ==> d.eventType != ""
  {}

  lemma NothingYet(c: Config, ms: seq<Message>)
    ensures IsRun(c, AsInputs(ms)[..0], [map[]], []) && Tallied(0, 0, map[], ms, [], 0)
  {}

  lemma RunGrows(c: Config, xs: seq<Input>, memory: seq<Seen>, verdicts: seq<bool>, after: Seen, isNew: bool)
    requires |verdicts| < |xs| && IsRun(c, xs[..|verdicts|], memory, verdicts)
    requires Processes(c, memory[|verdicts|], xs[|verdicts|], after, isNew)
    ensures IsRun(c, xs[..|verdicts| + 1], memory + [after], verdicts + [isNew])
  {
    hide Processes;
    var n := |verdicts|;
    forall k | 0 <= k < n + 1
      ensures Processes(c, (memory + [after])[k], xs[..n + 1][k], (memory + [after])[k + 1], (verdicts + [isNew])[k])
    {
      if k < n {
        assert Processes(c, memory[k], xs[..n][k], memory[k + 1], verdicts[k]);
      }
    }
  }

  class StreamStats {
    var messages: int
    var duplicates: int
    var invalid: int
    var reconnects: int
    var eventCounts: map<string, int>

    constructor ()
      ensures messages == duplicates == invalid == reconnects == 0 && eventCounts == map[]
    {
      messages, duplicates, invalid, reconnects := 0, 0, 0, 0;
      eventCounts := map[];
    }

    method RecordEvent(eventType: string)
      modifies this
      ensures messages == old(messages) + 1
      ensures duplicates == old(duplicates) && invalid == old(invalid) && reconnects == old(reconnects)
      ensures eventCounts == Bumped(old(eventCounts), eventType)
    {
      messages := messages + 1;
      if eventType != "" {
        eventCounts := eventCounts[eventType := CountIn(eventCounts, eventType) + 1];
      }
    }

    method RecordDuplicate()
      modifies this`duplicates
      ensures duplicates == old(duplicates) + 1
    {
      duplicates := duplicates + 1;
    }

    method RecordInvalid()
      modifies this`invalid
      ensures invalid == old(invalid) + 1
    {
      invalid := invalid + 1;
    }

    method RecordReconnect()
      modifies this`reconnects
      ensures reconnects == old(reconnects) + 1
    {
      reconnects := reconnects + 1;
    }
  }

  class MarketClient {
    const stats: StreamStats
    const dedup: Deduplicator
    const reconnectEnabled: bool
    const reconnectMax: int
    const reconnectDelay: int
    const reconnectMaxDelay: int
    var reconnects: int

    constructor (size: int, ttlMs: int, enabled: bool, max: int, delay: int, maxDelay: int)
      ensures fresh(stats) && fresh(dedup) && Balanced()
      ensures dedup.Limits() == Config(size, ttlMs) && dedup.seen == map[]
      ensures dedup.inCount == stats.messages == stats.duplicates == stats.invalid == reconnects == 0
      ensures stats.eventCounts == map[]
    {
      var s := new StreamStats();
      var d := new Deduplicator(size, ttlMs);
      stats, dedup := s, d;
      reconnectEnabled, reconnectMax, reconnectDelay, reconnectMaxDelay := enabled, max, delay, maxDelay;
      reconnects := 0;
      assert AsReals(map[]) == map[];
    }

    /** The books balance: every message that came in was dropped as a duplicate,
        counted as an event of some type, or counted as invalid. */
    ghost predicate Balanced()
      reads stats, dedup
    {
      && dedup.inCount == dedup.dupCount + dedup.outCount
      && dedup.dupCount == stats.duplicates
      && dedup.outCount == stats.messages + stats.invalid
      && stats.messages as real == Sum(AsReals(stats.eventCounts))
    }

    method ProcessMessage(m: Message) returns (ghost isNew: bool)
      requires Balanced()
      modifies stats, dedup
      ensures Balanced()
      ensures Processes(dedup.Limits(), old(dedup.seen), Input(m.key, m.now), dedup.seen, isNew)
      ensures dedup.inCount == old(dedup.inCount) + 1
      ensures stats.duplicates == old(stats.duplicates) + if isNew then 0 else 1
      ensures stats.messages == old(stats.messages) + if isNew && Valid(m.decoded) then 1 else 0
      ensures stats.invalid == old(stats.invalid) + if isNew && !Valid(m.decoded) then 1 else 0
      ensures stats.eventCounts ==
        if isNew && Valid(m.decoded) then Bumped(old(stats.eventCounts), m.decoded.eventType) else old(stats.eventCounts)
    {
      var passed := dedup.Process(m.key, m.now);
      isNew := passed;
      if !passed {
        stats.RecordDuplicate();
        return;
      }
      Dispatch(m.decoded);
      if Valid(m.decoded) {
        BumpedSum(old(stats.eventCounts), m.decoded.eventType);
      }
    }

    method Dispatch(d: Decoded)
      modifies stats
      ensures stats.messages == old(stats.messages) + 1 <==>
              && d.Envelope? && d.payloadOk
              && d.eventType in {"book", "price_change", "last_trade_price", "tick_size_change", "best_bid_ask",
                                 "new_market", "market_resolved"}
      ensures stats.duplicates == old(stats.duplicates)
      ensures stats.messages == old(stats.messages) + if Valid(d) then 1 else 0
      ensures stats.invalid == old(stats.invalid) + if Valid(d) then 0 else 1
      ensures stats.eventCounts == if Valid(d) then Bumped(old(stats.eventCounts), d.eventType) else old(stats.eventCounts)
    {
      match d {
        case NoEnvelope =>
          stats.RecordInvalid();
        case Envelope(eventType, payloadOk) =>
          if eventType !in EVENT_TYPES {
            stats.RecordInvalid();
          } else if !payloadOk {
            stats.RecordInvalid();
          } else {
            stats.RecordEvent(eventType);
          }
      }
    }

    /** Reading a whole stream: the deduplicator goes through one of its runs, and
        the counters say how many messages were dropped, valid and invalid. */
    method ReadLoop(ms: seq<Message>) returns (ghost memory: seq<Seen>, ghost verdicts: seq<bool>)
      requires Balanced() && dedup.seen == map[]
      requires dedup.inCount == stats.messages == stats.duplicates == stats.invalid == 0 && stats.eventCounts == map[]
      modifies stats, dedup
      ensures Balanced()
      ensures IsRun(dedup.Limits(), AsInputs(ms), memory, verdicts)
      ensures dedup.inCount == |ms|
      ensures Tallied(stats.messages, stats.invalid, stats.eventCounts, ms, verdicts, |ms|)
      ensures stats.duplicates == |ms| - stats.messages - stats.invalid
    {
      hide Processes, IsRun, Tallied, Bumped, Valid, AsReals;
      memory, verdicts := [dedup.seen], [];
      NothingYet(dedup.Limits(), ms);
      var n := 0;
      while n < |ms|
        invariant 0 <= n <= |ms| && |verdicts| == n && |memory| == n + 1
        invariant Balanced() && memory[n] == dedup.seen
        invariant IsRun(dedup.Limits(), AsInputs(ms)[..n], memory, verdicts)
        invariant dedup.inCount == n
        invariant Tallied(stats.messages, stats.invalid, stats.eventCounts, ms, verdicts, n)
      {
        TallyOne(stats.messages, stats.invalid, stats.eventCounts, ms, verdicts, true);
        TallyOne(stats.messages, stats.invalid, stats.eventCounts, ms, verdicts, false);
        ghost var isNew := ProcessMessage(ms[n]);
        RunGrows(dedup.Limits(), AsInputs(ms), memory, verdicts, dedup.seen, isNew);
        memory, verdicts := memory + [dedup.seen], verdicts + [isNew];
        n := n + 1;
      }
      assert AsInputs(ms)[..n] == AsInputs(ms);
    }

    ghost function Settings(): Policy {
      Policy(reconnectEnabled, reconnectMax, reconnectDelay, reconnectMaxDelay)
    }

    /** The sleep before reconnect attempt number r doubles from attempt to attempt
        and is capped, for non-negative settings: min(delay * 2^r, maxDelay). */
    method Backoff() returns (delay: int)
      ensures delay == Settings().Delay(if reconnects > 0 then reconnects else 0)
      ensures 0 <= reconnectDelay && 0 <= reconnectMaxDelay && 0 < reconnects ==>
        delay == Capped(reconnectDelay * Pow2(reconnects), reconnectMaxDelay)
    {
      delay := reconnectDelay;
      var i := 0;
      while i < reconnects
        invariant 0 <= i && (0 < reconnects ==> i <= reconnects)
        invariant reconnects <= 0 ==> i == 0
        invariant delay == Settings().Delay(i)
      {
        delay := delay * 2;
        if delay > reconnectMaxDelay {
          delay := reconnectMaxDelay;
        }
        i := i + 1;
      }
      if 0 <= reconnectDelay && 0 <= reconnectMaxDelay && 0 < reconnects {
        DelayClosedForm(Settings(), reconnects);
      }
    }

    /** `ctxDone` and `dialOk` are what the program learns after sleeping. */
    method Reconnect(ctxDone: bool, dialOk: bool) returns (slept: int, connected: bool)
      requires 0 <= reconnects
      modifies this`reconnects, stats`reconnects
      ensures 0 <= reconnects
      ensures var attempt := reconnectEnabled && old(reconnects) < reconnectMax;
              && connected == (attempt && !ctxDone && dialOk)
              && stats.reconnects == old(stats.reconnects) + (if attempt then 1 else 0)
              && (!attempt ==> slept == 0)
              && Answer(Settings(), old(reconnects), Drop(ctxDone, dialOk)) ==
                 (reconnects, if attempt then Attempt(slept, connected) else Unanswered)
      ensures reconnects == (if connected then 0
                             else if reconnectEnabled && old(reconnects) < reconnectMax then old(reconnects) + 1
                             else old(reconnects))
      ensures reconnectEnabled && old(reconnects) < reconnectMax && 0 <= reconnectDelay && 0 <= reconnectMaxDelay ==>
        slept == Capped(reconnectDelay * Pow2(old(reconnects) + 1), reconnectMaxDelay)
    {
      if !reconnectEnabled || reconnects >= reconnectMax {
        return 0, false;
      }
      reconnects := reconnects + 1;
      stats.RecordReconnect();
      slept := Backoff();
      if ctxDone || !dialOk {
        return slept, false;
      }
      reconnects := 0;
      return slept, true;
    }

    /** A connected client until it is connected anew: each reader that loses its
        connection reconnects once and ends; only a new connection has a new reader. So a
        failed attempt is the last one until then. The counter is the one that earlier
        sessions left, and only the first attempt meets it. */
    method Supervise(drops: seq<Drop>) returns (attempts: nat, sleeps: seq<int>)
      requires 0 <= reconnects
      modifies this`reconnects, stats`reconnects
      ensures attempts == (if reconnectEnabled && old(reconnects) < reconnectMax then Attempts(drops) else 0) == |sleeps|
      ensures attempts <= |drops|
      ensures forall k :: 0 <= k < attempts - 1 ==> drops[k].Reconnects()
      ensures stats.reconnects == old(stats.reconnects) + attempts
      ensures reconnects == (if attempts == 0 then old(reconnects)
                             else if drops[attempts - 1].Reconnects() then 0
                             else if attempts == 1 then old(reconnects) + 1 else 1)
      ensures forall k :: 0 <= k < attempts ==>
        sleeps[k] == Settings().Delay(if k == 0 then old(reconnects) + 1 else 1)
      ensures 0 <= reconnectDelay && 0 <= reconnectMaxDelay ==> forall k :: 0 <= k < attempts ==>
        sleeps[k] == Capped(reconnectDelay * Pow2(if k == 0 then old(reconnects) + 1 else 1), reconnectMaxDelay)
    {
      attempts, sleeps := 0, [];
      while attempts < |drops| && reconnectEnabled && reconnects < reconnectMax
        invariant 0 <= attempts <= |drops| && |sleeps| == attempts
        invariant reconnects == if attempts == 0 then old(reconnects) else 0
        invariant attempts > 0 ==> reconnectEnabled && old(reconnects) < reconnectMax && 0 < reconnectMax
        invariant Attempts(drops) == attempts + Attempts(drops[attempts..])
        invariant forall k :: 0 <= k < attempts ==> drops[k].Reconnects()
        invariant stats.reconnects == old(stats.reconnects) + attempts
        invariant forall k :: 0 <= k < attempts ==>
          sleeps[k] == Settings().Delay(if k == 0 then old(reconnects) + 1 else 1)
        invariant 0 <= reconnectDelay && 0 <= reconnectMaxDelay ==> forall k :: 0 <= k < attempts ==>
          sleeps[k] == Capped(reconnectDelay * Pow2(if k == 0 then old(reconnects) + 1 else 1), reconnectMaxDelay)
      {
        var d := drops[attempts];
        AttemptsBefore(drops, attempts);
        var slept, connected := Reconnect(d.ctxDone, d.dialOk);
        attempts, sleeps := attempts + 1, sleeps + [slept];
        if !connected {
          return;
        }
      }
    }
  }

  /** How many of these drops are answered by an attempt: all of them up to and including
      the first whose attempt fails. */
  function Attempts(ds: seq<Drop>): nat {
    if ds == [] then 0
    else if !ds[0].Reconnects() then 1
    else 1 + Attempts(ds[1..])
  }

  lemma AttemptsBefore(ds: seq<Drop>, k: nat)
    requires k < |ds|
    ensures Attempts(ds[k..]) ==
            if !ds[k].Reconnects() then 1 else 1 + Attempts(ds[k + 1..])
  {
    assert ds[k..][1..] == ds[k + 1..];
  }

  lemma {:induction false} SameCount(ms: seq<Message>, vs: seq<bool>, longer: seq<bool>, valid: bool, n: nat)
    requires n <= |ms| && n <= |vs| && vs <= longer
    ensures PassedOn(ms, vs, valid, n) == PassedOn(ms, longer, valid, n)
  {
    if n > 0 {
      SameCount(ms, vs, longer, valid, n - 1);
    }
  }

  lemma {:induction false} SameEvents(ms: seq<Message>, vs: seq<bool>, longer: seq<bool>, t: string, n: nat)
    requires n <= |ms| && n <= |vs| && vs <= longer
    ensures EventsOf(ms, vs, t, n) == EventsOf(ms, longer, t, n)
  {
    if n > 0 {
      SameEvents(ms, vs, longer, t, n - 1);
    }
  }
}
