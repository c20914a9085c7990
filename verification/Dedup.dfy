/** Deduplicator with a capacity and a time to live. Times are in milliseconds;
    the key of a message is what the program extracts from its JSON, and the empty
    key marks a message without identity. */
module Dedup {
  import opened Sorting

  type Key = string

  type Seen = map<Key, int>

  datatype Input = Input(key: Key, now: int)

  datatype Config = Config(size: int, ttl: int)

  /** The entries that are younger than the time to live. */
  function Live(m: Seen, now: int, ttl: int): Seen {
    map k | k in m && now - m[k] < ttl :: m[k]
  }

  predicate KnownIn(m: Seen, x: Input, ttl: int) {
    x.key in m && x.now - m[x.key] < ttl
  }

  ghost predicate SubMap(small: Seen, big: Seen) {
    forall k :: k in small ==> k in big && small[k] == big[k]
  }

  /** What eviction may leave. Map order and ties between equal times decide which
      of the oldest entries go, so this is a relation. */
  ghost predicate Evicts(c: Config, before: Seen, now: int, after: Seen) {
    var live := Live(before, now, c.ttl);
    if c.size <= 0 || |live| <= c.size then after == live
    else
      && SubMap(after, live) && |after| == c.size
      && forall k, j :: k in live && k !in after && j in after ==> live[k] <= after[j]
  }

  /** One call of Process: the memory before, the input, the memory after and the
      verdict ("this message is new"). */
  ghost predicate Processes(c: Config, before: Seen, x: Input, after: Seen, isNew: bool) {
    if x.key == "" then isNew && after == before
    else if KnownIn(before, x, c.ttl) then !isNew && after == before
    else
      var grown := before[x.key := x.now];
      isNew && if |grown| > c.size then Evicts(c, grown, x.now, after) else after == grown
  }

  /** memory[n] is the memory after n inputs. */
  ghost predicate IsRun(c: Config, xs: seq<Input>, memory: seq<Seen>, verdicts: seq<bool>) {
    && |memory| == |xs| + 1 && |verdicts| == |xs| && memory[0] == map[]
    && forall n :: 0 <= n < |xs| ==> Processes(c, memory[n], xs[n], memory[n + 1], verdicts[n])
  }

  ghost predicate Nondecreasing(xs: seq<Input>) {
    forall i, j :: 0 <= i < j < |xs| ==> xs[i].now <= xs[j].now
  }

  // ----- the reference: unlimited memory --------------------------------------------

  /** A message is new unless the same key was accepted less than the time to live ago. */
  ghost predicate Unseen(log: seq<Input>, x: Input, ttl: int) {
    x.key == "" || forall e :: e in log && e.key == x.key ==> x.now - e.now >= ttl
  }

  ghost function Logged(log: seq<Input>, x: Input, ttl: int): seq<Input> {
    if x.key != "" && Unseen(log, x, ttl) then log + [x] else log
  }

  /** Everything with a key that the reference accepted among the first n inputs. */
  ghost function AcceptedLog(xs: seq<Input>, n: nat, ttl: int): seq<Input>
    requires n <= |xs|
  {
    if n == 0 then [] else Logged(AcceptedLog(xs, n - 1, ttl), xs[n - 1], ttl)
  }

  /** The distinct keys accepted within the last `ttl`. */
  ghost function RecentKeys(log: seq<Input>, now: int, ttl: int): set<Key> {
    set e | e in log && now - e.now < ttl :: e.key
  }

  /** The bounded memory and the reference's log agree on everything recent. */
  ghost predicate Agrees(m: Seen, log: seq<Input>, now: int, ttl: int) {
    && (forall k :: k in m && now - m[k] < ttl ==> Input(k, m[k]) in log)
    && (forall e :: e in log && now - e.now < ttl ==> e.key in m && m[e.key] == e.now)
  }

  lemma RecentAreLive(m: Seen, log: seq<Input>, now: int, ttl: int)
    requires Agrees(m, log, now, ttl)
    ensures RecentKeys(log, now, ttl) == Live(m, now, ttl).Keys
  {
    forall k | k in Live(m, now, ttl) ensures k in RecentKeys(log, now, ttl) {
      assert Input(k, m[k]) in log;
    }
  }

  lemma AgreementStep(c: Config, m: Seen, log: seq<Input>, last: int, x: Input, m': Seen, isNew: bool)
    requires Agrees(m, log, last, c.ttl) && last <= x.now
    requires Processes(c, m, x, m', isNew)
    requires |RecentKeys(Logged(log, x, c.ttl), x.now, c.ttl)| <= c.size
    ensures isNew <==> Unseen(log, x, c.ttl)
    ensures Agrees(m', Logged(log, x, c.ttl), x.now, c.ttl)
  {
    assert Agrees(m, log, x.now, c.ttl);
    assert x.key != "" ==> (KnownIn(m, x, c.ttl) <==> !Unseen(log, x, c.ttl)) by {
      if KnownIn(m, x, c.ttl) {
        assert Input(x.key, m[x.key]) in log;
      }
    }
    if x.key != "" && isNew {
      var grown := m[x.key := x.now];
      var log' := log + [x];
      assert Agrees(grown, log', x.now, c.ttl);
      RecentAreLive(grown, log', x.now, c.ttl);
      var live := Live(grown, x.now, c.ttl);
      assert |live| == |live.Keys|;
      assert m' == grown || m' == live;
    }
  }

  /** Never more than `size` distinct keys were accepted within the last time to live. */
  ghost predicate CapacitySuffices(c: Config, xs: seq<Input>, n: nat)
    requires n <= |xs|
  {
    forall i :: 1 <= i <= n ==> |RecentKeys(AcceptedLog(xs, i, c.ttl), xs[i - 1].now, c.ttl)| <= c.size
  }

  /** The first n verdicts are those of unlimited memory. */
  ghost predicate SameVerdicts(c: Config, xs: seq<Input>, verdicts: seq<bool>, n: nat)
    requires n <= |xs| && n <= |verdicts|
  {
    forall i :: 0 <= i < n ==> (verdicts[i] <==> Unseen(AcceptedLog(xs, i, c.ttl), xs[i], c.ttl))
  }

  /** As long as no more than `size` distinct keys were accepted within the last
      time to live, the bounded deduplicator gives on every input sequence the
      verdicts of one with unlimited memory. */
  lemma {:induction false} AgreesWithUnlimitedMemory(c: Config, xs: seq<Input>, memory: seq<Seen>, verdicts: seq<bool>, n: nat)
    requires IsRun(c, xs, memory, verdicts) && Nondecreasing(xs) && n <= |xs|
    requires CapacitySuffices(c, xs, n)
    ensures SameVerdicts(c, xs, verdicts, n)
    ensures n > 0 ==> Agrees(memory[n], AcceptedLog(xs, n, c.ttl), xs[n - 1].now, c.ttl)
  {
    if n > 0 {
      assert Agrees(map[], [], xs[0].now, c.ttl);
      assert Processes(c, memory[n - 1], xs[n - 1], memory[n - 1 + 1], verdicts[n - 1]);
      hide Agrees, Unseen, Logged, RecentKeys, Processes;
      assert |RecentKeys(AcceptedLog(xs, n, c.ttl), xs[n - 1].now, c.ttl)| <= c.size;
      AgreesWithUnlimitedMemory(c, xs, memory, verdicts, n - 1);
      var last := if n == 1 then xs[0].now else xs[n - 2].now;
      AgreementStep(c, memory[n - 1], AcceptedLog(xs, n - 1, c.ttl), last, xs[n - 1], memory[n], verdicts[n - 1]);
    }
  }

  /** The condition is exact: once more than `size` keys are recent, some key that the
      reference calls a duplicate is accepted as new by the bounded deduplicator,
      whatever its eviction chose to forget. */
  lemma OverCapacityForgets(c: Config, xs: seq<Input>, memory: seq<Seen>, verdicts: seq<bool>, n: nat) returns (x: Input)
    requires IsRun(c, xs, memory, verdicts) && 0 < n <= |xs| && c.size > 0
    requires |RecentKeys(AcceptedLog(xs, n, c.ttl), xs[n - 1].now, c.ttl)| > c.size
    ensures x.now == xs[n - 1].now
    ensures !Unseen(AcceptedLog(xs, n, c.ttl), x, c.ttl)
    ensures forall after, isNew :: Processes(c, memory[n], x, after, isNew) ==> isNew
  {
    var now := xs[n - 1].now;
    var recent := RecentKeys(AcceptedLog(xs, n, c.ttl), now, c.ttl);
    NeverOverCapacity(c, xs, memory, verdicts, n);
    LoggedHaveKeys(xs, n, c.ttl);
    assert |memory[n]| == |memory[n].Keys|;
    if recent <= memory[n].Keys {
      Subset(recent, memory[n].Keys);
      assert false;
    }
    var k :| k in recent && k !in memory[n].Keys;
    x := Input(k, now);
  }

  lemma {:induction false} LoggedHaveKeys(xs: seq<Input>, n: nat, ttl: int)
    requires n <= |xs|
    ensures forall e :: e in AcceptedLog(xs, n, ttl) ==> e.key != ""
  {
    if n > 0 {
      LoggedHaveKeys(xs, n - 1, ttl);
    }
  }

  lemma {:induction false} Subset<T>(a: set<T>, b: set<T>)
    requires a <= b
    ensures |a| <= |b|
  {
    if a != {} {
      var x :| x in a;
      Subset(a - {x}, b - {x});
    }
  }

  /** After every call of every run at most `size` entries are held. */
  lemma {:induction false} NeverOverCapacity(c: Config, xs: seq<Input>, memory: seq<Seen>, verdicts: seq<bool>, n: nat)
    requires IsRun(c, xs, memory, verdicts) && n <= |xs| && c.size > 0
    ensures |memory[n]| <= c.size
  {
    if n > 0 {
      NeverOverCapacity(c, xs, memory, verdicts, n - 1);
      assert Processes(c, memory[n - 1], xs[n - 1], memory[n], verdicts[n - 1]);
    }
  }

  /** Whatever a call forgets is no newer than anything it keeps, and nothing that
      it keeps has changed. */
  lemma ForgetsOldestFirst(c: Config, before: Seen, x: Input, after: Seen, isNew: bool, gone: Key, kept: Key)
    requires Processes(c, before, x, after, isNew) && isNew && x.key != ""
    requires gone in before[x.key := x.now] && gone !in after && kept in after
    ensures before[x.key := x.now][gone] <= after[kept] == before[x.key := x.now][kept]
  {
    var grown := before[x.key := x.now];
    var live := Live(grown, x.now, c.ttl);
    assert kept in live && live[kept] == grown[kept];
    assert gone in live || grown[gone] < live[kept];
  }

  /** How many entries survive a call: all of them while they fit; otherwise as many of
      those younger than the time to live as fit, and all of these without a capacity. */
  lemma SurvivorCount(c: Config, before: Seen, x: Input, after: Seen, isNew: bool)
    requires Processes(c, before, x, after, isNew) && isNew && x.key != ""
    ensures var grown := before[x.key := x.now];
            var young := set k | k in grown && x.now - grown[k] < c.ttl;
            |after| == if |grown| <= c.size then |grown|
                       else if c.size > 0 && |young| > c.size then c.size
                       else |young|
    ensures |before[x.key := x.now]| > c.size ==> forall k :: k in after ==> x.now - after[k] < c.ttl
  {
    var grown := before[x.key := x.now];
    var young := set k | k in grown && x.now - grown[k] < c.ttl;
    assert Live(grown, x.now, c.ttl).Keys == young;
    assert |Live(grown, x.now, c.ttl)| == |Live(grown, x.now, c.ttl).Keys|;
  }

  // ----- the object ----------------------------------------------------------------

  datatype Entry = Entry(key: Key, ts: int)

  class Deduplicator {
    const size: int
    const ttlMs: int
    var seen: Seen
    var inCount: int
    var dupCount: int
    var outCount: int

    function Limits(): Config {
      Config(size, ttlMs)
    }

    constructor (size: int, ttlMs: int)
      ensures Limits() == Config(size, ttlMs) && seen == map[]
      ensures inCount == dupCount == outCount == 0
    {
      this.size, this.ttlMs := size, ttlMs;
      seen := map[];
      inCount, dupCount, outCount := 0, 0, 0;
    }

    /** Every message is counted in, and counted once more as duplicate or as passed on. */
    method Process(key: Key, nowMs: int) returns (isNew: bool)
      modifies this
      ensures Processes(Limits(), old(seen), Input(key, nowMs), seen, isNew)
      ensures inCount == old(inCount) + 1
      ensures dupCount == old(dupCount) + if isNew then 0 else 1
      ensures outCount == old(outCount) + if isNew then 1 else 0
    {
      if key == "" {
        inCount := inCount + 1;
        outCount := outCount + 1;
        return true;
      }
      inCount := inCount + 1;
      if key in seen && nowMs - seen[key] < ttlMs {
        dupCount := dupCount + 1;
        return false;
      }
      seen := seen[key := nowMs];
      if |seen| > size {
        EvictLocked(nowMs);
      }
      outCount := outCount + 1;
      return true;
    }

    method Reset()
      modifies this`seen
      ensures seen == map[]
    {
      seen := map[];
    }

    method EvictLocked(nowMs: int)
      modifies this`seen
      ensures Evicts(Limits(), old(seen), nowMs, seen)
    {
      DropStale(nowMs);
      if size <= 0 || |seen| <= size {
        return;
      }
      var entries := Entries();
      entries := Sort(entries, (e: Entry) => e.ts as real);
      DropOldest(entries);
    }

    /** The first deletion loop: over the map, in any order. */
    method DropStale(nowMs: int)
      modifies this`seen
      ensures seen == Live(old(seen), nowMs, ttlMs)
    {
      var rest := seen.Keys;
      while rest != {}
        invariant rest <= old(seen).Keys
        invariant seen == map k | k in old(seen) && (k in rest || nowMs - old(seen)[k] < ttlMs) :: old(seen)[k]
        decreases rest
      {
        var k :| k in rest;
        rest := rest - {k};
        if nowMs - seen[k] >= ttlMs {
          seen := seen - {k};
        }
      }
    }

    /** The map as a list, in any order. */
    method Entries() returns (es: seq<Entry>)
      ensures multiset(es) == multiset(Items(seen))
    {
      hide Items;
      es := [];
      var rest := seen.Keys;
      assert Items(map[]) == {};
      assert seen - rest == map[];
      while rest != {}
        invariant rest <= seen.Keys
        invariant multiset(es) == multiset(Items(seen - rest))
        decreases rest
      {
        var k :| k in rest;
        es := es + [Entry(k, seen[k])];
        var listed := seen - rest;
        rest := rest - {k};
        assert (seen - rest) - {k} == listed;
        ItemsWithout(seen - rest, k);
      }
      assert seen - rest == seen;
    }

    /** The second deletion loop: oldest first, down to the capacity. */
    method DropOldest(entries: seq<Entry>)
      requires 0 < size < |seen|
      requires multiset(entries) == multiset(Items(seen))
      requires SortedBy(entries, (e: Entry) => e.ts as real)
      modifies this`seen
      ensures SubMap(seen, old(seen)) && |seen| == size
      ensures forall k, j :: k in old(seen) && k !in seen && j in seen ==> old(seen)[k] <= seen[j]
    {
      hide Items, SortedBy;
      var i := 0;
      while i < |entries| && |seen| > size
        invariant 0 <= i <= |entries|
        invariant SubMap(seen, old(seen)) && |seen| >= size
        invariant multiset(entries[i..]) == multiset(Items(seen))
        invariant forall k :: k in old(seen) && k !in seen ==> Entry(k, old(seen)[k]) in entries[..i]
      {
        Head(entries, i, seen);
        ItemsWithout(seen, entries[i].key);
        seen := seen - {entries[i].key};
        i := i + 1;
      }
      if i == |entries| {
        NothingLeft(seen);
      }
      forall k, j | k in old(seen) && k !in seen && j in seen
        ensures old(seen)[k] <= seen[j]
      {
        OldestFirst(entries, i, Entry(k, old(seen)[k]), Entry(j, seen[j]), seen);
      }
    }
  }

  lemma NothingLeft(m: Seen)
    requires multiset(Items(m)) == multiset{}
    ensures |m| == 0
  {
    assert forall k :: k in m ==> Entry(k, m[k]) in multiset(Items(m));
    assert m == map[];
  }

  lemma Head(es: seq<Entry>, i: nat, m: Seen)
    requires i < |es| && multiset(es[i..]) == multiset(Items(m))
    ensures es[i].key in m && m[es[i].key] == es[i].ts
    ensures multiset(es[i + 1..]) == multiset(es[i..]) - multiset{es[i]}
  {
    assert es[i..] == [es[i]] + es[i + 1..];
    assert es[i] in multiset(es[i..]);
  }

  lemma OldestFirst(es: seq<Entry>, i: nat, gone: Entry, kept: Entry, m: Seen)
    requires i <= |es| && SortedBy(es, (e: Entry) => e.ts as real)
    requires multiset(es[i..]) == multiset(Items(m))
    requires gone in es[..i] && kept in Items(m)
    ensures gone.ts <= kept.ts
  {
    assert kept in multiset(es[i..]);
    var j :| 0 <= j < |es[i..]| && es[i..][j] == kept;
    var k :| 0 <= k < i && es[k] == gone;
    var key := (e: Entry) => e.ts as real;
    assert key(es[k]) <= key(es[i + j]);
  }

  ghost function Items(m: Seen): (es: set<Entry>)
    ensures forall e :: e in es <==> e.key in m && m[e.key] == e.ts
  {
    set k | k in m :: Entry(k, m[k])
  }

  lemma ItemsWithout(m: Seen, k: Key)
    requires k in m
    ensures Items(m - {k}) == Items(m) - {Entry(k, m[k])} && Entry(k, m[k]) in Items(m)
    ensures multiset(Items(m - {k})) == multiset(Items(m)) - multiset{Entry(k, m[k])}
    ensures |m - {k}| == |m| - 1
  {
    var rest := m - {k};
    forall e | e in Items(m) - {Entry(k, m[k])} ensures e in Items(rest) {
      assert e.key in rest && rest[e.key] == e.ts;
    }
    forall e | e in Items(rest) ensures e in Items(m) - {Entry(k, m[k])} {
      assert e.key in m && m[e.key] == e.ts && e.key != k;
    }
    assert rest.Keys == m.Keys - {k};
    assert |rest| == |rest.Keys|;
  }
}
