/** Pricing a market order by sweeping the opposing side of the book, and the amounts
    that are signed for it. */
module MarketSweep {
  import opened Results
  import opened Decimals
  import opened Sorting
  import opened OrderAmounts

  datatype Level = Level(price: real, size: real)

  datatype RawLevel = RawLevel(price: string, size: string)

  datatype SweepError = BookLookupFailed | NoOpposingOrders | BadLevel(error: AmountError) | InsufficientLiquidity

  type Swept = Result<real, SweepError>

  /** p is at least as good a price for the taker as limit. */
  predicate AtOrBetter(side: Side, p: real, limit: real) {
    if side == BUY then p <= limit else p >= limit
  }

  predicate Better(side: Side, p: real, q: real) {
    if side == BUY then p < q else p > q
  }

  /** What a level adds to the running sum: its notional for a BUY, its shares for a SELL. */
  function Weight(side: Side, l: Level): real {
    if side == BUY then Notional(l.price, l.size) else l.size
  }

  ghost predicate NonNegative(levels: seq<Level>) {
    forall i :: 0 <= i < |levels| ==> levels[i].price >= 0.0 && levels[i].size >= 0.0
  }

  function Add(side: Side, l: Level, limit: real): real {
    if AtOrBetter(side, l.price, limit) then Weight(side, l) else 0.0
  }

  /** Cumulative depth at the limit price or better, in whatever order the levels come. */
  function Depth(side: Side, levels: seq<Level>, limit: real): real {
    if levels == [] then 0.0 else
    Depth(side, levels[..|levels| - 1], limit) + Add(side, levels[|levels| - 1], limit)
  }

  function TotalDepth(side: Side, levels: seq<Level>): real {
    if levels == [] then 0.0 else TotalDepth(side, levels[..|levels| - 1]) + Weight(side, levels[|levels| - 1])
  }

  ghost predicate HasPrice(levels: seq<Level>, p: real) {
    exists i :: 0 <= i < |levels| && levels[i].price == p
  }

  /** p is the best level price at which the depth reaches the amount. */
  ghost predicate IsSweepPrice(side: Side, levels: seq<Level>, amount: real, p: real) {
    && HasPrice(levels, p)
    && Depth(side, levels, p) >= amount
    && forall i :: 0 <= i < |levels| && Better(side, levels[i].price, p) ==> Depth(side, levels, levels[i].price) < amount
  }

  ghost predicate IsWorstPrice(side: Side, levels: seq<Level>, p: real) {
    HasPrice(levels, p) && forall i :: 0 <= i < |levels| ==> AtOrBetter(side, levels[i].price, p)
  }

  // ----- the answer does not depend on the order of the levels --------------------------------

  lemma LastStaysLast(levels: seq<Level>, j: nat)
    requires j < |levels| - 1
    ensures var n := |levels| - 1;
            var rest := levels[..j] + levels[j + 1..];
            && |rest| == n && rest[n - 1] == levels[n]
            && rest[..n - 1] == levels[..n][..j] + levels[..n][j + 1..]
  {
    var n := |levels| - 1;
    var rest := levels[..j] + levels[j + 1..];
    assert rest == (levels[..j] + levels[j + 1..n]) + [levels[n]];
    assert levels[..n][..j] == levels[..j] && levels[..n][j + 1..] == levels[j + 1..n];
  }

  lemma {:induction false} DepthWithout(side: Side, levels: seq<Level>, limit: real, j: nat)
    requires j < |levels|
    ensures Depth(side, levels, limit) == Depth(side, levels[..j] + levels[j + 1..], limit) + Add(side, levels[j], limit)
    ensures TotalDepth(side, levels) == TotalDepth(side, levels[..j] + levels[j + 1..]) + Weight(side, levels[j])
    decreases |levels|
  {
    hide Add, Weight;
    var n := |levels| - 1;
    if j == n {
      assert levels[..j] + levels[j + 1..] == levels[..n];
    } else {
      DepthWithout(side, levels[..n], limit, j);
      LastStaysLast(levels, j);
    }
  }

  lemma {:induction false} DepthOfPermutation(side: Side, a: seq<Level>, b: seq<Level>, limit: real)
    requires multiset(a) == multiset(b)
    ensures Depth(side, a, limit) == Depth(side, b, limit)
    ensures TotalDepth(side, a) == TotalDepth(side, b)
    decreases |a|
  {
    hide Add, Weight;
    assert |a| == |multiset(a)| == |multiset(b)| == |b|;
    if a != [] {
      var n := |a| - 1;
      var x := a[n];
      var j := MemberOfPermutation(a, b, n);
      DepthWithout(side, b, limit, j);
      MultisetWithout(b, j);
      MultisetWithout(a, n);
      assert a[..n] + a[n + 1..] == a[..n];
      DepthOfPermutation(side, a[..n], b[..j] + b[j + 1..], limit);
    }
  }

  lemma MultisetWithout(b: seq<Level>, j: nat)
    requires j < |b|
    ensures multiset(b[..j] + b[j + 1..]) == multiset(b) - multiset{b[j]}
  {
    assert b == b[..j] + [b[j]] + b[j + 1..];
  }

  lemma MemberOfPermutation(a: seq<Level>, b: seq<Level>, i: nat) returns (j: nat)
    requires multiset(a) == multiset(b) && i < |a|
    ensures j < |b| && b[j] == a[i]
  {
    assert a[i] in multiset(a);
    assert a[i] in multiset(b);
    j :| 0 <= j < |b| && b[j] == a[i];
  }

  lemma SamePrices(a: seq<Level>, b: seq<Level>, p: real)
    requires multiset(a) == multiset(b)
    ensures HasPrice(a, p) <==> HasPrice(b, p)
    ensures NonNegative(a) <==> NonNegative(b)
  {
    forall i | 0 <= i < |a| ensures exists j :: 0 <= j < |b| && b[j] == a[i] {
      var j := MemberOfPermutation(a, b, i);
    }
    forall i | 0 <= i < |b| ensures exists j :: 0 <= j < |a| && a[j] == b[i] {
      var j := MemberOfPermutation(b, a, i);
    }
  }

  lemma SweepPriceOfPermutation(side: Side, a: seq<Level>, b: seq<Level>, amount: real, p: real)
    requires multiset(a) == multiset(b) && IsSweepPrice(side, a, amount, p)
    ensures IsSweepPrice(side, b, amount, p)
  {
    hide Depth;
    DepthOfPermutation(side, a, b, p);
    SamePrices(a, b, p);
    forall i | 0 <= i < |b| && Better(side, b[i].price, p)
      ensures Depth(side, b, b[i].price) < amount
    {
      SamePrices(a, b, b[i].price);
      DepthOfPermutation(side, a, b, b[i].price);
    }
  }

  /** At most one price is the sweep price, whatever the order of the levels. */
  lemma SweepPriceIsUnique(side: Side, a: seq<Level>, b: seq<Level>, amount: real, p: real, q: real)
    requires multiset(a) == multiset(b)
    requires IsSweepPrice(side, a, amount, p) && IsSweepPrice(side, b, amount, q)
    ensures p == q
  {
    SweepPriceOfPermutation(side, b, a, amount, q);
    hide Depth;
  }

  // ----- the sweep ------------------------------------------------------------------------------

  ghost predicate BestFirst(side: Side, s: seq<Level>) {
    forall i, j :: 0 <= i < j < |s| ==> AtOrBetter(side, s[i].price, s[j].price)
  }

  lemma {:induction false} DepthGrows(side: Side, s: seq<Level>, limit: real, k: nat)
    requires NonNegative(s) && k <= |s|
    ensures 0.0 <= Depth(side, s[..k], limit) <= Depth(side, s, limit)
    ensures Depth(side, s, limit) <= TotalDepth(side, s)
    decreases |s|
  {
    hide Add, Weight;
    if s != [] {
      var n := |s| - 1;
      AddGrows(side, s[n], limit);
      assert NonNegative(s[..n]);
      if k <= n {
        DepthGrows(side, s[..n], limit, k);
        assert s[..n][..k] == s[..k];
      } else {
        DepthGrows(side, s[..n], limit, n);
        assert s[..k] == s && s[..n][..n] == s[..n];
      }
    }
  }

  lemma AddGrows(side: Side, l: Level, limit: real)
    requires l.price >= 0.0 && l.size >= 0.0
    ensures 0.0 <= Add(side, l, limit) <= Weight(side, l)
  {
    NonNegativeProduct(l.size, l.price);
  }

  /** If the first k levels are within the limit, their whole depth counts. */
  lemma {:induction false} PrefixWithinLimit(side: Side, s: seq<Level>, limit: real, k: nat)
    requires k <= |s| && forall i :: 0 <= i < k ==> AtOrBetter(side, s[i].price, limit)
    ensures Depth(side, s[..k], limit) == TotalDepth(side, s[..k])
    decreases k
  {
    hide Weight;
    if k > 0 {
      PrefixWithinLimit(side, s, limit, k - 1);
      assert s[..k][..k - 1] == s[..k - 1];
    }
  }

  /** If no level from k on is within the limit, the depth is that of the first k. */
  lemma {:induction false} NothingBeyond(side: Side, s: seq<Level>, limit: real, k: nat)
    requires k <= |s| && forall i :: k <= i < |s| ==> !AtOrBetter(side, s[i].price, limit)
    ensures Depth(side, s, limit) == Depth(side, s[..k], limit)
    decreases |s|
  {
    hide Weight;
    if k < |s| {
      var n := |s| - 1;
      NothingBeyond(side, s[..n], limit, k);
      assert s[..n][..k] == s[..k];
    } else {
      assert s[..k] == s;
    }
  }

  /** In best-first order, the first level at which the running sum reaches the amount
      has the sweep price. */
  lemma FirstCrossingIsSweepPrice(side: Side, s: seq<Level>, amount: real, k: nat)
    requires NonNegative(s) && BestFirst(side, s) && k < |s|
    requires k == 0 || TotalDepth(side, s[..k]) < amount
    requires TotalDepth(side, s[..k + 1]) >= amount
    ensures IsSweepPrice(side, s, amount, s[k].price)
  {
    hide Depth, TotalDepth;
    var p := s[k].price;
    PrefixWithinLimit(side, s, p, k + 1);
    DepthGrows(side, s, p, k + 1);
    forall i | 0 <= i < |s| && Better(side, s[i].price, p)
      ensures Depth(side, s, s[i].price) < amount
    {
      assert i < k;
      var q := s[i].price;
      forall j | k <= j < |s| ensures !AtOrBetter(side, s[j].price, q) {
        assert j == k || AtOrBetter(side, s[k].price, s[j].price);
      }
      NothingBeyond(side, s, q, k);
      assert NonNegative(s[..k]);
      DepthGrows(side, s[..k], q, k);
    }
  }

  /** With too little depth no price is a sweep price. */
  lemma ShortBookHasNone(side: Side, levels: seq<Level>, amount: real, p: real)
    requires NonNegative(levels) && TotalDepth(side, levels) < amount
    ensures !IsSweepPrice(side, levels, amount, p)
  {
    DepthGrows(side, levels, p, |levels|);
    hide Depth, TotalDepth;
  }

  function ParseLevel(parse: Parser, r: RawLevel): Result<Level, AmountError> {
    match ParseRat(parse, r.price)
    case Err(e) => Err(e)
    case Ok(price) =>
      match ParseRat(parse, r.size)
      case Err(e) => Err(e)
      case Ok(size) => Ok(Level(price, size))
  }

  function ParseLevels(parse: Parser, raw: seq<RawLevel>): (p: Result<seq<Level>, AmountError>)
    ensures p.Ok? ==> |p.value| == |raw|
  {
    if raw == [] then Ok([]) else
    match ParseLevels(parse, raw[..|raw| - 1])
    case Err(e) => Err(e)
    case Ok(ls) =>
      match ParseLevel(parse, raw[|raw| - 1])
      case Err(e) => Err(e)
      case Ok(l) => Ok(ls + [l])
  }

  /** The levels are read where they stand, price as price and size as size; the first
      that cannot be read is the error. */
  lemma {:induction false} LevelsAreRead(parse: Parser, raw: seq<RawLevel>)
    ensures match ParseLevels(parse, raw) {
      case Ok(levels) =>
        forall i :: 0 <= i < |raw| ==>
          && parse(TrimSpace(raw[i].price)) == Some(levels[i].price) && parse(TrimSpace(raw[i].size)) == Some(levels[i].size)
          && TrimSpace(raw[i].price) != "" && TrimSpace(raw[i].size) != ""
      case Err(e) =>
        exists i :: 0 <= i < |raw| && ParseLevels(parse, raw[..i]).Ok? &&
          (ParseRat(parse, raw[i].price) == Err(e) || (ParseRat(parse, raw[i].price).Ok? && ParseRat(parse, raw[i].size) == Err(e)))
    }
  {
    hide TrimSpace;
    if raw != [] {
      var n := |raw| - 1;
      LevelsAreRead(parse, raw[..n]);
      if ParseLevels(parse, raw[..n]).Err? {
        var i :| 0 <= i < n && ParseLevels(parse, raw[..n][..i]).Ok? &&
          (ParseRat(parse, raw[..n][i].price) == Err(ParseLevels(parse, raw).error) ||
           (ParseRat(parse, raw[..n][i].price).Ok? && ParseRat(parse, raw[..n][i].size) == Err(ParseLevels(parse, raw).error)));
        assert raw[..n][..i] == raw[..i];
      } else if ParseLevels(parse, raw).Err? {
        assert ParseLevels(parse, raw[..n]).Ok?;
      }
    }
  }

  /** What the sweep answers on parsed levels: for a book without negative numbers the
      sweep price if the whole depth suffices, and otherwise an error (fill or kill) or
      the worst price (fill and kill). */
  ghost predicate Answers(side: Side, levels: seq<Level>, amount: real, fok: bool, r: Swept) {
    && (r.Ok? ==> HasPrice(levels, r.value))
    && (r.Err? ==> r.error == InsufficientLiquidity && fok)
    && (NonNegative(levels) ==>
          if TotalDepth(side, levels) >= amount then r.Ok? && IsSweepPrice(side, levels, amount, r.value)
          else if fok then r.Err?
          else r.Ok? && IsWorstPrice(side, levels, r.value))
  }

  /** What pricing may answer for the opposing side of a raw book, None if the lookup of
      the book failed. */
  ghost predicate SweepAnswers(parse: Parser, side: Side, book: Option<seq<RawLevel>>, amount: real, fok: bool, swept: Swept) {
    match book
    case None => swept == Err(BookLookupFailed)
    case Some(raw) =>
      if raw == [] then swept == Err(NoOpposingOrders)
      else match ParseLevels(parse, raw)
        case Err(e) => swept == Err(BadLevel(e))
        case Ok(levels) => Answers(side, levels, amount, fok, swept)
  }

  method MarketOrderPrice(parse: Parser, side: Side, book: Option<seq<RawLevel>>, amount: real, fok: bool) returns (r: Swept)
    ensures SweepAnswers(parse, side, book, amount, fok, r)
  {
    if book.None? {
      return Err(BookLookupFailed);
    }
    var raw := book.value;
    if raw == [] {
      return Err(NoOpposingOrders);
    }
    var levels: seq<Level> := [];
    var i := 0;
    while i < |raw|
      invariant 0 <= i <= |raw|
      invariant ParseLevels(parse, raw[..i]) == Ok(levels)
    {
      assert raw[..i + 1][..i] == raw[..i];
      match ParseLevel(parse, raw[i]) {
        case Err(e) =>
          StillUnparsable(parse, raw, i + 1);
          return Err(BadLevel(e));
        case Ok(l) => levels := levels + [l];
      }
      i := i + 1;
    }
    assert raw[..i] == raw;
    r := Sweep(side, levels, amount, fok);
  }

  lemma {:induction false} StillUnparsable(parse: Parser, raw: seq<RawLevel>, k: nat)
    requires k <= |raw| && ParseLevels(parse, raw[..k]).Err?
    ensures ParseLevels(parse, raw) == ParseLevels(parse, raw[..k])
    decreases |raw|
  {
    if k < |raw| {
      var front := raw[..|raw| - 1];
      assert front[..k] == raw[..k];
      StillUnparsable(parse, front, k);
    } else {
      assert raw[..k] == raw;
    }
  }

  function SortKey(side: Side): Level -> real {
    if side == BUY then (l: Level) => l.price else (l: Level) => -l.price
  }

  method Sweep(side: Side, levels: seq<Level>, amount: real, fok: bool) returns (r: Swept)
    requires levels != []
    ensures Answers(side, levels, amount, fok, r)
  {
    var sorted := Sort(levels, SortKey(side));
    assert |sorted| == |multiset(sorted)| == |levels|;
    assert BestFirst(side, sorted);
    forall p ensures HasPrice(sorted, p) <==> HasPrice(levels, p) {
      SamePrices(sorted, levels, p);
    }
    SamePrices(sorted, levels, 0.0);
    DepthOfPermutation(side, sorted, levels, 0.0);
    hide SortedBy, BestFirst, IsSweepPrice, HasPrice, NonNegative, Depth, TotalDepth, Weight;
    var sum := 0.0;
    var k := 0;
    while k < |sorted|
      invariant 0 <= k <= |sorted|
      invariant sum == TotalDepth(side, sorted[..k])
      invariant k > 0 ==> sum < amount
    {
      RunningSum(side, sorted, k);
      sum := sum + Weight(side, sorted[k]);
      if sum >= amount {
        FoundCrossing(side, levels, sorted, amount, fok, k);
        return Ok(sorted[k].price);
      }
      k := k + 1;
    }
    assert sorted[..k] == sorted;
    if fok {
      return Err(InsufficientLiquidity);
    }
    WorstIsLast(side, levels, sorted);
    return Ok(sorted[|sorted| - 1].price);
  }

  lemma RunningSum(side: Side, s: seq<Level>, k: nat)
    requires k < |s|
    ensures TotalDepth(side, s[..k + 1]) == TotalDepth(side, s[..k]) + Weight(side, s[k])
    ensures TotalDepth(side, s[..0]) == 0.0
  {
    assert s[..k + 1][..k] == s[..k];
  }

  lemma FoundCrossing(side: Side, levels: seq<Level>, sorted: seq<Level>, amount: real, fok: bool, k: nat)
    requires multiset(sorted) == multiset(levels) && BestFirst(side, sorted) && k < |sorted|
    requires k == 0 || TotalDepth(side, sorted[..k]) < amount
    requires TotalDepth(side, sorted[..k + 1]) >= amount
    ensures Answers(side, levels, amount, fok, Ok(sorted[k].price))
  {
    SamePrices(sorted, levels, sorted[k].price);
    if NonNegative(levels) {
      FirstCrossingIsSweepPrice(side, sorted, amount, k);
      DepthGrows(side, sorted, sorted[k].price, |sorted|);
      DepthOfPermutation(side, sorted, levels, sorted[k].price);
      SweepPriceOfPermutation(side, sorted, levels, amount, sorted[k].price);
      hide Depth, TotalDepth;
    }
  }

  lemma WorstIsLast(side: Side, levels: seq<Level>, sorted: seq<Level>)
    requires multiset(sorted) == multiset(levels) && BestFirst(side, sorted) && sorted != []
    ensures IsWorstPrice(side, levels, sorted[|sorted| - 1].price)
  {
    var p := sorted[|sorted| - 1].price;
    SamePrices(sorted, levels, p);
    forall i | 0 <= i < |levels| ensures AtOrBetter(side, levels[i].price, p) {
      SamePrices(sorted, levels, levels[i].price);
    }
  }

  /** The whole answer is the same for every order in which the book lists its levels. */
  lemma AnswersIgnoreOrder(side: Side, a: seq<Level>, b: seq<Level>, amount: real, fok: bool, ra: Swept, rb: Swept)
    requires multiset(a) == multiset(b) && NonNegative(a)
    requires Answers(side, a, amount, fok, ra) && Answers(side, b, amount, fok, rb)
    ensures ra == rb
  {
    hide Depth, TotalDepth, IsSweepPrice, IsWorstPrice, HasPrice;
    DepthOfPermutation(side, a, b, 0.0);
    SamePrices(a, b, 0.0);
    if TotalDepth(side, a) >= amount {
      SweepPriceIsUnique(side, a, b, amount, ra.value, rb.value);
    } else if !fok {
      WorstPriceIsUnique(side, a, b, ra.value, rb.value);
    }
  }

  lemma WorstPriceIsUnique(side: Side, a: seq<Level>, b: seq<Level>, p: real, q: real)
    requires multiset(a) == multiset(b) && IsWorstPrice(side, a, p) && IsWorstPrice(side, b, q)
    ensures p == q
  {
    SamePrices(a, b, p);
    SamePrices(a, b, q);
  }
}
