/** The amounts signed for a market order, and why a swept fill-or-kill order can be
    filled against the book it was priced from. */
module MarketOrder {
  import opened Results
  import opened Decimals
  import opened OrderAmounts
  import opened MarketSweep
  import LiveGate

  datatype Draft = Draft(makerAmount: int, takerAmount: int, price: real)

  datatype DraftError = BadAmount(error: AmountError) | AmountNotPositive | BadPrice(error: AmountError)
                      | PriceNotPositive | BelowPrecision | SweepFailed(why: SweepError) | TickLookupFailed

  type Drafted = Result<Draft, DraftError>

  /** The maker and taker quantities before they become base units: dollars to two
      places, shares to two places more than the tick. */
  function MakerTaker(side: Side, amount: real, price: real, tickScale: nat): (real, real)
    requires price > 0.0
  {
    if side == BUY then
      var maker := TruncateRat(amount, 2);
      (maker, TruncateRat(maker / price, tickScale + 2))
    else
      var maker := TruncateRat(amount, tickScale + 2);
      (maker, TruncateRat(Notional(price, maker), 2))
  }

  function Amounts(side: Side, amount: real, price: real, tickScale: nat): Drafted
    requires price > 0.0
  {
    var (maker, taker) := MakerTaker(side, amount, price, tickScale);
    if maker <= 0.0 then Err(BelowPrecision)
    else Ok(Draft(FixedDecimal(maker, DECIMALS), FixedDecimal(taker, DECIMALS), price))
  }

  /** The draft for a limit price, wherever it came from. */
  function AtPrice(side: Side, amount: real, price: real, tickScale: nat): Drafted {
    if price <= 0.0 then Err(PriceNotPositive) else Amounts(side, amount, price, tickScale)
  }

  /** `price` is the caller's worst acceptable price, empty to sweep `book`. Tick
      size and book are what the lookups returned, None if they failed. */
  method MarketOrderDraft(parse: Parser, side: Side, amountRaw: string, price: string, fok: bool,
                          tick: Option<Tick>, book: Option<seq<RawLevel>>) returns (r: Drafted, ghost swept: Swept)
    ensures match ParseRat(parse, amountRaw) {
      case Err(e) => r == Err(BadAmount(e))
      case Ok(amount) =>
        if amount <= 0.0 then r == Err(AmountNotPositive)
        else if tick.None? then r == Err(TickLookupFailed)
        else
          var scale := DecimalPlaces(TickText(tick.value));
          if TrimSpace(price) != "" then
            match ParseRat(parse, price) {
              case Err(e) => r == Err(BadPrice(e))
              case Ok(p) => r == AtPrice(side, amount, p, scale)
            }
          else
            && SweepAnswers(parse, side, book, amount, fok, swept)
            && match swept {
              case Err(e) => r == Err(SweepFailed(e))
              case Ok(p) => r == AtPrice(side, amount, p, scale)
            }
    }
    ensures r.Ok? ==>
            && ParseRat(parse, amountRaw).Ok? && tick.Some?
            && BestDraft(side, ParseRat(parse, amountRaw).value, DecimalPlaces(TickText(tick.value)), r.value)
  {
    hide Answers, Amounts, DecimalPlaces, TrimSpace;
    swept := Err(NoOpposingOrders);
    var amount: real;
    match ParseRat(parse, amountRaw) {
      case Err(e) => return Err(BadAmount(e)), swept;
      case Ok(a) => amount := a;
    }
    if amount <= 0.0 {
      return Err(AmountNotPositive), swept;
    }
    if tick.None? {
      return Err(TickLookupFailed), swept;
    }
    var tickScale := DecimalPlaces(TickText(tick.value));
    var limit: real;
    if TrimSpace(price) != "" {
      match ParseRat(parse, price) {
        case Err(e) => return Err(BadPrice(e)), swept;
        case Ok(p) => limit := p;
      }
    } else {
      var found := MarketOrderPrice(parse, side, book, amount, fok);
      swept := found;
      match found {
        case Err(e) => return Err(SweepFailed(e)), swept;
        case Ok(p) => limit := p;
      }
    }
    if limit <= 0.0 {
      return Err(PriceNotPositive), swept;
    }
    AmountsAreBest(side, amount, limit, tickScale);
    hide BestDraft;
    r := Amounts(side, amount, limit, tickScale);
  }

  // ----- filling against the book ---------------------------------------------------------------

  /** Shares available at the limit price or better. */
  function SharesWithin(side: Side, s: seq<Level>, limit: real): real {
    if s == [] then 0.0 else
    (if AtOrBetter(side, s[0].price, limit) then s[0].size else 0.0) + SharesWithin(side, s[1..], limit)
  }

  /** What taking `shares` from the front of the list costs (or yields). */
  function FillValue(s: seq<Level>, shares: real): real {
    if s == [] || shares <= 0.0 then 0.0 else
    var take := if s[0].size <= shares then s[0].size else shares;
    Notional(s[0].price, take) + FillValue(s[1..], shares - take)
  }

  lemma NotionalOrder(p: real, q: real, size: real)
    requires p <= q && size >= 0.0
    ensures Notional(p, size) <= Notional(q, size)
  {
    NonNegativeProduct(size, q - p);
  }

  lemma NotionalAdds(p: real, a: real, b: real)
    ensures Notional(p, a + b) == Notional(p, a) + Notional(p, b) && Notional(p, 0.0) == 0.0
  {}

  lemma {:induction false} NoneWithin(side: Side, s: seq<Level>, limit: real)
    requires forall i :: 0 <= i < |s| ==> !AtOrBetter(side, s[i].price, limit)
    ensures SharesWithin(side, s, limit) == 0.0
  {
    if s != [] {
      NoneWithin(side, s[1..], limit);
    }
  }

  /** Taking no more shares than are offered within the limit, best first, costs at most
      (for a SELL: yields at least) the limit price per share. */
  lemma {:induction false} FillsWithinLimit(side: Side, s: seq<Level>, limit: real, shares: real)
    requires NonNegative(s) && BestFirst(side, s) && 0.0 <= shares <= SharesWithin(side, s, limit)
    ensures side == BUY ==> FillValue(s, shares) <= Notional(limit, shares)
    ensures side == SELL ==> FillValue(s, shares) >= Notional(limit, shares)
    decreases |s|
  {
    hide Notional;
    NotionalAdds(limit, 0.0, 0.0);
    if s != [] && shares > 0.0 {
      var take := if s[0].size <= shares then s[0].size else shares;
      if !AtOrBetter(side, s[0].price, limit) {
        NoneWithin(side, s, limit);
      }
      if side == BUY {
        NotionalOrder(s[0].price, limit, take);
      } else {
        NotionalOrder(limit, s[0].price, take);
      }
      NotionalAdds(limit, take, shares - take);
      assert NonNegative(s[1..]) && BestFirst(side, s[1..]);
      SharesNonNegative(side, s[1..], limit);
      FillsWithinLimit(side, s[1..], limit, shares - take);
    }
  }

  lemma {:induction false} SharesNonNegative(side: Side, s: seq<Level>, limit: real)
    requires NonNegative(s)
    ensures SharesWithin(side, s, limit) >= 0.0
  {
    if s != [] {
      assert NonNegative(s[1..]);
      SharesNonNegative(side, s[1..], limit);
    }
  }

  lemma DepthFromFront(side: Side, s: seq<Level>, limit: real)
    requires s != []
    ensures Depth(side, s, limit) == Depth(side, s[1..], limit) + Add(side, s[0], limit)
  {
    DepthWithout(side, s, limit, 0);
    assert s[..0] + s[1..] == s[1..];
  }

  lemma NoDepth(side: Side, limit: real)
    ensures Depth(side, [], limit) == 0.0
  {}

  /** The depth within a limit is worth at most its shares at the limit price (BUY), and
      is the number of those shares (SELL). */
  lemma {:induction false} DepthInShares(side: Side, s: seq<Level>, limit: real)
    requires NonNegative(s)
    ensures side == BUY ==> Depth(side, s, limit) <= Notional(limit, SharesWithin(side, s, limit))
    ensures side == SELL ==> Depth(side, s, limit) == SharesWithin(side, s, limit)
  {
    hide Notional, Depth;
    NotionalAdds(limit, 0.0, 0.0);
    if s == [] {
      NoDepth(side, limit);
    } else {
      var tail := s[1..];
      assert NonNegative(tail);
      DepthInShares(side, tail, limit);
      DepthFromFront(side, s, limit);
      if AtOrBetter(side, s[0].price, limit) {
        if side == BUY {
          NotionalOrder(s[0].price, limit, s[0].size);
        }
        NotionalAdds(limit, s[0].size, SharesWithin(side, tail, limit));
      }
    }
  }

  /** Taking everything within a limit, best first, costs exactly the depth of a BUY. */
  lemma {:induction false} DepthIsCost(s: seq<Level>, limit: real)
    requires NonNegative(s) && BestFirst(BUY, s)
    ensures Depth(BUY, s, limit) == FillValue(s, SharesWithin(BUY, s, limit))
  {
    hide Notional, Depth, FillValue, BestFirst;
    NothingToTake(s);
    if s == [] {
      NoDepth(BUY, limit);
    } else {
      var tail := s[1..];
      TailIsBestFirst(BUY, s);
      DepthIsCost(tail, limit);
      DepthFromFront(BUY, s, limit);
      SharesNonNegative(BUY, tail, limit);
      TakeFirst(s, SharesWithin(BUY, tail, limit));
      NothingToTake(tail);
      if !AtOrBetter(BUY, s[0].price, limit) {
        NoneBeyondFirst(BUY, s, limit);
        NoneWithin(BUY, s, limit);
        NoneWithin(BUY, tail, limit);
      }
    }
  }

  lemma TailIsBestFirst(side: Side, s: seq<Level>)
    requires s != [] && NonNegative(s) && BestFirst(side, s)
    ensures NonNegative(s[1..]) && BestFirst(side, s[1..])
  {}

  lemma NoneBeyondFirst(side: Side, s: seq<Level>, limit: real)
    requires s != [] && BestFirst(side, s) && !AtOrBetter(side, s[0].price, limit)
    ensures forall i :: 0 <= i < |s| ==> !AtOrBetter(side, s[i].price, limit)
  {}

  lemma TakeFirst(s: seq<Level>, more: real)
    requires s != [] && s[0].size >= 0.0 && more >= 0.0
    ensures FillValue(s, s[0].size + more) == Notional(s[0].price, s[0].size) + FillValue(s[1..], more)
  {
    hide Notional;
    NotionalAdds(s[0].price, 0.0, 0.0);
    NothingToTake(s[1..]);
  }

  lemma NothingToTake(s: seq<Level>)
    ensures FillValue(s, 0.0) == 0.0
  {}

  /** What taking everything within a limit is worth in the amount's own terms: dollars
      paid by a BUY, shares taken by a SELL. */
  function Reach(side: Side, s: seq<Level>, limit: real): real {
    if side == BUY then FillValue(s, SharesWithin(side, s, limit)) else SharesWithin(side, s, limit)
  }

  lemma DepthIsReach(side: Side, s: seq<Level>, limit: real)
    requires NonNegative(s) && BestFirst(side, s)
    ensures Depth(side, s, limit) == Reach(side, s, limit)
  {
    if side == BUY {
      DepthIsCost(s, limit);
    } else {
      DepthInShares(side, s, limit);
    }
  }

  lemma {:induction false} SameDepth(side: Side, s: seq<Level>, p: real, q: real)
    requires forall i :: 0 <= i < |s| ==> (AtOrBetter(side, s[i].price, p) <==> AtOrBetter(side, s[i].price, q))
    ensures Depth(side, s, p) == Depth(side, s, q)
  {
    hide Weight;
    if s != [] {
      SameDepth(side, s[..|s| - 1], p, q);
    }
  }

  /** Of the first n levels, the worst one within a limit, if there is any. */
  lemma {:induction false} WorstWithin(side: Side, s: seq<Level>, limit: real, n: nat) returns (k: nat)
    requires n <= |s|
    ensures k <= n
    ensures k < n ==> AtOrBetter(side, s[k].price, limit) &&
                      forall i :: 0 <= i < n && AtOrBetter(side, s[i].price, limit) ==> AtOrBetter(side, s[i].price, s[k].price)
    ensures k == n ==> forall i :: 0 <= i < n ==> !AtOrBetter(side, s[i].price, limit)
  {
    k := n;
    if n > 0 {
      var j := WorstWithin(side, s, limit, n - 1);
      if !AtOrBetter(side, s[n - 1].price, limit) {
        k := if j < n - 1 then j else n;
      } else if j < n - 1 && AtOrBetter(side, s[n - 1].price, s[j].price) {
        k := j;
      } else {
        k := n - 1;
      }
    }
  }

  /** The swept price is the best limit that serves the whole amount: taking everything
      within it, best first, pays (for a SELL: takes) at least the amount, and within any
      better limit, quoted or not, less. */
  lemma SweptPriceIsBestLimit(side: Side, s: seq<Level>, amount: real, price: real, limit: real)
    requires NonNegative(s) && BestFirst(side, s) && amount > 0.0
    requires Answers(side, s, amount, true, Ok(price))
    ensures Reach(side, s, price) >= amount
    ensures Better(side, limit, price) ==> Reach(side, s, limit) < amount
  {
    hide Depth, TotalDepth, Reach;
    DepthIsReach(side, s, price);
    DepthIsReach(side, s, limit);
    if Better(side, limit, price) {
      var k := WorstWithin(side, s, limit, |s|);
      if k < |s| {
        SameDepth(side, s, limit, s[k].price);
        assert Better(side, s[k].price, price);
      } else {
        NoneDeep(side, s, limit);
      }
    }
  }

  lemma {:induction false} NoneDeep(side: Side, s: seq<Level>, limit: real)
    requires forall i :: 0 <= i < |s| ==> !AtOrBetter(side, s[i].price, limit)
    ensures Depth(side, s, limit) == 0.0
  {
    hide Weight;
    if s != [] {
      NoneDeep(side, s[..|s| - 1], limit);
    }
  }

  // ----- truncation -------------------------------------------------------------------------------

  /** Truncating loses less than one unit of the last kept place and never rounds up;
      and with at most six places kept, the base units are exact. */
  lemma TruncationLosesLittle(v: real, d: nat)
    requires v >= 0.0
    ensures var t := TruncateRat(v, d);
            && 0.0 <= t <= v
            && Scaled(v, d) - 1.0 < Scaled(t, d)
            && 0 <= FixedDecimal(t, DECIMALS)
            && FixedDecimal(t, DECIMALS) as real <= Scaled(t, DECIMALS)
            && (d <= DECIMALS ==> FixedDecimal(t, DECIMALS) as real == Scaled(t, DECIMALS))
  {
    var p := Pow10(d) as real;
    NonNegativeProduct(v, p);
    TruncBounds(Scaled(v, d));
    var m := Trunc(Scaled(v, d));
    var t := TruncateRat(v, d);
    UnitsBack(m, p, v);
    assert Scaled(t, d) == m as real;
    NonNegativeProduct(t, Pow10(DECIMALS) as real);
    TruncBounds(Scaled(t, DECIMALS));
    if d <= DECIMALS {
      MorePlaces(t, d, DECIMALS);
    }
  }

  lemma Cancel(x: real, y: real, p: real)
    requires p > 0.0 && x * p <= y * p
    ensures x <= y
  {
    assert x > y ==> (x - y) * p > 0.0;
  }

  lemma UnitsBack(m: int, p: real, v: real)
    requires p >= 1.0 && m >= 0 && m as real <= v * p
    ensures var t := m as real / p; t * p == m as real && 0.0 <= t <= v
  {
    var t := m as real / p;
    assert t * p == m as real;
    Cancel(t, v, p);
    Cancel(0.0, t, p);
  }

  lemma QuotientTimes(a: real, p: real, x: real)
    requires p > 0.0 && x <= a / p
    ensures Notional(p, x) <= a
  {
    assert (a / p) * p == a;
    NonNegativeProduct(a / p - x, p);
  }

  lemma SharesCover(a: real, p: real, shares: real)
    requires p > 0.0 && a <= Notional(p, shares)
    ensures a / p <= shares
  {
    assert (a / p) * p == a;
    Cancel(a / p, shares, p);
  }

  // ----- the amounts are the best that the precision allows -----------------------------------------

  /** The base units in one unit of place d; on places finer than base units, one more
      base unit that is cut as well. */
  function Precision(d: nat): real {
    if d <= DECIMALS then Pow10(DECIMALS - d) as real else 1.0 + 1.0 / Pow10(d - DECIMALS) as real
  }

  function InPlace(k: int, d: nat): real {
    k as real / Pow10(d) as real
  }

  /** Cutting to d places and then to base units loses less than the precision. */
  lemma CutUnits(v: real, d: nat)
    requires v >= 0.0
    ensures var t := TruncateRat(v, d);
            var units := FixedDecimal(t, DECIMALS);
            && units as real <= t * 1000000.0 < units as real + 1.0
            && units as real <= v * 1000000.0 < units as real + Precision(d)
            && (d <= DECIMALS ==> units as real == t * 1000000.0 && units % Pow10(DECIMALS - d) == 0)
  {
    TruncationLosesLittle(v, d);
    var t := TruncateRat(v, d);
    Millions(t);
    TruncBounds(Scaled(t, DECIMALS));
    var k := UnitsOfPlace(v, d);
    hide Trunc, Scaled, TruncateRat, Pow10, InPlace;
    if d <= DECIMALS {
      var units := CutCoarsely(v, d, k);
    } else {
      CutFinely(v, d, k);
    }
  }

  lemma UnitsOfPlace(v: real, d: nat) returns (k: nat)
    requires v >= 0.0
    ensures k as real <= Scaled(v, d) < k as real + 1.0 && TruncateRat(v, d) == InPlace(k, d)
  {
    NonNegativeProduct(v, Pow10(d) as real);
    TruncBounds(Scaled(v, d));
    k := Trunc(Scaled(v, d));
  }

  lemma Millions(x: real)
    ensures Pow10(DECIMALS) == 1000000 && Scaled(x, DECIMALS) == x * 1000000.0
    ensures x >= 0.0 ==> Scaled(x, DECIMALS) >= 0.0
  {}

  lemma CutCoarsely(v: real, d: nat, k: int) returns (units: int)
    requires d <= DECIMALS && k as real <= Scaled(v, d) < k as real + 1.0
    ensures units as real == InPlace(k, d) * 1000000.0 && units % Pow10(DECIMALS - d) == 0
    ensures units as real <= v * 1000000.0 < units as real + Pow10(DECIMALS - d) as real
  {
    hide Pow10, InPlace, Times;
    var q := Pow10(DECIMALS - d);
    CoarseUnits(v, d);
    CoarseUnits(InPlace(k, d), d);
    PlaceBack(k, d);
    hide Scaled;
    Stretch(Scaled(v, d), k as real, q as real);
    units := WholeTimes(k, q);
  }

  /** A product, for proofs in which the solver should not reason about it. */
  function Times(x: real, q: real): real {
    x * q
  }

  lemma WholeTimes(k: int, q: int) returns (units: int)
    requires q >= 1
    ensures units as real == Times(k as real, q as real) && units % q == 0
  {
    units := k * q;
    RealProduct(k, q);
    Multiple(k, q);
  }

  lemma CoarseUnits(x: real, d: nat)
    requires d <= DECIMALS
    ensures Times(Scaled(x, d), Pow10(DECIMALS - d) as real) == x * 1000000.0
  {
    var p, q := Pow10(d), Pow10(DECIMALS - d);
    Pow10Adds(d, DECIMALS - d);
    Millions(x);
    RealProduct(p, q);
    Regroup(x, p as real, q as real);
    hide Pow10;
  }

  lemma PlaceBack(k: int, d: nat)
    ensures InPlace(k, d) * Pow10(d) as real == k as real == Scaled(InPlace(k, d), d)
  {
    hide Pow10;
  }

  lemma Regroup(x: real, p: real, q: real)
    ensures x * (p * q) == (x * p) * q
  {}

  lemma Stretch(x: real, k: real, q: real)
    requires q > 0.0 && k <= x < k + 1.0
    ensures Times(k, q) <= Times(x, q) < Times(k, q) + q
  {
    hide Times;
    TimesOrder(k, x, q);
    TimesOrder(x, k + 1.0, q);
    OneMore(k, q);
  }

  lemma TimesOrder(x: real, y: real, q: real)
    requires q > 0.0
    ensures x <= y ==> Times(x, q) <= Times(y, q)
    ensures x < y ==> Times(x, q) < Times(y, q)
  {
    DearerLots(q, x, y);
  }

  lemma OneMore(k: real, q: real)
    ensures Times(k + 1.0, q) == Times(k, q) + q
  {}

  lemma Multiple(k: int, q: int)
    requires q >= 1
    ensures (k * q) % q == 0
  {
    var j := k - (k * q) / q;
    assert (k * q) % q == q * j;
    assert j < 0 ==> q * j < 0;
    assert j >= 1 ==> q * j >= q;
  }

  lemma CutFinely(v: real, d: nat, k: int)
    requires d > DECIMALS && k as real <= Scaled(v, d) < k as real + 1.0
    ensures InPlace(k, d) * 1000000.0 <= v * 1000000.0 < InPlace(k, d) * 1000000.0 + 1.0 / Pow10(d - DECIMALS) as real
  {
    hide Pow10, InPlace, Scaled, Times;
    var r := Pow10(d - DECIMALS);
    FineUnits(v, d);
    FineUnits(InPlace(k, d), d);
    PlaceBack(k, d);
    WithinPart(InPlace(k, d) * 1000000.0, v * 1000000.0, r as real);
  }

  lemma FineUnits(x: real, d: nat)
    requires d > DECIMALS
    ensures Times(x * 1000000.0, Pow10(d - DECIMALS) as real) == Scaled(x, d)
  {
    var r := Pow10(d - DECIMALS);
    Pow10Adds(DECIMALS, d - DECIMALS);
    Millions(x);
    RealProduct(1000000, r);
    Regroup(x, 1000000.0, r as real);
    hide Pow10;
  }

  lemma WithinPart(x: real, y: real, r: real)
    requires r >= 1.0 && Times(x, r) <= Times(y, r) < Times(x, r) + 1.0
    ensures x <= y < x + 1.0 / r
  {
    Cancel(x, y, r);
    LessThanPart(x, y, r);
  }

  lemma LessThanPart(x: real, y: real, r: real)
    requires r >= 1.0 && y * r < x * r + 1.0
    ensures y < x + 1.0 / r
  {
    var part := 1.0 / r;
    assert part * r == 1.0;
    assert (x + part) * r == x * r + part * r;
    CancelLess(y, x + part, r);
  }

  lemma CancelLess(x: real, y: real, p: real)
    requires p > 0.0 && x * p < y * p
    ensures x < y
  {
    assert x >= y ==> (x - y) * p >= 0.0;
  }

  /** The amounts of a BUY, in base units: the dollars are the greatest number of whole
      cents in the amount, and the shares the greatest quantity of the tick's precision
      that these dollars pay for at the price. */
  ghost predicate BestBuy(amount: real, price: real, tickScale: nat, dollars: int, shares: int) {
    var m, n := dollars as real, shares as real;
    && dollars % 10000 == 0 && m <= amount * 1000000.0 < m + 10000.0
    && price * n <= m < price * (n + Precision(tickScale + 2))
    && (tickScale <= 4 ==> shares % Pow10(4 - tickScale) == 0)
  }

  /** The amounts of a SELL: the shares are the greatest quantity of the tick's precision
      in the amount, and the dollars the greatest number of whole cents that these shares
      bring in at the price -- on a finer tick, with the base unit that was cut. */
  ghost predicate BestSell(amount: real, price: real, tickScale: nat, shares: int, dollars: int) {
    var m, n := shares as real, dollars as real;
    && m <= amount * 1000000.0 < m + Precision(tickScale + 2)
    && (tickScale <= 4 ==> shares % Pow10(4 - tickScale) == 0)
    && dollars % 10000 == 0
    && n <= price * (if tickScale <= 4 then m else m + 1.0) && price * m < n + 10000.0
  }

  ghost predicate BestDraft(side: Side, amount: real, tickScale: nat, d: Draft) {
    && d.price > 0.0
    && (side == BUY ==> BestBuy(amount, d.price, tickScale, d.makerAmount, d.takerAmount))
    && (side == SELL ==> BestSell(amount, d.price, tickScale, d.makerAmount, d.takerAmount))
  }

  /** The amounts are the best that the precision allows, and there are none exactly if the
      amount is less than a cent (BUY) or less than the tick's precision (SELL). */
  lemma AmountsAreBest(side: Side, amount: real, price: real, tickScale: nat)
    requires amount > 0.0 && price > 0.0
    ensures Amounts(side, amount, price, tickScale).Err? <==>
            if side == BUY then amount * 100.0 < 1.0 else Scaled(amount, tickScale + 2) < 1.0
    ensures Amounts(side, amount, price, tickScale).Ok? ==>
            BestDraft(side, amount, tickScale, Amounts(side, amount, price, tickScale).value)
  {
    MakerIs(side, amount, price, tickScale);
    hide MakerTaker, TruncateRat, FixedDecimal, Scaled, BestBuy, BestSell;
    if side == BUY {
      NothingLeft(amount, 2);
      Cents(amount);
      BuyIsBest(amount, price, tickScale);
    } else {
      NothingLeft(amount, tickScale + 2);
      SellIsBest(amount, price, tickScale);
    }
  }

  /** An order at a limit price has amounts exactly if price and amount are large enough;
      a price that is not positive is an error of its own. */
  lemma AmountsAtPriceIff(side: Side, amount: real, price: real, tickScale: nat)
    requires amount > 0.0
    ensures AtPrice(side, amount, price, tickScale) == Err(PriceNotPositive) <==> price <= 0.0
    ensures AtPrice(side, amount, price, tickScale).Ok? <==>
            price > 0.0 && if side == BUY then amount * 100.0 >= 1.0 else Scaled(amount, tickScale + 2) >= 1.0
    ensures AtPrice(side, amount, price, tickScale).Ok? ==> AtPrice(side, amount, price, tickScale).value.price == price
  {
    if price > 0.0 {
      AmountsAreBest(side, amount, price, tickScale);
    }
    hide MakerTaker, Scaled, BestDraft;
  }

  lemma MakerIs(side: Side, amount: real, price: real, tickScale: nat)
    requires price > 0.0
    ensures MakerTaker(side, amount, price, tickScale).0 == TruncateRat(amount, if side == BUY then 2 else tickScale + 2)
  {}

  lemma Cents(x: real)
    ensures Scaled(x, 2) == x * 100.0 && Pow10(4) == 10000
  {
    assert Pow10(2) == 100;
  }

  lemma NothingLeft(v: real, d: nat)
    requires v > 0.0
    ensures TruncateRat(v, d) <= 0.0 <==> Scaled(v, d) < 1.0
  {
    var k := UnitsOfPlace(v, d);
    hide TruncateRat, Pow10, Scaled;
    var p := Pow10(d) as real;
    var t := k as real / p;
    assert t * p == k as real;
    if k == 0 {
      Cancel(t, 0.0, p);
    } else {
      Positive(t, p);
    }
  }

  lemma Positive(t: real, p: real)
    requires p >= 1.0 && t * p >= 1.0
    ensures t > 0.0
  {
    if t <= 0.0 {
      NonNegativeProduct(-t, p);
    }
  }

  /** If n is within `step` below u, then n at the price is within `step` at the price. */
  lemma WithinStep(price: real, n: real, u: real, step: real)
    requires price > 0.0 && n <= u < n + step
    ensures price * n <= Notional(price, u) < price * (n + step)
  {
    AtPriceOf(price, u);
    hide Notional;
    DearerLots(price, n, u);
    DearerLots(price, u, n + step);
  }

  lemma DearerLots(price: real, a: real, b: real)
    requires price > 0.0
    ensures a <= b ==> price * a <= price * b
    ensures a < b ==> price * a < price * b
  {
    assert price * (b - a) == price * b - price * a;
    if a < b {
      assert price * (b - a) > 0.0;
    }
  }

  lemma BuyIsBest(amount: real, price: real, tickScale: nat)
    requires amount > 0.0 && price > 0.0
    ensures var (maker, taker) := MakerTaker(BUY, amount, price, tickScale);
            BestBuy(amount, price, tickScale, FixedDecimal(maker, DECIMALS), FixedDecimal(taker, DECIMALS))
  {
    hide TruncateRat, FixedDecimal, Pow10, Precision, Notional;
    Cents(amount);
    PrecisionOfCents();
    var maker := TruncateRat(amount, 2);
    TruncationLosesLittle(amount, 2);
    CutUnits(amount, 2);
    var v := maker / price;
    QuotientNonNegative(maker, price);
    CutUnits(v, tickScale + 2);
    PaidFor(maker, price);
    WithinStep(price, FixedDecimal(TruncateRat(v, tickScale + 2), DECIMALS) as real, v * 1000000.0, Precision(tickScale + 2));
  }

  lemma PrecisionOfCents()
    ensures Precision(2) == 10000.0
  {
    assert Pow10(4) == 10000;
  }

  lemma PaidFor(maker: real, price: real)
    requires price > 0.0
    ensures Notional(price, (maker / price) * 1000000.0) == maker * 1000000.0
  {
    var v := maker / price;
    assert v * price == maker;
    assert price * (v * 1000000.0) == (v * price) * 1000000.0;
  }

  lemma SellIsBest(amount: real, price: real, tickScale: nat)
    requires amount > 0.0 && price > 0.0
    ensures var (maker, taker) := MakerTaker(SELL, amount, price, tickScale);
            BestSell(amount, price, tickScale, FixedDecimal(maker, DECIMALS), FixedDecimal(taker, DECIMALS))
  {
    hide TruncateRat, FixedDecimal, Pow10, Precision, Notional;
    Cents(amount);
    PrecisionOfCents();
    var maker := TruncateRat(amount, tickScale + 2);
    TruncationLosesLittle(amount, tickScale + 2);
    CutUnits(amount, tickScale + 2);
    NotionalNonNegative(price, maker);
    CutUnits(Notional(price, maker), 2);
    BroughtIn(price, maker);
    WithinStep(price, FixedDecimal(maker, DECIMALS) as real, maker * 1000000.0, 1.0);
    if tickScale <= 4 {
      AtPriceOf(price, maker * 1000000.0);
    }
  }

  lemma BroughtIn(price: real, maker: real)
    ensures Notional(price, maker) * 1000000.0 == Notional(price, maker * 1000000.0)
  {}

  lemma AtPriceOf(price: real, u: real)
    ensures Notional(price, u) == price * u
  {}

  // ----- fillability --------------------------------------------------------------------------------

  /** The signed amounts can be filled best first within the limit price: a BUY finds its
      shares offered there and pays at most its dollars, a SELL finds its shares bid for
      there and receives at least its dollars. Amounts are in units of 10^-6. */
  ghost predicate Fillable(side: Side, s: seq<Level>, d: Draft) {
    if side == BUY then
      && d.takerAmount as real <= Scaled(SharesWithin(side, s, d.price), DECIMALS)
      && Scaled(FillValue(s, Unscaled(d.takerAmount)), DECIMALS) <= d.makerAmount as real
    else
      && d.makerAmount as real <= Scaled(SharesWithin(side, s, d.price), DECIMALS)
      && Scaled(FillValue(s, Unscaled(d.makerAmount)), DECIMALS) >= d.takerAmount as real
  }

  function Unscaled(units: int): real {
    units as real / Pow10(DECIMALS) as real
  }

  lemma UnscaledBounds(units: int, x: real)
    requires 0 <= units && units as real <= Scaled(x, DECIMALS)
    ensures 0.0 <= Unscaled(units) <= x && Scaled(Unscaled(units), DECIMALS) == units as real
    ensures units as real == Scaled(x, DECIMALS) ==> Unscaled(units) == x
  {
    UnitsBack(units, Pow10(DECIMALS) as real, x);
    var p := Pow10(DECIMALS) as real;
    assert units as real == x * p ==> x == units as real / p;
  }

  lemma ScaledOrder(x: real, y: real)
    requires x <= y
    ensures Scaled(x, DECIMALS) <= Scaled(y, DECIMALS)
  {
    NonNegativeProduct(y - x, Pow10(DECIMALS) as real);
  }

  lemma BuyIsFillable(s: seq<Level>, amount: real, tickScale: nat, price: real)
    requires NonNegative(s) && BestFirst(BUY, s) && amount > 0.0 && price > 0.0
    requires Depth(BUY, s, price) >= amount
    requires Amounts(BUY, amount, price, tickScale).Ok?
    ensures Fillable(BUY, s, Amounts(BUY, amount, price, tickScale).value)
  {
    hide TruncateRat, FixedDecimal, Scaled, Notional, Depth, Unscaled, FillValue, SharesWithin;
    var (maker, taker) := MakerTaker(BUY, amount, price, tickScale);
    var offered := SharesWithin(BUY, s, price);
    TruncationLosesLittle(amount, 2);
    QuotientNonNegative(maker, price);
    TruncationLosesLittle(maker / price, tickScale + 2);
    DepthInShares(BUY, s, price);
    SharesCover(maker, price, offered);
    QuotientTimes(maker, price, taker);
    var units := FixedDecimal(taker, DECIMALS);
    UnscaledBounds(units, taker);
    ScaledOrder(taker, offered);
    FillsWithinLimit(BUY, s, price, Unscaled(units));
    SharesOrder(price, Unscaled(units), taker);
    ScaledOrder(FillValue(s, Unscaled(units)), maker);
  }

  /** The shares of a sale, cut to two places more than the tick, are a whole number of
      base units. */
  predicate WholeUnits(amount: real, tickScale: nat) {
    IsInteger(Scaled(TruncateRat(amount, tickScale + 2), DECIMALS))
  }

  lemma SellIsFillable(s: seq<Level>, amount: real, tickScale: nat, price: real)
    requires NonNegative(s) && BestFirst(SELL, s) && amount > 0.0 && price > 0.0 && WholeUnits(amount, tickScale)
    requires Depth(SELL, s, price) >= amount
    requires Amounts(SELL, amount, price, tickScale).Ok?
    ensures Fillable(SELL, s, Amounts(SELL, amount, price, tickScale).value)
  {
    var (maker, taker) := MakerTaker(SELL, amount, price, tickScale);
    TruncBounds(Scaled(maker, DECIMALS));
    hide TruncateRat, Scaled, Notional, Depth, Unscaled, FillValue, SharesWithin, Trunc;
    var bid := SharesWithin(SELL, s, price);
    TruncationLosesLittle(amount, tickScale + 2);
    NotionalNonNegative(price, maker);
    TruncationLosesLittle(Notional(price, maker), 2);
    DepthInShares(SELL, s, price);
    var units := FixedDecimal(maker, DECIMALS);
    UnscaledBounds(units, maker);
    ScaledOrder(maker, bid);
    FillsWithinLimit(SELL, s, price, Unscaled(units));
    ScaledOrder(taker, FillValue(s, Unscaled(units)));
  }

  lemma QuotientNonNegative(a: real, p: real)
    requires a >= 0.0 && p > 0.0
    ensures a / p >= 0.0
  {}

  lemma NotionalNonNegative(p: real, size: real)
    requires p >= 0.0 && size >= 0.0
    ensures Notional(p, size) >= 0.0
  {
    NonNegativeProduct(size, p);
  }

  lemma SharesOrder(p: real, a: real, b: real)
    requires p >= 0.0 && a <= b
    ensures Notional(p, a) <= Notional(p, b)
  {
    NonNegativeProduct(b - a, p);
  }

  /** A market order priced by the fill-or-kill sweep can be filled against that book --
      in any best-first order of it -- for a book without negative numbers and, when
      selling, shares that cut to the tick's precision are whole base units. */
  lemma SweptOrdersAreFillable(side: Side, levels: seq<Level>, s: seq<Level>, amount: real, tickScale: nat, price: real)
    requires multiset(s) == multiset(levels) && BestFirst(side, s)
    requires NonNegative(levels) && amount > 0.0 && price > 0.0 && (side == SELL ==> WholeUnits(amount, tickScale))
    requires Answers(side, levels, amount, true, Ok(price))
    requires Amounts(side, amount, price, tickScale).Ok?
    ensures Fillable(side, s, Amounts(side, amount, price, tickScale).value)
  {
    hide Depth, TotalDepth, Amounts, Fillable;
    SamePrices(s, levels, price);
    DepthOfPermutation(side, s, levels, price);
    if side == BUY {
      BuyIsFillable(s, amount, tickScale, price);
    } else {
      SellIsFillable(s, amount, tickScale, price);
    }
  }

  /** However the book looks, a sale of this amount that the fill-or-kill sweep prices can
      be filled. */
  ghost predicate SalesAreFillable(amount: real, tickScale: nat) {
    forall s, price ::
      NonNegative(s) && BestFirst(SELL, s) && price > 0.0 && Answers(SELL, s, amount, true, Ok(price)) &&
      Amounts(SELL, amount, price, tickScale).Ok? ==>
        Fillable(SELL, s, Amounts(SELL, amount, price, tickScale).value)
  }

  /** A sale can be filled against every book exactly when its shares, cut to the tick's
      precision, are a whole number of base units: a condition on the amount alone. */
  lemma SalesAreFillableIff(amount: real, tickScale: nat)
    requires amount > 0.0
    ensures SalesAreFillable(amount, tickScale) <==> WholeUnits(amount, tickScale)
  {
    hide WholeUnits, Amounts, Fillable, Answers;
    if WholeUnits(amount, tickScale) {
      forall s, price | NonNegative(s) && BestFirst(SELL, s) && price > 0.0 &&
                        Answers(SELL, s, amount, true, Ok(price)) && Amounts(SELL, amount, price, tickScale).Ok?
        ensures Fillable(SELL, s, Amounts(SELL, amount, price, tickScale).value)
      {
        SweptOrdersAreFillable(SELL, s, s, amount, tickScale, price);
      }
    } else {
      var price := CentForAll(amount, tickScale);
    }
  }

  /** A price at which the shares are worth exactly a cent, while their base units are
      worth less. */
  lemma CentForAll(amount: real, tickScale: nat) returns (price: real)
    requires amount > 0.0 && !WholeUnits(amount, tickScale)
    ensures var s := [Level(price, amount)];
            && price > 0.0 && NonNegative(s) && BestFirst(SELL, s) && Answers(SELL, s, amount, true, Ok(price))
            && Amounts(SELL, amount, price, tickScale).Ok?
            && !Fillable(SELL, s, Amounts(SELL, amount, price, tickScale).value)
  {
    var maker := TruncateRat(amount, tickScale + 2);
    TruncationLosesLittle(amount, tickScale + 2);
    NothingIsWhole(maker);
    price := 0.01 / maker;
    OneCentExactly(maker, price);
    SingleBid(price, amount, amount);
    CentNotPaid(amount, maker, price);
  }

  lemma NothingIsWhole(maker: real)
    requires maker >= 0.0 && !IsInteger(Scaled(maker, DECIMALS))
    ensures maker > 0.0
  {
    assert maker == 0.0 ==> Scaled(maker, DECIMALS) == 0.0;
  }

  lemma OneCentExactly(maker: real, price: real)
    requires maker > 0.0 && price == 0.01 / maker
    ensures price > 0.0 && Notional(price, maker) == 0.01
    ensures TruncateRat(0.01, 2) == 0.01 && FixedDecimal(0.01, DECIMALS) == 10000
  {
    assert price * maker == 0.01;
    assert Pow10(2) == 100 && Pow10(DECIMALS) == 1000000;
  }

  lemma SingleBid(price: real, size: real, amount: real)
    requires price > 0.0 && 0.0 < amount <= size
    ensures var s := [Level(price, size)];
            && NonNegative(s) && BestFirst(SELL, s) && Answers(SELL, s, amount, true, Ok(price))
  {
    var s := [Level(price, size)];
    assert s[..0] == [];
    NoDepth(SELL, price);
    assert Depth(SELL, s, price) == size && TotalDepth(SELL, s) == size;
  }

  lemma SingleFill(price: real, amount: real, shares: real)
    requires 0.0 <= shares <= amount
    ensures FillValue([Level(price, amount)], shares) == Notional(price, shares)
  {
    var s := [Level(price, amount)];
    assert s[1..] == [];
    NotionalAdds(price, 0.0, 0.0);
    assert FillValue(s[1..], 0.0) == 0.0;
  }

  lemma CentNotPaid(amount: real, maker: real, price: real)
    requires 0.0 < maker <= amount && price > 0.0 && Notional(price, maker) == 0.01
    requires !IsInteger(Scaled(maker, DECIMALS))
    ensures !Fillable(SELL, [Level(price, amount)], Draft(FixedDecimal(maker, DECIMALS), 10000, price))
  {
    var units := FixedDecimal(maker, DECIMALS);
    NonNegativeProduct(maker, Pow10(DECIMALS) as real);
    TruncBounds(Scaled(maker, DECIMALS));
    UnscaledBounds(units, maker);
    var shares := Unscaled(units);
    assert shares < maker;
    SingleFill(price, amount, shares);
    assert price * (maker - shares) > 0.0;
    assert Notional(price, shares) < 0.01;
    assert Pow10(DECIMALS) == 1000000;
  }

  /** Which sales those are: all of them on ticks of at most four decimals, and on every
      tick those of at most six decimals. */
  lemma WholeUnitsWhen(amount: real, tickScale: nat)
    requires amount > 0.0
    ensures tickScale <= 4 || IsInteger(Scaled(amount, DECIMALS)) ==> WholeUnits(amount, tickScale)
  {
    var d := tickScale + 2;
    if d <= DECIMALS {
      TruncationLosesLittle(amount, d);
      NonNegativeProduct(TruncateRat(amount, d), Pow10(DECIMALS) as real);
      hide TruncateRat, FixedDecimal;
      assert WholeUnits(amount, tickScale);
    } else if IsInteger(Scaled(amount, DECIMALS)) {
      MorePlaces(amount, DECIMALS, d);
      KeptWhole(amount, d);
    }
  }

  /** Every sale can be filled exactly on ticks of at most four decimals. */
  lemma AllSalesAreFillableIff(tickScale: nat)
    ensures (forall amount :: amount > 0.0 ==> SalesAreFillable(amount, tickScale)) <==> tickScale <= 4
  {
    hide SalesAreFillable, WholeUnits;
    if tickScale <= 4 {
      forall amount | amount > 0.0 ensures SalesAreFillable(amount, tickScale) {
        WholeUnitsWhen(amount, tickScale);
        SalesAreFillableIff(amount, tickScale);
      }
    } else {
      SevenDecimals(tickScale);
      SalesAreFillableIff(0.0200001, tickScale);
    }
  }

  lemma SevenDecimals(tickScale: nat)
    requires tickScale >= 5
    ensures TruncateRat(0.0200001, tickScale + 2) == 0.0200001 && !WholeUnits(0.0200001, tickScale)
  {
    assert Pow10(6) == 1000000 && Pow10(7) == 10000000;
    assert IsInteger(Scaled(0.0200001, 7));
    MorePlaces(0.0200001, 7, tickScale + 2);
    KeptWhole(0.0200001, tickScale + 2);
  }

  /** An instance: on any tick finer than four decimals, selling 0.0200001 shares to the
      single bid at 0.499998 signs for a cent, but the share amount is cut to 0.02, which
      yields less. */
  lemma FinerTicksBreakSells(tickScale: nat)
    requires tickScale >= 5
    ensures !WholeUnits(0.0200001, tickScale) && !SalesAreFillable(0.0200001, tickScale)
    ensures var s := [Level(0.499998, 1.0)];
            && Answers(SELL, s, 0.0200001, true, Ok(0.499998)) && BestFirst(SELL, s) && NonNegative(s)
            && Amounts(SELL, 0.0200001, 0.499998, tickScale) == Ok(Draft(20000, 10000, 0.499998))
            && !Fillable(SELL, s, Draft(20000, 10000, 0.499998))
  {
    SevenDecimals(tickScale);
    SalesAreFillableIff(0.0200001, tickScale);
    hide WholeUnits, SalesAreFillable;
    SignsForACent(tickScale);
    CentIsNotBid();
    hide *;
    SingleBid(0.499998, 1.0, 0.0200001);
  }

  lemma SignsForACent(tickScale: nat)
    requires TruncateRat(0.0200001, tickScale + 2) == 0.0200001
    ensures Amounts(SELL, 0.0200001, 0.499998, tickScale) == Ok(Draft(20000, 10000, 0.499998))
  {
    assert Pow10(2) == 100 && Pow10(DECIMALS) == 1000000;
    assert Notional(0.499998, 0.0200001) == 0.0200001 * 0.499998;
    var cents := Scaled(Notional(0.499998, 0.0200001), 2);
    assert 1.0 <= cents < 2.0 && Trunc(cents) == 1;
    assert TruncateRat(Notional(0.499998, 0.0200001), 2) == 0.01;
    assert FixedDecimal(0.0200001, DECIMALS) == 20000 && FixedDecimal(0.01, DECIMALS) == 10000;
  }

  lemma CentIsNotBid()
    ensures !Fillable(SELL, [Level(0.499998, 1.0)], Draft(20000, 10000, 0.499998))
  {
    assert Pow10(DECIMALS) == 1000000;
    SingleFill(0.499998, 1.0, 0.02);
    assert Unscaled(20000) == 0.02 && Notional(0.499998, 0.02) == 0.00999996;
  }

  lemma KeptWhole(v: real, d: nat)
    requires v >= 0.0 && IsInteger(Scaled(v, d))
    ensures TruncateRat(v, d) == v
  {
    var p := Pow10(d) as real;
    NonNegativeProduct(v, p);
    TruncBounds(Scaled(v, d));
    assert (v * p) / p == v;
  }

  // ----- the live cap on market orders ---------------------------------------------------------------

  function Max(a: real, b: real): real {
    if a < b then b else a
  }

  /** A market order passes the cap exactly if its amount is a positive decimal that does
      not exceed it. */
  lemma MarketCapIff(parse: Parser, env: string, amountRaw: string)
    ensures LiveGate.EnforceMarketOrderCap(parse, env, amountRaw) == LiveGate.Pass <==>
            var amount, cap := TrimSpace(amountRaw), if TrimSpace(env) == "" then "1" else TrimSpace(env);
            && amount != "" && '/' !in amount && '/' !in cap
            && parse(amount).Some? && parse(cap).Some? && 0.0 < parse(amount).value <= parse(cap).value
  {
    hide TrimSpace;
    if LiveGate.PositiveDecimal(parse, amountRaw).Positive? {
      LiveGate.CapIsConfigured(parse, env, LiveGate.PositiveDecimal(parse, amountRaw).value);
    }
    hide LiveGate.EnforceNotionalCap;
  }

  /** The live cap compares the bare amount, dollars of a BUY or shares of a SELL. It
      bounds the dollars of a BUY at every price, and those of a SELL by the cap times
      the price, when the price is above a dollar. */
  lemma MarketCapBoundsDollars(parse: Parser, env: string, side: Side, amountRaw: string, price: real, tickScale: nat)
    requires LiveGate.EnforceMarketOrderCap(parse, env, amountRaw) == LiveGate.Pass
    requires price > 0.0 && ParseRat(parse, amountRaw).Ok?
    requires Amounts(side, ParseRat(parse, amountRaw).value, price, tickScale).Ok?
    ensures LiveGate.Cap(parse, env).Positive?
    ensures var d := Amounts(side, ParseRat(parse, amountRaw).value, price, tickScale).value;
            var cap := LiveGate.Cap(parse, env).value;
            UsdLeg(side, (d.makerAmount, d.takerAmount)) as real <=
              Scaled(if side == BUY then cap else Notional(Max(1.0, price), cap), DECIMALS)
  {
    var amount, cap := ParseRat(parse, amountRaw).value, LiveGate.Cap(parse, env).value;
    assert 0.0 < amount <= cap;
    hide TruncateRat, FixedDecimal, Scaled, Notional, ParseRat, LiveGate.Cap, LiveGate.EnforceMarketOrderCap;
    var (maker, taker) := MakerTaker(side, amount, price, tickScale);
    if side == BUY {
      TruncationLosesLittle(amount, 2);
      ScaledOrder(maker, cap);
    } else {
      TruncationLosesLittle(amount, tickScale + 2);
      NotionalNonNegative(price, maker);
      TruncationLosesLittle(Notional(price, maker), 2);
      NotionalOrder(price, Max(1.0, price), maker);
      SharesOrder(Max(1.0, price), maker, cap);
      ScaledOrder(taker, Notional(Max(1.0, price), cap));
    }
  }

  /** No sale of at most `cap` shares at this price signs for more than `cap` dollars. */
  ghost predicate CapBoundsSales(cap: real, price: real, tickScale: nat)
    requires price > 0.0
  {
    forall amount :: 0.0 < amount <= cap && Amounts(SELL, amount, price, tickScale).Ok? ==>
      Amounts(SELL, amount, price, tickScale).value.takerAmount as real <= Scaled(cap, DECIMALS)
  }

  /** The cap on shares is a cap on dollars exactly if selling the whole cap, cut to the
      tick's precision and then to cents, brings in at most the cap -- which nothing
      checks for a caller's own price. */
  lemma CapBoundsSalesIff(cap: real, price: real, tickScale: nat)
    requires cap > 0.0 && price > 0.0
    ensures CapBoundsSales(cap, price, tickScale) <==>
            TruncateRat(Notional(price, TruncateRat(cap, tickScale + 2)), 2) <= cap
  {
    var all := TruncateRat(Notional(price, TruncateRat(cap, tickScale + 2)), 2);
    if all <= cap {
      forall amount | 0.0 < amount <= cap && Amounts(SELL, amount, price, tickScale).Ok?
        ensures Amounts(SELL, amount, price, tickScale).value.takerAmount as real <= Scaled(cap, DECIMALS)
      {
        SmallerSale(amount, cap, price, tickScale);
        ScaledOrder(all, cap);
      }
    }
    if CapBoundsSales(cap, price, tickScale) {
      WholeSale(cap, price, tickScale);
    }
  }

  lemma TruncateRatOrder(x: real, y: real, d: nat)
    requires 0.0 <= x <= y
    ensures TruncateRat(x, d) <= TruncateRat(y, d)
  {
    var p := Pow10(d) as real;
    ScaledOrderAt(x, y, d);
    var a, b := Scaled(x, d), Scaled(y, d);
    assert Trunc(a) <= Trunc(b);
    hide Scaled, Trunc, Pow10;
    QuotientOrder(Trunc(a) as real, Trunc(b) as real, p);
  }

  lemma ScaledOrderAt(x: real, y: real, d: nat)
    requires 0.0 <= x <= y
    ensures 0.0 <= Scaled(x, d) <= Scaled(y, d)
  {
    hide Pow10;
    var p := Pow10(d) as real;
    NonNegativeProduct(x, p);
    NonNegativeProduct(y - x, p);
    assert (y - x) * p == y * p - x * p;
  }

  lemma QuotientOrder(a: real, b: real, p: real)
    requires a <= b && p >= 1.0
    ensures a / p <= b / p
  {
    assert (a / p) * p == a && (b / p) * p == b;
    Cancel(a / p, b / p, p);
  }

  lemma SmallerSale(amount: real, cap: real, price: real, tickScale: nat)
    requires 0.0 < amount <= cap && price > 0.0 && Amounts(SELL, amount, price, tickScale).Ok?
    ensures Amounts(SELL, amount, price, tickScale).value.takerAmount as real <=
            Scaled(TruncateRat(Notional(price, TruncateRat(cap, tickScale + 2)), 2), DECIMALS)
  {
    hide TruncateRat, FixedDecimal, Scaled, Notional;
    var (maker, taker) := MakerTaker(SELL, amount, price, tickScale);
    var most := TruncateRat(cap, tickScale + 2);
    TruncationLosesLittle(amount, tickScale + 2);
    TruncateRatOrder(amount, cap, tickScale + 2);
    NotionalNonNegative(price, maker);
    SharesOrder(price, maker, most);
    TruncationLosesLittle(Notional(price, maker), 2);
    TruncateRatOrder(Notional(price, maker), Notional(price, most), 2);
    ScaledOrder(taker, TruncateRat(Notional(price, most), 2));
  }

  /** Selling the whole cap tells. */
  lemma WholeSale(cap: real, price: real, tickScale: nat)
    requires cap > 0.0 && price > 0.0
    requires Amounts(SELL, cap, price, tickScale).Ok? ==>
      Amounts(SELL, cap, price, tickScale).value.takerAmount as real <= Scaled(cap, DECIMALS)
    ensures TruncateRat(Notional(price, TruncateRat(cap, tickScale + 2)), 2) <= cap
  {
    hide TruncateRat, FixedDecimal, Notional;
    var (maker, taker) := MakerTaker(SELL, cap, price, tickScale);
    TruncationLosesLittle(cap, tickScale + 2);
    NotionalNonNegative(price, maker);
    TruncationLosesLittle(Notional(price, maker), 2);
    if maker <= 0.0 {
      assert maker == 0.0;
      NotionalAdds(price, 0.0, 0.0);
    } else {
      Cancel(taker, cap, Pow10(DECIMALS) as real);
    }
  }

  /** It does so for every cap exactly at prices up to one dollar. */
  lemma EveryCapBoundsSalesIff(price: real, tickScale: nat)
    requires price > 0.0
    ensures (forall cap :: cap > 0.0 ==> CapBoundsSales(cap, price, tickScale)) <==> price <= 1.0
  {
    if price <= 1.0 {
      forall cap | cap > 0.0 ensures CapBoundsSales(cap, price, tickScale) {
        forall amount | 0.0 < amount <= cap && Amounts(SELL, amount, price, tickScale).Ok?
          ensures Amounts(SELL, amount, price, tickScale).value.takerAmount as real <= Scaled(cap, DECIMALS)
        {
          hide Amounts, Scaled;
          CheapSale(amount, price, tickScale);
          ScaledOrder(amount, cap);
        }
      }
    } else {
      hide Amounts, Scaled;
      var amount := DearSale(price, tickScale);
      assert !CapBoundsSales(amount, price, tickScale);
    }
  }

  lemma CheapSale(amount: real, price: real, tickScale: nat)
    requires 0.0 < price <= 1.0 && amount > 0.0 && Amounts(SELL, amount, price, tickScale).Ok?
    ensures Amounts(SELL, amount, price, tickScale).value.takerAmount as real <= Scaled(amount, DECIMALS)
  {
    hide TruncateRat, FixedDecimal, Scaled, Notional;
    var (maker, taker) := MakerTaker(SELL, amount, price, tickScale);
    TruncationLosesLittle(amount, tickScale + 2);
    NotionalNonNegative(price, maker);
    TruncationLosesLittle(Notional(price, maker), 2);
    NotionalOrder(price, 1.0, maker);
    NotionalOfUnitPrice(maker);
    ScaledOrder(taker, amount);
  }

  /** Above a dollar, a large enough whole number of shares gains a cent. */
  lemma DearSale(price: real, tickScale: nat) returns (amount: real)
    requires price > 1.0
    ensures amount > 0.0 && Amounts(SELL, amount, price, tickScale).Ok?
    ensures Amounts(SELL, amount, price, tickScale).value.takerAmount as real > Scaled(amount, DECIMALS)
  {
    var n := EnoughShares(price);
    amount := n as real;
    WholeNumber(n, tickScale + 2);
    KeptWhole(amount, tickScale + 2);
    NotionalNonNegative(price, amount);
    CentGained(price, n);
    var taker := TruncateRat(Notional(price, amount), 2);
    assert MakerTaker(SELL, amount, price, tickScale) == (amount, taker);
    hide TruncateRat, FixedDecimal, Scaled, Notional;
    TruncationLosesLittle(Notional(price, amount), 2);
    ScaledOrder(amount + 0.01, taker);
    CentCounts(amount);
  }

  lemma EnoughShares(price: real) returns (n: nat)
    requires price > 1.0
    ensures n >= 1 && Notional(price, n as real) >= n as real + 0.01
  {
    var gain := price - 1.0;
    var q := 0.01 / gain;
    assert q * gain == 0.01;
    QuotientNonNegative(0.01, gain);
    n := q.Floor + 1;
    NonNegativeProduct(n as real - q, gain);
    assert n as real * price == n as real + n as real * gain;
  }

  lemma WholeNumber(n: nat, d: nat)
    ensures IsInteger(Scaled(n as real, d))
  {
    RealProduct(n, Pow10(d));
    hide Pow10;
    assert Scaled(n as real, d) == (n * Pow10(d)) as real;
  }

  /** Truncating to cents keeps a value that is a whole number plus at least a cent. */
  lemma CentGained(price: real, n: nat)
    requires Notional(price, n as real) >= n as real + 0.01
    ensures TruncateRat(Notional(price, n as real), 2) >= n as real + 0.01
  {
    assert Pow10(2) == 100;
    var v := Notional(price, n as real);
    hide Notional, Pow10;
    assert Scaled(v, 2) == v * 100.0;
    assert Trunc(Scaled(v, 2)) >= 100 * n + 1;
    assert TruncateRat(v, 2) == Trunc(Scaled(v, 2)) as real / 100.0;
  }

  lemma CentCounts(x: real)
    ensures Scaled(x, DECIMALS) < Scaled(x + 0.01, DECIMALS)
  {
    assert Pow10(DECIMALS) == 1000000;
  }

  /** An instance: one share, sold at two dollars, passes a cap of one dollar -- while at a
      price just above a dollar that cap still holds. */
  lemma DearShareEscapesCap(parse: Parser)
    requires parse("1") == Some(1.0)
    ensures LiveGate.EnforceMarketOrderCap(parse, "", "1") == LiveGate.Pass
    ensures LiveGate.Cap(parse, "") == LiveGate.Positive(1.0)
    ensures Amounts(SELL, 1.0, 2.0, 2) == Ok(Draft(1000000, 2000000, 2.0))
    ensures !CapBoundsSales(1.0, 2.0, 2) && CapBoundsSales(1.0, 1.005, 2)
  {
    CapOfOne();
    hide CapBoundsSales;
    assert TrimSpace("1") == "1" && TrimSpace("") == "";
    assert Pow10(2) == 100 && Pow10(4) == 10000 && Pow10(6) == 1000000;
  }

  lemma CapOfOne()
    ensures !CapBoundsSales(1.0, 2.0, 2) && CapBoundsSales(1.0, 1.005, 2)
  {
    assert Pow10(2) == 100 && Pow10(4) == 10000;
    assert Scaled(2.0, 2) == 200.0 && Scaled(1.005, 2) == 100.5 && Scaled(1.0, 4) == 10000.0;
    assert TruncateRat(1.0, 4) == 1.0 && TruncateRat(2.0, 2) == 2.0 && TruncateRat(1.005, 2) == 1.0;
    assert Notional(2.0, 1.0) == 2.0 && Notional(1.005, 1.0) == 1.005;
    hide CapBoundsSales, TruncateRat, Notional, Scaled, Pow10;
    CapBoundsSalesIff(1.0, 2.0, 2);
    CapBoundsSalesIff(1.0, 1.005, 2);
  }

  lemma NotionalOfUnitPrice(size: real)
    ensures Notional(1.0, size) == size
  {}
}
