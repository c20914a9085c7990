/** Paper-trading ledger with average-cost accounting, over exact reals. */
module Ledger {
  import opened Sums

  datatype Order = Order(market: string, token: string, price: real, size: real)

  datatype Fill = Fill(market: string, token: string, price: real, size: real, live: bool, realizedPnL: real)

  datatype Position = Position(token: string, size: real, cost: real)

  datatype Error = InsufficientCash | SizeNotPositive | InsufficientPosition

  datatype Outcome = Filled(fill: Fill) | Rejected(error: Error)

  const EPSILON: real := 0.000000001

  datatype Book = Book(cash: real, positions: map<string, Position>, fills: seq<Fill>)

  function Held(b: Book, token: string): Position {
    if token in b.positions then b.positions[token] else Position("", 0.0, 0.0)
  }

  /** A price (or an average cost) times a size. */
  function Value(price: real, size: real): real {
    price * size
  }

  function AverageCost(p: Position): real
    requires p.size != 0.0
  {
    p.cost / p.size
  }

  function Buy(b: Book, o: Order): (Book, Outcome) {
    var cost := Value(o.price, o.size);
    if cost > b.cash then (b, Rejected(InsufficientCash)) else
    var pos := Held(b, o.token);
    var fill := Fill(o.market, o.token, o.price, o.size, false, 0.0);
    (Book(b.cash - cost,
          b.positions[o.token := Position(o.token, pos.size + o.size, pos.cost + cost)],
          b.fills + [fill]),
     Filled(fill))
  }

  function Sell(b: Book, o: Order): (Book, Outcome) {
    if o.size <= 0.0 then (b, Rejected(SizeNotPositive)) else
    var pos := Held(b, o.token);
    if pos.size <= 0.0 || o.size > pos.size + EPSILON then (b, Rejected(InsufficientPosition)) else
    var average := AverageCost(pos);
    var proceeds := Value(o.price, o.size);
    var left := pos.size - o.size;
    var fill := Fill(o.market, o.token, o.price, o.size, false, proceeds - Value(average, o.size));
    (Book(b.cash + proceeds,
          if left <= EPSILON then b.positions - {o.token}
          else b.positions[o.token := Position(pos.token, left, Value(average, left))],
          b.fills + [fill]),
     Filled(fill))
  }

  // ----- conservation -----------------------------------------------------------------------

  ghost function TotalCost(b: Book): real {
    Sum(map k | k in b.positions :: b.positions[k].cost)
  }

  function Realized(fills: seq<Fill>): real {
    if fills == [] then 0.0 else Realized(fills[..|fills| - 1]) + fills[|fills| - 1].realizedPnL
  }

  datatype Trade = BuyTrade(order: Order) | SellTrade(order: Order)

  function Apply(b: Book, t: Trade): (Book, Outcome) {
    match t
    case BuyTrade(o) => Buy(b, o)
    case SellTrade(o) => Sell(b, o)
  }

  function After(b: Book, ts: seq<Trade>, n: nat): Book
    requires n <= |ts|
  {
    if n == 0 then b else Apply(After(b, ts, n - 1), ts[n - 1]).0
  }

  /** What the property asks of the orders: buys have a positive size, and no price is
      negative. (The code itself rejects only sells of non-positive size.) */
  predicate Reasonable(t: Trade) {
    t.order.price >= 0.0 && (t.BuyTrade? ==> t.order.size > 0.0)
  }

  ghost predicate Sound(b: Book) {
    b.cash >= 0.0 && forall k :: k in b.positions ==>
      b.positions[k].size > 0.0 && b.positions[k].cost >= 0.0
  }

  /** The trade is a sell that closes its position. */
  predicate Closes(b: Book, t: Trade) {
    t.SellTrade? && Sell(b, t.order).1.Filled? && t.order.token !in Sell(b, t.order).0.positions
  }

  /** The cost that a closing sell drops with the deleted position: its average cost
      times the size that was left, which may be a little below or above zero. */
  function Dust(b: Book, t: Trade): real {
    if Closes(b, t) && Held(b, t.order.token).size > 0.0
    then Value(AverageCost(Held(b, t.order.token)), Held(b, t.order.token).size - t.order.size)
    else 0.0
  }

  /** The average cost of the position that a trade closes; zero if it closes none. */
  function ClosedAverage(b: Book, t: Trade): real {
    if Closes(b, t) && Held(b, t.order.token).size > 0.0 then AverageCost(Held(b, t.order.token)) else 0.0
  }

  lemma ValueIsMonotone(a: real, x: real, y: real)
    requires a >= 0.0 && x <= y
    ensures Value(a, x) <= Value(a, y) && Value(a, 0.0) == 0.0
  {}

  lemma AverageFacts(p: Position, sold: real)
    requires p.size > 0.0 && p.cost >= 0.0
    ensures var a := AverageCost(p);
            a >= 0.0 && Value(a, sold) + Value(a, p.size - sold) == p.cost
  {
    var a := AverageCost(p);
    assert a * p.size == p.cost;
    assert a * sold + a * (p.size - sold) == a * p.size;
  }

  lemma CostOf(b: Book, token: string)
    ensures TotalCost(b) == TotalCost(b.(positions := b.positions - {token})) + Held(b, token).cost
  {
    var costs := map k | k in b.positions :: b.positions[k].cost;
    var rest := b.positions - {token};
    assert (map k | k in rest :: rest[k].cost) == costs - {token};
    if token in b.positions {
      SumWithout(costs, token);
    } else {
      assert costs - {token} == costs;
    }
  }

  lemma SameCost(a: Book, b: Book)
    requires a.positions == b.positions
    ensures TotalCost(a) == TotalCost(b)
  {}

  lemma CostAfterPut(b: Book, token: string, p: Position, b': Book)
    requires b'.positions == b.positions[token := p]
    ensures TotalCost(b') == TotalCost(b) - Held(b, token).cost + p.cost
  {
    CostOf(b, token);
    CostOf(b', token);
    assert b'.positions - {token} == b.positions - {token};
    SameCost(b'.(positions := b'.positions - {token}), b.(positions := b.positions - {token}));
  }

  lemma RealizedGrows(fills: seq<Fill>, f: Fill)
    ensures Realized(fills + [f]) == Realized(fills) + f.realizedPnL
  {
    assert (fills + [f])[..|fills|] == fills;
  }

  /** One trade keeps cash + cost - realized PnL up to its dust, and a rejected trade
      changes nothing. */
  ghost predicate Conserves(b: Book, t: Trade) {
    var (b', outcome) := Apply(b, t);
    && Sound(b')
    && b'.cash + TotalCost(b') - Realized(b'.fills) + Dust(b, t) == b.cash + TotalCost(b) - Realized(b.fills)
    && -Value(EPSILON, ClosedAverage(b, t)) <= Dust(b, t) <= Value(EPSILON, ClosedAverage(b, t))
    && ClosedAverage(b, t) >= 0.0
    && (outcome.Rejected? ==> b' == b)
  }

  lemma BuyConserves(b: Book, o: Order)
    requires Sound(b) && o.price >= 0.0 && o.size > 0.0
    ensures Conserves(b, BuyTrade(o))
  {
    hide Value;
    ValueIsMonotone(o.price, 0.0, o.size);
    ValueIsMonotone(EPSILON, 0.0, 0.0);
    var (b', outcome) := Buy(b, o);
    if outcome.Filled? {
      CostAfterPut(b, o.token, b'.positions[o.token], b');
      RealizedGrows(b.fills, outcome.fill);
    }
  }

  lemma ClosingConserves(b: Book, o: Order)
    requires Sound(b) && o.price >= 0.0 && Closes(b, SellTrade(o))
    ensures Conserves(b, SellTrade(o))
  {
    hide Value, AverageCost, TotalCost;
    var pos := Held(b, o.token);
    var average, left := AverageCost(pos), pos.size - o.size;
    AverageFacts(pos, o.size);
    ValueIsMonotone(o.price, 0.0, o.size);
    SmallValue(average, left);
    var (b', outcome) := Sell(b, o);
    RealizedGrows(b.fills, outcome.fill);
    CostOf(b, o.token);
    SameCost(b', b.(positions := b.positions - {o.token}));
  }

  lemma SmallValue(a: real, left: real)
    requires a >= 0.0 && -EPSILON <= left <= EPSILON
    ensures -Value(EPSILON, a) <= Value(a, left) <= Value(EPSILON, a)
  {
    ValueIsMonotone(a, -EPSILON, left);
    ValueIsMonotone(a, left, EPSILON);
  }

  lemma SellConserves(b: Book, o: Order)
    requires Sound(b) && o.price >= 0.0
    ensures Conserves(b, SellTrade(o))
  {
    hide Value, AverageCost, TotalCost;
    if Closes(b, SellTrade(o)) {
      ClosingConserves(b, o);
    } else if Sell(b, o).1.Filled? {
      PartialConserves(b, o);
    } else {
      ValueIsMonotone(EPSILON, 0.0, 0.0);
    }
  }

  lemma PartialResult(b: Book, o: Order)
    requires Sell(b, o).1.Filled? && !Closes(b, SellTrade(o))
    ensures var pos, (b', outcome) := Held(b, o.token), Sell(b, o);
            && o.size > 0.0 && pos.size - o.size > EPSILON && pos == b.positions[o.token]
            && b'.cash == b.cash + Value(o.price, o.size)
            && b'.positions == b.positions[o.token :=
                 Position(pos.token, pos.size - o.size, Value(AverageCost(pos), pos.size - o.size))]
            && b'.fills == b.fills + [outcome.fill]
            && outcome.fill.realizedPnL == Value(o.price, o.size) - Value(AverageCost(pos), o.size)
  {
    hide Value, AverageCost;
  }

  lemma PartialConserves(b: Book, o: Order)
    requires Sound(b) && o.price >= 0.0 && Sell(b, o).1.Filled? && !Closes(b, SellTrade(o))
    ensures Conserves(b, SellTrade(o))
  {
    hide Value, AverageCost, TotalCost, Realized, Sell, Closes;
    PartialResult(b, o);
    var pos := Held(b, o.token);
    ValueIsMonotone(EPSILON, 0.0, 0.0);
    AverageFacts(pos, o.size);
    ValueIsMonotone(o.price, 0.0, o.size);
    ValueIsMonotone(AverageCost(pos), 0.0, pos.size - o.size);
    var (b', outcome) := Sell(b, o);
    RealizedGrows(b.fills, outcome.fill);
    CostAfterPut(b, o.token, b'.positions[o.token], b');
  }

  /** Total dust of the first n trades, and the total of the average costs of the
      positions that they close. */
  function TotalDust(b: Book, ts: seq<Trade>, n: nat): real
    requires n <= |ts|
  {
    if n == 0 then 0.0 else TotalDust(b, ts, n - 1) + Dust(After(b, ts, n - 1), ts[n - 1])
  }

  function ClosedAverages(b: Book, ts: seq<Trade>, n: nat): real
    requires n <= |ts|
  {
    if n == 0 then 0.0 else ClosedAverages(b, ts, n - 1) + ClosedAverage(After(b, ts, n - 1), ts[n - 1])
  }

  /** Over any sequence of buys of positive size and sells, at non-negative prices:
      cash plus the cost of what is held equals the initial total plus the realized
      PnL, up to at most EPSILON times the average cost of each closed position; and
      cash never becomes negative. */
  lemma {:induction false} LedgerConserves(b: Book, ts: seq<Trade>, n: nat)
    requires Sound(b) && n <= |ts| && forall i :: 0 <= i < n ==> Reasonable(ts[i])
    ensures var a := After(b, ts, n);
            && Sound(a)
            && a.cash + TotalCost(a) + TotalDust(b, ts, n) == b.cash + TotalCost(b) + Realized(a.fills) - Realized(b.fills)
    ensures -Value(EPSILON, ClosedAverages(b, ts, n)) <= TotalDust(b, ts, n) <= Value(EPSILON, ClosedAverages(b, ts, n))
  {
    hide Value, AverageCost, Apply, Dust, ClosedAverage;
    if n > 0 {
      LedgerConserves(b, ts, n - 1);
      var before, t := After(b, ts, n - 1), ts[n - 1];
      match t {
        case BuyTrade(o) => BuyConserves(before, o);
        case SellTrade(o) => SellConserves(before, o);
      }
      assert Conserves(before, t);
      ValueAdds(EPSILON, ClosedAverages(b, ts, n - 1), ClosedAverage(before, t));
    } else {
      ValueIsMonotone(EPSILON, 0.0, 0.0);
    }
  }

  lemma ValueAdds(a: real, x: real, y: real)
    ensures Value(a, x + y) == Value(a, x) + Value(a, y)
  {}

  /** For a new ledger: nothing held, nothing filled. */
  lemma NewLedgerConserves(cash: real, ts: seq<Trade>, n: nat)
    requires cash >= 0.0 && n <= |ts| && forall i :: 0 <= i < n ==> Reasonable(ts[i])
    ensures var a := After(Book(cash, map[], []), ts, n);
            var error := a.cash + TotalCost(a) - (cash + Realized(a.fills));
            var bound := Value(EPSILON, ClosedAverages(Book(cash, map[], []), ts, n));
            a.cash >= 0.0 && -bound <= error <= bound
  {
    var b := Book(cash, map[], []);
    var costs := map k | k in b.positions :: b.positions[k].cost;
    assert |costs| == 0;
    assert TotalCost(b) == 0.0;
    LedgerConserves(b, ts, n);
    hide After, ClosedAverages, Value, TotalCost, TotalDust;
  }

  /** A sell that leaves a position leaves its average cost unchanged; a rejected
      trade leaves everything unchanged. */
  lemma PartialSellKeepsAverage(b: Book, o: Order)
    ensures var (b', outcome) := Sell(b, o);
            && (outcome.Rejected? ==> b' == b)
            && (outcome.Filled? && o.token in b'.positions ==>
                  && b'.positions[o.token].size > 0.0 && Held(b, o.token).size > 0.0
                  && b'.positions[o.token].size == Held(b, o.token).size - o.size
                  && AverageCost(b'.positions[o.token]) == AverageCost(Held(b, o.token)))
  {
    var pos := Held(b, o.token);
    var (b', outcome) := Sell(b, o);
    if outcome.Filled? && o.token in b'.positions {
      var average := AverageCost(pos);
      AverageOfValue(average, pos.size - o.size);
    }
  }

  lemma AverageOfValue(a: real, s: real)
    requires s > 0.0
    ensures Value(a, s) / s == a
  {}

  /** Every average cost lies between two prices. */
  ghost predicate CostWithin(b: Book, lo: real, hi: real) {
    forall k :: k in b.positions ==>
      var p := b.positions[k];
      p.size > 0.0 && Value(lo, p.size) <= p.cost <= Value(hi, p.size)
  }

  lemma TradeKeepsCostWithin(b: Book, t: Trade, lo: real, hi: real)
    requires CostWithin(b, lo, hi)
    requires t.BuyTrade? ==> lo <= t.order.price <= hi && t.order.size > 0.0
    ensures CostWithin(Apply(b, t).0, lo, hi)
  {
    hide Value, AverageCost;
    var o := t.order;
    var pos := Held(b, o.token);
    if t.BuyTrade? {
      ValueOrder(lo, o.price, o.size);
      ValueOrder(o.price, hi, o.size);
      ValueAdds(lo, pos.size, o.size);
      ValueAdds(hi, pos.size, o.size);
      ValueOfNothing(lo);
      ValueOfNothing(hi);
    } else if Sell(b, o).1.Filled? {
      var average, left := AverageCost(pos), pos.size - o.size;
      AverageBetween(pos, lo, hi);
      if left > EPSILON {
        ValueOrder(lo, average, left);
        ValueOrder(average, hi, left);
      }
    }
  }

  lemma ValueOfNothing(a: real)
    ensures Value(a, 0.0) == 0.0
  {}

  lemma ValueOrder(a: real, b: real, s: real)
    requires a <= b && s > 0.0
    ensures Value(a, s) <= Value(b, s)
  {}

  lemma AverageBetween(p: Position, lo: real, hi: real)
    requires p.size > 0.0 && Value(lo, p.size) <= p.cost <= Value(hi, p.size)
    ensures lo <= AverageCost(p) <= hi
  {
    assert AverageCost(p) * p.size == p.cost;
  }

  /** However buys and sells alternate, the average cost of every position lies
      between the lowest and the highest price that was ever bid for anything. */
  lemma {:induction false} AverageWithinBuyPrices(b: Book, ts: seq<Trade>, n: nat, lo: real, hi: real)
    requires CostWithin(b, lo, hi) && n <= |ts|
    requires forall i :: 0 <= i < n && ts[i].BuyTrade? ==> lo <= ts[i].order.price <= hi && ts[i].order.size > 0.0
    ensures forall k :: k in After(b, ts, n).positions ==>
      After(b, ts, n).positions[k].size > 0.0 && lo <= AverageCost(After(b, ts, n).positions[k]) <= hi
    ensures CostWithin(After(b, ts, n), lo, hi)
  {
    if n > 0 {
      AverageWithinBuyPrices(b, ts, n - 1, lo, hi);
      TradeKeepsCostWithin(After(b, ts, n - 1), ts[n - 1], lo, hi);
    }
    var a := After(b, ts, n);
    hide After, Apply, AverageCost, Value;
    forall k | k in a.positions ensures a.positions[k].size > 0.0 && lo <= AverageCost(a.positions[k]) <= hi {
      AverageBetween(a.positions[k], lo, hi);
    }
  }

  // ----- what the orders say --------------------------------------------------------------------

  /** Exactly which orders fill: buys that the cash pays for, and sells of something that
      is held, up to EPSILON. */
  predicate Fills(cash: real, held: real, t: Trade) {
    var o := t.order;
    if t.BuyTrade? then o.price * o.size <= cash
    else o.size > 0.0 && held > 0.0 && o.size <= held + EPSILON
  }

  /** What a trade does: it fills exactly under that condition, and then its fill repeats
      the order and is the only new one; rejected, it changes nothing; and it touches no
      other token. */
  lemma FillsAsOrdered(b: Book, t: Trade, other: string)
    ensures var (b', outcome) := Apply(b, t);
            var o := t.order;
            && (outcome.Filled? <==> Fills(b.cash, Held(b, o.token).size, t))
            && (outcome.Filled? ==>
                  && b'.fills == b.fills + [outcome.fill]
                  && outcome.fill == Fill(o.market, o.token, o.price, o.size, false, outcome.fill.realizedPnL)
                  && (t.BuyTrade? ==> outcome.fill.realizedPnL == 0.0)
                  && b'.cash == (if t.BuyTrade? then b.cash - o.price * o.size else b.cash + o.price * o.size))
            && (outcome.Rejected? ==> b' == b)
            && (other != o.token ==> Held(b', other) == Held(b, other))
  {}

  /** The money that the filled orders among the first n moved. */
  function CashFlow(b: Book, ts: seq<Trade>, n: nat): real
    requires n <= |ts|
  {
    if n == 0 then 0.0 else
    var a, o := After(b, ts, n - 1), ts[n - 1].order;
    CashFlow(b, ts, n - 1) +
    if !Fills(a.cash, Held(a, o.token).size, ts[n - 1]) then 0.0
    else if ts[n - 1].BuyTrade? then -Value(o.price, o.size) else Value(o.price, o.size)
  }

  /** The shares of a token that they bought, less those that they sold. */
  function NetShares(b: Book, ts: seq<Trade>, n: nat, token: string): real
    requires n <= |ts|
  {
    if n == 0 then 0.0 else
    var a, o := After(b, ts, n - 1), ts[n - 1].order;
    NetShares(b, ts, n - 1, token) +
    if o.token != token || !Fills(a.cash, Held(a, o.token).size, ts[n - 1]) then 0.0
    else if ts[n - 1].BuyTrade? then o.size else -o.size
  }

  /** How often a sell left at most EPSILON of the token. */
  function Closings(b: Book, ts: seq<Trade>, n: nat, token: string): nat
    requires n <= |ts|
  {
    if n == 0 then 0 else
    var a, o := After(b, ts, n - 1), ts[n - 1].order;
    Closings(b, ts, n - 1, token) +
    if ts[n - 1].SellTrade? && o.token == token && Fills(a.cash, Held(a, o.token).size, ts[n - 1]) &&
       Held(a, token).size - o.size <= EPSILON
    then 1 else 0
  }

  /** Over any run the cash is what the filled orders left, exactly; and of every token as
      many shares are held as were bought and not sold, up to EPSILON for each time that a
      sell closed the position. */
  lemma {:induction false} LedgerFollowsOrders(b: Book, ts: seq<Trade>, n: nat, token: string)
    requires n <= |ts|
    ensures After(b, ts, n).cash == b.cash + CashFlow(b, ts, n)
    ensures var error := Held(After(b, ts, n), token).size - (Held(b, token).size + NetShares(b, ts, n, token));
            var bound := EPSILON * Closings(b, ts, n, token) as real;
            -bound <= error <= bound
  {
    hide Apply, Fills, Value;
    if n > 0 {
      LedgerFollowsOrders(b, ts, n - 1, token);
      HoldingsStep(After(b, ts, n - 1), ts[n - 1], token);
    }
  }

  /** What a trade does to the cash and to the shares of a token. */
  lemma HoldingsStep(b: Book, t: Trade, token: string)
    ensures var o := t.order;
            var b' := Apply(b, t).0;
            var left := Held(b, o.token).size - o.size;
            && (!Fills(b.cash, Held(b, o.token).size, t) ==> b' == b)
            && (Fills(b.cash, Held(b, o.token).size, t) ==>
                  && b'.cash == b.cash + (if t.BuyTrade? then -Value(o.price, o.size) else Value(o.price, o.size))
                  && (t.BuyTrade? ==> Held(b', o.token).size == Held(b, o.token).size + o.size)
                  && (t.SellTrade? ==> Held(b', o.token).size == (if left <= EPSILON then 0.0 else left) && -EPSILON <= left))
            && (token != o.token ==> Held(b', token) == Held(b, token))
  {
    FillsAsOrdered(b, t, token);
  }

  // ----- the object ----------------------------------------------------------------------------

  class State {
    const currency: string
    var cash: real
    var positions: map<string, Position>
    var fills: seq<Fill>

    function View(): Book
      reads this
    {
      Book(cash, positions, fills)
    }

    constructor (currency: string, cash: real)
      ensures View() == Book(cash, map[], []) && this.currency == currency
    {
      this.currency, this.cash := currency, cash;
      positions, fills := map[], [];
    }

    method Buy(order: Order) returns (outcome: Outcome)
      modifies this
      ensures Apply(old(View()), BuyTrade(order)) == (View(), outcome)
    {
      var cost := Value(order.price, order.size);
      if cost > cash {
        return Rejected(InsufficientCash);
      }
      cash := cash - cost;
      var pos := if order.token in positions then positions[order.token] else Position("", 0.0, 0.0);
      pos := Position(order.token, pos.size + order.size, pos.cost + cost);
      positions := positions[order.token := pos];
      var fill := Fill(order.market, order.token, order.price, order.size, false, 0.0);
      fills := fills + [fill];
      return Filled(fill);
    }

    method Sell(order: Order) returns (outcome: Outcome)
      modifies this
      ensures Apply(old(View()), SellTrade(order)) == (View(), outcome)
    {
      if order.size <= 0.0 {
        return Rejected(SizeNotPositive);
      }
      var pos := if order.token in positions then positions[order.token] else Position("", 0.0, 0.0);
      if pos.size <= 0.0 || order.size > pos.size + EPSILON {
        return Rejected(InsufficientPosition);
      }
      var avgCost := AverageCost(pos);
      hide AverageCost, Value;
      var proceeds := Value(order.price, order.size);
      var realized := proceeds - Value(avgCost, order.size);
      cash := cash + proceeds;
      pos := pos.(size := pos.size - order.size);
      pos := pos.(cost := Value(avgCost, pos.size));
      if pos.size <= EPSILON {
        positions := positions - {order.token};
      } else {
        positions := positions[order.token := pos];
      }
      var fill := Fill(order.market, order.token, order.price, order.size, false, realized);
      fills := fills + [fill];
      return Filled(fill);
    }
  }
}
