/** The cap on live orders: per order, and on the sum over a batch. The value of the
    environment variable that holds the cap is an input. */
module LiveGate {
  import opened Results
  import opened Decimals
  import opened OrderAmounts

  datatype Refusal = Missing | NotDecimal | NotPositive | OverCap

  datatype Verdict = Pass | Refuse(why: Refusal)

  const DEFAULT_CAP := "1"

  datatype Amount = Positive(value: real) | Bad(why: Refusal)

  /** A positive decimal; fractions are rejected by their slash. */
  function PositiveDecimal(parse: Parser, raw: string): (a: Amount)
    ensures a.Positive? ==> a.value > 0.0 && parse(TrimSpace(raw)) == Some(a.value)
    ensures TrimSpace(raw) == "" <==> a == Bad(Missing)
    ensures '/' in TrimSpace(raw) <==> a == Bad(NotDecimal)
    ensures TrimSpace(raw) != "" && '/' !in TrimSpace(raw) ==>
      match parse(TrimSpace(raw)) { case Some(v) => v > 0.0 ==> a == Positive(v) case None => a == Bad(NotPositive) }
  {
    var s := TrimSpace(raw);
    if s == "" then Bad(Missing)
    else if '/' in s then Bad(NotDecimal)
    else match parse(s)
      case Some(v) => if v > 0.0 then Positive(v) else Bad(NotPositive)
      case None => Bad(NotPositive)
  }

  /** The cap that an environment value stands for. */
  function Cap(parse: Parser, env: string): Amount {
    PositiveDecimal(parse, if TrimSpace(env) == "" then DEFAULT_CAP else TrimSpace(env))
  }

  /** The cap is what the environment says, where it says anything, and one dollar otherwise;
      a value that is not a positive decimal leaves no cap, and no order passes. */
  lemma CapIsConfigured(parse: Parser, env: string, notional: real)
    ensures var raw := if TrimSpace(env) == "" then "1" else TrimSpace(env);
            EnforceNotionalCap(parse, env, notional) == Pass <==>
              '/' !in raw && parse(raw).Some? && parse(raw).value > 0.0 && notional <= parse(raw).value
    ensures TrimSpace(env) == "" && Faithful(parse) ==> Cap(parse, env) == Positive(1.0)
  {
    TrimmedOnce(env);
    assert TrimSpace("1") == "1" && PointAt("1") == 1;
    assert "1"[..1] == "1" && Digits("1") == 1;
    assert Plain("1");
    hide TrimSpace;
  }

  function EnforceNotionalCap(parse: Parser, env: string, notional: real): Verdict {
    match Cap(parse, env)
    case Bad(why) => Refuse(why)
    case Positive(cap) => if notional > cap then Refuse(OverCap) else Pass
  }

  function EnforceLimitOrderCap(parse: Parser, env: string, price: string, size: string): Verdict {
    match PositiveDecimal(parse, price)
    case Bad(why) => Refuse(why)
    case Positive(p) =>
      match PositiveDecimal(parse, size)
      case Bad(why) => Refuse(why)
      case Positive(s) => EnforceNotionalCap(parse, env, p * s)
  }

  function EnforceMarketOrderCap(parse: Parser, env: string, amount: string): Verdict {
    match PositiveDecimal(parse, amount)
    case Bad(why) => Refuse(why)
    case Positive(a) => EnforceNotionalCap(parse, env, a)
  }

  datatype Order = Order(side: Side, price: string, size: string)

  ghost predicate Readable(parse: Parser, o: Order) {
    PositiveDecimal(parse, o.price).Positive? && PositiveDecimal(parse, o.size).Positive?
  }

  ghost function NotionalOf(parse: Parser, o: Order): real
    requires Readable(parse, o)
  {
    Notional(PositiveDecimal(parse, o.price).value, PositiveDecimal(parse, o.size).value)
  }

  ghost function SumOf(parse: Parser, orders: seq<Order>, n: nat): real
    requires n <= |orders| && forall i :: 0 <= i < n ==> Readable(parse, orders[i])
  {
    if n == 0 then 0.0 else SumOf(parse, orders, n - 1) + NotionalOf(parse, orders[n - 1])
  }

  /** What passing means: everything can be read and neither an order nor the batch as
      a whole exceeds the cap. */
  ghost predicate WithinCap(parse: Parser, env: string, orders: seq<Order>) {
    && Cap(parse, env).Positive?
    && (forall i :: 0 <= i < |orders| ==> Readable(parse, orders[i]) && NotionalOf(parse, orders[i]) <= Cap(parse, env).value)
    && SumOf(parse, orders, |orders|) <= Cap(parse, env).value
  }

  method EnforceBatchOrderCap(parse: Parser, env: string, orders: seq<Order>) returns (v: Verdict)
    ensures v == Pass <==> WithinCap(parse, env, orders)
  {
    hide PositiveDecimal, Notional, TrimSpace, Cap;
    var total := 0.0;
    var i := 0;
    while i < |orders|
      invariant 0 <= i <= |orders|
      invariant forall j :: 0 <= j < i ==> Readable(parse, orders[j])
      invariant forall j :: 0 <= j < i ==> EnforceNotionalCap(parse, env, NotionalOf(parse, orders[j])) == Pass
      invariant total == SumOf(parse, orders, i)
    {
      var p := PositiveDecimal(parse, orders[i].price);
      if p.Bad? {
        return Refuse(p.why);
      }
      var s := PositiveDecimal(parse, orders[i].size);
      if s.Bad? {
        return Refuse(s.why);
      }
      var notional := Notional(p.value, s.value);
      v := EnforceNotionalCap(parse, env, notional);
      if v != Pass {
        return;
      }
      total := total + notional;
      i := i + 1;
    }
    v := EnforceNotionalCap(parse, env, total);
  }

  /** The integer USD legs that will be signed for the first n orders. */
  ghost function UsdLegs(parse: Parser, orders: seq<Order>, n: nat): int
    requires n <= |orders| && forall i :: 0 <= i < n ==> Readable(parse, orders[i])
  {
    if n == 0 then 0 else
    var o := orders[n - 1];
    assert Readable(parse, o);
    UsdLegs(parse, orders, n - 1) +
    UsdLeg(o.side, LimitFixedAmounts(o.side, PositiveDecimal(parse, o.price).value, PositiveDecimal(parse, o.size).value))
  }

  lemma {:induction false} LegsBelowSum(parse: Parser, orders: seq<Order>, n: nat)
    requires n <= |orders| && forall i :: 0 <= i < n ==> Readable(parse, orders[i])
    ensures 0 <= UsdLegs(parse, orders, n) && UsdLegs(parse, orders, n) as real <= Scaled(SumOf(parse, orders, n), DECIMALS)
  {
    if n > 0 {
      hide Scaled, Notional, PositiveDecimal, Trunc;
      LegsBelowSum(parse, orders, n - 1);
      var o := orders[n - 1];
      assert Readable(parse, o);
      var p, s := PositiveDecimal(parse, o.price).value, PositiveDecimal(parse, o.size).value;
      ScaledProduct(p, s, DECIMALS);
      TruncBounds(Scaled(Notional(p, s), DECIMALS));
      ScaledAdds(SumOf(parse, orders, n - 1), Notional(p, s), DECIMALS);
    }
  }

  lemma ScaledAdds(x: real, y: real, d: nat)
    ensures Scaled(x + y, d) == Scaled(x, d) + Scaled(y, d)
  {}

  lemma ScaledGrows(x: real, y: real, d: nat)
    requires x <= y
    ensures Scaled(x, d) <= Scaled(y, d)
  {
    NonNegativeProduct(y - x, Pow10(d) as real);
  }

  /** A batch that passes the gate never signs for more than the cap: however many
      orders and whatever their sides, the integer USD legs sum to at most cap * 10^6
      base units. */
  lemma BatchSpendsAtMostCap(parse: Parser, env: string, orders: seq<Order>)
    requires WithinCap(parse, env, orders)
    ensures UsdLegs(parse, orders, |orders|) as real <= Scaled(Cap(parse, env).value, DECIMALS)
  {
    LegsBelowSum(parse, orders, |orders|);
    hide Scaled;
    ScaledGrows(SumOf(parse, orders, |orders|), Cap(parse, env).value, DECIMALS);
  }

  /** A single order that passes is a batch of one that passes. */
  lemma LimitCapIsBatchOfOne(parse: Parser, env: string, o: Order)
    ensures EnforceLimitOrderCap(parse, env, o.price, o.size) == Pass <==> WithinCap(parse, env, [o])
  {
    assert Readable(parse, [o][0]) <==> Readable(parse, o);
    if Readable(parse, o) {
      assert SumOf(parse, [o], 1) == SumOf(parse, [o], 0) + NotionalOf(parse, o);
    }
  }
}
