/** The integer amounts of a limit order, in base units of 10^-6, and the price check
    against the market's tick size. */
module OrderAmounts {
  import opened Results
  import opened Decimals

  datatype Side = BUY | SELL

  datatype AmountError = Required | Invalid | OutOfBounds | TooManyPlaces | MissingTick

  datatype Tick = Tick(tickSize: string, minimumTickSize: string)

  const DECIMALS: nat := 6

  function ParseRat(parse: Parser, raw: string): Result<real, AmountError> {
    var s := TrimSpace(raw);
    if s == "" then Err(Required)
    else match parse(s) case None => Err(Invalid) case Some(v) => Ok(v)
  }

  function FirstNonEmpty(a: string, b: string): string {
    if TrimSpace(a) != "" && TrimSpace(a) != "<nil>" then a
    else if TrimSpace(b) != "" && TrimSpace(b) != "<nil>" then b
    else ""
  }

  function TickText(t: Tick): string {
    FirstNonEmpty(t.tickSize, t.minimumTickSize)
  }

  /** Ok(true) if the price is within one tick of 0 and 1 and has no more decimal
      places than the tick. */
  function ValidatePriceScale(parse: Parser, price: real, raw: string, t: Tick): Result<bool, AmountError> {
    var tickRaw := TickText(t);
    if tickRaw == "" then Err(MissingTick) else
    match ParseRat(parse, tickRaw)
    case Err(e) => Err(e)
    case Ok(tick) =>
      if price < tick || price > 1.0 - tick then Err(OutOfBounds)
      else if DecimalPlaces(raw) > DecimalPlaces(tickRaw) then Err(TooManyPlaces)
      else Ok(true)
  }

  function Notional(price: real, size: real): real {
    size * price
  }

  /** (makerAmount, takerAmount) */
  function LimitFixedAmounts(side: Side, price: real, size: real): (int, int) {
    var notional := Notional(price, size);
    if side == BUY then (FixedDecimal(notional, DECIMALS), FixedDecimal(size, DECIMALS))
    else (FixedDecimal(size, DECIMALS), FixedDecimal(notional, DECIMALS))
  }

  /** The USD leg and the share leg of an order's amounts. */
  function UsdLeg(side: Side, amounts: (int, int)): int {
    if side == BUY then amounts.0 else amounts.1
  }

  function ShareLeg(side: Side, amounts: (int, int)): int {
    if side == BUY then amounts.1 else amounts.0
  }

  lemma TruncBounds(x: real)
    requires x >= 0.0
    ensures 0 <= Trunc(x) && Trunc(x) as real <= x < Trunc(x) as real + 1.0
    ensures IsInteger(x) ==> Trunc(x) as real == x
  {}

  lemma ScaledProduct(price: real, size: real, d: nat)
    ensures Scaled(Notional(price, size), d) == price * Scaled(size, d)
    ensures price >= 0.0 && size >= 0.0 ==> Notional(price, size) >= 0.0 && Scaled(Notional(price, size), d) >= 0.0 && Scaled(size, d) >= 0.0
  {
    var p := Pow10(d) as real;
    assert (size * price) * p == price * (size * p);
    if price >= 0.0 && size >= 0.0 {
      NonNegativeProduct(size, price);
      NonNegativeProduct(size, p);
      NonNegativeProduct(size * price, p);
    }
  }

  lemma NonNegativeProduct(a: real, b: real)
    requires a >= 0.0 && b >= 0.0
    ensures a * b >= 0.0
  {}

  /** What a number of share base units is worth at a price, in USD base units. */
  function Worth(price: real, shares: int): real {
    price * shares as real
  }

  lemma Between(price: real, shares: int, x: real)
    requires price > 0.0 && shares as real <= x < shares as real + 1.0
    ensures Worth(price, shares) <= price * x < Worth(price, shares) + price
  {
    NonNegativeProduct(price, x - shares as real);
    var gap := shares as real + 1.0 - x;
    assert price * gap > 0.0;
    assert price * (shares as real + 1.0) == price * shares as real + price;
  }

  /** The USD leg is the price of the share leg up to less than one base unit below
      and less than the price above; and a SELL has the legs of a BUY, swapped. */
  lemma LegsAgree(side: Side, price: real, size: real)
    requires price > 0.0 && size > 0.0
    ensures var a := LimitFixedAmounts(side, price, size);
            var usd, shares := UsdLeg(side, a), ShareLeg(side, a);
            && 0 <= usd && 0 <= shares
            && -1.0 < usd as real - Worth(price, shares) < price
            && LimitFixedAmounts(if side == BUY then SELL else BUY, price, size) == (a.1, a.0)
  {
    hide Scaled, Notional, Trunc, Worth;
    ScaledProduct(price, size, DECIMALS);
    TruncBounds(Scaled(size, DECIMALS));
    TruncBounds(Scaled(Notional(price, size), DECIMALS));
    Between(price, Trunc(Scaled(size, DECIMALS)), Scaled(size, DECIMALS));
  }

  lemma IntegerProduct(x: real, y: real)
    requires IsInteger(x) && IsInteger(y)
    ensures IsInteger(x * y)
  {
    var m, n := x.Floor, y.Floor;
    RealProduct(m, n);
    assert (m * n) as real == x * y;
  }

  /** d places of the price and e of the size make d + e of their product. */
  lemma PlacesOfProduct(price: real, d: nat, size: real, e: nat)
    requires IsInteger(Scaled(price, d)) && IsInteger(Scaled(size, e))
    ensures IsInteger(Scaled(Notional(price, size), d + e))
  {
    hide Scaled, Notional;
    IntegerProduct(Scaled(price, d), Scaled(size, e));
    ProductOfScaled(price, d, size, e);
  }

  lemma ProductOfScaled(price: real, d: nat, size: real, e: nat)
    ensures Scaled(Notional(price, size), d + e) == Scaled(price, d) * Scaled(size, e)
  {
    hide Pow10;
    Pow10Adds(d, e);
    RealProduct(Pow10(d), Pow10(e));
    FourFactors(price, size, Pow10(d) as real, Pow10(e) as real);
  }

  lemma FourFactors(price: real, size: real, p: real, q: real)
    ensures (size * price) * (p * q) == (price * p) * (size * q)
  {
    var x := price * p;
    assert (size * price) * p == size * x;
    assert ((size * price) * p) * q == (size * price) * (p * q);
    assert (size * x) * q == x * (size * q);
  }

  /** Both integer legs of the order are exact. */
  ghost predicate LosesNothing(side: Side, price: real, size: real) {
    var a := LimitFixedAmounts(side, price, size);
    && ShareLeg(side, a) as real == Scaled(size, DECIMALS)
    && UsdLeg(side, a) as real == Scaled(Notional(price, size), DECIMALS)
  }

  /** Nothing is lost: if a plain-decimal price passes the check for a tick with d <= 6
      decimals and the plain-decimal size has at most 6 - d, the two amounts are exactly
      size * 10^6 and size * price * 10^6. */
  lemma LimitAmountsAreExact(parse: Parser, side: Side, priceRaw: string, sizeRaw: string, t: Tick, price: real, size: real)
    requires Faithful(parse) && Plain(TrimSpace(priceRaw)) && Plain(TrimSpace(sizeRaw))
    requires ParseRat(parse, priceRaw) == Ok(price) && ParseRat(parse, sizeRaw) == Ok(size)
    requires price >= 0.0 && size >= 0.0
    requires ValidatePriceScale(parse, price, priceRaw, t).Ok?
    requires DecimalPlaces(TickText(t)) + DecimalPlaces(sizeRaw) <= DECIMALS
    ensures LosesNothing(side, price, size)
  {
    var d, e := DecimalPlaces(priceRaw), DecimalPlaces(sizeRaw);
    hide Pow10, DecimalPlaces, Plain, DecimalValue, Scaled, Trunc, Notional, TrimSpace, IsInteger;
    PlacesSuffice(priceRaw);
    PlacesSuffice(sizeRaw);
    MorePlaces(size, e, DECIMALS);
    PlacesOfProduct(price, d, size, e);
    MorePlaces(Notional(price, size), d + e, DECIMALS);
    ScaledProduct(price, size, DECIMALS);
    TruncBounds(Scaled(size, DECIMALS));
    TruncBounds(Scaled(Notional(price, size), DECIMALS));
  }

  /** No size with at most 6 - d decimals loses anything at this price. */
  ghost predicate SafePrice(side: Side, price: real, d: nat)
    requires d <= DECIMALS
  {
    forall size :: size >= 0.0 && IsInteger(Scaled(size, DECIMALS - d)) ==> LosesNothing(side, price, size)
  }

  /** Exactly the prices that are an integer number of units in the tick's last decimal
      are safe, however they are written. */
  lemma SafePriceIff(side: Side, price: real, d: nat)
    requires price >= 0.0 && d <= DECIMALS
    ensures SafePrice(side, price, d) <==> IsInteger(Scaled(price, d))
  {
    hide LosesNothing;
    if IsInteger(Scaled(price, d)) {
      forall size | size >= 0.0 && IsInteger(Scaled(size, DECIMALS - d))
        ensures LosesNothing(side, price, size)
      {
        WholeUnitsAreSafe(side, price, size, d);
      }
    }
    if SafePrice(side, price, d) {
      var size := 1.0 / Pow10(DECIMALS - d) as real;
      OneUnit(size, DECIMALS - d);
      OneUnitTells(side, price, size, d);
    }
  }

  lemma WholeUnitsAreSafe(side: Side, price: real, size: real, d: nat)
    requires price >= 0.0 && size >= 0.0 && d <= DECIMALS
    requires IsInteger(Scaled(price, d)) && IsInteger(Scaled(size, DECIMALS - d))
    ensures LosesNothing(side, price, size)
  {
    hide Pow10, Scaled, Trunc, Notional, IsInteger;
    MorePlaces(size, DECIMALS - d, DECIMALS);
    PlacesOfProduct(price, d, size, DECIMALS - d);
    ScaledProduct(price, size, DECIMALS);
    TruncBounds(Scaled(size, DECIMALS));
    TruncBounds(Scaled(Notional(price, size), DECIMALS));
  }

  lemma OneUnit(size: real, e: nat)
    requires size == 1.0 / Pow10(e) as real
    ensures size >= 0.0 && Scaled(size, e) == 1.0
  {}

  /** A size of one unit shows the price's own units in the USD leg. */
  lemma OneUnitTells(side: Side, price: real, size: real, d: nat)
    requires d <= DECIMALS && Scaled(size, DECIMALS - d) == 1.0 && LosesNothing(side, price, size)
    ensures IsInteger(Scaled(price, d))
  {
    ProductOfScaled(price, d, size, DECIMALS - d);
    hide Pow10, Scaled, Trunc, Notional;
    assert Scaled(Notional(price, size), DECIMALS) == Scaled(price, d);
  }

  /** The tick check by itself does not make an accepted price safe: an accepted price is
      safe exactly when it is a whole number of units in the tick's last decimal, and
      every plain decimal is. */
  lemma AcceptedPriceIsSafeIff(parse: Parser, side: Side, raw: string, t: Tick, price: real)
    requires price >= 0.0 && DecimalPlaces(TickText(t)) <= DECIMALS
    requires ParseRat(parse, raw) == Ok(price) && ValidatePriceScale(parse, price, raw, t).Ok?
    ensures SafePrice(side, price, DecimalPlaces(TickText(t))) <==> IsInteger(Scaled(price, DecimalPlaces(TickText(t))))
    ensures Faithful(parse) && Plain(TrimSpace(raw)) ==> SafePrice(side, price, DecimalPlaces(TickText(t)))
  {
    hide Scaled, IsInteger, SafePrice, DecimalPlaces, Plain, DecimalValue, TrimSpace;
    var d := DecimalPlaces(TickText(t));
    SafePriceIff(side, price, d);
    if Faithful(parse) && Plain(TrimSpace(raw)) {
      PlacesSuffice(raw);
      MorePlaces(price, DecimalPlaces(raw), d);
    }
  }

  /** An instance: the check counts characters, so a price with three decimals, written
      with an exponent, passes for a tick with two; it is not safe, and already a size
      of four decimals loses half a base unit. */
  lemma ExponentEscapesScale(parse: Parser)
    requires Faithful(parse) && parse("15e-3") == Some(0.015)
    ensures !SafePrice(BUY, 0.015, 2)
    ensures ValidatePriceScale(parse, 0.015, "15e-3", Tick("0.01", "")) == Ok(true)
    ensures DecimalPlaces("0.01") == 2 && DecimalPlaces("15e-3") == 0
    ensures LimitFixedAmounts(BUY, 0.015, 0.0001) == (1, 100)
    ensures Scaled(Notional(0.015, 0.0001), DECIMALS) == 1.5
  {
    OneCent();
    HalfAUnitLost();
    SafePriceIff(BUY, 0.015, 2);
    hide LimitFixedAmounts, Scaled, Plain, IsInteger, SafePrice;
    assert parse("0.01") == Some(0.01);
    assert TrimSpace("15e-3") == "15e-3";
    assert PointAt("15e-3") == 5;
  }

  lemma HalfAUnitLost()
    ensures !IsInteger(Scaled(0.015, 2))
    ensures LimitFixedAmounts(BUY, 0.015, 0.0001) == (1, 100)
    ensures Scaled(Notional(0.015, 0.0001), DECIMALS) == 1.5
  {
    assert Pow10(6) == 1000000 && Pow10(2) == 100;
  }

  lemma OneCent()
    ensures TrimSpace("0.01") == "0.01" && Plain("0.01") && DecimalValue("0.01") == 0.01 && DecimalPlaces("0.01") == 2
  {
    var s := "0.01";
    assert PointAt(s) == 1 by {
      assert s[1..][0] == '.';
    }
    assert s[..1] == "0" && s[2..] == "01";
    assert "01"[..1] == "0" && "0"[..0] == "";
    assert Digits("0") == 0 && Digits("01") == 1;
    assert Pow10(2) == 100;
  }

  // ----- which prices the tick check accepts -----------------------------------------------------

  /** A text that is there: neither blank nor what a missing value prints as. */
  predicate Given(s: string) {
    TrimSpace(s) != "" && TrimSpace(s) != "<nil>"
  }

  /** x needs no finer decimal place than y. */
  ghost predicate NoFinerThan(x: real, y: real) {
    forall n: nat :: IsInteger(Scaled(y, n)) ==> IsInteger(Scaled(x, n))
  }

  /** Of plain decimals the check accepts exactly the prices at least a tick away from 0
      and from 1 that need no finer decimal place than the tick -- in value, however many
      zeros either is written with. */
  lemma PriceCheckIff(parse: Parser, price: real, raw: string, t: Tick, tickRaw: string)
    requires Faithful(parse) && Plain(TrimSpace(raw)) && ParseRat(parse, raw) == Ok(price)
    requires Given(t.tickSize) || Given(t.minimumTickSize)
    requires tickRaw == if Given(t.tickSize) then t.tickSize else t.minimumTickSize
    requires Plain(TrimSpace(tickRaw))
    ensures var tick := DecimalValue(TrimSpace(tickRaw));
            ValidatePriceScale(parse, price, raw, t) ==
              if price < tick || price > 1.0 - tick then Err(OutOfBounds)
              else if NoFinerThan(price, tick) then Ok(true)
              else Err(TooManyPlaces)
  {
    assert TickText(t) == tickRaw && tickRaw != "";
    PlacesTell(raw, tickRaw);
    hide Plain, DecimalValue, DecimalPlaces, TrimSpace, NoFinerThan;
  }

  lemma PlacesTell(raw: string, tickRaw: string)
    requires Plain(TrimSpace(raw)) && Plain(TrimSpace(tickRaw))
    ensures DecimalPlaces(raw) <= DecimalPlaces(tickRaw) <==>
            NoFinerThan(DecimalValue(TrimSpace(raw)), DecimalValue(TrimSpace(tickRaw)))
  {
    hide Plain, DecimalValue, DecimalPlaces, TrimSpace, IsInteger, Scaled;
    var x, y := DecimalValue(TrimSpace(raw)), DecimalValue(TrimSpace(tickRaw));
    PlacesAreLeast(tickRaw, DecimalPlaces(tickRaw));
    PlacesAreLeast(raw, DecimalPlaces(tickRaw));
    forall n: nat | IsInteger(Scaled(y, n)) && DecimalPlaces(raw) <= DecimalPlaces(tickRaw)
      ensures IsInteger(Scaled(x, n))
    {
      PlacesAreLeast(tickRaw, n);
      PlacesAreLeast(raw, n);
    }
  }
}
