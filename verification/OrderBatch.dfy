/** Validation of limit orders, one by one and in a batch that caches tick sizes. The
    gate, the tick-size and neg-risk lookups and the clock are inputs. */
module OrderBatch {
  import opened Results
  import opened Decimals
  import opened OrderAmounts
  import LiveGate

  datatype Params = Params(tokenID: string, side: string, price: string, size: string,
                           orderType: string, expiration: string, postOnly: bool)

  datatype OrderType = GTC | GTD | FAK | FOK

  datatype Draft = Draft(tokenID: nat, side: Side, makerAmount: int, takerAmount: int,
                         orderType: OrderType, expiration: string, postOnly: bool)

  /** What is signed: the draft and the exchange that the neg-risk flag selects. */
  datatype Payload = Payload(draft: Draft, negRisk: bool)

  datatype OrderError = BadSide | BadToken | BadPrice(why: AmountError) | BadSize(why: AmountError) | NotPositive
                      | BadOrderType | PostOnlyNotResting | BadExpiration | TickLookupFailed
                      | BadPriceScale(why: AmountError) | NegRiskLookupFailed

  /** The outside world. `now(i)` is the time, in nanoseconds, at which order i is checked. */
  datatype World = World(parse: Parser, tickSize: string -> Option<Tick>, negRisk: nat -> Option<bool>, now: nat -> int)

  const MAX_BATCH: nat := 15
  const SECOND: int := 1_000_000_000
  const MAX_INT64: int := 0x7FFF_FFFF_FFFF_FFFF

  /** Seconds from year 1, where time.Time counts from, to 1970. */
  const UNIX_TO_INTERNAL: int := 62_135_596_800

  // ----- fields ------------------------------------------------------------------------------

  /** strings.ToUpper, as far as the result can be an ASCII letter. */
  function Upper(c: char): char {
    if 'a' <= c <= 'z' then (c as int - 32) as char
    else if c as int == 0x17F then 'S'
    else if c as int == 0x131 then 'I'
    else c
  }

  function ToUpper(s: string): string {
    seq(|s|, i requires 0 <= i < |s| => Upper(s[i]))
  }

  function NormalizeOrderSide(raw: string): Option<Side> {
    var v := ToUpper(TrimSpace(raw));
    if v == "BUY" || v == "B" then Some(BUY)
    else if v == "SELL" || v == "S" then Some(SELL)
    else None
  }

  /** c is the small letter w, its capital, or a special letter with that capital. */
  predicate SameLetter(c: char, w: char) {
    c == w || c as int == w as int - 32 || (w == 's' && c as int == 0x17F) || (w == 'i' && c as int == 0x131)
  }

  /** The text is this word, in any letter case and with any space around it. */
  ghost predicate Reads(raw: string, word: string) {
    exists i, j :: 0 <= i <= j <= |raw| && AllSpace(raw[..i]) && AllSpace(raw[j..]) && Spells(raw[i..j], word)
  }

  predicate Spells(s: string, word: string) {
    |s| == |word| && forall k :: 0 <= k < |s| ==> SameLetter(s[k], word[k])
  }

  predicate SmallLetters(word: string) {
    word != "" && forall k :: 0 <= k < |word| ==> 'a' <= word[k] <= 'z'
  }

  lemma LetterTells(c: char, w: char)
    requires 'a' <= w <= 'z'
    ensures SameLetter(c, w) <==> Upper(c) == Upper(w)
    ensures SameLetter(c, w) ==> !IsSpace(c)
  {}

  lemma SpellsIff(s: string, word: string)
    requires SmallLetters(word)
    ensures Spells(s, word) <==> ToUpper(s) == ToUpper(word)
    ensures Spells(s, word) ==> forall k :: 0 <= k < |s| ==> !IsSpace(s[k])
  {
    if |s| == |word| {
      forall k | 0 <= k < |s|
        ensures SameLetter(s[k], word[k]) <==> ToUpper(s)[k] == ToUpper(word)[k]
        ensures SameLetter(s[k], word[k]) ==> !IsSpace(s[k])
      {
        LetterTells(s[k], word[k]);
      }
    } else {
      assert |ToUpper(s)| == |s| && |ToUpper(word)| == |word|;
    }
  }

  lemma ReadsIff(raw: string, word: string)
    requires SmallLetters(word)
    ensures Reads(raw, word) <==> ToUpper(TrimSpace(raw)) == ToUpper(word)
  {
    hide ToUpper, IsSpace, SameLetter;
    var a, b := Trimmed(raw);
    SpellsIff(raw[a..b], word);
    if Reads(raw, word) {
      var i, j :| 0 <= i <= j <= |raw| && AllSpace(raw[..i]) && AllSpace(raw[j..]) && Spells(raw[i..j], word);
      SpellsIff(raw[i..j], word);
      assert !IsSpace(raw[i..j][0]) && !IsSpace(raw[i..j][j - i - 1]);
      TrimmedIs(raw, i, j);
    }
  }

  /** An order is a BUY or a SELL exactly if the caller's text says so. */
  lemma SideIff(raw: string)
    ensures NormalizeOrderSide(raw) == Some(BUY) <==> Reads(raw, "buy") || Reads(raw, "b")
    ensures NormalizeOrderSide(raw) == Some(SELL) <==> Reads(raw, "sell") || Reads(raw, "s")
    ensures NormalizeOrderSide(raw) in [None, Some(BUY), Some(SELL)]
  {
    hide TrimSpace, Reads;
    ReadsIff(raw, "buy");
    ReadsIff(raw, "b");
    ReadsIff(raw, "sell");
    ReadsIff(raw, "s");
    assert ToUpper("buy") == "BUY" && ToUpper("b") == "B" && ToUpper("sell") == "SELL" && ToUpper("s") == "S";
  }

  /** Likewise the order type; a blank text means good till cancelled. */
  lemma OrderTypeIff(raw: string)
    ensures var t := ParseLimitOrderType(raw);
            && (t == Some(GTC) <==> TrimSpace(raw) == "" || Reads(raw, "gtc"))
            && (t == Some(GTD) <==> Reads(raw, "gtd"))
            && (t == Some(FAK) <==> Reads(raw, "fak"))
            && (t == Some(FOK) <==> Reads(raw, "fok"))
            && t in [None, Some(GTC), Some(GTD), Some(FAK), Some(FOK)]
  {
    hide TrimSpace, Reads;
    ReadsIff(raw, "gtc");
    ReadsIff(raw, "gtd");
    ReadsIff(raw, "fak");
    ReadsIff(raw, "fok");
    assert ToUpper("gtc") == "GTC" && ToUpper("gtd") == "GTD" && ToUpper("fak") == "FAK" && ToUpper("fok") == "FOK";
    assert |ToUpper(TrimSpace(raw))| == |TrimSpace(raw)|;
  }

  function ParseLimitOrderType(raw: string): Option<OrderType> {
    var v := ToUpper(TrimSpace(raw));
    if v == "" || v == "GTC" then Some(GTC)
    else if v == "GTD" then Some(GTD)
    else if v == "FAK" then Some(FAK)
    else if v == "FOK" then Some(FOK)
    else None
  }

  /** An optional sign and at least one digit. */
  function ParseInteger(s: string): Option<int> {
    var negative := s != "" && s[0] == '-';
    var digits := if negative || (s != "" && s[0] == '+') then s[1..] else s;
    if digits == "" || !AllDigits(digits) then None
    else Some(if negative then -(Digits(digits) as int) else Digits(digits) as int)
  }

  function ParseTokenID(raw: string): Option<nat> {
    match ParseInteger(TrimSpace(raw))
    case Some(v) => if v > 0 then Some(v) else None
    case None => None
  }

  /** GTD needs a time at least a minute ahead, every other type none at all. A time so
      large that adding the epoch offset overflows int64 counts as long past. */
  predicate ExpirationOk(t: OrderType, expiration: string, now: int) {
    var v := TrimSpace(expiration);
    if t != GTD then v == "" || v == "0"
    else
      && v != "" && v != "0"
      && match ParseInteger(v)
         case None => false
         case Some(exp) =>
           && 0 < exp <= MAX_INT64
           && exp + UNIX_TO_INTERNAL <= MAX_INT64
           && exp * SECOND >= now + 60 * SECOND
  }

  // ----- one order -----------------------------------------------------------------------------

  /** CreateLimitOrder up to signing: every check in its order, and the amounts. */
  function SingleOrder(w: World, p: Params, now: int): Result<Payload, OrderError> {
    match NormalizeOrderSide(p.side) { case None => Err(BadSide) case Some(side) =>
    match ParseTokenID(p.tokenID) { case None => Err(BadToken) case Some(tokenID) =>
    match ParseRat(w.parse, p.price) { case Err(e) => Err(BadPrice(e)) case Ok(price) =>
    match ParseRat(w.parse, p.size) { case Err(e) => Err(BadSize(e)) case Ok(size) =>
    if price <= 0.0 || size <= 0.0 then Err(NotPositive) else
    match ParseLimitOrderType(p.orderType) { case None => Err(BadOrderType) case Some(t) =>
    if p.postOnly && t != GTC && t != GTD then Err(PostOnlyNotResting)
    else if !ExpirationOk(t, p.expiration, now) then Err(BadExpiration) else
    match w.tickSize(p.tokenID) { case None => Err(TickLookupFailed) case Some(tick) =>
    Finish(w, p, side, tokenID, price, size, t, tick)
    }}}}}}
  }

  /** The part after the tick size is known. */
  function Finish(w: World, p: Params, side: Side, tokenID: nat, price: real, size: real, t: OrderType, tick: Tick)
    : Result<Payload, OrderError>
  {
    match ValidatePriceScale(w.parse, price, p.price, tick) { case Err(e) => Err(BadPriceScale(e)) case Ok(_) =>
    var (maker, taker) := LimitFixedAmounts(side, price, size);
    var draft := Draft(tokenID, side, maker, taker, t, FirstNonEmpty(p.expiration, "0"), p.postOnly);
    match w.negRisk(tokenID) { case None => Err(NegRiskLookupFailed) case Some(flag) =>
    Ok(Payload(draft, flag))
    }}
  }

  ghost predicate AsksToBuy(p: Params) {
    Reads(p.side, "buy") || Reads(p.side, "b")
  }

  ghost predicate AsksToSell(p: Params) {
    Reads(p.side, "sell") || Reads(p.side, "s")
  }

  /** The greatest number of base units in this many shares at this price. */
  predicate DollarUnits(units: int, price: real, size: real) {
    units as real <= price * size * 1000000.0 < units as real + 1.0
  }

  predicate ShareUnits(units: int, size: real) {
    units as real <= size * 1000000.0 < units as real + 1.0
  }

  /** An accepted order is the one the caller asked for: whoever asks to buy gives the
      dollars and takes the shares, whoever asks to sell the reverse, in base units rounded
      down; and token, type, flags and expiration are the caller's. */
  lemma AcceptedAsAsked(w: World, p: Params, now: int)
    requires SingleOrder(w, p, now).Ok?
    ensures w.parse(TrimSpace(p.price)).Some? && w.parse(TrimSpace(p.size)).Some?
    ensures var price, size := w.parse(TrimSpace(p.price)).value, w.parse(TrimSpace(p.size)).value;
            var d := SingleOrder(w, p, now).value.draft;
            && price > 0.0 && size > 0.0
            && (AsksToBuy(p) || AsksToSell(p))
            && (AsksToBuy(p) ==> d.side == BUY && DollarUnits(d.makerAmount, price, size) && ShareUnits(d.takerAmount, size))
            && (AsksToSell(p) ==> d.side == SELL && ShareUnits(d.makerAmount, size) && DollarUnits(d.takerAmount, price, size))
    ensures var payload := SingleOrder(w, p, now).value;
            var d := payload.draft;
            && ParseInteger(TrimSpace(p.tokenID)) == Some(d.tokenID) && d.tokenID > 0
            && w.negRisk(d.tokenID) == Some(payload.negRisk)
            && d.postOnly == p.postOnly
            && d.expiration == (if Given(p.expiration) then p.expiration else "0")
            && (d.orderType == GTC <==> TrimSpace(p.orderType) == "" || Reads(p.orderType, "gtc"))
            && (d.orderType == GTD <==> Reads(p.orderType, "gtd"))
            && (d.orderType == FAK <==> Reads(p.orderType, "fak"))
            && (d.orderType == FOK <==> Reads(p.orderType, "fok"))
  {
    SideIff(p.side);
    OrderTypeIff(p.orderType);
    ZeroIsTrimmed();
    hide NormalizeOrderSide, ParseLimitOrderType, Reads, TrimSpace, ParseInteger, ExpirationOk, ValidatePriceScale, DollarUnits, ShareUnits, LimitFixedAmounts;
    BaseUnits(w.parse(TrimSpace(p.price)).value, w.parse(TrimSpace(p.size)).value);
  }

  lemma BaseUnits(price: real, size: real)
    requires price > 0.0 && size > 0.0
    ensures var (maker, taker) := LimitFixedAmounts(BUY, price, size);
            DollarUnits(maker, price, size) && ShareUnits(taker, size)
    ensures var (maker, taker) := LimitFixedAmounts(SELL, price, size);
            ShareUnits(maker, size) && DollarUnits(taker, price, size)
  {
    NonNegativeProduct(price, size);
    assert Pow10(DECIMALS) == 1000000;
    TruncBounds(Scaled(size, DECIMALS));
    TruncBounds(Scaled(Notional(price, size), DECIMALS));
  }

  ghost predicate AsksForType(p: Params, t: OrderType) {
    match t
    case GTC => TrimSpace(p.orderType) == "" || Reads(p.orderType, "gtc")
    case GTD => Reads(p.orderType, "gtd")
    case FAK => Reads(p.orderType, "fak")
    case FOK => Reads(p.orderType, "fok")
  }

  /** A good-till-date order needs an integer of seconds at least a minute ahead, within
      the range of the clock; every other order none, or zero. */
  predicate ExpirationFits(p: Params, dated: bool, now: int) {
    var v := TrimSpace(p.expiration);
    if dated then
      match ParseInteger(v)
      case None => false
      case Some(e) => 0 < e && e + UNIX_TO_INTERNAL <= MAX_INT64 && now + 60 * SECOND <= e * SECOND
    else v == "" || v == "0"
  }

  predicate HasPositive(n: Option<int>) {
    n.Some? && n.value > 0
  }

  /** An order is accepted exactly if the caller asks for a side, a token, a positive price
      and size and a type that exist, the flags and the expiration go with the type, and
      the market is known and has a tick that the price keeps to. */
  lemma AcceptedIff(w: World, p: Params, now: int)
    ensures SingleOrder(w, p, now).Ok? <==>
            && (AsksToBuy(p) || AsksToSell(p))
            && (AsksForType(p, GTC) || AsksForType(p, GTD) || AsksForType(p, FAK) || AsksForType(p, FOK))
            && (p.postOnly ==> AsksForType(p, GTC) || AsksForType(p, GTD))
            && ExpirationFits(p, AsksForType(p, GTD), now)
            && HasPositive(ParseInteger(TrimSpace(p.tokenID)))
            && w.negRisk(ParseInteger(TrimSpace(p.tokenID)).value).Some?
            && TrimSpace(p.price) != "" && w.parse(TrimSpace(p.price)).Some? && w.parse(TrimSpace(p.price)).value > 0.0
            && TrimSpace(p.size) != "" && w.parse(TrimSpace(p.size)).Some? && w.parse(TrimSpace(p.size)).value > 0.0
            && w.tickSize(p.tokenID).Some?
            && ValidatePriceScale(w.parse, w.parse(TrimSpace(p.price)).value, p.price, w.tickSize(p.tokenID).value).Ok?
  {
    SideIff(p.side);
    OrderTypeIff(p.orderType);
    FitsIff(p, now);
    hide NormalizeOrderSide, ParseLimitOrderType, ParseInteger, Reads, TrimSpace, ExpirationOk, ExpirationFits,
      ValidatePriceScale, LimitFixedAmounts;
  }

  lemma FitsIff(p: Params, now: int)
    ensures forall t :: ExpirationOk(t, p.expiration, now) <==> ExpirationFits(p, t == GTD, now)
  {
    ZeroIsTrimmed();
    hide ParseInteger, TrimSpace;
  }

  /** The decimal spelling of a number. */
  function Spell(n: nat): (s: string)
    ensures s != "" && AllDigits(s)
  {
    var last := [('0' as int + n % 10) as char];
    if n < 10 then last else Spell(n / 10) + last
  }

  /** Spelling a number and reading it back is the identity, with or without a sign. */
  lemma {:induction false} SpellingReads(n: nat)
    ensures Digits(Spell(n)) == n
    ensures ParseInteger(Spell(n)) == Some(n) == ParseInteger("+" + Spell(n)) && ParseInteger("-" + Spell(n)) == Some(0 - n)
  {
    var last := [('0' as int + n % 10) as char];
    if n >= 10 {
      SpellingReads(n / 10);
      assert (Spell(n / 10) + last)[..|Spell(n / 10)|] == Spell(n / 10);
    } else {
      assert last[..0] == "";
    }
    assert ("+" + Spell(n))[1..] == Spell(n) && ("-" + Spell(n))[1..] == Spell(n);
  }

  /** Any other text for the side is rejected, whatever else the order says. */
  lemma OtherSidesAreRejected(w: World, p: Params, now: int)
    ensures SingleOrder(w, p, now) == Err(BadSide) <==> !AsksToBuy(p) && !AsksToSell(p)
  {
    SideIff(p.side);
    hide NormalizeOrderSide, ParseTokenID, ParseLimitOrderType, Reads, TrimSpace, ExpirationOk, ValidatePriceScale;
  }

  /** An accepted order carries an expiration if and only if it is good till date, and
      then one that is at least a minute ahead. */
  lemma ExpirationIffGoodTillDate(w: World, p: Params, now: int)
    requires SingleOrder(w, p, now).Ok?
    ensures var d := SingleOrder(w, p, now).value.draft;
            && (d.orderType == GTD <==> TrimSpace(d.expiration) != "0")
            && (d.orderType == GTD ==> ParseInteger(TrimSpace(d.expiration)).Some? &&
                                       ParseInteger(TrimSpace(d.expiration)).value * SECOND >= now + 60 * SECOND)
            && (d.postOnly ==> d.orderType == GTC || d.orderType == GTD)
  {
    hide ParseInteger, TrimSpace, ParseTokenID, ParseRat, ParseLimitOrderType, NormalizeOrderSide, ValidatePriceScale, LimitFixedAmounts;
    ZeroIsTrimmed();
  }

  lemma ZeroIsTrimmed()
    ensures TrimSpace("0") == "0" && TrimSpace("") == "" && ParseInteger("<nil>") == None
    ensures ParseInteger("0") == Some(0) && ParseInteger("") == None
  {
    var s := "<nil>";
    assert !IsDigit(s[0]);
    assert "0"[..0] == "";
    assert Digits("0") == 0;
  }

  // ----- the batch -------------------------------------------------------------------------------

  datatype BatchError = Halted | Empty | TooMany | AtOrder(index: nat, error: OrderError)

  ghost predicate Distinct(tokens: seq<string>) {
    forall i, j :: 0 <= i < j < |tokens| ==> tokens[i] != tokens[j]
  }

  /** The cache holds what was looked up, and nothing was looked up twice. */
  ghost predicate CacheOk(w: World, cache: map<string, Tick>, lookups: seq<string>) {
    && Distinct(lookups)
    && (forall k :: k in cache <==> k in lookups)
    && forall k :: k in cache ==> w.tickSize(k) == Some(cache[k])
  }

  lemma CacheGrows(w: World, cache: map<string, Tick>, lookups: seq<string>, token: string, tick: Tick)
    requires CacheOk(w, cache, lookups) && token !in cache && w.tickSize(token) == Some(tick)
    ensures CacheOk(w, cache[token := tick], lookups + [token])
  {
    var longer := lookups + [token];
    assert forall k :: k in longer <==> k in lookups || k == token;
  }

  /** The batch accepts exactly when each order would be accepted alone, with the same
      payloads position by position; otherwise it reports the first order that fails,
      with the error that order has alone. No token's tick size is looked up twice. */
  method CreateBatchOrders(w: World, canTrade: bool, params: seq<Params>)
    returns (r: Result<seq<Payload>, BatchError>, lookups: seq<string>)
    ensures !canTrade ==> r == Err(Halted)
    ensures canTrade && params == [] ==> r == Err(Empty)
    ensures canTrade && |params| > 15 ==> r == Err(TooMany)
    ensures canTrade && 0 < |params| <= 15 ==>
      match r {
        case Ok(payloads) =>
          |payloads| == |params| &&
          forall i :: 0 <= i < |params| ==> SingleOrder(w, params[i], w.now(i)) == Ok(payloads[i])
        case Err(e) =>
          && e.AtOrder? && e.index < |params|
          && SingleOrder(w, params[e.index], w.now(e.index)) == Err(e.error)
          && forall i :: 0 <= i < e.index ==> SingleOrder(w, params[i], w.now(i)).Ok?
      }
    ensures Distinct(lookups) && forall t :: t in lookups ==> exists i :: 0 <= i < |params| && params[i].tokenID == t
  {
    hide NormalizeOrderSide, ParseTokenID, ParseRat, ParseLimitOrderType, ExpirationOk, ValidatePriceScale, LimitFixedAmounts, FirstNonEmpty;
    lookups := [];
    if !canTrade {
      return Err(Halted), lookups;
    }
    if |params| == 0 {
      return Err(Empty), lookups;
    }
    if |params| > MAX_BATCH {
      return Err(TooMany), lookups;
    }
    var tickCache: map<string, Tick> := map[];
    var payloads: seq<Payload> := [];
    var i := 0;
    while i < |params|
      invariant 0 <= i <= |params| && |payloads| == i
      invariant forall j :: 0 <= j < i ==> SingleOrder(w, params[j], w.now(j)) == Ok(payloads[j])
      invariant CacheOk(w, tickCache, lookups)
      invariant forall t :: t in lookups ==> exists j :: 0 <= j < i && params[j].tokenID == t
    {
      var p := params[i];
      var side := NormalizeOrderSide(p.side);
      if side == None {
        return Err(AtOrder(i, BadSide)), lookups;
      }
      var tokenID := ParseTokenID(p.tokenID);
      if tokenID == None {
        return Err(AtOrder(i, BadToken)), lookups;
      }
      var price := ParseRat(w.parse, p.price);
      if price.Err? {
        return Err(AtOrder(i, BadPrice(price.error))), lookups;
      }
      var size := ParseRat(w.parse, p.size);
      if size.Err? {
        return Err(AtOrder(i, BadSize(size.error))), lookups;
      }
      if price.value <= 0.0 || size.value <= 0.0 {
        return Err(AtOrder(i, NotPositive)), lookups;
      }
      var orderType := ParseLimitOrderType(p.orderType);
      if orderType == None {
        return Err(AtOrder(i, BadOrderType)), lookups;
      }
      if p.postOnly && orderType.value != GTC && orderType.value != GTD {
        return Err(AtOrder(i, PostOnlyNotResting)), lookups;
      }
      if !ExpirationOk(orderType.value, p.expiration, w.now(i)) {
        return Err(AtOrder(i, BadExpiration)), lookups;
      }
      var tick: Tick;
      if p.tokenID in tickCache {
        tick := tickCache[p.tokenID];
      } else {
        var found := w.tickSize(p.tokenID);
        if found == None {
          return Err(AtOrder(i, TickLookupFailed)), lookups;
        }
        tick := found.value;
        CacheGrows(w, tickCache, lookups, p.tokenID, tick);
        tickCache := tickCache[p.tokenID := tick];
        lookups := lookups + [p.tokenID];
      }
      var scale := ValidatePriceScale(w.parse, price.value, p.price, tick);
      if scale.Err? {
        return Err(AtOrder(i, BadPriceScale(scale.error))), lookups;
      }
      var (maker, taker) := LimitFixedAmounts(side.value, price.value, size.value);
      var draft := Draft(tokenID.value, side.value, maker, taker, orderType.value,
                         FirstNonEmpty(p.expiration, "0"), p.postOnly);
      var negRisk := w.negRisk(draft.tokenID);
      if negRisk == None {
        return Err(AtOrder(i, NegRiskLookupFailed)), lookups;
      }
      payloads := payloads + [Payload(draft, negRisk.value)];
      i := i + 1;
    }
    return Ok(payloads), lookups;
  }

  // ----- the cap bounds what a batch signs for ------------------------------------------------------

  ghost function Gated(p: Params): LiveGate.Order {
    LiveGate.Order(if AsksToBuy(p) then BUY else SELL, p.price, p.size)
  }

  ghost function AllGated(params: seq<Params>): seq<LiveGate.Order> {
    seq(|params|, i requires 0 <= i < |params| => Gated(params[i]))
  }

  /** The dollars signed for by the first n orders: given by those who ask to buy, taken
      by the others. */
  ghost function SignedDollars(params: seq<Params>, payloads: seq<Payload>, n: nat): int
    requires n <= |payloads| == |params|
  {
    if n == 0 then 0 else
    var d := payloads[n - 1].draft;
    SignedDollars(params, payloads, n - 1) + if AsksToBuy(params[n - 1]) then d.makerAmount else d.takerAmount
  }

  lemma AmountsOfSingle(w: World, p: Params, now: int, payload: Payload)
    requires SingleOrder(w, p, now) == Ok(payload)
    ensures ParseRat(w.parse, p.price).Ok? && ParseRat(w.parse, p.size).Ok?
    ensures (payload.draft.makerAmount, payload.draft.takerAmount) ==
            LimitFixedAmounts(payload.draft.side, ParseRat(w.parse, p.price).value, ParseRat(w.parse, p.size).value)
    ensures payload.draft.side == if AsksToBuy(p) then BUY else SELL
  {
    SideIff(p.side);
    hide LimitFixedAmounts, ParseRat, NormalizeOrderSide, ParseTokenID, ParseLimitOrderType, ExpirationOk, ValidatePriceScale, FirstNonEmpty;
  }

  lemma SameReading(parse: Parser, raw: string)
    requires LiveGate.PositiveDecimal(parse, raw).Positive?
    ensures ParseRat(parse, raw) == Ok(LiveGate.PositiveDecimal(parse, raw).value)
  {}

  lemma {:induction false} SignedIsUsdLegs(w: World, params: seq<Params>, payloads: seq<Payload>, n: nat)
    requires |params| == |payloads| && n <= |params|
    requires forall i :: 0 <= i < |params| ==> SingleOrder(w, params[i], w.now(i)) == Ok(payloads[i])
    requires forall i :: 0 <= i < |params| ==> LiveGate.Readable(w.parse, AllGated(params)[i])
    ensures SignedDollars(params, payloads, n) == LiveGate.UsdLegs(w.parse, AllGated(params), n)
  {
    hide SingleOrder, LimitFixedAmounts, ParseRat, LiveGate.PositiveDecimal, AsksToBuy;
    if n > 0 {
      SignedIsUsdLegs(w, params, payloads, n - 1);
      var p := params[n - 1];
      assert LiveGate.Readable(w.parse, AllGated(params)[n - 1]);
      AmountsOfSingle(w, p, w.now(n - 1), payloads[n - 1]);
      SameReading(w.parse, p.price);
      SameReading(w.parse, p.size);
    }
  }

  /** A batch that passes the cap and every validation signs for at most cap * 10^6 base
      units of dollars in all, whichever side each caller asked for. */
  lemma AcceptedBatchSignsWithinCap(w: World, env: string, params: seq<Params>, payloads: seq<Payload>)
    requires |params| == |payloads|
    requires forall i :: 0 <= i < |params| ==> SingleOrder(w, params[i], w.now(i)) == Ok(payloads[i])
    requires LiveGate.WithinCap(w.parse, env, AllGated(params))
    ensures SignedDollars(params, payloads, |payloads|) as real <= Scaled(LiveGate.Cap(w.parse, env).value, DECIMALS)
  {
    hide SingleOrder, Scaled, LiveGate.Cap, LiveGate.PositiveDecimal;
    SignedIsUsdLegs(w, params, payloads, |params|);
    LiveGate.BatchSpendsAtMostCap(w.parse, env, AllGated(params));
  }
}
