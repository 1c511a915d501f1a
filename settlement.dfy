// Settlement arithmetic of one fill: the order costs, the complete-set fees,
// the split of a share-for-share sale and the four funding legs.
//
// Units: an amount of shares times a price in ticks is an amount of cash,
// and one complete set (one share of every outcome) is worth numTicks.

module Settlement {

  /** The two sides of the book: a bid buys the outcome, an ask sells it. */
  datatype OrderType = Bid | Ask

  /** The market parameters the trading contracts read. */
  datatype Market = Market(
    address: nat,
    numOutcomes: nat,
    numTicks: nat,
    creatorFeeDivisor: nat,
    reportingFeeDivisor: nat)

  /** A market the trading contracts can work with: at least two outcomes,
      a positive tick range, and each fee at most half of the value it is
      charged on. */
  predicate WellFormed(m: Market)
  {
    m.numOutcomes >= 2 && m.numTicks > 0 && m.creatorFeeDivisor >= 2 && m.reportingFeeDivisor >= 2
  }

  /** Prices strictly inside the market's range. */
  predicate ValidPrice(m: Market, price: nat)
  {
    0 < price < m.numTicks
  }

  function Opposite(t: OrderType): OrderType
  {
    if t == Bid then Ask else Bid
  }

  /** Cash per share that a party of type t trading at price must put up:
      a buyer pays the price, a seller the rest of the range. */
  function UnitCost(m: Market, t: OrderType, price: nat): (c: nat)
    requires price <= m.numTicks
    ensures c <= m.numTicks
    ensures t == Bid ==> c == price
    ensures c + (if t == Bid then m.numTicks - price else price) == m.numTicks
  {
    if t == Bid then price else m.numTicks - price
  }

  /** The two parties of a trade at one price together put up exactly one
      complete set's worth of cash per share. */
  lemma CostsComplement(m: Market, t: OrderType, price: nat)
    requires price <= m.numTicks
    ensures UnitCost(m, t, price) + UnitCost(m, Opposite(t), price) == m.numTicks
  {
  }

  /** The market creator's fee on a value. */
  function CreatorFee(m: Market, value: nat): nat
    requires m.creatorFeeDivisor > 0
  {
    value / m.creatorFeeDivisor
  }

  /** The reporting fee on a value. */
  function ReportingFee(m: Market, value: nat): nat
    requires m.reportingFeeDivisor > 0
  {
    value / m.reportingFeeDivisor
  }

  /** Both fees are their rate's part of the value rounded down: never more
      than the exact part and short of it by less than one unit. */
  lemma FeesRoundDown(m: Market, value: nat)
    requires m.creatorFeeDivisor > 0 && m.reportingFeeDivisor > 0
    ensures CreatorFee(m, value) * m.creatorFeeDivisor <= value < (CreatorFee(m, value) + 1) * m.creatorFeeDivisor
    ensures ReportingFee(m, value) * m.reportingFeeDivisor <= value < (ReportingFee(m, value) + 1) * m.reportingFeeDivisor
  {
    DivBounds(value, m.creatorFeeDivisor);
    DivBounds(value, m.reportingFeeDivisor);
  }

  lemma HalfBound(value: nat, d: nat)
    requires d >= 2
    ensures value / d <= value / 2
  {
    var q := value / d;
    DivBounds(value, d);
    DivBounds(value, 2);
    MulLe(q, 2, d);
  }

  /** Both fees together never exceed the value they are charged on. */
  lemma FeesWithinValue(m: Market, value: nat)
    requires WellFormed(m)
    ensures CreatorFee(m, value) + ReportingFee(m, value) <= value
  {
    HalfBound(value, m.creatorFeeDivisor);
    HalfBound(value, m.reportingFeeDivisor);
  }

  /** How the cash of `sets` complete sets sold back to the market is shared
      out when both parties put up shares: the fees come off first, the party
      that held the outcome's own shares gets its price's part of the rest
      (rounded down), and the party that held the other outcomes gets what is
      left. */
  datatype Proceeds = Proceeds(long: nat, short: nat, creatorFee: nat, reportingFee: nat)

  function ShareSale(m: Market, price: nat, sets: nat): (r: Proceeds)
    requires WellFormed(m) && price <= m.numTicks
    ensures r.long + r.short + r.creatorFee + r.reportingFee == sets * m.numTicks
    ensures r.creatorFee == CreatorFee(m, sets * m.numTicks)
    ensures r.reportingFee == ReportingFee(m, sets * m.numTicks)
  {
    var value := sets * m.numTicks;
    FeesWithinValue(m, value);
    var payout := value - CreatorFee(m, value) - ReportingFee(m, value);
    var long := payout * price / m.numTicks;
    DivBounds(payout * price, m.numTicks);
    assert long * m.numTicks <= payout * m.numTicks by {
      MulMono(payout * price, payout * m.numTicks, long, m.numTicks, payout, price);
    }
    MulCancel(long, payout, m.numTicks);
    Proceeds(long, payout - long, CreatorFee(m, value), ReportingFee(m, value))
  }

  /** The fee-reduced payout of a share-for-share sale is split in proportion
      to price and numTicks - price; the holder of the outcome's own shares
      is rounded down, so any remainder goes to the other side and nothing is
      paid out beyond the payout. */
  lemma {:induction false} ShareSaleProportional(m: Market, price: nat, sets: nat)
    requires WellFormed(m) && price <= m.numTicks
    ensures var r := ShareSale(m, price, sets);
      r.long * m.numTicks <= (r.long + r.short) * price < (r.long + 1) * m.numTicks &&
      (r.long + r.short) * (m.numTicks - price) <= r.short * m.numTicks
  {
    var r := ShareSale(m, price, sets);
    var payout := r.long + r.short;
    DivBounds(payout * price, m.numTicks);
    SplitRest(payout, r.long, price, m.numTicks);
  }

  lemma DivBounds(a: nat, d: nat)
    requires d > 0
    ensures (a / d) * d <= a < (a / d + 1) * d
  {
  }

  lemma MulMono(x: nat, y: nat, q: nat, d: nat, p: nat, c: nat)
    requires d > 0 && x == p * c && y == p * d && c <= d && q * d <= x
    ensures q * d <= y
  {
    assert p * c <= p * d by {
      MulLe(p, c, d);
    }
  }

  lemma MulLe(p: nat, c: nat, d: nat)
    requires c <= d
    ensures p * c <= p * d
  {
  }

  lemma MulCancel(q: nat, p: nat, d: nat)
    requires d > 0 && q * d <= p * d
    ensures q <= p
  {
    if q > p {
      assert q * d == p * d + (q - p) * d;
      MulLe(d, 1, q - p);
    }
  }

  lemma SplitRest(payout: nat, long: nat, price: nat, n: nat)
    requires n > 0 && price <= n && long <= payout && long * n <= payout * price
    ensures payout * (n - price) <= (payout - long) * n
  {
    assert payout * (n - price) == payout * n - payout * price;
    assert (payout - long) * n == payout * n - long * n;
  }

  /** The four ways a fill is funded, in the order they are settled: the
      maker's escrowed shares against the filler's shares (a complete set
      sold), the maker's shares against the filler's cash, the maker's
      escrowed cash against the filler's shares, and cash against cash (a
      complete set bought). */
  datatype Legs = Legs(sharesForShares: nat, sharesForCash: nat, cashForShares: nat, cashForCash: nat)

  function Min(a: nat, b: nat): nat
  {
    if a <= b then a else b
  }

  /** Each leg takes as much as both of its sources still have, so the maker's
      shares and cash and the filler's shares and cash are each used exactly. */
  function SplitLegs(makerShares: nat, fillerShares: nat, amount: nat): (l: Legs)
    requires makerShares <= amount && fillerShares <= amount
    ensures l.sharesForShares + l.sharesForCash == makerShares
    ensures l.cashForShares + l.cashForCash == amount - makerShares
    ensures l.sharesForShares + l.cashForShares == fillerShares
    ensures l.sharesForCash + l.cashForCash == amount - fillerShares
  {
    var sharesForShares := Min(makerShares, fillerShares);
    var sharesForCash := Min(makerShares - sharesForShares, amount - fillerShares);
    var cashForShares := Min(amount - makerShares, fillerShares - sharesForShares);
    var cashForCash := Min(amount - makerShares - cashForShares, amount - fillerShares - sharesForCash);
    Legs(sharesForShares, sharesForCash, cashForShares, cashForCash)
  }

  /** The cash movements of one fill of `amount` shares against an order of
      type t at price, where the maker has `makerShares` of the amount covered
      by escrowed shares and the filler puts up `fillerShares` shares. */
  datatype Flows = Flows(
    legs: Legs,
    makerReceives: nat,   // paid to the maker
    fillerReceives: nat,  // paid to the filler
    fillerPays: nat,      // taken from the filler
    escrowUsed: nat,      // taken from the maker's escrowed cash
    creatorFee: nat,
    reportingFee: nat)

  /** The share-for-share sale seen from the parties of a fill of an order
      of type t: the holder of the outcome's own shares is the maker of an
      ask and the filler of a bid. */
  datatype SaleShares = SaleShares(maker: nat, filler: nat)

  function SaleToParties(m: Market, t: OrderType, price: nat, sets: nat): (r: SaleShares)
    requires WellFormed(m) && price <= m.numTicks
    ensures r.maker + r.filler + CreatorFee(m, sets * m.numTicks) + ReportingFee(m, sets * m.numTicks) == sets * m.numTicks
  {
    var sale := ShareSale(m, price, sets);
    if t == Ask then SaleShares(sale.long, sale.short) else SaleShares(sale.short, sale.long)
  }

  function Settle(m: Market, t: OrderType, price: nat, makerShares: nat, fillerShares: nat, amount: nat): (f: Flows)
    requires WellFormed(m) && ValidPrice(m, price)
    requires makerShares <= amount && fillerShares <= amount
    ensures f.legs == SplitLegs(makerShares, fillerShares, amount)
    ensures f.escrowUsed == (amount - makerShares) * UnitCost(m, t, price)
    ensures f.fillerPays == (amount - fillerShares) * UnitCost(m, Opposite(t), price)
    // no value is created: what comes in (the filler's cash, the maker's
    // escrowed cash, the collateral of the sets sold) is what goes out (the
    // payouts, the fees, the collateral of the sets bought)
    ensures f.fillerPays + f.escrowUsed + f.legs.sharesForShares * m.numTicks
         == f.makerReceives + f.fillerReceives + f.creatorFee + f.reportingFee + f.legs.cashForCash * m.numTicks
    // fees are charged only where both parties put up shares
    ensures f.legs.sharesForShares == 0 ==> f.creatorFee == 0 && f.reportingFee == 0
    ensures f.creatorFee == CreatorFee(m, f.legs.sharesForShares * m.numTicks)
    ensures f.reportingFee == ReportingFee(m, f.legs.sharesForShares * m.numTicks)
  {
    var l := SplitLegs(makerShares, fillerShares, amount);
    var makerCost := UnitCost(m, t, price);
    var fillerCost := UnitCost(m, Opposite(t), price);
    CostsComplement(m, t, price);
    Conservation(l, amount - makerShares, amount - fillerShares, makerCost, fillerCost, m.numTicks);
    // no complete set is sold unless both parties put up shares
    if l.sharesForShares == 0 then
      Flows(l,
        l.sharesForCash * fillerCost,
        l.cashForShares * makerCost,
        (amount - fillerShares) * fillerCost,
        (amount - makerShares) * makerCost,
        0, 0)
    else
      var sale := SaleToParties(m, t, price, l.sharesForShares);
      Flows(l,
        sale.maker + l.sharesForCash * fillerCost,
        sale.filler + l.cashForShares * makerCost,
        (amount - fillerShares) * fillerCost,
        (amount - makerShares) * makerCost,
        CreatorFee(m, l.sharesForShares * m.numTicks),
        ReportingFee(m, l.sharesForShares * m.numTicks))
  }

  lemma Conservation(l: Legs, makerCash: nat, fillerCash: nat, makerCost: nat, fillerCost: nat, n: nat)
    requires makerCost + fillerCost == n
    requires l.cashForShares + l.cashForCash == makerCash && l.sharesForCash + l.cashForCash == fillerCash
    ensures fillerCash * fillerCost + makerCash * makerCost
         == l.sharesForCash * fillerCost + l.cashForShares * makerCost + l.cashForCash * n
  {
    assert l.cashForCash * n == l.cashForCash * fillerCost + l.cashForCash * makerCost;
  }


  /** A fill where both parties pay cash buys `amount` complete sets: it is
      fee-free, pays nobody any cash, and the two payments add up to the
      sets' value (maker amount*cost, filler amount*(numTicks - cost)). */
  lemma {:induction false} CashForCashBuysSets(m: Market, t: OrderType, price: nat, amount: nat)
    requires WellFormed(m) && ValidPrice(m, price)
    ensures var f := Settle(m, t, price, 0, 0, amount);
      f.legs == Legs(0, 0, 0, amount) &&
      f.makerReceives == 0 && f.fillerReceives == 0 &&
      f.creatorFee == 0 && f.reportingFee == 0 &&
      f.escrowUsed + f.fillerPays == amount * m.numTicks
  {
    var f := Settle(m, t, price, 0, 0, amount);
    CostsComplement(m, t, price);
    assert f.escrowUsed + f.fillerPays == amount * (UnitCost(m, t, price) + UnitCost(m, Opposite(t), price));
  }

  /** When the maker's escrowed shares meet the filler's cash there is no
      fee: the filler pays exactly its cost and the maker receives exactly
      that. */
  lemma {:induction false} SharesForCashIsFeeFree(m: Market, t: OrderType, price: nat, amount: nat)
    requires WellFormed(m) && ValidPrice(m, price)
    ensures var f := Settle(m, t, price, amount, 0, amount);
      f.legs == Legs(0, amount, 0, 0) &&
      f.makerReceives == f.fillerPays == amount * UnitCost(m, Opposite(t), price) &&
      f.fillerReceives == 0 && f.creatorFee == 0 && f.reportingFee == 0 && f.escrowUsed == 0
  {
  }

  /** When the fee-reduced payout of a share-for-share sale divides exactly,
      each party receives exactly its proportional part: price/numTicks to the
      holder of the outcome's shares, the rest to the holder of the others. */
  lemma {:induction false} ExactShareSale(m: Market, price: nat, sets: nat)
    requires WellFormed(m) && price <= m.numTicks
    requires var r := ShareSale(m, price, sets); ((r.long + r.short) * price) % m.numTicks == 0
    ensures var r := ShareSale(m, price, sets);
      r.long * m.numTicks == (r.long + r.short) * price &&
      r.short * m.numTicks == (r.long + r.short) * (m.numTicks - price)
  {
    var r := ShareSale(m, price, sets);
    var payout := r.long + r.short;
    DivBounds(payout * price, m.numTicks);
    assert r.long == payout * price / m.numTicks;
    assert r.long * m.numTicks == payout * price;
    assert r.short * m.numTicks == payout * m.numTicks - r.long * m.numTicks;
  }
}
