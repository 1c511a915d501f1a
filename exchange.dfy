// The trading contracts of one market as a single object whose methods
// change its storage in place: placing and cancelling orders, buying
// complete sets and claiming proceeds. Each method is proved against the
// function that specifies the same operation on State values; a call that
// fails reverts, leaving the storage as it was.

module Exchange {
  import opened Wrappers
  import opened Settlement
  import opened Ledger
  import opened OrderLifecycle
  import opened ClaimProceeds
  import opened Matching

  class Exchange {
    const market: Market
    var orders: map<OrderId, Order>
    var books: map<BookKey, seq<OrderId>>
    var cash: map<nat, nat>
    var shares: map<nat, seq<nat>>
    var marketCash: nat
    var openInterest: nat
    var creatorFees: nat
    var reportingFees: nat

    /** The storage read as a State value. */
    function Snapshot(): State
      reads this
    {
      State(orders, books, cash, shares, marketCash, openInterest, creatorFees, reportingFees)
    }

    /** Every order is escrowed exactly and every book is sorted and holds
        live orders of its own outcome and side; the market's cash is
        exactly the cash escrowed by its orders plus the collateral of its
        outstanding complete sets. */
    ghost predicate Valid()
      reads this
    {
      Good(market, Snapshot()) && Reserve(Snapshot()) == 0
    }

    constructor (m: Market)
      requires WellFormed(m)
      ensures market == m && Snapshot() == Empty() && Valid()
    {
      market := m;
      orders, books, cash, shares := map[], map[], map[], map[];
      marketCash, openInterest, creatorFees, reportingFees := 0, 0, 0, 0;
      new;
      NoOrdersNoEscrow(orders);
    }

    /** Puts the storage back to a saved state: what a reverted call leaves. */
    method Restore(s: State)
      modifies this
      ensures Snapshot() == s
    {
      orders, books, cash, shares := s.orders, s.books, s.cash, s.shares;
      marketCash, openInterest, creatorFees, reportingFees := s.marketCash, s.openInterest, s.creatorFees, s.reportingFees;
    }

    /** Sets a's cash balance to x. */
    method SetCashOf(a: nat, x: nat)
      modifies this
      ensures Snapshot() == SetCash(old(Snapshot()), a, x)
    {
      cash := cash[a := x];
    }

    /** Sets a's share balances to v. */
    method SetHoldingsOf(a: nat, v: seq<nat>)
      modifies this
      ensures Snapshot() == SetHoldings(old(Snapshot()), a, v)
    {
      shares := shares[a := v];
    }

    /** Sets the market's cash, open interest and accrued fees. */
    method SetTotals(newMarketCash: nat, newOpenInterest: nat, newCreatorFees: nat, newReportingFees: nat)
      modifies this
      ensures Snapshot() == old(Snapshot()).(marketCash := newMarketCash, openInterest := newOpenInterest,
                                            creatorFees := newCreatorFees, reportingFees := newReportingFees)
    {
      marketCash, openInterest, creatorFees, reportingFees := newMarketCash, newOpenInterest, newCreatorFees, newReportingFees;
    }

    /** Records order o under id and files it in its book behind every
        order at least as good. */
    method SaveOrder(id: OrderId, o: Order)
      requires id.OrderHash?
      modifies this
      ensures Snapshot() == AddOrder(old(Snapshot()), id, o)
    {
      var key := KeyOf(id);
      books := books[key := Insert(id.t, Book(Snapshot(), key), id)];
      orders := orders[id := o];
    }

    /** Erases order id and takes it out of its book. */
    method RemoveOrder(id: OrderId)
      requires id.OrderHash?
      modifies this
      ensures Snapshot() == Ledger.RemoveOrder(old(Snapshot()), id)
    {
      var key := KeyOf(id);
      books := books[key := Without(Book(Snapshot(), key), id)];
      orders := orders - {id};
    }

    /** Moves order o's escrow from its owner into the market. */
    method EscrowFunds(o: Order)
      requires o.outcome < market.numOutcomes && market.numOutcomes >= 2
      requires Cash(Snapshot(), o.owner) >= o.moneyEscrowed
      requires o.sharesEscrowed <= Available(Holdings(market, Snapshot(), o.owner), Escrowed(o.t, o.outcome))
      modifies this
      ensures Snapshot() == TakeEscrow(market, old(Snapshot()), o)
    {
      var held, have := Holdings(market, Snapshot(), o.owner), Cash(Snapshot(), o.owner);
      shares := shares[o.owner := Take(held, Escrowed(o.t, o.outcome), o.sharesEscrowed)];
      cash := cash[o.owner := have - o.moneyEscrowed];
      marketCash := marketCash + o.moneyEscrowed;
    }

    /** refundOrder: hands an escrow back to its owner; reverts when the
        market does not hold the cash. */
    method RefundOrder(owner: nat, t: OrderType, outcome: nat, sharesEscrowed: nat, moneyEscrowed: nat)
      returns (r: Result<(), Error>)
      requires outcome < market.numOutcomes && market.numOutcomes >= 2
      modifies this
      ensures var spec := Refund(market, old(Snapshot()), owner, t, outcome, sharesEscrowed, moneyEscrowed);
        (spec.Ok? ==> r.Ok? && Snapshot() == spec.value) &&
        (spec.Err? ==> r == Err(spec.error) && Snapshot() == old(Snapshot()))
    {
      if marketCash < moneyEscrowed { return Err(MarketCashShort); }
      var held, have := Holdings(market, Snapshot(), owner), Cash(Snapshot(), owner);
      marketCash := marketCash - moneyEscrowed;
      cash := cash[owner := have + moneyEscrowed];
      shares := shares[owner := Give(held, Escrowed(t, outcome), sharesEscrowed)];
      return Ok(());
    }

    /** makeOrder: checks the order, works out its escrow, saves it and
        takes the escrow from the maker. */
    method MakeOrder(addr: nat, sender: nat, t: OrderType, amount: nat, price: nat, outcome: nat,
                     block: nat, gasPrice: nat) returns (r: Result<OrderId, Error>)
      requires Valid()
      modifies this
      ensures Valid()
      ensures var spec := Create(market, old(Snapshot()), addr, sender, t, amount, price, outcome, block, gasPrice);
        (spec.Ok? ==> r == Ok(spec.value.1) && Snapshot() == spec.value.0) &&
        (spec.Err? ==> r == Err(spec.error) && Snapshot() == old(Snapshot()))
    {
      if addr != market.address { return Err(InvalidMarket); }
      if outcome >= market.numOutcomes { return Err(InvalidOutcome); }
      if !ValidPrice(market, price) { return Err(InvalidPrice); }
      if amount == 0 { return Err(ZeroAmount); }
      ghost var s := Snapshot();
      var e := EscrowFor(market, Holdings(market, Snapshot(), sender), t, amount, price, outcome);
      if Cash(Snapshot(), sender) < e.money { return Err(InsufficientCash); }
      var id := OrderHash(t, amount, price, sender, block, outcome, e.money, e.shares);
      if id in orders { return Err(DuplicateOrder); }
      var o := Order(t, outcome, amount, price, sender, e.money, e.shares, gasPrice);
      SaveOrder(id, o);
      EscrowFunds(o);
      assert Create(market, s, addr, sender, t, amount, price, outcome, block, gasPrice) == Ok((Snapshot(), id));
      CreateKeepsGood(market, s, addr, sender, t, amount, price, outcome, block, gasPrice);
      CreateAccounts(market, s, addr, sender, t, amount, price, outcome, block, gasPrice);
      return Ok(id);
    }

    /** cancelOrder: only the owner may cancel; the order leaves the table
        and its book, and its escrow goes back to the owner. */
    method CancelOrder(addr: nat, sender: nat, id: OrderId, t: OrderType, outcome: nat) returns (r: Result<(), Error>)
      requires Valid()
      modifies this
      ensures Valid()
      ensures var spec := Cancel(market, old(Snapshot()), addr, sender, id, t, outcome);
        (spec.Ok? ==> r.Ok? && Snapshot() == spec.value) &&
        (spec.Err? ==> r == Err(spec.error) && Snapshot() == old(Snapshot()))
    {
      if addr != market.address || id !in orders || orders[id].t != t || orders[id].outcome != outcome {
        return Err(OrderNotFound);
      }
      var o := orders[id];
      if o.owner != sender { return Err(NotOwner); }
      var saved := Snapshot();
      assert OrderOk(market, id, o);
      RemoveOrder(id);
      r := RefundOrder(sender, t, outcome, o.sharesEscrowed, o.moneyEscrowed);
      if r.Err? {
        Restore(saved);
        return;
      }
      CancelKeepsGood(market, saved, addr, sender, id, t, outcome);
      CancelAccounts(market, saved, addr, sender, id, t, outcome);
    }

    /** buyCompleteSets: the buyer pays amount * numTicks into the market and
        is given `amount` shares of every outcome. */
    method BuyCompleteSets(sender: nat, amount: nat) returns (r: Result<(), Error>)
      requires Valid()
      modifies this
      ensures Valid()
      ensures var spec := OrderLifecycle.BuyCompleteSets(market, old(Snapshot()), sender, amount);
        (spec.Ok? ==> r.Ok? && Snapshot() == spec.value) &&
        (spec.Err? ==> r == Err(spec.error) && Snapshot() == old(Snapshot()))
    {
      var cost := amount * market.numTicks;
      if Cash(Snapshot(), sender) < cost { return Err(InsufficientCash); }
      ghost var s := Snapshot();
      PayForSets(sender, amount);
      GoodFrame(market, s, Snapshot());
      BuyCompleteSetsAccounts(market, s, sender, amount);
      return Ok(());
    }

    /** A purchase of complete sets that passed its check: the buyer's cash
        goes into the market and the open interest, and the sets are minted. */
    method PayForSets(sender: nat, amount: nat)
      requires Cash(Snapshot(), sender) >= amount * market.numTicks
      modifies this
      ensures OrderLifecycle.BuyCompleteSets(market, old(Snapshot()), sender, amount) == Ok(Snapshot())
    {
      var cost: nat := amount * market.numTicks;
      cash := cash[sender := Cash(Snapshot(), sender) - cost];
      marketCash, openInterest := marketCash + cost, openInterest + cost;
      CreateShares(sender, amount);
    }

    /** Mints `amount` shares of every outcome for `holder`, one outcome at
        a time. */
    method CreateShares(holder: nat, amount: nat)
      modifies this
      ensures var v := Holdings(market, old(Snapshot()), holder);
        Snapshot() == SetHoldings(old(Snapshot()), holder, seq(|v|, j requires 0 <= j < |v| => v[j] + amount))
    {
      var v := Holdings(market, Snapshot(), holder);
      var w := v;
      for j := 0 to |v|
        invariant |w| == |v|
        invariant forall i :: 0 <= i < j ==> w[i] == v[i] + amount
        invariant forall i :: j <= i < |v| ==> w[i] == v[i]
      {
        w := w[j := w[j] + amount];
      }
      shares := shares[holder := w];
      assert w == seq(|v|, j requires 0 <= j < |v| => v[j] + amount);
    }

    /** Redeems the holder's balance of one outcome: burns the shares, pays
        the holder after fees, accrues the fees, and takes the proceeds out
        of the market's cash and open interest. */
    method Redeem(res: Resolution, holder: nat, outcome: nat) returns (r: Result<(), Error>)
      requires WellFormed(market) && outcome < market.numOutcomes
      modifies this
      ensures var spec := ClaimProceeds.Redeem(market, res, old(Snapshot()), holder, outcome);
        (spec.Ok? ==> r.Ok? && Snapshot() == spec.value) &&
        (spec.Err? ==> r == Err(spec.error) && Snapshot() == old(Snapshot()))
    {
      var v := Holdings(market, Snapshot(), holder);
      r := PayOut(holder, outcome, DivideUpWinnings(market, res, outcome, v[outcome]));
    }

    /** Burns the holder's shares of one outcome, whose value is shared out
        as w; reverts when the market's cash or open interest does not
        cover the proceeds. */
    method PayOut(holder: nat, outcome: nat, w: Winnings) returns (r: Result<(), Error>)
      requires outcome < market.numOutcomes
      modifies this
      ensures var spec := ClaimProceeds.PayOut(market, old(Snapshot()), holder, outcome, w);
        (spec.Ok? ==> r.Ok? && Snapshot() == spec.value) &&
        (spec.Err? ==> r == Err(spec.error) && Snapshot() == old(Snapshot()))
    {
      if marketCash < w.proceeds { return Err(MarketCashShort); }
      if openInterest < w.proceeds { return Err(OpenInterestShort); }
      var v := Holdings(market, Snapshot(), holder);
      SetHoldingsOf(holder, v[outcome := 0]);
      SetCashOf(holder, Cash(Snapshot(), holder) + w.shareholderShare);
      marketCash, openInterest := marketCash - w.proceeds, openInterest - w.proceeds;
      creatorFees, reportingFees := creatorFees + w.creatorShare, reportingFees + w.reporterShare;
      return Ok(());
    }

    /** claimProceeds: past the gates, the sender's balance of every outcome
        is redeemed in turn; a redemption the market cannot cover reverts
        the whole claim. */
    method Claim(res: Resolution, addr: nat, sender: nat, now: nat) returns (r: Result<(), Error>)
      requires Valid()
      modifies this
      ensures Valid()
      ensures var spec := ClaimProceeds.Claim(market, res, old(Snapshot()), addr, sender, now);
        (spec.Ok? ==> r.Ok? && Snapshot() == spec.value) &&
        (spec.Err? ==> r == Err(spec.error) && Snapshot() == old(Snapshot()))
    {
      if addr != market.address { return Err(InvalidMarket); }
      if !res.finalized { return Err(MarketNotFinalized); }
      if now <= res.finalizationTime + WAITING_PERIOD { return Err(WaitingPeriodNotOver); }
      var saved := Snapshot();
      for outcome := 0 to market.numOutcomes
        invariant orders == saved.orders && books == saved.books
        invariant RedeemFrom(market, res, Snapshot(), sender, outcome) == RedeemFrom(market, res, saved, sender, 0)
      {
        RedeemFromUnrolled(market, res, Snapshot(), sender, outcome);
        r := Redeem(res, sender, outcome);
        if r.Err? {
          Restore(saved);
          return;
        }
      }
      GoodFrame(market, saved, Snapshot());
      ClaimAccounts(market, res, saved, addr, sender, now);
      return Ok(());
    }

    /** Settles a fill with flows f between the maker and the filler, who
        hands in fillerShares of the maker's wanted position; reverts when
        the filler's cash, the market's cash or its open interest falls
        short. */
    method SettleFill(maker: nat, filler: nat, t: OrderType, outcome: nat, f: Flows, fillerShares: nat)
      returns (r: Result<(), Error>)
      requires WellFormed(market) && outcome < market.numOutcomes
      requires fillerShares <= Available(Holdings(market, Snapshot(), filler), Wanted(t, outcome))
      modifies this
      ensures var spec := SettleBalances(market, old(Snapshot()), maker, filler, t, outcome, f, fillerShares);
        (spec.Ok? ==> r.Ok? && Snapshot() == spec.value) &&
        (spec.Err? ==> r == Err(spec.error) && Snapshot() == old(Snapshot()))
    {
      var paidOut := f.makerReceives + f.fillerReceives + f.creatorFee + f.reportingFee;
      if Cash(Snapshot(), filler) < f.fillerPays { return Err(InsufficientCash); }
      if marketCash + f.fillerPays < paidOut { return Err(MarketCashShort); }
      if openInterest + f.legs.cashForCash * market.numTicks < f.legs.sharesForShares * market.numTicks {
        return Err(OpenInterestShort);
      }
      MoveFunds(maker, filler, t, outcome, f, fillerShares);
      return Ok(());
    }

    /** A fill that passed its checks: the balances move and the market's
        totals follow. */
    method MoveFunds(maker: nat, filler: nat, t: OrderType, outcome: nat, f: Flows, fillerShares: nat)
      requires WellFormed(market) && outcome < market.numOutcomes
      requires fillerShares <= Available(Holdings(market, Snapshot(), filler), Wanted(t, outcome))
      requires SettleBalances(market, Snapshot(), maker, filler, t, outcome, f, fillerShares).Ok?
      modifies this
      ensures Snapshot() == SettleBalances(market, old(Snapshot()), maker, filler, t, outcome, f, fillerShares).value
    {
      var s := Snapshot();
      var paidOut := f.makerReceives + f.fillerReceives + f.creatorFee + f.reportingFee;
      PayParties(maker, filler, f);
      SwapShares(maker, filler, t, outcome, f, fillerShares);
      SetTotals(s.marketCash + f.fillerPays - paidOut,
                s.openInterest + f.legs.cashForCash * market.numTicks - f.legs.sharesForShares * market.numTicks,
                s.creatorFees + f.creatorFee, s.reportingFees + f.reportingFee);
    }

    /** The cash side of a fill, one balance after the other. */
    method PayParties(maker: nat, filler: nat, f: Flows)
      requires Cash(Snapshot(), filler) >= f.fillerPays
      modifies this
      ensures Snapshot() == Matching.PayParties(old(Snapshot()), maker, filler, f)
    {
      SetCashOf(filler, Cash(Snapshot(), filler) - f.fillerPays);
      SetCashOf(maker, Cash(Snapshot(), maker) + f.makerReceives);
      SetCashOf(filler, Cash(Snapshot(), filler) + f.fillerReceives);
    }

    /** The share side of a fill, one balance after the other. */
    method SwapShares(maker: nat, filler: nat, t: OrderType, outcome: nat, f: Flows, fillerShares: nat)
      requires WellFormed(market) && outcome < market.numOutcomes
      requires fillerShares <= Available(Holdings(market, Snapshot(), filler), Wanted(t, outcome))
      modifies this
      ensures Snapshot() == Matching.SwapShares(market, old(Snapshot()), maker, filler, t, outcome, f, fillerShares)
    {
      ghost var s := Snapshot();
      var fillerHeld := Take(Holdings(market, Snapshot(), filler), Wanted(t, outcome), fillerShares);
      var fillerNew := Give(fillerHeld, Escrowed(t, outcome), f.legs.sharesForCash + f.legs.cashForCash);
      SetHoldingsOf(filler, fillerNew);
      ghost var s1 := Snapshot();
      var makerNew := Give(Holdings(market, Snapshot(), maker), Wanted(t, outcome), f.legs.cashForShares + f.legs.cashForCash);
      SetHoldingsOf(maker, makerNew);
      assert s1 == SetHoldings(s, filler, fillerNew);
    }

    /** Erases a fully taken order, or shrinks a partly taken one in place. */
    method ApplyFill(id: OrderId, o: Order, fill: nat)
      requires OrderOk(market, id, o) && 0 < fill <= o.amount
      modifies this
      ensures Snapshot() == AfterFill(market, old(Snapshot()), id, o, fill)
    {
      if fill == o.amount {
        RemoveOrder(id);
      } else {
        ShrunkKeepsEscrow(market, id, o, fill);
        orders := orders[id := Shrunk(market, o, fill, Min(o.sharesEscrowed, fill))];
      }
    }

    /** Fills up to `amount` shares of order id for `filler` and returns how
        many were filled. */
    method FillOne(filler: nat, id: OrderId, amount: nat) returns (r: Result<nat, Error>)
      requires Valid()
      modifies this
      ensures Valid()
      ensures var spec := Fill(market, old(Snapshot()), filler, id, amount);
        (spec.Ok? ==> r == Ok(spec.value.1) && Snapshot() == spec.value.0) &&
        (spec.Err? ==> r == Err(spec.error) && Snapshot() == old(Snapshot()))
    {
      if id !in orders { return Err(OrderNotFound); }
      if amount == 0 { return Ok(0); }
      var s := Snapshot();
      var o := orders[id];
      assert OrderOk(market, id, o);
      var fill := Min(amount, o.amount);
      var fillerShares := FillerShares(market, s, filler, o, fill);
      var f := FlowsFor(market, s, filler, id, o, fill);
      var settled := SettleFill(o.owner, filler, o.t, o.outcome, f, fillerShares);
      if settled.Err? { return Err(settled.error); }
      ApplyFill(id, o, fill);
      assert Fill(market, s, filler, id, amount) == Ok((Snapshot(), fill));
      FillAccounts(market, s, filler, id, amount);
      return Ok(fill);
    }

    /** takeOrder / fillOrder: fills the named order and returns the part of
        the requested amount that was not filled. */
    method TakeOrder(filler: nat, id: OrderId, amount: nat) returns (r: Result<nat, Error>)
      requires Valid()
      modifies this
      ensures Valid()
      ensures var spec := FillOrder(market, old(Snapshot()), filler, id, amount);
        (spec.Ok? ==> r == Ok(spec.value.1) && Snapshot() == spec.value.0) &&
        (spec.Err? ==> r == Err(spec.error) && Snapshot() == old(Snapshot()))
    {
      var filled := FillOne(filler, id, amount);
      if filled.Err? { return Err(filled.error); }
      return Ok(amount - filled.value);
    }

    /** Fills the best orders of book (outcome, t) one after the other while
        some of `amount` is left and the best order crosses `limit`; returns
        the amount left over. A failed fill reverts the whole walk. */
    method FillBestOrder(filler: nat, t: OrderType, outcome: nat, amount: nat, limit: nat)
      returns (r: Result<nat, Error>)
      requires Valid()
      modifies this
      ensures Valid()
      ensures var spec := FillBest(market, old(Snapshot()), filler, t, outcome, amount, limit);
        (spec.Ok? ==> r == Ok(spec.value.1) && Snapshot() == spec.value.0) &&
        (spec.Err? ==> r == Err(spec.error) && Snapshot() == old(Snapshot()))
    {
      var saved := Snapshot();
      ghost var spec := FillBest(market, saved, filler, t, outcome, amount, limit);
      var left: nat := amount;
      while left > 0 && FrontCrosses(Snapshot(), t, outcome, limit)
        invariant Valid()
        invariant FillBest(market, Snapshot(), filler, t, outcome, left, limit) == spec
        decreases left
      {
        var step := FillFrontOrder(filler, t, outcome, left, limit, spec);
        if step.Err? {
          Restore(saved);
          return Err(step.error);
        }
        left := step.value;
      }
      FillBestStops(market, Snapshot(), filler, t, outcome, left, limit);
      return Ok(left);
    }

    /** One step of the walk: fills the best order and returns what is left
        to fill. The rest of the walk from the new state ends where the
        whole walk ends (`goal`); a failed fill is the walk's failure. */
    method FillFrontOrder(filler: nat, t: OrderType, outcome: nat, left: nat, limit: nat,
                          ghost goal: Result<(State, nat), Error>) returns (r: Result<nat, Error>)
      requires Valid() && left > 0 && FrontCrosses(Snapshot(), t, outcome, limit)
      requires FillBest(market, Snapshot(), filler, t, outcome, left, limit) == goal
      modifies this
      ensures Valid()
      ensures r.Ok? ==> r.value < left && FillBest(market, Snapshot(), filler, t, outcome, r.value, limit) == goal
      ensures r.Err? ==> goal == Err(r.error)
    {
      var id := Book(Snapshot(), BookKey(outcome, t))[0];
      ghost var before := Snapshot();
      var filled := FillOne(filler, id, left);
      if filled.Ok? {
        r := Ok(left - filled.value);
      } else {
        r := Err(filled.error);
      }
      FillFrontStep(market, before, filler, t, outcome, left, limit, goal, filled, Snapshot(), r);
    }

    /** fillBestOrder as called from outside: the taker's side comes as an
        order type code and the walk takes the other side. */
    method PublicFillBestOrder(addr: nat, filler: nat, code: nat, outcome: nat, amount: nat, limit: nat)
      returns (r: Result<nat, Error>)
      requires Valid()
      modifies this
      ensures Valid()
      ensures var spec := Matching.PublicFillBestOrder(market, old(Snapshot()), addr, filler, code, outcome, amount, limit);
        (spec.Ok? ==> r == Ok(spec.value.1) && Snapshot() == spec.value.0) &&
        (spec.Err? ==> r == Err(spec.error) && Snapshot() == old(Snapshot()))
    {
      if addr != market.address { return Err(InvalidMarket); }
      var takerSide := DecodeOrderType(code);
      if takerSide.Err? { return Err(takerSide.error); }
      r := FillBestOrder(filler, Opposite(takerSide.value), outcome, amount, limit);
    }

    /** trade: walks the other side of the book up to the limit price, then
        rests whatever is left as the trader's own order at that price. */
    method Trade(addr: nat, sender: nat, direction: Direction, outcome: nat, amount: nat, limit: nat,
                 block: nat, gasPrice: nat) returns (r: Result<TradeResult, Error>)
      requires Valid()
      modifies this
      ensures Valid()
      ensures var spec := Matching.Trade(market, old(Snapshot()), addr, sender, direction, outcome, amount, limit,
                                         block, gasPrice);
        (spec.Ok? ==> r == Ok(spec.value.1) && Snapshot() == spec.value.0) &&
        (spec.Err? ==> r == Err(spec.error) && Snapshot() == old(Snapshot()))
    {
      if addr != market.address { return Err(InvalidMarket); }
      var saved := Snapshot();
      var t := Consumes(direction);
      var left := FillBestOrder(sender, t, outcome, amount, limit);
      if left.Err? { return Err(left.error); }
      if left.value == 0 { return Ok(NoLeftover); }
      var id := MakeOrder(addr, sender, Opposite(t), left.value, limit, outcome, block, gasPrice);
      if id.Err? {
        Restore(saved);
        return Err(id.error);
      }
      return Ok(Leftover(id.value));
    }

    /** publicBuy / publicSell / publicTrade: direction 0 buys, 1 sells. */
    method PublicTrade(addr: nat, sender: nat, code: nat, outcome: nat, amount: nat, limit: nat,
                       block: nat, gasPrice: nat) returns (r: Result<TradeResult, Error>)
      requires Valid()
      modifies this
      ensures Valid()
      ensures var spec := Matching.PublicTrade(market, old(Snapshot()), addr, sender, code, outcome, amount, limit,
                                               block, gasPrice);
        (spec.Ok? ==> r == Ok(spec.value.1) && Snapshot() == spec.value.0) &&
        (spec.Err? ==> r == Err(spec.error) && Snapshot() == old(Snapshot()))
    {
      var direction := DecodeDirection(code);
      if direction.Err? { return Err(direction.error); }
      r := Trade(addr, sender, direction.value, outcome, amount, limit, block, gasPrice);
    }
  }
}
