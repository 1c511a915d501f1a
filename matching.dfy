// Matching: filling one named order, walking a book's best orders up to a
// limit price, and trading (walk, then rest any leftover as a new order).

module Matching {
  import opened Wrappers
  import opened Settlement
  import opened Ledger
  import opened OrderLifecycle

  // -------------------------------------------------------------- one fill

  /** The resting order after `fill` of its shares are taken: it gives up the
      escrowed shares and cash the fill used. */
  function Shrunk(m: Market, o: Order, fill: nat, makerShares: nat): (r: Order)
    requires o.price <= m.numTicks && makerShares <= o.sharesEscrowed && makerShares <= fill <= o.amount
    requires (fill - makerShares) * UnitCost(m, o.t, o.price) <= o.moneyEscrowed
    ensures r.t == o.t && r.outcome == o.outcome && r.price == o.price && r.owner == o.owner
    ensures r.amount + fill == o.amount && r.sharesEscrowed + makerShares == o.sharesEscrowed
    ensures r.moneyEscrowed + (fill - makerShares) * UnitCost(m, o.t, o.price) == o.moneyEscrowed
  {
    o.(amount := o.amount - fill,
       sharesEscrowed := o.sharesEscrowed - makerShares,
       moneyEscrowed := o.moneyEscrowed - (fill - makerShares) * UnitCost(m, o.t, o.price))
  }

  /** A partial fill uses the escrowed shares first, so what is left of the
      order is still covered exactly: by its remaining shares and by cash at
      the unit cost for the rest. */
  lemma {:induction false} ShrunkKeepsEscrow(m: Market, id: OrderId, o: Order, fill: nat)
    requires OrderOk(m, id, o) && 0 < fill < o.amount
    ensures var ms := Min(o.sharesEscrowed, fill);
      (fill - ms) * UnitCost(m, o.t, o.price) <= o.moneyEscrowed &&
      OrderOk(m, id, Shrunk(m, o, fill, ms))
  {
    var ms := Min(o.sharesEscrowed, fill);
    var c := UnitCost(m, o.t, o.price);
    // the cash part of the fill and the cash part of the rest add up to the
    // cash part of the whole order
    assert (fill - ms) + ((o.amount - fill) - (o.sharesEscrowed - ms)) == o.amount - o.sharesEscrowed;
    MulAdd(fill - ms, (o.amount - fill) - (o.sharesEscrowed - ms), c);
  }

  lemma MulAdd(a: nat, b: nat, c: nat)
    ensures (a + b) * c == a * c + b * c
  {
  }

  /** The order table after a fill: a fully taken order is erased, a partly
      taken one shrinks in place. */
  function AfterFill(m: Market, s: State, id: OrderId, o: Order, fill: nat): (r: State)
    requires OrderOk(m, id, o) && 0 < fill <= o.amount
    ensures fill == o.amount ==>
      id !in r.orders && Book(r, KeyOf(id)) == Without(Book(s, KeyOf(id)), id) &&
      forall key :: key != KeyOf(id) ==> Book(r, key) == Book(s, key)
    ensures fill < o.amount ==> r.books == s.books && id in r.orders
    ensures forall x :: x != id ==> (x in r.orders <==> x in s.orders)
    ensures forall x :: x != id && x in s.orders ==> r.orders[x] == s.orders[x]
  {
    if fill == o.amount then RemoveOrder(s, id)
    else
      ShrunkKeepsEscrow(m, id, o, fill);
      UpdateOrder(s, id, Shrunk(m, o, fill, Min(o.sharesEscrowed, fill)))
  }

  lemma {:induction false} AfterFillKeepsGood(m: Market, s: State, id: OrderId, o: Order, fill: nat)
    requires Good(m, s) && id in s.orders && s.orders[id] == o && 0 < fill <= o.amount
    ensures OrderOk(m, id, o) && Good(m, AfterFill(m, s, id, o, fill))
  {
    assert OrderOk(m, id, o);
    if fill == o.amount {
      RemoveOrderKeepsGood(m, s, id);
    } else {
      ShrunkKeepsEscrow(m, id, o, fill);
      UpdateOrderKeepsGood(m, s, id, Shrunk(m, o, fill, Min(o.sharesEscrowed, fill)));
    }
  }

  /** The balances after a fill with flows f: the filler pays, both parties
      are paid, the shares change hands, and the fees leave the market's
      cash, which also takes in the collateral of the sets bought and gives
      up that of the sets sold. */
  function SettleBalances(m: Market, s: State, maker: nat, filler: nat, t: OrderType, outcome: nat,
                          f: Flows, fillerShares: nat): (r: Result<State, Error>)
    requires WellFormed(m) && outcome < m.numOutcomes
    requires fillerShares <= Available(Holdings(m, s, filler), Wanted(t, outcome))
    ensures r.Ok? ==> r.value.orders == s.orders && r.value.books == s.books
  {
    var paidOut := f.makerReceives + f.fillerReceives + f.creatorFee + f.reportingFee;
    var setsSold := f.legs.sharesForShares * m.numTicks;
    var setsBought := f.legs.cashForCash * m.numTicks;
    if Cash(s, filler) < f.fillerPays then Err(InsufficientCash)
    else if s.marketCash + f.fillerPays < paidOut then Err(MarketCashShort)
    else if s.openInterest + setsBought < setsSold then Err(OpenInterestShort)
    else
      var s1 := SwapShares(m, PayParties(s, maker, filler, f), maker, filler, t, outcome, f, fillerShares);
      Ok(s1.(marketCash := s.marketCash + f.fillerPays - paidOut,
             openInterest := s.openInterest + setsBought - setsSold,
             creatorFees := s.creatorFees + f.creatorFee,
             reportingFees := s.reportingFees + f.reportingFee))
  }

  /** The cash side of a fill: the filler pays what it owes, then the maker
      and the filler are paid what they receive. */
  function PayParties(s: State, maker: nat, filler: nat, f: Flows): (r: State)
    requires Cash(s, filler) >= f.fillerPays
    ensures r.(cash := s.cash) == s
  {
    var s1 := SetCash(s, filler, Cash(s, filler) - f.fillerPays);
    var s2 := SetCash(s1, maker, Cash(s1, maker) + f.makerReceives);
    SetCash(s2, filler, Cash(s2, filler) + f.fillerReceives)
  }

  /** The share side of a fill: the filler hands over its shares of the
      maker's wanted position and receives the maker's escrowed position for
      the shares it bought, and the maker receives its wanted position; sets
      sold are burned and sets bought are minted. */
  function SwapShares(m: Market, s: State, maker: nat, filler: nat, t: OrderType, outcome: nat,
                      f: Flows, fillerShares: nat): (r: State)
    requires WellFormed(m) && outcome < m.numOutcomes
    requires fillerShares <= Available(Holdings(m, s, filler), Wanted(t, outcome))
    ensures r.(shares := s.shares) == s
  {
    var fillerHeld := Take(Holdings(m, s, filler), Wanted(t, outcome), fillerShares);
    var s1 := SetHoldings(s, filler, Give(fillerHeld, Escrowed(t, outcome), f.legs.sharesForCash + f.legs.cashForCash));
    SetHoldings(s1, maker, Give(Holdings(m, s1, maker), Wanted(t, outcome), f.legs.cashForShares + f.legs.cashForCash))
  }

  /** The flows of a fill of `fill` shares of order o against `filler`: the
      maker covers the fill with escrowed shares first, the filler with its
      shares of the maker's wanted position first. */
  function FlowsFor(m: Market, s: State, filler: nat, id: OrderId, o: Order, fill: nat): (f: Flows)
    requires WellFormed(m) && OrderOk(m, id, o)
  {
    Settle(m, o.t, o.price, Min(o.sharesEscrowed, fill), FillerShares(m, s, filler, o, fill), fill)
  }

  /** How many of the filler's own shares a fill uses: as many of the maker's
      wanted position as the filler holds, up to the fill. */
  function FillerShares(m: Market, s: State, filler: nat, o: Order, fill: nat): (r: nat)
    requires WellFormed(m) && o.outcome < m.numOutcomes
    ensures r <= fill && r <= Available(Holdings(m, s, filler), Wanted(o.t, o.outcome))
  {
    Min(Available(Holdings(m, s, filler), Wanted(o.t, o.outcome)), fill)
  }

  /** Fills up to `amount` shares of order id for `filler`; returns the new
      state and the number of shares filled. */
  function Fill(m: Market, s: State, filler: nat, id: OrderId, amount: nat): (r: Result<(State, nat), Error>)
    requires Good(m, s)
    ensures r.Ok? ==> id in s.orders && Good(m, r.value.0) && r.value.1 == Min(amount, s.orders[id].amount)
  {
    if id !in s.orders then Err(OrderNotFound)
    else if amount == 0 then Ok((s, 0))
    else
      var o := s.orders[id];
      assert OrderOk(m, id, o);
      var fill := Min(amount, o.amount);
      var fillerShares := FillerShares(m, s, filler, o, fill);
      var f := FlowsFor(m, s, filler, id, o, fill);
      match SettleBalances(m, s, o.owner, filler, o.t, o.outcome, f, fillerShares)
      case Err(e) => Err(e)
      case Ok(s1) =>
        GoodFrame(m, s, s1);
        AfterFillKeepsGood(m, s1, id, o, fill);
        Ok((AfterFill(m, s1, id, o, fill), fill))
  }

  /** A fill touches only the order it fills: a fully filled order leaves the
      table and its book, a partly filled one keeps its place; every other
      order and every other book is as it was. */
  lemma {:induction false} FillShape(m: Market, s: State, filler: nat, id: OrderId, amount: nat)
    requires Good(m, s) && Fill(m, s, filler, id, amount).Ok?
    ensures var (s', filled) := Fill(m, s, filler, id, amount).value;
      id.OrderHash? &&
      (filled == s.orders[id].amount ==>
        id !in s'.orders && Book(s', KeyOf(id)) == Without(Book(s, KeyOf(id)), id) &&
        forall key :: key != KeyOf(id) ==> Book(s', key) == Book(s, key)) &&
      (filled < s.orders[id].amount ==> s'.books == s.books && id in s'.orders) &&
      (forall x :: x != id ==> (x in s'.orders <==> x in s.orders)) &&
      (forall x :: x != id && x in s.orders ==> s'.orders[x] == s.orders[x])
  {
    var o := s.orders[id];
    assert OrderOk(m, id, o);
    if amount > 0 {
      var s1 := FillSettled(m, s, filler, id, amount);
      AfterFillShape(m, s, s1, id, o, Min(amount, o.amount));
    }
  }

  /** A successful fill settles the balances and then files the filled order. */
  lemma FillSettled(m: Market, s: State, filler: nat, id: OrderId, amount: nat) returns (s1: State)
    requires Good(m, s) && Fill(m, s, filler, id, amount).Ok? && amount > 0
    ensures id in s.orders && OrderOk(m, id, s.orders[id])
    ensures s1.orders == s.orders && s1.books == s.books
    ensures Fill(m, s, filler, id, amount)
         == Ok((AfterFill(m, s1, id, s.orders[id], Min(amount, s.orders[id].amount)), Min(amount, s.orders[id].amount)))
  {
    var o := s.orders[id];
    assert OrderOk(m, id, o);
    var fill := Min(amount, o.amount);
    var f := FlowsFor(m, s, filler, id, o, fill);
    var settled := SettleBalances(m, s, o.owner, filler, o.t, o.outcome, f, FillerShares(m, s, filler, o, fill));
    assert settled.Ok?;
    s1 := settled.value;
  }

  /** The shape of a fill over a state with the orders and books of s. */
  lemma AfterFillShape(m: Market, s: State, s1: State, id: OrderId, o: Order, fill: nat)
    requires OrderOk(m, id, o) && 0 < fill <= o.amount && s1.orders == s.orders && s1.books == s.books
    ensures var s' := AfterFill(m, s1, id, o, fill);
      (fill == o.amount ==>
        id !in s'.orders && Book(s', KeyOf(id)) == Without(Book(s, KeyOf(id)), id) &&
        forall key :: key != KeyOf(id) ==> Book(s', key) == Book(s, key)) &&
      (fill < o.amount ==> s'.books == s.books && id in s'.orders)
  {
    assert forall key :: Book(s1, key) == Book(s, key);
  }

  /** The public fill of one named order: returns how much of the requested
      amount was not filled. */
  function FillOrder(m: Market, s: State, filler: nat, id: OrderId, amount: nat): (r: Result<(State, nat), Error>)
    requires Good(m, s)
    ensures r.Ok? ==> id in s.orders && r.value.1 == amount - Min(amount, s.orders[id].amount)
    ensures r.Err? <==> Fill(m, s, filler, id, amount).Err?
  {
    match Fill(m, s, filler, id, amount)
    case Err(e) => Err(e)
    case Ok((s1, filled)) => Ok((s1, amount - filled))
  }

  /** A fill creates no value: what the filler and the maker gain in cash
      the market gives up in cash and fees, the shares change hands as the
      legs say, and no one else's balances move. */
  lemma {:induction false} SettleConserves(m: Market, s: State, maker: nat, filler: nat, t: OrderType, outcome: nat,
                                           f: Flows, fillerShares: nat)
    requires WellFormed(m) && outcome < m.numOutcomes && maker != filler
    requires fillerShares <= Available(Holdings(m, s, filler), Wanted(t, outcome))
    requires SettleBalances(m, s, maker, filler, t, outcome, f, fillerShares).Ok?
    ensures var s' := SettleBalances(m, s, maker, filler, t, outcome, f, fillerShares).value;
      Cash(s', filler) + f.fillerPays == Cash(s, filler) + f.fillerReceives &&
      Cash(s', maker) == Cash(s, maker) + f.makerReceives &&
      Cash(s', maker) + Cash(s', filler) + s'.marketCash + s'.creatorFees + s'.reportingFees ==
        Cash(s, maker) + Cash(s, filler) + s.marketCash + s.creatorFees + s.reportingFees &&
      s'.openInterest + f.legs.sharesForShares * m.numTicks == s.openInterest + f.legs.cashForCash * m.numTicks &&
      Holdings(m, s', filler) ==
        Give(Take(Holdings(m, s, filler), Wanted(t, outcome), fillerShares), Escrowed(t, outcome),
             f.legs.sharesForCash + f.legs.cashForCash) &&
      Holdings(m, s', maker) == Give(Holdings(m, s, maker), Wanted(t, outcome), f.legs.cashForShares + f.legs.cashForCash) &&
      (forall a :: a != maker && a != filler ==> Cash(s', a) == Cash(s, a) && Holdings(m, s', a) == Holdings(m, s, a))
  {
    var p := PayParties(s, maker, filler, f);
    PayPartiesMoves(s, maker, filler, f);
    assert Holdings(m, p, filler) == Holdings(m, s, filler) && Holdings(m, p, maker) == Holdings(m, s, maker);
    SwapSharesMoves(m, p, maker, filler, t, outcome, f, fillerShares);
  }

  /** The cash side of a fill moves the filler's and the maker's cash only. */
  lemma PayPartiesMoves(s: State, maker: nat, filler: nat, f: Flows)
    requires maker != filler && Cash(s, filler) >= f.fillerPays
    ensures var p := PayParties(s, maker, filler, f);
      Cash(p, filler) + f.fillerPays == Cash(s, filler) + f.fillerReceives &&
      Cash(p, maker) == Cash(s, maker) + f.makerReceives &&
      (forall a :: a != maker && a != filler ==> Cash(p, a) == Cash(s, a)) &&
      p.shares == s.shares
  {
  }

  /** The share side of a fill moves the filler's and the maker's shares
      only. */
  lemma SwapSharesMoves(m: Market, s: State, maker: nat, filler: nat, t: OrderType, outcome: nat,
                        f: Flows, fillerShares: nat)
    requires WellFormed(m) && outcome < m.numOutcomes && maker != filler
    requires fillerShares <= Available(Holdings(m, s, filler), Wanted(t, outcome))
    ensures var w := SwapShares(m, s, maker, filler, t, outcome, f, fillerShares);
      Holdings(m, w, filler) ==
        Give(Take(Holdings(m, s, filler), Wanted(t, outcome), fillerShares), Escrowed(t, outcome),
             f.legs.sharesForCash + f.legs.cashForCash) &&
      Holdings(m, w, maker) == Give(Holdings(m, s, maker), Wanted(t, outcome), f.legs.cashForShares + f.legs.cashForCash) &&
      (forall a :: a != maker && a != filler ==> Holdings(m, w, a) == Holdings(m, s, a)) &&
      w.cash == s.cash
  {
  }

  /** Taking the whole of an order escrowed in cash, with cash: maker and
      filler buy `amount` complete sets between them, each paying its own
      side's cost (the maker out of its escrow), with no fee; the order is
      erased, its record reads as zeros and nothing is left to fill. */
  lemma {:induction false} CashTakeBuysSets(m: Market, s: State, filler: nat, id: OrderId)
    requires Good(m, s) && id in s.orders
    requires var o := s.orders[id];
      o.sharesEscrowed == 0 && filler != o.owner &&
      Available(Holdings(m, s, filler), Wanted(o.t, o.outcome)) == 0 &&
      Cash(s, filler) >= o.amount * UnitCost(m, Opposite(o.t), o.price)
    ensures var o := s.orders[id];
      var r := FillOrder(m, s, filler, id, o.amount);
      r.Ok? && r.value.1 == 0 &&
      var s' := r.value.0;
      id !in s'.orders && GetOrder(s', id) == ZeroRecord &&
      o.moneyEscrowed == o.amount * UnitCost(m, o.t, o.price) &&
      Cash(s', filler) + o.amount * UnitCost(m, Opposite(o.t), o.price) == Cash(s, filler) &&
      Cash(s', o.owner) == Cash(s, o.owner) &&
      s'.marketCash == s.marketCash + o.amount * UnitCost(m, Opposite(o.t), o.price) &&
      s'.openInterest == s.openInterest + o.amount * m.numTicks &&
      s'.creatorFees == s.creatorFees && s'.reportingFees == s.reportingFees &&
      Holdings(m, s', o.owner) == Give(Holdings(m, s, o.owner), Wanted(o.t, o.outcome), o.amount) &&
      Holdings(m, s', filler) == Give(Holdings(m, s, filler), Escrowed(o.t, o.outcome), o.amount)
  {
    var o := s.orders[id];
    assert OrderOk(m, id, o);
    var fill := Min(o.amount, o.amount);
    var fs := FillerShares(m, s, filler, o, fill);
    assert fs == 0;
    var f := FlowsFor(m, s, filler, id, o, fill);
    CashForCashBuysSets(m, o.t, o.price, fill);
    assert f == Settle(m, o.t, o.price, 0, 0, fill);
    var settled := SettleBalances(m, s, o.owner, filler, o.t, o.outcome, f, fs);
    assert settled.Ok?;
    SettleConserves(m, s, o.owner, filler, o.t, o.outcome, f, fs);
    var s1 := settled.value;
    assert Take(Holdings(m, s, filler), Wanted(o.t, o.outcome), 0) == Holdings(m, s, filler);
    var s' := AfterFill(m, s1, id, o, fill);
    assert Fill(m, s, filler, id, o.amount) == Ok((s', fill));
    assert s'.cash == s1.cash && s'.shares == s1.shares;
  }

  // ---------------------------------------------------------- best-order walk

  /** Whether an order of side t at `price` is within a taker's limit: bids
      at or above a seller's limit, asks at or below a buyer's. */
  predicate Crosses(t: OrderType, price: nat, limit: nat)
  {
    if t == Bid then price >= limit else price <= limit
  }

  /** The walk has stopped: the amount is used up, the book is empty, or
      its best order does not cross the limit. */
  predicate Stopped(s': State, t: OrderType, outcome: nat, left: nat, limit: nat)
  {
    var b' := Book(s', BookKey(outcome, t));
    left == 0 || b' == [] || (b'[0] in s'.orders && !Crosses(t, s'.orders[b'[0]].price, limit))
  }

  /** No order appears that was not there before. */
  ghost predicate NoNewOrders(s: State, s': State)
  {
    s'.orders.Keys <= s.orders.Keys
  }

  /** Order x is still there, exactly as it was. */
  predicate Kept(s: State, s': State, x: OrderId)
  {
    x in s.orders && x in s'.orders && s'.orders[x] == s.orders[x]
  }

  /** Order x belongs to another book, or to book (outcome, t) but beyond
      the limit. */
  predicate Outside(s: State, x: OrderId, t: OrderType, outcome: nat, limit: nat)
  {
    x in s.orders && x.OrderHash? &&
    (KeyOf(x) != BookKey(outcome, t) || !Crosses(t, s.orders[x].price, limit))
  }

  /** Every order outside the walked part of the book is kept. */
  ghost predicate KeepsOutside(s: State, s': State, t: OrderType, outcome: nat, limit: nat)
  {
    forall x :: Outside(s, x, t, outcome, limit) ==> Kept(s, s', x)
  }

  /** The book (outcome, t) was taken from the front: the first k orders
      are gone, the book is what followed them, and every order after the
      new front is kept (only the front may have been partly filled). */
  ghost predicate TakesFront(s: State, s': State, t: OrderType, outcome: nat)
  {
    var b := Book(s, BookKey(outcome, t));
    var b' := Book(s', BookKey(outcome, t));
    var k := |b| - |b'|;
    0 <= k && b' == b[k..] &&
    (forall i :: 0 <= i < k ==> b[i] !in s'.orders) &&
    (forall i :: k < i < |b| ==> Kept(s, s', b[i]))
  }

  /** Fills the best orders of book (outcome, t) for `filler`, one after the
      other, while some of `amount` is left and the best order crosses
      `limit`. Returns the new state and the amount left over. */
  function FillBest(m: Market, s: State, filler: nat, t: OrderType, outcome: nat, amount: nat, limit: nat)
    : (r: Result<(State, nat), Error>)
    requires Good(m, s)
    ensures r.Ok? ==> Good(m, r.value.0) && r.value.1 <= amount
    ensures r.Ok? ==> Stopped(r.value.0, t, outcome, r.value.1, limit)
    ensures r.Ok? ==> NoNewOrders(s, r.value.0)
    ensures r.Ok? ==> KeepsOutside(s, r.value.0, t, outcome, limit)
    ensures r.Ok? ==> TakesFront(s, r.value.0, t, outcome)
    decreases amount, 2
  {
    var b := Book(s, BookKey(outcome, t));
    if amount == 0 || b == [] then
      StandingStill(m, s, t, outcome, limit);
      Ok((s, amount))
    else
      BookOfGood(m, s, BookKey(outcome, t));
      if !Crosses(t, s.orders[b[0]].price, limit) then
        StandingStill(m, s, t, outcome, limit);
        Ok((s, amount))
      else FillFront(m, s, filler, t, outcome, amount, limit)
  }

  /** A walk that stops at once leaves every order where it was. */
  lemma StandingStill(m: Market, s: State, t: OrderType, outcome: nat, limit: nat)
    requires Good(m, s)
    ensures NoNewOrders(s, s) && KeepsOutside(s, s, t, outcome, limit) && TakesFront(s, s, t, outcome)
  {
    var b := Book(s, BookKey(outcome, t));
    BookOfGood(m, s, BookKey(outcome, t));
    assert b[0..] == b;
  }

  /** One step of the walk: fills the best order, then walks on with what
      is left. */
  function FillFront(m: Market, s: State, filler: nat, t: OrderType, outcome: nat, amount: nat, limit: nat)
    : (r: Result<(State, nat), Error>)
    requires Good(m, s) && amount > 0 && Book(s, BookKey(outcome, t)) != []
    requires Crosses(t, s.orders[Book(s, BookKey(outcome, t))[0]].price, limit)
    ensures r.Ok? ==> Good(m, r.value.0) && r.value.1 <= amount
    ensures r.Ok? ==> Stopped(r.value.0, t, outcome, r.value.1, limit)
    ensures r.Ok? ==> NoNewOrders(s, r.value.0)
    ensures r.Ok? ==> KeepsOutside(s, r.value.0, t, outcome, limit)
    ensures r.Ok? ==> TakesFront(s, r.value.0, t, outcome)
    decreases amount, 1
  {
    var id := Book(s, BookKey(outcome, t))[0];
    FrontFillShape(m, s, filler, t, outcome, amount);
    WalkOnFrom(m, s, filler, t, outcome, amount, limit, id, Fill(m, s, filler, id, amount))
  }

  ghost predicate FrontFillOk(m: Market, s: State, filler: nat, t: OrderType, outcome: nat, amount: nat)
    requires Good(m, s) && Book(s, BookKey(outcome, t)) != []
  {
    var b := Book(s, BookKey(outcome, t));
    var r := Fill(m, s, filler, b[0], amount);
    b[0].OrderHash? && KeyOf(b[0]) == BookKey(outcome, t) && b[0] in s.orders &&
    (r.Ok? ==> Good(m, r.value.0) && 0 < r.value.1 <= amount && FrontFilled(s, r.value.0, b[0], t, outcome))
  }

  /** What filling the best order does: every fill takes at least one
      share, and it only erases the best order or changes it in place. */
  lemma FrontFillShape(m: Market, s: State, filler: nat, t: OrderType, outcome: nat, amount: nat)
    requires Good(m, s) && amount > 0 && Book(s, BookKey(outcome, t)) != []
    ensures FrontFillOk(m, s, filler, t, outcome, amount)
  {
    var key := BookKey(outcome, t);
    var b := Book(s, key);
    BookOfGood(m, s, key);
    var id := b[0];
    assert OrderOk(m, id, s.orders[id]);
    if Fill(m, s, filler, id, amount).Ok? {
      FillShape(m, s, filler, id, amount);
      WithoutFront(b);
    }
  }

  /** The walk after the fill r of its best order id: a failed fill is the
      walk's failure, otherwise it walks on with what is left. */
  function WalkOnFrom(m: Market, s: State, filler: nat, t: OrderType, outcome: nat, amount: nat, limit: nat,
                      id: OrderId, r: Result<(State, nat), Error>)
    : (r': Result<(State, nat), Error>)
    requires id.OrderHash? && KeyOf(id) == BookKey(outcome, t) && id in s.orders
    requires Crosses(t, s.orders[id].price, limit)
    requires r.Ok? ==> Good(m, r.value.0) && 0 < r.value.1 <= amount && FrontFilled(s, r.value.0, id, t, outcome)
    ensures r'.Ok? ==> Good(m, r'.value.0) && r'.value.1 <= amount
    ensures r'.Ok? ==> Stopped(r'.value.0, t, outcome, r'.value.1, limit)
    ensures r'.Ok? ==> NoNewOrders(s, r'.value.0)
    ensures r'.Ok? ==> KeepsOutside(s, r'.value.0, t, outcome, limit)
    ensures r'.Ok? ==> TakesFront(s, r'.value.0, t, outcome)
    decreases amount, 0
  {
    match r
    case Err(e) => Err(e)
    case Ok((s1, filled)) =>
      var r1 := FillBest(m, s1, filler, t, outcome, amount - filled, limit);
      WalkOn(s, s1, r1, id, t, outcome, limit);
      r1
  }

  /** The guarantees of the rest of the walk, when it succeeds, carry over
      to the whole walk. */
  lemma WalkOn(s: State, s1: State, r1: Result<(State, nat), Error>, id: OrderId, t: OrderType, outcome: nat, limit: nat)
    requires FrontFilled(s, s1, id, t, outcome) && id.OrderHash? && KeyOf(id) == BookKey(outcome, t)
    requires Crosses(t, s.orders[id].price, limit)
    requires r1.Ok? ==>
      NoNewOrders(s1, r1.value.0) && KeepsOutside(s1, r1.value.0, t, outcome, limit) && TakesFront(s1, r1.value.0, t, outcome)
    ensures r1.Ok? ==>
      NoNewOrders(s, r1.value.0) && KeepsOutside(s, r1.value.0, t, outcome, limit) && TakesFront(s, r1.value.0, t, outcome)
  {
    if r1.Ok? {
      StepKeeps(s, s1, r1.value.0, id, t, outcome, limit);
    }
  }

  /** The best order of book (outcome, t) is live and within the limit. */
  predicate FrontCrosses(s: State, t: OrderType, outcome: nat, limit: nat)
  {
    var b := Book(s, BookKey(outcome, t));
    b != [] && b[0] in s.orders && Crosses(t, s.orders[b[0]].price, limit)
  }

  /** The walk ends where it is when nothing is left to fill or the best
      order does not cross the limit. */
  lemma FillBestStops(m: Market, s: State, filler: nat, t: OrderType, outcome: nat, amount: nat, limit: nat)
    requires Good(m, s) && !(amount > 0 && FrontCrosses(s, t, outcome, limit))
    ensures FillBest(m, s, filler, t, outcome, amount, limit) == Ok((s, amount))
  {
    BookOfGood(m, s, BookKey(outcome, t));
  }

  /** Otherwise the walk fills the best order and walks on from there with
      what is left: the rest of the walk ends where the whole walk ends. */
  lemma FillBestStep(m: Market, s: State, filler: nat, t: OrderType, outcome: nat, amount: nat, limit: nat,
                     s1: State, filled: nat, goal: Result<(State, nat), Error>)
    requires Good(m, s) && amount > 0 && FrontCrosses(s, t, outcome, limit)
    requires var r := Fill(m, s, filler, Book(s, BookKey(outcome, t))[0], amount);
      r.Ok? && r.value.0 == s1 && r.value.1 == filled
    requires FillBest(m, s, filler, t, outcome, amount, limit) == goal
    ensures 0 < filled <= amount
    ensures FillBest(m, s1, filler, t, outcome, amount - filled, limit) == goal
  {
    var id := Book(s, BookKey(outcome, t))[0];
    FrontFillShape(m, s, filler, t, outcome, amount);
    FillBestGoesOn(m, s, filler, t, outcome, amount, limit);
    WalkOnFilled(m, s, filler, t, outcome, amount, limit, id, s1, filled);
  }

  /** ... and the first failed fill is the walk's failure. */
  lemma FillBestFails(m: Market, s: State, filler: nat, t: OrderType, outcome: nat, amount: nat, limit: nat,
                      goal: Result<(State, nat), Error>)
    requires Good(m, s) && amount > 0 && FrontCrosses(s, t, outcome, limit)
    requires Fill(m, s, filler, Book(s, BookKey(outcome, t))[0], amount).Err?
    requires FillBest(m, s, filler, t, outcome, amount, limit) == goal
    ensures goal == Err(Fill(m, s, filler, Book(s, BookKey(outcome, t))[0], amount).error)
  {
    FrontFillShape(m, s, filler, t, outcome, amount);
    FillBestGoesOn(m, s, filler, t, outcome, amount, limit);
  }

  /** One fill of the best order as a caller sees it: `res` is the fill's
      outcome, `s1` the state after it and `r` what is left to fill. A fill
      that takes shares leaves the rest of the walk from s1 ending where the
      whole walk ends; a failed fill is the walk's failure. */
  lemma FillFrontStep(m: Market, s: State, filler: nat, t: OrderType, outcome: nat, amount: nat, limit: nat,
                      goal: Result<(State, nat), Error>, res: Result<nat, Error>, s1: State, r: Result<nat, Error>)
    requires Good(m, s) && amount > 0 && FrontCrosses(s, t, outcome, limit)
    requires FillBest(m, s, filler, t, outcome, amount, limit) == goal
    requires var spec := Fill(m, s, filler, Book(s, BookKey(outcome, t))[0], amount);
      (spec.Ok? ==> res == Ok(spec.value.1) && s1 == spec.value.0) &&
      (spec.Err? ==> res == Err(spec.error))
    requires res.Ok? ==> r == Ok(amount - res.value)
    requires res.Err? ==> r == Err(res.error)
    ensures r.Ok? ==> r.value < amount && Good(m, s1) && FillBest(m, s1, filler, t, outcome, r.value, limit) == goal
    ensures r.Err? ==> goal == Err(r.error)
  {
    var spec := Fill(m, s, filler, Book(s, BookKey(outcome, t))[0], amount);
    if spec.Ok? {
      FillFrontLeaves(m, s, filler, t, outcome, amount, limit, goal, s1, res.value, r.value);
    } else {
      FillBestFails(m, s, filler, t, outcome, amount, limit, goal);
    }
  }

  /** A step of the walk as a caller sees it: filling the best order moved
      the book to s1 and took `filled` shares, so the walk from s1 with the
      `rest` still wanted ends where the whole walk ends. */
  lemma FillFrontLeaves(m: Market, s: State, filler: nat, t: OrderType, outcome: nat, amount: nat, limit: nat,
                        goal: Result<(State, nat), Error>, s1: State, filled: nat, rest: nat)
    requires Good(m, s) && amount > 0 && FrontCrosses(s, t, outcome, limit)
    requires FillBest(m, s, filler, t, outcome, amount, limit) == goal
    requires var r := Fill(m, s, filler, Book(s, BookKey(outcome, t))[0], amount);
      r.Ok? && r.value.0 == s1 && r.value.1 == filled
    requires rest + filled == amount
    ensures rest < amount && FillBest(m, s1, filler, t, outcome, rest, limit) == goal
  {
    var id := Book(s, BookKey(outcome, t))[0];
    FrontFillShape(m, s, filler, t, outcome, amount);
    assert rest == amount - filled;
    FillBestGoesOn(m, s, filler, t, outcome, amount, limit);
    WalkOnFilled(m, s, filler, t, outcome, amount, limit, id, s1, filled);
  }

  /** Where the best order crosses, the walk is a step from the front. */
  lemma FillBestGoesOn(m: Market, s: State, filler: nat, t: OrderType, outcome: nat, amount: nat, limit: nat)
    requires Good(m, s) && amount > 0 && FrontCrosses(s, t, outcome, limit)
    requires FrontFillOk(m, s, filler, t, outcome, amount)
    ensures Book(s, BookKey(outcome, t)) != [] && Crosses(t, s.orders[Book(s, BookKey(outcome, t))[0]].price, limit)
    ensures var id := Book(s, BookKey(outcome, t))[0];
      FillBest(m, s, filler, t, outcome, amount, limit) ==
        WalkOnFrom(m, s, filler, t, outcome, amount, limit, id, Fill(m, s, filler, id, amount))
  {
    assert FillBest(m, s, filler, t, outcome, amount, limit) == FillFront(m, s, filler, t, outcome, amount, limit);
    FrontIsWalk(m, s, filler, t, outcome, amount, limit);
  }

  lemma FrontIsWalk(m: Market, s: State, filler: nat, t: OrderType, outcome: nat, amount: nat, limit: nat)
    requires Good(m, s) && amount > 0 && Book(s, BookKey(outcome, t)) != []
    requires Crosses(t, s.orders[Book(s, BookKey(outcome, t))[0]].price, limit)
    requires FrontFillOk(m, s, filler, t, outcome, amount)
    ensures var id := Book(s, BookKey(outcome, t))[0];
      FillFront(m, s, filler, t, outcome, amount, limit) ==
        WalkOnFrom(m, s, filler, t, outcome, amount, limit, id, Fill(m, s, filler, id, amount))
  {
  }

  lemma WalkOnFilled(m: Market, s: State, filler: nat, t: OrderType, outcome: nat, amount: nat, limit: nat,
                     id: OrderId, s1: State, filled: nat)
    requires id.OrderHash? && KeyOf(id) == BookKey(outcome, t) && id in s.orders
    requires Crosses(t, s.orders[id].price, limit)
    requires Good(m, s1) && 0 < filled <= amount && FrontFilled(s, s1, id, t, outcome)
    ensures WalkOnFrom(m, s, filler, t, outcome, amount, limit, id, Ok((s1, filled))) ==
      FillBest(m, s1, filler, t, outcome, amount - filled, limit)
  {
    var r1 := FillBest(m, s1, filler, t, outcome, amount - filled, limit);
    WalkOn(s, s1, r1, id, t, outcome, limit);
  }

  /** What a fill of the best order id does to the orders: it is erased
      from the front of its book, or changed in place; every other order is
      as it was. */
  ghost predicate FrontFilled(s: State, s1: State, id: OrderId, t: OrderType, outcome: nat)
  {
    var b := Book(s, BookKey(outcome, t));
    b != [] && b[0] == id && NoDup(b) && id in s.orders &&
    ((id !in s1.orders && Book(s1, BookKey(outcome, t)) == b[1..]) || Book(s1, BookKey(outcome, t)) == b) &&
    (forall x :: x != id ==> (x in s1.orders <==> x in s.orders)) &&
    (forall x :: x != id && x in s.orders ==> s1.orders[x] == s.orders[x])
  }

  /** One step of the walk composes with the rest of it: if the fill of the
      best order only erased it or changed it in place, and the rest of the
      walk from s1 keeps the walk's guarantees, so does the whole walk. */
  lemma StepKeeps(s: State, s1: State, s': State, id: OrderId, t: OrderType, outcome: nat, limit: nat)
    requires FrontFilled(s, s1, id, t, outcome) && id.OrderHash? && KeyOf(id) == BookKey(outcome, t)
    requires Crosses(t, s.orders[id].price, limit)
    requires NoNewOrders(s1, s') && KeepsOutside(s1, s', t, outcome, limit) && TakesFront(s1, s', t, outcome)
    ensures NoNewOrders(s, s') && KeepsOutside(s, s', t, outcome, limit) && TakesFront(s, s', t, outcome)
  {
    StepKeepsOutside(s, s1, s', id, t, outcome, limit);
    StepTakesFront(s, s1, s', id, t, outcome);
  }

  lemma StepKeepsOutside(s: State, s1: State, s': State, id: OrderId, t: OrderType, outcome: nat, limit: nat)
    requires FrontFilled(s, s1, id, t, outcome) && id.OrderHash? && KeyOf(id) == BookKey(outcome, t)
    requires Crosses(t, s.orders[id].price, limit)
    requires KeepsOutside(s1, s', t, outcome, limit)
    ensures KeepsOutside(s, s', t, outcome, limit)
  {
    forall x | Outside(s, x, t, outcome, limit)
      ensures Kept(s, s', x)
    {
      assert x != id;
      assert Outside(s1, x, t, outcome, limit);
    }
  }

  lemma StepTakesFront(s: State, s1: State, s': State, id: OrderId, t: OrderType, outcome: nat)
    requires FrontFilled(s, s1, id, t, outcome)
    requires NoNewOrders(s1, s') && TakesFront(s1, s', t, outcome)
    ensures TakesFront(s, s', t, outcome)
  {
    var b := Book(s, BookKey(outcome, t));
    forall i | 0 < i < |b|
      ensures b[i] != id
    {
      assert b[i] == b[1..][i - 1];
    }
    if Book(s1, BookKey(outcome, t)) == b {
      InPlaceTakesFront(s, s1, s', id, t, outcome);
    } else {
      ErasedTakesFront(s, s1, s', id, t, outcome);
    }
  }

  /** The best order was partly filled: the book is unchanged by the step. */
  lemma InPlaceTakesFront(s: State, s1: State, s': State, id: OrderId, t: OrderType, outcome: nat)
    requires FrontFilled(s, s1, id, t, outcome) && Book(s1, BookKey(outcome, t)) == Book(s, BookKey(outcome, t))
    requires var b := Book(s, BookKey(outcome, t)); forall i :: 0 < i < |b| ==> b[i] != id
    requires TakesFront(s1, s', t, outcome)
    ensures TakesFront(s, s', t, outcome)
  {
    var key := BookKey(outcome, t);
    var b, b' := Book(s, key), Book(s', key);
    forall i | |b| - |b'| < i < |b|
      ensures Kept(s, s', b[i])
    {
      assert Kept(s1, s', b[i]);
    }
  }

  /** The best order was filled completely: the step took it off the front. */
  lemma ErasedTakesFront(s: State, s1: State, s': State, id: OrderId, t: OrderType, outcome: nat)
    requires FrontFilled(s, s1, id, t, outcome) && Book(s1, BookKey(outcome, t)) != Book(s, BookKey(outcome, t))
    requires var b := Book(s, BookKey(outcome, t)); forall i :: 0 < i < |b| ==> b[i] != id
    requires NoNewOrders(s1, s') && TakesFront(s1, s', t, outcome)
    ensures TakesFront(s, s', t, outcome)
  {
    var key := BookKey(outcome, t);
    var b, b1, b' := Book(s, key), Book(s1, key), Book(s', key);
    assert b1 == b[1..];
    var k1 := |b1| - |b'|;
    var k := k1 + 1;
    assert b' == b[k..];
    forall i | 0 <= i < k
      ensures b[i] !in s'.orders
    {
      if i > 0 {
        assert b[i] == b1[i - 1];
      }
    }
    forall i | k < i < |b|
      ensures Kept(s, s', b[i])
    {
      assert b[i] == b1[i - 1];
      assert Kept(s1, s', b1[i - 1]);
    }
  }

  // ------------------------------------------------------------ accounting

  /** The shares still offered by the orders of book b. */
  function Remaining(s: State, b: seq<OrderId>): nat
    decreases |b|
  {
    if b == [] then 0 else (if b[0] in s.orders then s.orders[b[0]].amount else 0) + Remaining(s, b[1..])
  }

  lemma {:induction false} RemainingKept(s: State, s1: State, b: seq<OrderId>)
    requires forall x :: x in b ==> Kept(s, s1, x)
    ensures Remaining(s1, b) == Remaining(s, b)
    decreases |b|
  {
    if b != [] {
      assert Kept(s, s1, b[0]);
      assert forall x :: x in b[1..] ==> x in b;
      RemainingKept(s, s1, b[1..]);
    }
  }

  /** What a fill leaves of the order it fills: nothing when it takes the
      whole order, otherwise the order less the shares filled. */
  lemma {:induction false} FillLeavesAmount(m: Market, s: State, filler: nat, id: OrderId, amount: nat)
    requires Good(m, s) && Fill(m, s, filler, id, amount).Ok? && amount > 0
    ensures var (s', filled) := Fill(m, s, filler, id, amount).value;
      (filled == s.orders[id].amount ==> id !in s'.orders) &&
      (filled < s.orders[id].amount ==> id in s'.orders && s'.orders[id].amount + filled == s.orders[id].amount)
  {
    var o := s.orders[id];
    assert OrderOk(m, id, o);
    var fill := Min(amount, o.amount);
    var f := FlowsFor(m, s, filler, id, o, fill);
    var settled := SettleBalances(m, s, o.owner, filler, o.t, o.outcome, f, FillerShares(m, s, filler, o, fill));
    assert settled.Ok?;
    assert Fill(m, s, filler, id, amount) == Ok((AfterFill(m, settled.value, id, o, fill), fill));
  }

  /** Filling the best order takes from the book exactly the shares filled. */
  lemma {:induction false} FrontRemaining(m: Market, s: State, filler: nat, t: OrderType, outcome: nat, amount: nat)
    requires Good(m, s) && amount > 0 && Book(s, BookKey(outcome, t)) != []
    requires Fill(m, s, filler, Book(s, BookKey(outcome, t))[0], amount).Ok?
    ensures var (s1, filled) := Fill(m, s, filler, Book(s, BookKey(outcome, t))[0], amount).value;
      Remaining(s1, Book(s1, BookKey(outcome, t))) + filled == Remaining(s, Book(s, BookKey(outcome, t)))
  {
    var key := BookKey(outcome, t);
    var b := Book(s, key);
    var id := b[0];
    var (s1, filled) := Fill(m, s, filler, id, amount).value;
    FrontFillShape(m, s, filler, t, outcome, amount);
    FillLeavesAmount(m, s, filler, id, amount);
    assert FrontFilled(s, s1, id, t, outcome);
    BookOfGood(m, s, key);
    RemainingAfterFront(s, s1, b, Book(s1, key), filled);
  }

  /** The book after its front order was erased or changed in place, every
      other order kept: it offers what the book did less what was filled. */
  lemma RemainingAfterFront(s: State, s1: State, b: seq<OrderId>, b1: seq<OrderId>, filled: nat)
    requires b != [] && NoDup(b) && forall x :: x in b ==> x in s.orders
    requires (b[0] !in s1.orders && b1 == b[1..]) || b1 == b
    requires forall x :: x != b[0] && x in s.orders ==> x in s1.orders && s1.orders[x] == s.orders[x]
    requires b[0] !in s1.orders ==> filled == s.orders[b[0]].amount
    requires b[0] in s1.orders ==> s1.orders[b[0]].amount + filled == s.orders[b[0]].amount
    ensures Remaining(s1, b1) + filled == Remaining(s, b)
  {
    assert forall x :: x in b[1..] ==> x in b && x != b[0];
    RemainingKept(s, s1, b[1..]);
  }

  /** The cash side of a fill: the traders' cash changes by what the filler
      receives and the maker receives less what the filler pays. */
  lemma PayPartiesTotal(s: State, maker: nat, filler: nat, f: Flows)
    requires Cash(s, filler) >= f.fillerPays
    ensures Total(PayParties(s, maker, filler, f).cash) + f.fillerPays == Total(s.cash) + f.makerReceives + f.fillerReceives
  {
    var c0 := Cash(s, filler) - f.fillerPays;
    var s1 := SetCash(s, filler, c0);
    var c1 := Cash(s1, maker) + f.makerReceives;
    var s2 := SetCash(s1, maker, c1);
    var c2 := Cash(s2, filler) + f.fillerReceives;
    var s3 := SetCash(s2, filler, c2);
    assert PayParties(s, maker, filler, f) == s3;
    SetCashTotal(s, filler, c0);
    SetCashTotal(s1, maker, c1);
    SetCashTotal(s2, filler, c2);
  }

  /** Settling a fill keeps the total cash, and moves the market's cash and
      open interest as the flows say. */
  lemma {:induction false} SettleAccounts(m: Market, s: State, maker: nat, filler: nat, t: OrderType, outcome: nat,
                                          f: Flows, fillerShares: nat)
    requires WellFormed(m) && outcome < m.numOutcomes
    requires fillerShares <= Available(Holdings(m, s, filler), Wanted(t, outcome))
    requires SettleBalances(m, s, maker, filler, t, outcome, f, fillerShares).Ok?
    ensures var s' := SettleBalances(m, s, maker, filler, t, outcome, f, fillerShares).value;
      Money(s') == Money(s) && s'.orders == s.orders &&
      s'.marketCash + f.makerReceives + f.fillerReceives + f.creatorFee + f.reportingFee == s.marketCash + f.fillerPays &&
      s'.openInterest + f.legs.sharesForShares * m.numTicks == s.openInterest + f.legs.cashForCash * m.numTicks
  {
    PayPartiesTotal(s, maker, filler, f);
  }

  /** Erasing or shrinking a filled order releases the escrowed cash the fill
      used, and nothing else. */
  lemma {:induction false} AfterFillAccounts(m: Market, s: State, id: OrderId, o: Order, fill: nat)
    requires OrderOk(m, id, o) && id in s.orders && s.orders[id] == o && 0 < fill <= o.amount
    ensures var r := AfterFill(m, s, id, o, fill);
      EscrowTotal(r.orders) + (fill - Min(o.sharesEscrowed, fill)) * UnitCost(m, o.t, o.price) == EscrowTotal(s.orders) &&
      r.cash == s.cash && r.marketCash == s.marketCash && r.openInterest == s.openInterest &&
      r.creatorFees == s.creatorFees && r.reportingFees == s.reportingFees
  {
    if fill == o.amount {
      EscrowTotalRemove(s.orders, id);
    } else {
      ShrunkKeepsEscrow(m, id, o, fill);
      EscrowTotalUpdate(s.orders, id, Shrunk(m, o, fill, Min(o.sharesEscrowed, fill)));
    }
  }

  lemma ReserveBalances(s: State, s1: State, s2: State, f: Flows, numTicks: nat)
    requires Money(s1) == Money(s) && s1.orders == s.orders
    requires s1.marketCash + f.makerReceives + f.fillerReceives + f.creatorFee + f.reportingFee == s.marketCash + f.fillerPays
    requires s1.openInterest + f.legs.sharesForShares * numTicks == s.openInterest + f.legs.cashForCash * numTicks
    requires f.fillerPays + f.escrowUsed + f.legs.sharesForShares * numTicks
          == f.makerReceives + f.fillerReceives + f.creatorFee + f.reportingFee + f.legs.cashForCash * numTicks
    requires EscrowTotal(s2.orders) + f.escrowUsed == EscrowTotal(s1.orders)
    requires s2.cash == s1.cash && s2.marketCash == s1.marketCash && s2.openInterest == s1.openInterest
    requires s2.creatorFees == s1.creatorFees && s2.reportingFees == s1.reportingFees
    ensures Reserve(s2) == Reserve(s) && Money(s2) == Money(s)
  {
  }

  /** A fill creates and destroys no cash, and keeps the market's reserve:
      the escrow it uses and the filler's payment fund the payouts, the
      fees and the sets bought, while the sets sold release collateral. */
  lemma {:induction false} FillAccounts(m: Market, s: State, filler: nat, id: OrderId, amount: nat)
    requires Good(m, s) && Fill(m, s, filler, id, amount).Ok?
    ensures var s' := Fill(m, s, filler, id, amount).value.0;
      Reserve(s') == Reserve(s) && Money(s') == Money(s)
  {
    var s' := Fill(m, s, filler, id, amount).value.0;
    if amount == 0 {
      assert s' == s;
    } else {
      var o, fill, f, s1 := FillSteps(m, s, filler, id, amount);
      SettleAccounts(m, s, o.owner, filler, o.t, o.outcome, f, FillerShares(m, s, filler, o, fill));
      AfterFillAccounts(m, s1, id, o, fill);
      ReserveBalances(s, s1, s', f, m.numTicks);
    }
  }

  /** The two stages of a fill that went through: settling the balances,
      then erasing or shrinking the order. */
  lemma FillSteps(m: Market, s: State, filler: nat, id: OrderId, amount: nat)
    returns (o: Order, fill: nat, f: Flows, s1: State)
    requires Good(m, s) && Fill(m, s, filler, id, amount).Ok? && amount > 0
    ensures id in s.orders && o == s.orders[id] && OrderOk(m, id, o)
    ensures fill == Min(amount, o.amount) && 0 < fill <= o.amount && f == FlowsFor(m, s, filler, id, o, fill)
    ensures f.escrowUsed == (fill - Min(o.sharesEscrowed, fill)) * UnitCost(m, o.t, o.price)
    ensures f.fillerPays + f.escrowUsed + f.legs.sharesForShares * m.numTicks
         == f.makerReceives + f.fillerReceives + f.creatorFee + f.reportingFee + f.legs.cashForCash * m.numTicks
    ensures SettleBalances(m, s, o.owner, filler, o.t, o.outcome, f, FillerShares(m, s, filler, o, fill)) == Ok(s1)
    ensures s1.orders == s.orders && Fill(m, s, filler, id, amount).value.0 == AfterFill(m, s1, id, o, fill)
  {
    o := s.orders[id];
    assert OrderOk(m, id, o);
    fill := Min(amount, o.amount);
    f := FlowsFor(m, s, filler, id, o, fill);
    var settled := SettleBalances(m, s, o.owner, filler, o.t, o.outcome, f, FillerShares(m, s, filler, o, fill));
    assert settled.Ok?;
    s1 := settled.value;
    FlowsBalance(m, s, filler, id, o, fill);
  }

  /** What the flows of a fill take from the maker's escrow, and that they
      balance. */
  lemma FlowsBalance(m: Market, s: State, filler: nat, id: OrderId, o: Order, fill: nat)
    requires WellFormed(m) && OrderOk(m, id, o) && fill <= o.amount
    ensures var f := FlowsFor(m, s, filler, id, o, fill);
      f.escrowUsed == (fill - Min(o.sharesEscrowed, fill)) * UnitCost(m, o.t, o.price) &&
      f.fillerPays + f.escrowUsed + f.legs.sharesForShares * m.numTicks
        == f.makerReceives + f.fillerReceives + f.creatorFee + f.reportingFee + f.legs.cashForCash * m.numTicks
  {
    var f := Settle(m, o.t, o.price, Min(o.sharesEscrowed, fill), FillerShares(m, s, filler, o, fill), fill);
    assert FlowsFor(m, s, filler, id, o, fill) == f;
  }

  /** A walk that succeeds and fills the best order at all succeeded in
      filling it: its first step is that fill. */
  lemma FillBestFront(m: Market, s: State, filler: nat, t: OrderType, outcome: nat, amount: nat, limit: nat)
    returns (s1: State, filled: nat, rest: nat)
    requires Good(m, s) && amount > 0 && FrontCrosses(s, t, outcome, limit)
    requires FillBest(m, s, filler, t, outcome, amount, limit).Ok?
    ensures Fill(m, s, filler, Book(s, BookKey(outcome, t))[0], amount) == Ok((s1, filled))
    ensures 0 < filled <= amount && rest == amount - filled && Good(m, s1)
    ensures FillBest(m, s1, filler, t, outcome, rest, limit) == FillBest(m, s, filler, t, outcome, amount, limit)
  {
    var goal := FillBest(m, s, filler, t, outcome, amount, limit);
    var r := Fill(m, s, filler, Book(s, BookKey(outcome, t))[0], amount);
    if r.Err? {
      FillBestFails(m, s, filler, t, outcome, amount, limit, goal);
      assert false;
    }
    s1, filled := r.value.0, r.value.1;
    FrontFillShape(m, s, filler, t, outcome, amount);
    rest := amount - filled;
    FillFrontLeaves(m, s, filler, t, outcome, amount, limit, goal, s1, filled, rest);
  }

  /** Where a walk has stopped with some amount left, no live order of the
      book it walked crosses the limit: the book holds every live order of
      its key, best first, and its best one does not cross. */
  lemma StoppedLeavesNoCross(m: Market, s: State, t: OrderType, outcome: nat, left: nat, limit: nat)
    requires Good(m, s) && Stopped(s, t, outcome, left, limit) && left > 0
    ensures forall x :: x in s.orders && x.OrderHash? && KeyOf(x) == BookKey(outcome, t) ==>
      !Crosses(t, s.orders[x].price, limit)
  {
    var key := BookKey(outcome, t);
    var b := Book(s, key);
    BookOfGood(m, s, key);
    forall x | x in s.orders && x.OrderHash? && KeyOf(x) == key
      ensures !Crosses(t, s.orders[x].price, limit)
    {
      assert x in b;
      assert OrderOk(m, x, s.orders[x]) && OrderOk(m, b[0], s.orders[b[0]]);
      if x != b[0] {
        SortedHeadBest(t, b);
        assert b == [b[0]] + b[1..];
        assert !Better(t, x, b[0]);
      }
    }
  }

  /** A walk that ends with some of the amount left has taken every live
      order of its book that crossed the limit. */
  lemma FillBestLeavesNoCross(m: Market, s: State, filler: nat, t: OrderType, outcome: nat, amount: nat, limit: nat)
    requires Good(m, s) && FillBest(m, s, filler, t, outcome, amount, limit).Ok?
    ensures var (s', left) := FillBest(m, s, filler, t, outcome, amount, limit).value;
      left > 0 ==> forall x :: x in s'.orders && x.OrderHash? && KeyOf(x) == BookKey(outcome, t) ==>
        !Crosses(t, s'.orders[x].price, limit)
  {
    var (s', left) := FillBest(m, s, filler, t, outcome, amount, limit).value;
    if left > 0 {
      StoppedLeavesNoCross(m, s', t, outcome, left, limit);
    }
  }

  /** From s to s' the book `key` lost exactly `taken` shares, and no cash
      was created or destroyed nor the market's reserve touched. */
  ghost predicate Accounted(s: State, s': State, key: BookKey, taken: nat)
  {
    Remaining(s', Book(s', key)) + taken == Remaining(s, Book(s, key)) &&
    Reserve(s') == Reserve(s) && Money(s') == Money(s)
  }

  lemma AccountedChain(s: State, s1: State, s2: State, key: BookKey, a: nat, b: nat)
    requires Accounted(s, s1, key, a) && Accounted(s1, s2, key, b)
    ensures Accounted(s, s2, key, a + b)
  {
  }

  lemma FrontAccounted(m: Market, s: State, filler: nat, t: OrderType, outcome: nat, amount: nat, s1: State, filled: nat)
    requires Good(m, s) && amount > 0 && Book(s, BookKey(outcome, t)) != []
    requires Fill(m, s, filler, Book(s, BookKey(outcome, t))[0], amount) == Ok((s1, filled))
    ensures Accounted(s, s1, BookKey(outcome, t), filled)
  {
    FillAccounts(m, s, filler, Book(s, BookKey(outcome, t))[0], amount);
    FrontRemaining(m, s, filler, t, outcome, amount);
  }

  /** What the walk fills is exactly what leaves the book: the amounts of the
      orders it erased and the part taken from the order now in front. Cash
      is neither created nor destroyed and the market's reserve is kept. */
  lemma {:induction false} FillBestAccounts(m: Market, s: State, filler: nat, t: OrderType, outcome: nat, amount: nat,
                                            limit: nat)
    requires Good(m, s) && FillBest(m, s, filler, t, outcome, amount, limit).Ok?
    ensures var r := FillBest(m, s, filler, t, outcome, amount, limit).value;
      r.1 <= amount && Accounted(s, r.0, BookKey(outcome, t), amount - r.1)
    decreases amount
  {
    if amount > 0 && FrontCrosses(s, t, outcome, limit) {
      var s1, filled, rest := FillBestFront(m, s, filler, t, outcome, amount, limit);
      FillBestAccounts(m, s1, filler, t, outcome, rest, limit);
      var r := FillBest(m, s1, filler, t, outcome, rest, limit).value;
      FrontAccounted(m, s, filler, t, outcome, amount, s1, filled);
      AccountedChain(s, s1, r.0, BookKey(outcome, t), filled, rest - r.1);
    } else {
      FillBestStops(m, s, filler, t, outcome, amount, limit);
    }
  }

  /** The public entry point takes the taker's side as an order type code:
      a bidder (1) walks the asks, an asker (2) walks the bids. Returns the
      amount left unfilled. */
  function PublicFillBestOrder(m: Market, s: State, market: nat, filler: nat, code: nat, outcome: nat, amount: nat,
                               limit: nat): (r: Result<(State, nat), Error>)
    requires Good(m, s)
    ensures market != m.address ==> r == Err(InvalidMarket)
    ensures market == m.address && code != 1 && code != 2 ==> r == Err(InvalidOrderType)
    ensures market == m.address && code == 1 ==> r == FillBest(m, s, filler, Ask, outcome, amount, limit)
    ensures market == m.address && code == 2 ==> r == FillBest(m, s, filler, Bid, outcome, amount, limit)
  {
    if market != m.address then Err(InvalidMarket)
    else
      match DecodeOrderType(code)
      case Err(e) => Err(e)
      case Ok(takerSide) => FillBest(m, s, filler, Opposite(takerSide), outcome, amount, limit)
  }

  // ------------------------------------------------------------------- trade

  /** A buy takes the outcome's long side, a sell its short side. */
  datatype Direction = Buy | Sell

  /** The direction codes of the public entry point: 0 buys, 1 sells. */
  function DecodeDirection(code: nat): (r: Result<Direction, Error>)
    ensures r.Ok? <==> code <= 1
    ensures r.Ok? ==> (r.value == Buy <==> code == 0)
  {
    if code == 0 then Ok(Buy) else if code == 1 then Ok(Sell) else Err(InvalidDirection)
  }

  /** What a trade leaves behind: the id of the order resting the unfilled
      amount, or the marker that everything was filled. */
  datatype TradeResult = Leftover(id: OrderId) | NoLeftover

  /** The book a trade in `direction` walks: a buyer takes asks, a seller
      takes bids. */
  function Consumes(direction: Direction): OrderType
  {
    if direction == Buy then Ask else Bid
  }

  function Trade(m: Market, s: State, market: nat, sender: nat, direction: Direction, outcome: nat, amount: nat,
                 limit: nat, block: nat, gasPrice: nat): (r: Result<(State, TradeResult), Error>)
    requires Good(m, s)
    ensures r.Ok? ==> Good(m, r.value.0)
  {
    if market != m.address then Err(InvalidMarket)
    else
      var t := Consumes(direction);
      match FillBest(m, s, sender, t, outcome, amount, limit)
      case Err(e) => Err(e)
      case Ok((s1, left)) =>
        if left == 0 then Ok((s1, NoLeftover))
        else
          match Create(m, s1, market, sender, Opposite(t), left, limit, outcome, block, gasPrice)
          case Err(e) => Err(e)
          case Ok((s2, id)) =>
            CreateKeepsGood(m, s1, market, sender, Opposite(t), left, limit, outcome, block, gasPrice);
            Ok((s2, Leftover(id)))
  }

  function PublicTrade(m: Market, s: State, market: nat, sender: nat, code: nat, outcome: nat, amount: nat,
                       limit: nat, block: nat, gasPrice: nat): (r: Result<(State, TradeResult), Error>)
    requires Good(m, s)
    ensures code > 1 ==> r == Err(InvalidDirection)
    ensures code == 0 ==> r == Trade(m, s, market, sender, Buy, outcome, amount, limit, block, gasPrice)
    ensures code == 1 ==> r == Trade(m, s, market, sender, Sell, outcome, amount, limit, block, gasPrice)
  {
    match DecodeDirection(code)
    case Err(e) => Err(e)
    case Ok(d) => Trade(m, s, market, sender, d, outcome, amount, limit, block, gasPrice)
  }

  /** A trade reports NoLeftover exactly when the walk filled everything;
      otherwise the rest rests as the taker's own order on the other side of
      the book, at the limit price, escrowed like any new order. */
  lemma {:induction false} TradeLeftover(m: Market, s: State, market: nat, sender: nat, direction: Direction, outcome: nat,
                                         amount: nat, limit: nat, block: nat, gasPrice: nat)
    requires Good(m, s)
    requires Trade(m, s, market, sender, direction, outcome, amount, limit, block, gasPrice).Ok?
    ensures var t := Consumes(direction);
      var (s1, left) := FillBest(m, s, sender, t, outcome, amount, limit).value;
      var (s', res) := Trade(m, s, market, sender, direction, outcome, amount, limit, block, gasPrice).value;
      (res == NoLeftover <==> left == 0) &&
      (res.Leftover? ==>
        var e := EscrowFor(m, Holdings(m, s1, sender), Opposite(t), left, limit, outcome);
        res.id in s'.orders && res.id !in s1.orders &&
        s'.orders[res.id] == Order(Opposite(t), outcome, left, limit, sender, e.money, e.shares, gasPrice) &&
        0 < left <= amount)
  {
    var t := Consumes(direction);
    var (s1, left) := FillBest(m, s, sender, t, outcome, amount, limit).value;
    if left > 0 {
      CreatePlaces(m, s1, market, sender, Opposite(t), left, limit, outcome, block, gasPrice);
    }
  }

  /** A trade that leaves an order resting on the book has first taken
      every live order of the book it consumed that crossed the limit. */
  lemma {:induction false} TradeLeavesNoCross(m: Market, s: State, market: nat, sender: nat, direction: Direction,
                                              outcome: nat, amount: nat, limit: nat, block: nat, gasPrice: nat)
    requires Good(m, s)
    requires Trade(m, s, market, sender, direction, outcome, amount, limit, block, gasPrice).Ok?
    ensures var t := Consumes(direction);
      var (s', res) := Trade(m, s, market, sender, direction, outcome, amount, limit, block, gasPrice).value;
      res.Leftover? ==> forall x :: x in s'.orders && x.OrderHash? && KeyOf(x) == BookKey(outcome, t) ==>
        !Crosses(t, s'.orders[x].price, limit)
  {
    var t := Consumes(direction);
    var (s1, left) := FillBest(m, s, sender, t, outcome, amount, limit).value;
    var (s', res) := Trade(m, s, market, sender, direction, outcome, amount, limit, block, gasPrice).value;
    if res.Leftover? {
      FillBestLeavesNoCross(m, s, sender, t, outcome, amount, limit);
      CreatePlaces(m, s1, market, sender, Opposite(t), left, limit, outcome, block, gasPrice);
      assert res.id.OrderHash? && res.id.t == Opposite(t) != t;
      forall x | x in s'.orders && x.OrderHash? && KeyOf(x) == BookKey(outcome, t)
        ensures !Crosses(t, s'.orders[x].price, limit)
      {
        assert x != res.id && x in s1.orders;
      }
    }
  }

  /** A trade creates and destroys no cash and keeps the market's reserve;
      what it took from the book it consumed is exactly the part of the
      amount it did not leave as a new order. */
  lemma {:induction false} TradeAccounts(m: Market, s: State, market: nat, sender: nat, direction: Direction, outcome: nat,
                                         amount: nat, limit: nat, block: nat, gasPrice: nat)
    requires Good(m, s)
    requires Trade(m, s, market, sender, direction, outcome, amount, limit, block, gasPrice).Ok?
    ensures var s' := Trade(m, s, market, sender, direction, outcome, amount, limit, block, gasPrice).value.0;
      Reserve(s') == Reserve(s) && Money(s') == Money(s)
    ensures var t := Consumes(direction);
      var (s1, left) := FillBest(m, s, sender, t, outcome, amount, limit).value;
      Accounted(s, s1, BookKey(outcome, t), amount - left)
  {
    var t := Consumes(direction);
    var r := FillBest(m, s, sender, t, outcome, amount, limit);
    var s1, left := r.value.0, r.value.1;
    FillBestAccounts(m, s, sender, t, outcome, amount, limit);
    if left > 0 {
      CreateAccounts(m, s1, market, sender, Opposite(t), left, limit, outcome, block, gasPrice);
    }
  }
}
