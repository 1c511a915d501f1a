// Placing and cancelling orders, and buying complete sets.
//
// A new order escrows what its maker would have to deliver if it were
// filled: shares of the escrowed position as far as the maker holds them,
// and cash at the order's unit cost for the rest. Cancelling hands the
// escrow back and erases the order.

module OrderLifecycle {
  import opened Wrappers
  import opened Settlement
  import opened Ledger

  /** The order type codes of the public entry point: 1 is a bid, 2 an ask. */
  function DecodeOrderType(code: nat): (r: Result<OrderType, Error>)
    ensures r.Ok? <==> code == 1 || code == 2
    ensures r.Ok? ==> (r.value == Bid <==> code == 1)
    ensures r.Err? ==> r.error == InvalidOrderType
  {
    if code == 1 then Ok(Bid) else if code == 2 then Ok(Ask) else Err(InvalidOrderType)
  }

  /** The escrow an order needs: shares of the escrowed position first, as
      many as the maker holds up to the amount, then cash for the rest. */
  datatype Escrow = Escrow(shares: nat, money: nat)

  function EscrowFor(m: Market, held: seq<nat>, t: OrderType, amount: nat, price: nat, outcome: nat): (e: Escrow)
    requires |held| == m.numOutcomes >= 2 && outcome < m.numOutcomes && price <= m.numTicks
    ensures e.shares <= amount && e.shares <= Available(held, Escrowed(t, outcome))
    ensures e.shares == amount || e.shares == Available(held, Escrowed(t, outcome))
    ensures e.money == (amount - e.shares) * UnitCost(m, t, price)
  {
    var shares := Min(Available(held, Escrowed(t, outcome)), amount);
    Escrow(shares, (amount - shares) * UnitCost(m, t, price))
  }

  /** Places an order of `amount` shares of `outcome` at `price` for
      `sender` in block `block`, and returns its id. */
  function Create(m: Market, s: State, market: nat, sender: nat, t: OrderType, amount: nat, price: nat,
                  outcome: nat, block: nat, gasPrice: nat): Result<(State, OrderId), Error>
    requires WellFormed(m)
  {
    if market != m.address then Err(InvalidMarket)
    else if outcome >= m.numOutcomes then Err(InvalidOutcome)
    else if !ValidPrice(m, price) then Err(InvalidPrice)
    else if amount == 0 then Err(ZeroAmount)
    else
      var held := Holdings(m, s, sender);
      var e := EscrowFor(m, held, t, amount, price, outcome);
      if Cash(s, sender) < e.money then Err(InsufficientCash)
      else
        var id := OrderHash(t, amount, price, sender, block, outcome, e.money, e.shares);
        if id in s.orders then Err(DuplicateOrder)
        else
          Ok((Place(m, s, id, Order(t, outcome, amount, price, sender, e.money, e.shares, gasPrice)), id))
  }

  /** Files order o under id and moves its escrow from its owner into the
      market. */
  function Place(m: Market, s: State, id: OrderId, o: Order): State
    requires id.OrderHash? && o.outcome < m.numOutcomes && m.numOutcomes >= 2
    requires Cash(s, o.owner) >= o.moneyEscrowed
    requires o.sharesEscrowed <= Available(Holdings(m, s, o.owner), Escrowed(o.t, o.outcome))
  {
    TakeEscrow(m, AddOrder(s, id, o), o)
  }

  /** Moves order o's escrow from its owner into the market: the escrowed
      shares leave the owner's position and the escrowed cash its balance. */
  function TakeEscrow(m: Market, s: State, o: Order): State
    requires o.outcome < m.numOutcomes && m.numOutcomes >= 2
    requires Cash(s, o.owner) >= o.moneyEscrowed
    requires o.sharesEscrowed <= Available(Holdings(m, s, o.owner), Escrowed(o.t, o.outcome))
  {
    var s1 := SetHoldings(s, o.owner, Take(Holdings(m, s, o.owner), Escrowed(o.t, o.outcome), o.sharesEscrowed));
    SetCash(s1, o.owner, Cash(s, o.owner) - o.moneyEscrowed).(marketCash := s.marketCash + o.moneyEscrowed)
  }

  /** The public entry point, which takes the order type as a code. */
  function PublicCreate(m: Market, s: State, market: nat, sender: nat, code: nat, amount: nat, price: nat,
                        outcome: nat, block: nat, gasPrice: nat): (r: Result<(State, OrderId), Error>)
    requires WellFormed(m)
    ensures code != 1 && code != 2 ==> r == Err(InvalidOrderType)
    ensures code == 1 ==> r == Create(m, s, market, sender, Bid, amount, price, outcome, block, gasPrice)
    ensures code == 2 ==> r == Create(m, s, market, sender, Ask, amount, price, outcome, block, gasPrice)
  {
    match DecodeOrderType(code)
    case Err(e) => Err(e)
    case Ok(t) => Create(m, s, market, sender, t, amount, price, outcome, block, gasPrice)
  }

  /** The internal entry points that place an order on behalf of `sender`
      (makeOrder, and placeBid and placeAsk with the side fixed): only a
      whitelisted contract may call them, and nothing changes otherwise. */
  function InternalCreate(m: Market, s: State, trusted: set<nat>, caller: nat, market: nat, sender: nat,
                          t: OrderType, amount: nat, price: nat, outcome: nat, block: nat, gasPrice: nat)
    : (r: Result<(State, OrderId), Error>)
    requires WellFormed(m)
    ensures caller !in trusted ==> r == Err(NotTrusted)
    ensures caller in trusted ==> r == Create(m, s, market, sender, t, amount, price, outcome, block, gasPrice)
  {
    if caller !in trusted then Err(NotTrusted) else Create(m, s, market, sender, t, amount, price, outcome, block, gasPrice)
  }

  /** Create fails exactly when one of its checks fails, each with its own
      error. */
  lemma CreateErrors(m: Market, s: State, market: nat, sender: nat, t: OrderType, amount: nat, price: nat,
                     outcome: nat, block: nat, gasPrice: nat)
    requires WellFormed(m)
    ensures var r := Create(m, s, market, sender, t, amount, price, outcome, block, gasPrice);
      (market != m.address ==> r == Err(InvalidMarket)) &&
      (market == m.address && outcome >= m.numOutcomes ==> r == Err(InvalidOutcome)) &&
      (market == m.address && outcome < m.numOutcomes && !ValidPrice(m, price) ==> r == Err(InvalidPrice)) &&
      (market == m.address && outcome < m.numOutcomes && ValidPrice(m, price) && amount == 0 ==> r == Err(ZeroAmount)) &&
      (market == m.address && outcome < m.numOutcomes && ValidPrice(m, price) && amount > 0 ==>
        var e := EscrowFor(m, Holdings(m, s, sender), t, amount, price, outcome);
        (Cash(s, sender) < e.money ==> r == Err(InsufficientCash)) &&
        (Cash(s, sender) >= e.money ==>
          var id := OrderHash(t, amount, price, sender, block, outcome, e.money, e.shares);
          (id in s.orders ==> r == Err(DuplicateOrder)) && (id !in s.orders ==> r.Ok?)))
  {
  }

  /** A placed order: its record holds the amount, price, maker and escrow;
      the maker's cash falls and the market's cash rises by the escrowed
      cash; the maker gives up the escrowed shares; nothing else changes. */
  lemma {:induction false} CreatePlaces(m: Market, s: State, market: nat, sender: nat, t: OrderType, amount: nat,
                                        price: nat, outcome: nat, block: nat, gasPrice: nat)
    requires WellFormed(m)
    requires Create(m, s, market, sender, t, amount, price, outcome, block, gasPrice).Ok?
    ensures var (s', id) := Create(m, s, market, sender, t, amount, price, outcome, block, gasPrice).value;
      var e := EscrowFor(m, Holdings(m, s, sender), t, amount, price, outcome);
      market == m.address && outcome < m.numOutcomes && ValidPrice(m, price) && amount > 0 &&
      id == OrderHash(t, amount, price, sender, block, outcome, e.money, e.shares) &&
      id != NoOrder && id !in s.orders && id in s'.orders &&
      GetOrder(s', id).amount == amount && GetOrder(s', id).price == price && GetOrder(s', id).owner == sender &&
      GetOrder(s', id).moneyEscrowed == e.money && GetOrder(s', id).sharesEscrowed == e.shares &&
      Cash(s, sender) - Cash(s', sender) == e.money == s'.marketCash - s.marketCash &&
      Holdings(m, s', sender) == Take(Holdings(m, s, sender), Escrowed(t, outcome), e.shares) &&
      (forall a :: a != sender ==> Cash(s', a) == Cash(s, a) && Holdings(m, s', a) == Holdings(m, s, a)) &&
      (forall x :: x != id ==> (x in s'.orders <==> x in s.orders)) &&
      (forall x :: x in s.orders ==> s'.orders[x] == s.orders[x]) &&
      s'.openInterest == s.openInterest && s'.creatorFees == s.creatorFees && s'.reportingFees == s.reportingFees
  {
  }

  lemma PlaceAccounts(m: Market, s: State, id: OrderId, o: Order)
    requires id.OrderHash? && id !in s.orders && o.outcome < m.numOutcomes && m.numOutcomes >= 2
    requires Cash(s, o.owner) >= o.moneyEscrowed
    requires o.sharesEscrowed <= Available(Holdings(m, s, o.owner), Escrowed(o.t, o.outcome))
    ensures Reserve(Place(m, s, id, o)) == Reserve(s) && Money(Place(m, s, id, o)) == Money(s)
  {
    var added := AddOrder(s, id, o);
    var p := Place(m, s, id, o);
    var c := Cash(added, o.owner) - o.moneyEscrowed;
    assert p.cash == s.cash[o.owner := c] && p.orders == added.orders == s.orders[id := o];
    EscrowTotalAdd(s.orders, id, o);
    TotalUpdate(s.cash, o.owner, c);
    EscrowMoved(s, p, o.moneyEscrowed);
  }

  /** Placing the same order twice in one block: the second call cannot
      produce the id of the first order, and it is refused outright whenever
      it works out the same escrow, which is when the maker held none of the
      escrowed position (a pure cash order) or enough of it to cover the
      amount twice over (the test's case). The id then repeats, so the call
      fails as a duplicate, or for want of cash if the first order used it
      up. */
  lemma {:induction false} CreateTwiceRejected(m: Market, s: State, market: nat, sender: nat, t: OrderType, amount: nat,
                                               price: nat, outcome: nat, block: nat, gasPrice: nat)
    requires WellFormed(m)
    requires Create(m, s, market, sender, t, amount, price, outcome, block, gasPrice).Ok?
    ensures var (s', id) := Create(m, s, market, sender, t, amount, price, outcome, block, gasPrice).value;
      var again := Create(m, s', market, sender, t, amount, price, outcome, block, gasPrice);
      var av := Available(Holdings(m, s, sender), Escrowed(t, outcome));
      var e := EscrowFor(m, Holdings(m, s, sender), t, amount, price, outcome);
      (again.Err? || again.value.1 != id) &&
      (av >= 2 * amount ==> again == Err(DuplicateOrder)) &&
      (av == 0 ==> again == if Cash(s', sender) < e.money then Err(InsufficientCash) else Err(DuplicateOrder))
  {
    var r := Create(m, s, market, sender, t, amount, price, outcome, block, gasPrice);
    var s', id := r.value.0, r.value.1;
    var held := Holdings(m, s, sender);
    var av := Available(held, Escrowed(t, outcome));
    var e := EscrowFor(m, held, t, amount, price, outcome);
    CreateFiles(m, s, market, sender, t, amount, price, outcome, block, gasPrice);
    NewIdIsFresh(m, s', market, sender, t, amount, price, outcome, block, gasPrice, id);
    if av >= 2 * amount || av == 0 {
      RepeatAfter(m, s', market, sender, t, amount, price, outcome, block, gasPrice, held, e);
    }
  }

  /** The second call, made with the maker's shares less the first escrow:
      when they give the same escrow, it finds the first order's id. */
  lemma RepeatAfter(m: Market, s': State, market: nat, sender: nat, t: OrderType, amount: nat,
                    price: nat, outcome: nat, block: nat, gasPrice: nat, held: seq<nat>, e: Escrow)
    requires WellFormed(m) && market == m.address && outcome < m.numOutcomes && ValidPrice(m, price) && amount > 0
    requires |held| == m.numOutcomes
    requires var av := Available(held, Escrowed(t, outcome)); av == 0 || av >= 2 * amount
    requires EscrowFor(m, held, t, amount, price, outcome) == e
    requires forall j :: 0 <= j < |held| && InPosition(Escrowed(t, outcome), j) ==> e.shares <= held[j]
    requires Holdings(m, s', sender) == Take(held, Escrowed(t, outcome), e.shares)
    requires OrderHash(t, amount, price, sender, block, outcome, e.money, e.shares) in s'.orders
    ensures Create(m, s', market, sender, t, amount, price, outcome, block, gasPrice) ==
      if Cash(s', sender) < e.money then Err(InsufficientCash) else Err(DuplicateOrder)
  {
    EscrowRepeats(m, held, t, amount, price, outcome);
    RepeatRefused(m, s', market, sender, t, amount, price, outcome, block, gasPrice, e);
  }

  /** A placed order is filed under the hash of its fields and escrow, and
      the maker's shares lose what was escrowed. */
  lemma CreateFiles(m: Market, s: State, market: nat, sender: nat, t: OrderType, amount: nat,
                    price: nat, outcome: nat, block: nat, gasPrice: nat)
    requires WellFormed(m)
    requires Create(m, s, market, sender, t, amount, price, outcome, block, gasPrice).Ok?
    ensures var (s', id) := Create(m, s, market, sender, t, amount, price, outcome, block, gasPrice).value;
      var e := EscrowFor(m, Holdings(m, s, sender), t, amount, price, outcome);
      market == m.address && outcome < m.numOutcomes && ValidPrice(m, price) && amount > 0 &&
      id == OrderHash(t, amount, price, sender, block, outcome, e.money, e.shares) && id in s'.orders &&
      Holdings(m, s', sender) == Take(Holdings(m, s, sender), Escrowed(t, outcome), e.shares)
  {
  }

  /** A placed order never takes the id of an order already on file. */
  lemma NewIdIsFresh(m: Market, s: State, market: nat, sender: nat, t: OrderType, amount: nat,
                     price: nat, outcome: nat, block: nat, gasPrice: nat, id: OrderId)
    requires WellFormed(m) && id in s.orders
    ensures var r := Create(m, s, market, sender, t, amount, price, outcome, block, gasPrice);
      r.Err? || r.value.1 != id
  {
  }

  /** After escrowing for an order, the maker's shares give the same escrow
      again when it had none of the position or twice the amount. */
  lemma {:induction false} EscrowRepeats(m: Market, held: seq<nat>, t: OrderType, amount: nat, price: nat, outcome: nat)
    requires |held| == m.numOutcomes >= 2 && outcome < m.numOutcomes && price <= m.numTicks
    requires var av := Available(held, Escrowed(t, outcome)); av == 0 || av >= 2 * amount
    ensures var e := EscrowFor(m, held, t, amount, price, outcome);
      (forall j :: 0 <= j < |held| && InPosition(Escrowed(t, outcome), j) ==> e.shares <= held[j]) &&
      EscrowFor(m, Take(held, Escrowed(t, outcome), e.shares), t, amount, price, outcome) == e
  {
    var e := EscrowFor(m, held, t, amount, price, outcome);
    AvailableTake(held, Escrowed(t, outcome), e.shares);
  }

  /** A call that works out an escrow already filed under the same fields
      is refused. */
  lemma RepeatRefused(m: Market, s: State, market: nat, sender: nat, t: OrderType, amount: nat,
                      price: nat, outcome: nat, block: nat, gasPrice: nat, e: Escrow)
    requires WellFormed(m) && market == m.address && outcome < m.numOutcomes && ValidPrice(m, price) && amount > 0
    requires EscrowFor(m, Holdings(m, s, sender), t, amount, price, outcome) == e
    requires OrderHash(t, amount, price, sender, block, outcome, e.money, e.shares) in s.orders
    ensures Create(m, s, market, sender, t, amount, price, outcome, block, gasPrice) ==
      if Cash(s, sender) < e.money then Err(InsufficientCash) else Err(DuplicateOrder)
  {
  }

  /** A placed order satisfies the escrow invariant and joins its book in
      price-time order, so placing keeps the state well formed. */
  lemma {:induction false} CreateKeepsGood(m: Market, s: State, market: nat, sender: nat, t: OrderType, amount: nat,
                                           price: nat, outcome: nat, block: nat, gasPrice: nat)
    requires Good(m, s)
    requires Create(m, s, market, sender, t, amount, price, outcome, block, gasPrice).Ok?
    ensures Good(m, Create(m, s, market, sender, t, amount, price, outcome, block, gasPrice).value.0)
  {
    var (s', id) := Create(m, s, market, sender, t, amount, price, outcome, block, gasPrice).value;
    var e := EscrowFor(m, Holdings(m, s, sender), t, amount, price, outcome);
    var o := Order(t, outcome, amount, price, sender, e.money, e.shares, gasPrice);
    AddOrderKeepsGood(m, s, id, o);
    GoodFrame(m, AddOrder(s, id, o), s');
  }

  /** Placing an order moves cash from the maker into the market and
      raises the escrow by as much: the market's reserve and the total cash
      are unchanged. */
  lemma {:induction false} CreateAccounts(m: Market, s: State, market: nat, sender: nat, t: OrderType, amount: nat,
                                          price: nat, outcome: nat, block: nat, gasPrice: nat)
    requires WellFormed(m)
    requires Create(m, s, market, sender, t, amount, price, outcome, block, gasPrice).Ok?
    ensures var s' := Create(m, s, market, sender, t, amount, price, outcome, block, gasPrice).value.0;
      Reserve(s') == Reserve(s) && Money(s') == Money(s)
  {
    var id := Create(m, s, market, sender, t, amount, price, outcome, block, gasPrice).value.1;
    var e := EscrowFor(m, Holdings(m, s, sender), t, amount, price, outcome);
    var o := Order(t, outcome, amount, price, sender, e.money, e.shares, gasPrice);
    assert Create(m, s, market, sender, t, amount, price, outcome, block, gasPrice) == Ok((Place(m, s, id, o), id));
    PlaceAccounts(m, s, id, o);
  }

  // ------------------------------------------------------------------ cancel

  /** Hands an order's escrow back to its owner: the cash out of the market's
      balance, the shares back into the escrowed position. */
  function Refund(m: Market, s: State, owner: nat, t: OrderType, outcome: nat, shares: nat, money: nat): Result<State, Error>
    requires outcome < m.numOutcomes && m.numOutcomes >= 2
  {
    if s.marketCash < money then Err(MarketCashShort)
    else
      var s1 := SetCash(s.(marketCash := s.marketCash - money), owner, Cash(s, owner) + money);
      Ok(SetHoldings(s1, owner, Give(Holdings(m, s, owner), Escrowed(t, outcome), shares)))
  }

  /** Cancels order `id`, looked up under its type and outcome in this
      market; only its owner may. */
  function Cancel(m: Market, s: State, market: nat, sender: nat, id: OrderId, t: OrderType, outcome: nat): Result<State, Error>
    requires Good(m, s)
  {
    if market != m.address || id !in s.orders || s.orders[id].t != t || s.orders[id].outcome != outcome then
      Err(OrderNotFound)
    else
      var o := s.orders[id];
      if o.owner != sender then Err(NotOwner)
      else
        assert OrderOk(m, id, o);
        Refund(m, RemoveOrder(s, id), o.owner, t, outcome, o.sharesEscrowed, o.moneyEscrowed)
  }

  /** Who calls an internal entry point: only contracts on the controller's
      whitelist may move another trader's escrow. */
  function InternalCancel(m: Market, s: State, trusted: set<nat>, caller: nat, market: nat, owner: nat,
                          id: OrderId, t: OrderType, outcome: nat): (r: Result<State, Error>)
    requires Good(m, s)
    ensures caller !in trusted ==> r == Err(NotTrusted)
    ensures caller in trusted ==> r == Cancel(m, s, market, owner, id, t, outcome)
  {
    if caller !in trusted then Err(NotTrusted) else Cancel(m, s, market, owner, id, t, outcome)
  }

  function InternalRefund(m: Market, s: State, trusted: set<nat>, caller: nat, owner: nat, t: OrderType,
                          outcome: nat, shares: nat, money: nat): (r: Result<State, Error>)
    requires outcome < m.numOutcomes && m.numOutcomes >= 2
    ensures caller !in trusted ==> r == Err(NotTrusted)
    ensures caller in trusted ==> r == Refund(m, s, owner, t, outcome, shares, money)
  {
    if caller !in trusted then Err(NotTrusted) else Refund(m, s, owner, t, outcome, shares, money)
  }

  /** Cancel fails for the zero id, an unknown id, a mismatched lookup, or a
      sender other than the owner; the owner's cancel succeeds whenever the
      market holds the cash its orders escrow, which every reachable state
      does (see CancelAccounts and the other accounting lemmas). */
  lemma CancelErrors(m: Market, s: State, market: nat, sender: nat, id: OrderId, t: OrderType, outcome: nat)
    requires Good(m, s)
    ensures var r := Cancel(m, s, market, sender, id, t, outcome);
      (id == NoOrder || id !in s.orders ==> r == Err(OrderNotFound)) &&
      (market == m.address && id in s.orders && s.orders[id].t == t && s.orders[id].outcome == outcome ==>
        (s.orders[id].owner != sender ==> r == Err(NotOwner)) &&
        (s.orders[id].owner == sender && Solvent(s) ==> r.Ok?))
  {
    assert NoOrder !in s.orders;
    if id in s.orders && Solvent(s) {
      EscrowWithinMarketCash(s, id);
    }
  }

  /** A cancelled order is gone: its record reads as zeros and cancelling it
      again fails. */
  lemma {:induction false} CancelErases(m: Market, s: State, market: nat, sender: nat, id: OrderId, t: OrderType, outcome: nat)
    requires Good(m, s)
    requires Cancel(m, s, market, sender, id, t, outcome).Ok?
    ensures var s' := Cancel(m, s, market, sender, id, t, outcome).value;
      GetOrder(s', id) == ZeroRecord && id !in s'.orders
  {
  }

  /** Cancelling keeps the state well formed. */
  lemma {:induction false} CancelKeepsGood(m: Market, s: State, market: nat, sender: nat, id: OrderId, t: OrderType, outcome: nat)
    requires Good(m, s)
    requires Cancel(m, s, market, sender, id, t, outcome).Ok?
    ensures Good(m, Cancel(m, s, market, sender, id, t, outcome).value)
  {
    var s' := Cancel(m, s, market, sender, id, t, outcome).value;
    RemoveOrderKeepsGood(m, s, id);
    GoodFrame(m, RemoveOrder(s, id), s');
  }

  /** Cancelling hands the escrowed cash back from the market to the owner
      and lowers the escrow by as much: the market's reserve and the total
      cash are unchanged. */
  lemma {:induction false} CancelAccounts(m: Market, s: State, market: nat, sender: nat, id: OrderId, t: OrderType, outcome: nat)
    requires Good(m, s)
    requires Cancel(m, s, market, sender, id, t, outcome).Ok?
    ensures var s' := Cancel(m, s, market, sender, id, t, outcome).value;
      Reserve(s') == Reserve(s) && Money(s') == Money(s)
  {
    var o := s.orders[id];
    assert OrderOk(m, id, o);
    RefundReleases(m, s, id, o, t, outcome);
  }

  /** Erasing order id and refunding its escrow to its owner keeps the
      market's reserve and the total cash. */
  lemma RefundReleases(m: Market, s: State, id: OrderId, o: Order, t: OrderType, outcome: nat)
    requires id.OrderHash? && id in s.orders && o == s.orders[id] && outcome < m.numOutcomes && m.numOutcomes >= 2
    requires Refund(m, RemoveOrder(s, id), o.owner, t, outcome, o.sharesEscrowed, o.moneyEscrowed).Ok?
    ensures var s' := Refund(m, RemoveOrder(s, id), o.owner, t, outcome, o.sharesEscrowed, o.moneyEscrowed).value;
      Reserve(s') == Reserve(s) && Money(s') == Money(s)
  {
    EscrowTotalRemove(s.orders, id);
    var s' := Refund(m, RemoveOrder(s, id), o.owner, t, outcome, o.sharesEscrowed, o.moneyEscrowed).value;
    var c := Cash(s, o.owner) + o.moneyEscrowed;
    assert s'.cash == s.cash[o.owner := c] && s'.orders == s.orders - {id};
    TotalUpdate(s.cash, o.owner, c);
    EscrowReleased(s, s', o.moneyEscrowed);
  }

  /** Two states no trader, order or book can tell apart. */
  ghost predicate SameView(m: Market, s: State, s': State)
  {
    s'.orders == s.orders &&
    (forall key :: Book(s', key) == Book(s, key)) &&
    (forall a :: Cash(s', a) == Cash(s, a)) &&
    (forall a :: Holdings(m, s', a) == Holdings(m, s, a)) &&
    s'.marketCash == s.marketCash && s'.openInterest == s.openInterest &&
    s'.creatorFees == s.creatorFees && s'.reportingFees == s.reportingFees
  }

  /** Cancelling an order right after placing it gives everything back: the
      maker's cash and shares, the market's cash, the order table and the
      books are as they were. */
  lemma {:induction false} CancelUndoesCreate(m: Market, s: State, market: nat, sender: nat, t: OrderType, amount: nat,
                                              price: nat, outcome: nat, block: nat, gasPrice: nat)
    requires Good(m, s)
    requires Create(m, s, market, sender, t, amount, price, outcome, block, gasPrice).Ok?
    ensures var (s', id) := Create(m, s, market, sender, t, amount, price, outcome, block, gasPrice).value;
      Good(m, s') &&
      Cancel(m, s', market, sender, id, t, outcome).Ok? &&
      SameView(m, s, Cancel(m, s', market, sender, id, t, outcome).value)
  {
    var (s', id) := Create(m, s, market, sender, t, amount, price, outcome, block, gasPrice).value;
    var e := EscrowFor(m, Holdings(m, s, sender), t, amount, price, outcome);
    CancelUndoesPlace(m, s, id, Order(t, outcome, amount, price, sender, e.money, e.shares, gasPrice));
  }

  lemma {:induction false} CancelUndoesPlace(m: Market, s: State, id: OrderId, o: Order)
    requires Good(m, s) && OrderOk(m, id, o) && id !in s.orders
    requires Cash(s, o.owner) >= o.moneyEscrowed
    requires o.sharesEscrowed <= Available(Holdings(m, s, o.owner), Escrowed(o.t, o.outcome))
    ensures Good(m, Place(m, s, id, o))
    ensures Cancel(m, Place(m, s, id, o), m.address, o.owner, id, o.t, o.outcome).Ok?
    ensures SameView(m, s, Cancel(m, Place(m, s, id, o), m.address, o.owner, id, o.t, o.outcome).value)
  {
    var s' := Place(m, s, id, o);
    AddOrderKeepsGood(m, s, id, o);
    GoodFrame(m, AddOrder(s, id, o), s');
    assert OrderOk(m, id, s'.orders[id]);
    RemovePlaced(m, s, id, o);
    RefundRestores(m, s, RemoveOrder(s', id), o.owner, o.t, o.outcome, o.sharesEscrowed, o.moneyEscrowed);
  }

  /** Taking a just-placed order out of the table leaves the state as it was
      except for the escrow still held by the market. */
  lemma {:induction false} RemovePlaced(m: Market, s: State, id: OrderId, o: Order)
    requires Good(m, s) && OrderOk(m, id, o) && id !in s.orders
    requires Cash(s, o.owner) >= o.moneyEscrowed
    requires o.sharesEscrowed <= Available(Holdings(m, s, o.owner), Escrowed(o.t, o.outcome))
    ensures var r := RemoveOrder(Place(m, s, id, o), id);
      r.orders == s.orders && (forall key :: Book(r, key) == Book(s, key)) &&
      r.marketCash == s.marketCash + o.moneyEscrowed && Cash(r, o.owner) + o.moneyEscrowed == Cash(s, o.owner) &&
      Give(Holdings(m, r, o.owner), Escrowed(o.t, o.outcome), o.sharesEscrowed) == Holdings(m, s, o.owner) &&
      (forall a :: a != o.owner ==> Cash(r, a) == Cash(s, a) && Holdings(m, r, a) == Holdings(m, s, a)) &&
      r.openInterest == s.openInterest && r.creatorFees == s.creatorFees && r.reportingFees == s.reportingFees
  {
    var added := AddOrder(s, id, o);
    RemoveUndoesAdd(m, s, id, o);
    var removed := RemoveOrder(Place(m, s, id, o), id);
    assert removed.orders == RemoveOrder(added, id).orders && removed.books == RemoveOrder(added, id).books;
    GiveTake(Holdings(m, s, o.owner), Escrowed(o.t, o.outcome), o.sharesEscrowed);
  }

  /** The refund half of the round trip: handing back what a state took from
      `owner` restores that owner's cash and shares and the market's cash. */
  lemma {:induction false} RefundRestores(m: Market, s: State, r: State, owner: nat, t: OrderType, outcome: nat,
                                          shares: nat, money: nat)
    requires outcome < m.numOutcomes && m.numOutcomes >= 2
    requires r.orders == s.orders && (forall key :: Book(r, key) == Book(s, key))
    requires r.marketCash == s.marketCash + money && Cash(r, owner) + money == Cash(s, owner)
    requires Give(Holdings(m, r, owner), Escrowed(t, outcome), shares) == Holdings(m, s, owner)
    requires forall a :: a != owner ==> Cash(r, a) == Cash(s, a) && Holdings(m, r, a) == Holdings(m, s, a)
    requires r.openInterest == s.openInterest && r.creatorFees == s.creatorFees && r.reportingFees == s.reportingFees
    ensures Refund(m, r, owner, t, outcome, shares, money).Ok?
    ensures SameView(m, s, Refund(m, r, owner, t, outcome, shares, money).value)
  {
  }

  // ----------------------------------------------------------- complete sets

  /** Buying `amount` complete sets: the buyer pays amount * numTicks into
      the market and receives `amount` shares of every outcome. */
  function BuyCompleteSets(m: Market, s: State, sender: nat, amount: nat): Result<State, Error>
  {
    var cost := amount * m.numTicks;
    if Cash(s, sender) < cost then Err(InsufficientCash)
    else
      var v := Holdings(m, s, sender);
      var s1 := SetCash(s.(marketCash := s.marketCash + cost, openInterest := s.openInterest + cost),
                        sender, Cash(s, sender) - cost);
      Ok(SetHoldings(s1, sender, seq(|v|, j requires 0 <= j < |v| => v[j] + amount)))
  }

  /** Every complete set bought moves numTicks of the buyer's cash into the
      market and raises open interest by numTicks; the buyer gains one share
      of every outcome per set and no order changes. */
  lemma {:induction false} CompleteSetsRaiseOpenInterest(m: Market, s: State, sender: nat, amount: nat)
    requires Good(m, s)
    ensures var r := BuyCompleteSets(m, s, sender, amount);
      (r.Err? <==> Cash(s, sender) < amount * m.numTicks) &&
      (r.Ok? ==>
        var s' := r.value;
        Good(m, s') &&
        s'.openInterest == s.openInterest + amount * m.numTicks &&
        s'.marketCash == s.marketCash + amount * m.numTicks &&
        Cash(s', sender) + amount * m.numTicks == Cash(s, sender) &&
        (forall j :: 0 <= j < m.numOutcomes ==> Holdings(m, s', sender)[j] == Holdings(m, s, sender)[j] + amount) &&
        s'.orders == s.orders && s'.books == s.books)
  {
    var r := BuyCompleteSets(m, s, sender, amount);
    if r.Ok? {
      GoodFrame(m, s, r.value);
    }
  }

  /** Buying complete sets moves their price from the buyer into the market
      and raises open interest by as much: the reserve and the total cash
      are unchanged. */
  lemma {:induction false} BuyCompleteSetsAccounts(m: Market, s: State, sender: nat, amount: nat)
    requires BuyCompleteSets(m, s, sender, amount).Ok?
    ensures var s' := BuyCompleteSets(m, s, sender, amount).value;
      Reserve(s') == Reserve(s) && Money(s') == Money(s)
  {
    var cost := amount * m.numTicks;
    SetCashTotal(s.(marketCash := s.marketCash + cost, openInterest := s.openInterest + cost), sender, Cash(s, sender) - cost);
  }
}
