// The order-placing scenarios of the make-order tests, worked out on
// concrete markets. Costs are amount * price in the market's own ticks; the
// tests that count amounts in 10^-18 shares and divide by 10^18 appear here
// at a coarser unit.

module TradingExamples {
  import opened Wrappers
  import opened Settlement
  import opened Ledger
  import opened OrderLifecycle

  const ONE: nat := 1_000_000_000_000_000_000
  const TENTH: nat := 100_000_000_000_000_000

  /** A binary market whose prices run over 10^18 ticks. */
  const Binary: Market := Market(1, 2, ONE, 100, 10000)

  /** A cash bid for one share at 0.1 on an empty book escrows 0.1 in cash
      and no shares, has no better or worse order, and moves exactly its
      escrow from the maker to the market. */
  lemma MakeCashBid()
    ensures var s := SetCash(Empty(), 7, TENTH);
      var r := Create(Binary, s, 1, 7, Bid, 1, TENTH, 1, 0, 0);
      r.Ok? &&
      GetOrder(r.value.0, r.value.1) == OrderRecord(1, TENTH, 7, TENTH, 0, NoOrder, NoOrder, 0) &&
      Cash(r.value.0, 7) == 0 && r.value.0.marketCash == TENTH
  {
    var s := SetCash(Empty(), 7, TENTH);
    assert Holdings(Binary, s, 7) == [0, 0];
    var e := EscrowFor(Binary, [0, 0], Bid, 1, TENTH, 1);
    assert e == Escrow(0, TENTH);
    var id := OrderHash(Bid, 1, TENTH, 7, 0, 1, TENTH, 0);
    var s' := Place(Binary, s, id, Order(Bid, 1, 1, TENTH, 7, TENTH, 0, 0));
    assert Create(Binary, s, 1, 7, Bid, 1, TENTH, 1, 0, 0) == Ok((s', id));
    assert Book(s', BookKey(1, Bid)) == [id];
    AloneHasNoNeighbours(s', id);
  }

  /** A cash ask for one share at 0.1 escrows 1 - 0.1 = 0.9 in cash, all of
      which the market receives. */
  lemma MakeCashAsk()
    ensures var s := SetCash(Empty(), 7, ONE);
      var r := Create(Binary, s, 1, 7, Ask, 1, TENTH, 0, 0, 0);
      r.Ok? &&
      GetOrder(r.value.0, r.value.1) == OrderRecord(1, TENTH, 7, ONE - TENTH, 0, NoOrder, NoOrder, 0) &&
      r.value.0.marketCash == ONE - TENTH
  {
    var s := SetCash(Empty(), 7, ONE);
    assert Holdings(Binary, s, 7) == [0, 0];
    var e := EscrowFor(Binary, [0, 0], Ask, 1, TENTH, 0);
    assert e == Escrow(0, ONE - TENTH);
    var id := OrderHash(Ask, 1, TENTH, 7, 0, 0, ONE - TENTH, 0);
    var s' := Place(Binary, s, id, Order(Ask, 0, 1, TENTH, 7, ONE - TENTH, 0, 0));
    assert Create(Binary, s, 1, 7, Ask, 1, TENTH, 0, 0, 0) == Ok((s', id));
    assert Book(s', BookKey(0, Ask)) == [id];
    AloneHasNoNeighbours(s', id);
  }

  /** An ask for 2 YES shares at 0.6 by a maker holding 1.2 complete sets,
      in tenths of a share on a market of 10 ticks: the 12 YES tenths are
      escrowed, the 8 tenths short are covered at 0.4 each (32 hundredths,
      i.e. 0.32), and the maker keeps its NO shares. */
  lemma MakeAskWithPartialShares()
    ensures var m := Market(1, 2, 10, 100, 10000);
      var s := SetHoldings(SetCash(Empty(), 7, 32), 7, [12, 12]);
      var r := Create(m, s, 1, 7, Ask, 20, 6, 1, 0, 0);
      r.Ok? &&
      GetOrder(r.value.0, r.value.1).moneyEscrowed == 32 && GetOrder(r.value.0, r.value.1).sharesEscrowed == 12 &&
      Cash(r.value.0, 7) == 0 && Holdings(m, r.value.0, 7) == [12, 0]
  {
    var m := Market(1, 2, 10, 100, 10000);
    var s := SetHoldings(SetCash(Empty(), 7, 32), 7, [12, 12]);
    assert Holdings(m, s, 7) == [12, 12];
    var e := EscrowFor(m, [12, 12], Ask, 20, 6, 1);
    assert e == Escrow(12, 32);
    var id := OrderHash(Ask, 20, 6, 7, 0, 1, 32, 12);
    var s' := Place(m, s, id, Order(Ask, 1, 20, 6, 7, 32, 12, 0));
    assert Create(m, s, 1, 7, Ask, 20, 6, 1, 0, 0) == Ok((s', id));
    assert Take([12, 12], Long(1), 12) == [12, 0];
  }

  /** The checks of the failure test: an unknown order type, a price
      outside the market, a zero amount, another address than the market's,
      and the same order placed twice are all refused. */
  lemma MakeOrderFailures()
    ensures var s := SetCash(Empty(), 7, 100 * ONE);
      PublicCreate(Binary, s, 1, 7, 3, 1, 6 * TENTH, 1, 0, 0) == Err(InvalidOrderType) &&
      Create(Binary, s, 1, 7, Bid, 1, 3 * ONE, 1, 0, 0) == Err(InvalidPrice) &&
      Create(Binary, s, 1, 7, Ask, 1, 3 * ONE, 1, 0, 0) == Err(InvalidPrice) &&
      Create(Binary, s, 1, 7, Ask, 0, 6 * TENTH, 1, 0, 0) == Err(ZeroAmount) &&
      Create(Binary, s, 8, 7, Ask, 1, 6 * TENTH, 1, 0, 0) == Err(InvalidMarket) &&
      var r := Create(Binary, s, 1, 7, Ask, 1, 6 * TENTH, 1, 0, 0);
      r.Ok? && Create(Binary, r.value.0, 1, 7, Ask, 1, 6 * TENTH, 1, 0, 0) == Err(DuplicateOrder)
  {
    var s := SetCash(Empty(), 7, 100 * ONE);
    assert Holdings(Binary, s, 7) == [0, 0];
    var e := EscrowFor(Binary, [0, 0], Ask, 1, 6 * TENTH, 1);
    assert e == Escrow(0, 4 * TENTH);
    var id := OrderHash(Ask, 1, 6 * TENTH, 7, 0, 1, 4 * TENTH, 0);
    var s' := Place(Binary, s, id, Order(Ask, 1, 1, 6 * TENTH, 7, 4 * TENTH, 0, 0));
    assert Create(Binary, s, 1, 7, Ask, 1, 6 * TENTH, 1, 0, 0) == Ok((s', id));
    assert Holdings(Binary, s', 7) == [0, 0];
    assert Create(Binary, s', 1, 7, Ask, 1, 6 * TENTH, 1, 0, 0) == Err(DuplicateOrder);
  }
}
