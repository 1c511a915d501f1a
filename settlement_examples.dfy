// The settlement decision table of the fill tests, worked out on the binary
// market the tests use: numTicks 10^18, a 1% creator fee and a 0.01%
// reporting fee, every order at price 0.6.

module SettlementExamples {
  import opened Settlement

  const ONE: nat := 1_000_000_000_000_000_000
  const PRICE: nat := 600_000_000_000_000_000
  const TestMarket: Market := Market(1, 2, ONE, 100, 10000)

  /** One row of the table: the maker's and the filler's cash received, the
      filler's cash paid, and how many shares of the position each side asked
      for it ends up with. */
  predicate Row(t: OrderType, makerShares: nat, fillerShares: nat, amount: nat,
                makerPayout: nat, fillerPayout: nat, fillerCost: nat, makerGets: nat, fillerGets: nat)
    requires makerShares <= amount && fillerShares <= amount
  {
    var f := Settle(TestMarket, t, PRICE, makerShares, fillerShares, amount);
    f.makerReceives == makerPayout && f.fillerReceives == fillerPayout && f.fillerPays == fillerCost &&
    f.legs.cashForShares + f.legs.cashForCash == makerGets &&
    f.legs.sharesForCash + f.legs.cashForCash == fillerGets
  }

  /** The complete-set fee on 12 sets is 12*0.01 + 12*0.0001; the payout after
      it is split 0.6 : 0.4, so the side that held YES gets 7.12728 and the
      side that held NO gets 4.75152. */
  lemma TwelveSetSale()
    ensures CreatorFee(TestMarket, 12 * ONE) == 120_000_000_000_000_000
    ensures ReportingFee(TestMarket, 12 * ONE) == 1_200_000_000_000_000
    ensures ShareSale(TestMarket, PRICE, 12) == Proceeds(7_127_280_000_000_000_000, 4_751_520_000_000_000_000, 120_000_000_000_000_000, 1_200_000_000_000_000)
  {
  }

  /** Row: a cash bid for 12 filled with 12 YES shares: the maker's escrow pays the filler 7.2 for its shares. */
  lemma BidCashFilledWithYes()
    ensures Row(Bid, 0, 12, 12, 0, 7_200_000_000_000_000_000, 0, 12, 0)
  {
  }

  /** Row: a bid for 12 escrowed with 12 NO shares filled with 12 YES shares: a complete set sale, fee borne 0.4 : 0.6. */
  lemma BidNoFilledWithYes()
    ensures Row(Bid, 12, 12, 12, 4_751_520_000_000_000_000, 7_127_280_000_000_000_000, 0, 0, 0)
  {
  }

  /** Row: a cash bid for 12 filled with 4.8 cash: 12 complete sets bought, fee-free. */
  lemma BidCashFilledWithCash()
    ensures Row(Bid, 0, 0, 12, 0, 0, 4_800_000_000_000_000_000, 12, 12)
  {
  }

  /** Row: a bid for 12 escrowed with 12 NO shares filled with 4.8 cash: the filler buys the maker's NO shares, fee-free. */
  lemma BidNoFilledWithCash()
    ensures Row(Bid, 12, 0, 12, 4_800_000_000_000_000_000, 0, 4_800_000_000_000_000_000, 0, 12)
  {
  }

  /** Row: a bid for 24 escrowed with 12 NO shares and 7.2 cash filled with 24 YES shares: the fee is charged on the share half only. */
  lemma MixedBidFilledWithYes()
    ensures Row(Bid, 12, 24, 24, 4_751_520_000_000_000_000, 14_327_280_000_000_000_000, 0, 12, 0)
  {
  }

  /** Row: the same mixed bid filled with 9.6 cash. */
  lemma MixedBidFilledWithCash()
    ensures Row(Bid, 12, 0, 24, 4_800_000_000_000_000_000, 0, 9_600_000_000_000_000_000, 12, 24)
  {
  }

  /** Row: a cash bid for 24 filled with 12 YES shares and 4.8 cash. */
  lemma CashBidFilledWithMixed()
    ensures Row(Bid, 0, 12, 24, 0, 7_200_000_000_000_000_000, 4_800_000_000_000_000_000, 24, 12)
  {
  }

  /** Row: a bid for 24 escrowed with 24 NO shares filled with 12 YES shares and 4.8 cash. */
  lemma NoBidFilledWithMixed()
    ensures Row(Bid, 24, 12, 24, 9_551_520_000_000_000_000, 7_127_280_000_000_000_000, 4_800_000_000_000_000_000, 0, 12)
  {
  }

  /** Row: a bid for 24 escrowed with 12 NO shares and 7.2 cash filled with 12 YES shares and 4.8 cash. */
  lemma MixedBidFilledWithMixed()
    ensures Row(Bid, 12, 12, 24, 4_751_520_000_000_000_000, 7_127_280_000_000_000_000, 4_800_000_000_000_000_000, 12, 12)
  {
  }

  /** Row: an ask for 12 escrowed with 12 YES shares filled with 7.2 cash. */
  lemma AskYesFilledWithCash()
    ensures Row(Ask, 12, 0, 12, 7_200_000_000_000_000_000, 0, 7_200_000_000_000_000_000, 0, 12)
  {
  }

  /** Row: a cash ask for 12 filled with 7.2 cash: 12 complete sets bought. */
  lemma AskCashFilledWithCash()
    ensures Row(Ask, 0, 0, 12, 0, 0, 7_200_000_000_000_000_000, 12, 12)
  {
  }

  /** Row: an ask for 12 escrowed with 12 YES shares filled with 12 NO shares: a complete set sale, fee borne 0.6 : 0.4. */
  lemma AskYesFilledWithNo()
    ensures Row(Ask, 12, 12, 12, 7_127_280_000_000_000_000, 4_751_520_000_000_000_000, 0, 0, 0)
  {
  }

  /** Row: a cash ask for 12 filled with 12 NO shares: the maker's escrow pays the filler 4.8. */
  lemma AskCashFilledWithNo()
    ensures Row(Ask, 0, 12, 12, 0, 4_800_000_000_000_000_000, 0, 12, 0)
  {
  }

  /** Taking a cash bid for 2 at 0.6 with cash: the maker's escrow pays
      2 * 0.6 and the taker 2 * 0.4 for two complete sets, with no fee. */
  lemma TakeCashBid()
    ensures var f := Settle(TestMarket, Bid, PRICE, 0, 0, 2);
      f.legs == Legs(0, 0, 0, 2) && f.escrowUsed == 1_200_000_000_000_000_000 &&
      f.fillerPays == 800_000_000_000_000_000 && f.makerReceives == 0 && f.fillerReceives == 0 &&
      f.creatorFee == 0 && f.reportingFee == 0
  {
  }

  /** The ask mirror: the maker's escrow pays 2 * 0.4 and the taker 2 * 0.6. */
  lemma TakeCashAsk()
    ensures var f := Settle(TestMarket, Ask, PRICE, 0, 0, 2);
      f.legs == Legs(0, 0, 0, 2) && f.escrowUsed == 800_000_000_000_000_000 &&
      f.fillerPays == 1_200_000_000_000_000_000 && f.makerReceives == 0 && f.fillerReceives == 0
  {
  }

  /** On a scalar market of 40 * 10^18 ticks the taker of the same bid pays
      2 * (40 - 0.6): the cost is taken against the market's own numTicks. */
  lemma TakeCashBidScalar()
    ensures var f := Settle(Market(1, 2, 40 * ONE, 100, 10000), Bid, PRICE, 0, 0, 2);
      f.escrowUsed == 1_200_000_000_000_000_000 && f.fillerPays == 78_800_000_000_000_000_000 &&
      f.makerReceives == 0 && f.fillerReceives == 0
  {
  }
}
