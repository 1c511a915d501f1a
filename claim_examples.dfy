// The redemption scenarios of the claim tests, worked out on concrete
// markets: a 1% creator fee and a 0.01% reporting fee, one trader holding
// the winning side and one holding the other side of one complete set.

module ClaimExamples {
  import opened Wrappers
  import opened Settlement
  import opened Ledger
  import opened ClaimProceeds

  const ONE: nat := 1_000_000_000_000_000_000

  /** A market with `n` outcomes and `numTicks` ticks. */
  function TestMarket(n: nat, numTicks: nat): Market
  {
    Market(1, n, numTicks, 100, 10000)
  }

  /** Finalized at time 0; claims are open from WAITING_PERIOD + 1 on. */
  function Finalized(numerators: seq<nat>): Resolution
  {
    Resolution(true, 0, numerators)
  }

  /** Trader 1 holds `long`, trader 2 holds `short`; both bought one complete
      set, so the market holds 2 * numTicks and open interest is as much. */
  function TwoHolders(numTicks: nat, long: seq<nat>, short: seq<nat>): State
  {
    State(map[], map[], map[], map[1 := long, 2 := short], 2 * numTicks, 2 * numTicks, 0, 0)
  }

  /** The fee helpers on a scalar market of 40 * 10^18 ticks: 3 shares' worth
      pays 0.03 to the creator, 5 shares' worth pays 0.0005 in reporting fees;
      7 winning shares are worth 7 * numTicks, 11 losing ones nothing. */
  lemma Helpers()
    ensures var m := TestMarket(2, 40 * ONE);
      var res := Finalized([0, 40 * ONE]);
      CalculateCreatorFee(m, 3 * ONE) == 30_000_000_000_000_000 &&
      CalculateReportingFee(m, 5 * ONE) == 500_000_000_000_000 &&
      CalculateProceeds(res, 1, 7) == 7 * m.numTicks &&
      CalculateProceeds(res, 0, 11 * ONE) == 0
  {
  }

  /** 13 winning shares: proceeds 13 * numTicks, of which 1% to the creator,
      0.01% to reporting and 98.99% to the shareholder. */
  lemma DivideUpThirteen()
    ensures DivideUpWinnings(TestMarket(2, 40 * ONE), Finalized([0, 40 * ONE]), 1, 13) ==
      Winnings(520 * ONE, 514_748_000_000_000_000_000, 5_200_000_000_000_000_000, 52_000_000_000_000_000)
  {
  }

  /** Claims are refused before finalization and until the waiting period is
      over, and accepted one second after it. */
  lemma Gates()
    ensures var m := TestMarket(2, ONE);
      var s := TwoHolders(ONE, [0, 1], [1, 0]);
      Claim(m, Resolution(false, 0, [0, ONE]), s, 1, 1, 2 * WAITING_PERIOD) == Err(MarketNotFinalized) &&
      Claim(m, Finalized([0, ONE]), s, 1, 1, WAITING_PERIOD) == Err(WaitingPeriodNotOver) &&
      Claim(m, Finalized([0, ONE]), s, 1, 1, WAITING_PERIOD + 1).Ok?
  {
    ClaimSucceeds(TestMarket(2, ONE), Finalized([0, ONE]), TwoHolders(ONE, [0, 1], [1, 0]), 1, 0);
  }

  /** The YES holder of a binary market claims first: it is paid numTicks
      less 1.01% in fees and has no shares left; the NO holder's balances and
      the NO share's value stay in the market. */
  lemma BinaryFirstClaim()
    ensures var m := TestMarket(2, ONE);
      var r1 := Claim(m, Finalized([0, ONE]), TwoHolders(ONE, [0, 1], [1, 0]), 1, 1, WAITING_PERIOD + 1);
      r1.Ok? &&
      Cash(r1.value, 1) == 989_900_000_000_000_000 && Cash(r1.value, 2) == 0 &&
      Holdings(m, r1.value, 1) == [0, 0] && Holdings(m, r1.value, 2) == [1, 0] &&
      r1.value.openInterest == ONE && r1.value.marketCash == ONE
  {
    var m, res, s := TestMarket(2, ONE), Finalized([0, ONE]), TwoHolders(ONE, [0, 1], [1, 0]);
    TwoOutcomeTotals(m, res, [0, 1]);
    assert DivideUpWinnings(m, res, 1, 1).shareholderShare == 989_900_000_000_000_000;
    ClaimSucceeds(m, res, s, 1, 0);
  }

  /** Then the NO holder claims: it is paid nothing, both end with no
      shares, and open interest keeps the one YES share still outstanding. */
  lemma BinaryRedemption()
    ensures var m := TestMarket(2, ONE);
      var res := Finalized([0, ONE]);
      var now := WAITING_PERIOD + 1;
      var r1 := Claim(m, res, TwoHolders(ONE, [0, 1], [1, 0]), 1, 1, now);
      r1.Ok? &&
      var r2 := Claim(m, res, r1.value, 1, 2, now);
      r2.Ok? &&
      Cash(r2.value, 1) == 989_900_000_000_000_000 && Cash(r2.value, 2) == 0 &&
      Holdings(m, r2.value, 1) == [0, 0] && Holdings(m, r2.value, 2) == [0, 0] &&
      r2.value.openInterest == ONE
  {
    var m, res := TestMarket(2, ONE), Finalized([0, ONE]);
    BinaryFirstClaim();
    var s1 := Claim(m, res, TwoHolders(ONE, [0, 1], [1, 0]), 1, 1, WAITING_PERIOD + 1).value;
    TwoOutcomeTotals(m, res, [1, 0]);
    ClaimSucceeds(m, res, s1, 2, 0);
  }

  /** The long holder of a scalar market resolved at a quarter of its range
      claims first: it is paid 3/4 of numTicks less 1.01% in fees, and the
      short holder's share is still outstanding. */
  lemma ScalarFirstClaim()
    ensures var m := TestMarket(2, 40 * ONE);
      var r1 := Claim(m, Finalized([10 * ONE, 30 * ONE]), TwoHolders(40 * ONE, [0, 1], [1, 0]), 1, 1, WAITING_PERIOD + 1);
      r1.Ok? &&
      Cash(r1.value, 1) == 29_697_000_000_000_000_000 && Cash(r1.value, 2) == 0 &&
      Holdings(m, r1.value, 2) == [1, 0] &&
      r1.value.openInterest == 50 * ONE && r1.value.marketCash == 50 * ONE
  {
    var m, res, s := TestMarket(2, 40 * ONE), Finalized([10 * ONE, 30 * ONE]), TwoHolders(40 * ONE, [0, 1], [1, 0]);
    TwoOutcomeTotals(m, res, [0, 1]);
    assert DivideUpWinnings(m, res, 1, 1).shareholderShare == 29_697_000_000_000_000_000;
    ClaimSucceeds(m, res, s, 1, 0);
  }

  /** Then the short holder claims: it is paid 1/4 of numTicks less 1.01%,
      and open interest stands at one complete set's worth. */
  lemma ScalarRedemption()
    ensures var m := TestMarket(2, 40 * ONE);
      var res := Finalized([10 * ONE, 30 * ONE]);
      var now := WAITING_PERIOD + 1;
      var r1 := Claim(m, res, TwoHolders(40 * ONE, [0, 1], [1, 0]), 1, 1, now);
      r1.Ok? &&
      var r2 := Claim(m, res, r1.value, 1, 2, now);
      r2.Ok? &&
      Cash(r2.value, 1) == 29_697_000_000_000_000_000 && Cash(r2.value, 2) == 9_899_000_000_000_000_000 &&
      r2.value.openInterest == 40 * ONE
  {
    var m, res := TestMarket(2, 40 * ONE), Finalized([10 * ONE, 30 * ONE]);
    ScalarFirstClaim();
    var s1 := Claim(m, res, TwoHolders(40 * ONE, [0, 1], [1, 0]), 1, 1, WAITING_PERIOD + 1).value;
    TwoOutcomeTotals(m, res, [1, 0]);
    assert DivideUpWinnings(m, res, 0, 1).shareholderShare == 9_899_000_000_000_000_000;
    ClaimSucceeds(m, res, s1, 2, 0);
  }

  /** The totals of a two-outcome balance vector, written out. */
  lemma TwoOutcomeTotals(m: Market, res: Resolution, v: seq<nat>)
    requires WellFormed(m) && |v| == 2
    ensures TotalProceeds(res, v, 0) == CalculateProceeds(res, 0, v[0]) + CalculateProceeds(res, 1, v[1])
    ensures TotalPayout(m, res, v, 0) ==
      DivideUpWinnings(m, res, 0, v[0]).shareholderShare + DivideUpWinnings(m, res, 1, v[1]).shareholderShare
  {
    assert TotalProceeds(res, v, 2) == 0 && TotalPayout(m, res, v, 2) == 0;
  }
}
