// Claiming proceeds: once a market is finalized and the waiting period is
// over, a holder's shares of every outcome are burned and paid out at the
// finalized payout, less the creator and reporting fees.

module ClaimProceeds {
  import opened Wrappers
  import opened Settlement
  import opened Ledger

  /** What the finalization of a market hands to the core: whether it is
      finalized, when, and the payout numerator of every outcome (they sum
      to numTicks). */
  datatype Resolution = Resolution(finalized: bool, finalizationTime: nat, payoutNumerators: seq<nat>)

  /** The wait after finalization before proceeds can be claimed: 3 days,
      in seconds. */
  const WAITING_PERIOD: nat := 3 * 24 * 60 * 60

  /** The payout numerator of an outcome; an outcome the resolution does
      not list pays nothing. */
  function Numerator(res: Resolution, outcome: nat): nat
  {
    if outcome < |res.payoutNumerators| then res.payoutNumerators[outcome] else 0
  }

  /** The finalized value of `amount` shares of an outcome. */
  function CalculateProceeds(res: Resolution, outcome: nat, amount: nat): (r: nat)
    ensures Numerator(res, outcome) == 0 ==> r == 0
    ensures amount > 0 && Numerator(res, outcome) > 0 ==> r >= amount
  {
    amount * Numerator(res, outcome)
  }

  /** The creator's fee on a payout. */
  function CalculateCreatorFee(m: Market, amount: nat): (r: nat)
    requires WellFormed(m)
    ensures r * m.creatorFeeDivisor <= amount < (r + 1) * m.creatorFeeDivisor
  {
    FeesRoundDown(m, amount);
    CreatorFee(m, amount)
  }

  /** The reporting fee on a payout. */
  function CalculateReportingFee(m: Market, amount: nat): (r: nat)
    requires WellFormed(m)
    ensures r * m.reportingFeeDivisor <= amount < (r + 1) * m.reportingFeeDivisor
  {
    FeesRoundDown(m, amount);
    ReportingFee(m, amount)
  }

  /** How the value of some shares is shared out. */
  datatype Winnings = Winnings(proceeds: nat, shareholderShare: nat, creatorShare: nat, reporterShare: nat)

  /** The value of `amount` shares of an outcome, split into the creator's
      fee, the reporting fee and what is left for the shareholder. */
  function DivideUpWinnings(m: Market, res: Resolution, outcome: nat, amount: nat): (w: Winnings)
    requires WellFormed(m)
    ensures w.proceeds == CalculateProceeds(res, outcome, amount)
    ensures w.creatorShare == CalculateCreatorFee(m, w.proceeds)
    ensures w.reporterShare == CalculateReportingFee(m, w.proceeds)
    ensures w.shareholderShare + w.creatorShare + w.reporterShare == w.proceeds
  {
    var proceeds := CalculateProceeds(res, outcome, amount);
    FeesWithinValue(m, proceeds);
    var creatorShare := CalculateCreatorFee(m, proceeds);
    var reporterShare := CalculateReportingFee(m, proceeds);
    Winnings(proceeds, proceeds - creatorShare - reporterShare, creatorShare, reporterShare)
  }

  /** Burns the holder's shares of one outcome and pays them out: the
      holder gets the shareholder's share, the fees are accrued, and the
      market's cash and open interest drop by the proceeds. */
  function Redeem(m: Market, res: Resolution, s: State, holder: nat, outcome: nat): (r: Result<State, Error>)
    requires WellFormed(m) && outcome < m.numOutcomes
    ensures r.Ok? ==> r.value.orders == s.orders && r.value.books == s.books
  {
    PayOut(m, s, holder, outcome, DivideUpWinnings(m, res, outcome, Holdings(m, s, holder)[outcome]))
  }

  /** Burns the holder's shares of one outcome, whose value is shared out
      as w. */
  function PayOut(m: Market, s: State, holder: nat, outcome: nat, w: Winnings): (r: Result<State, Error>)
    requires outcome < m.numOutcomes
    ensures r.Ok? ==> r.value.orders == s.orders && r.value.books == s.books
  {
    var v := Holdings(m, s, holder);
    if s.marketCash < w.proceeds then Err(MarketCashShort)
    else if s.openInterest < w.proceeds then Err(OpenInterestShort)
    else
      var s1 := SetHoldings(s, holder, v[outcome := 0]);
      var s2 := SetCash(s1, holder, Cash(s1, holder) + w.shareholderShare);
      Ok(s2.(marketCash := s.marketCash - w.proceeds,
             openInterest := s.openInterest - w.proceeds,
             creatorFees := s.creatorFees + w.creatorShare,
             reportingFees := s.reportingFees + w.reporterShare))
  }

  /** The value of the balances v[from..] at the finalized payout. */
  function TotalProceeds(res: Resolution, v: seq<nat>, from: nat): nat
    decreases |v| - from
  {
    if from >= |v| then 0 else CalculateProceeds(res, from, v[from]) + TotalProceeds(res, v, from + 1)
  }

  /** What the holder of the balances v[from..] is paid after fees. */
  function TotalPayout(m: Market, res: Resolution, v: seq<nat>, from: nat): nat
    requires WellFormed(m)
    decreases |v| - from
  {
    if from >= |v| then 0
    else DivideUpWinnings(m, res, from, v[from]).shareholderShare + TotalPayout(m, res, v, from + 1)
  }

  /** Redeems the holder's shares of the outcomes from `from` on, one
      outcome after the other. Every balance from `from` on is zero
      afterwards and the earlier ones are untouched; the holder is paid the
      payout after fees, open interest drops by the value redeemed, and the
      cash that leaves the market is exactly what the holder and the fees
      receive. Nobody else's balances change. */
  function RedeemFrom(m: Market, res: Resolution, s: State, holder: nat, from: nat): (r: Result<State, Error>)
    requires WellFormed(m) && from <= m.numOutcomes
    ensures r.Ok? ==>
      var s', v := r.value, Holdings(m, s, holder);
      s'.orders == s.orders && s'.books == s.books &&
      (forall j :: from <= j < m.numOutcomes ==> Holdings(m, s', holder)[j] == 0) &&
      (forall j :: 0 <= j < from ==> Holdings(m, s', holder)[j] == v[j]) &&
      Cash(s', holder) == Cash(s, holder) + TotalPayout(m, res, v, from) &&
      s'.openInterest + TotalProceeds(res, v, from) == s.openInterest &&
      s'.marketCash + TotalProceeds(res, v, from) == s.marketCash &&
      s'.marketCash + Cash(s', holder) + s'.creatorFees + s'.reportingFees ==
        s.marketCash + Cash(s, holder) + s.creatorFees + s.reportingFees &&
      (forall a :: a != holder ==> Cash(s', a) == Cash(s, a) && Holdings(m, s', a) == Holdings(m, s, a))
    decreases m.numOutcomes - from
  {
    if from == m.numOutcomes then Ok(s)
    else
      match Redeem(m, res, s, holder, from)
      case Err(e) => Err(e)
      case Ok(s1) =>
        var r := RedeemFrom(m, res, s1, holder, from + 1);
        if r.Err? then r
        else
          RedeemStep(m, res, s, s1, holder, from);
          r
  }

  /** RedeemFrom unrolled once: the first outcome is redeemed, then the
      rest, and the first failure is the result. */
  lemma RedeemFromUnrolled(m: Market, res: Resolution, s: State, holder: nat, from: nat)
    requires WellFormed(m) && from < m.numOutcomes
    ensures var r := Redeem(m, res, s, holder, from);
      RedeemFrom(m, res, s, holder, from) == if r.Ok? then RedeemFrom(m, res, r.value, holder, from + 1) else Err(r.error)
  {
  }

  /** One outcome redeemed: its balance is zero, the others are as they
      were, and the totals from the next outcome on are unchanged. */
  lemma RedeemStep(m: Market, res: Resolution, s: State, s1: State, holder: nat, outcome: nat)
    requires WellFormed(m) && outcome < m.numOutcomes && Redeem(m, res, s, holder, outcome) == Ok(s1)
    ensures var v, v1 := Holdings(m, s, holder), Holdings(m, s1, holder);
      var w := DivideUpWinnings(m, res, outcome, v[outcome]);
      v1 == v[outcome := 0] &&
      TotalPayout(m, res, v1, outcome + 1) == TotalPayout(m, res, v, outcome + 1) &&
      TotalProceeds(res, v1, outcome + 1) == TotalProceeds(res, v, outcome + 1) &&
      Cash(s1, holder) == Cash(s, holder) + w.shareholderShare &&
      s1.openInterest + w.proceeds == s.openInterest && s1.marketCash + w.proceeds == s.marketCash &&
      (forall a :: a != holder ==> Cash(s1, a) == Cash(s, a) && Holdings(m, s1, a) == Holdings(m, s, a))
  {
    var v := Holdings(m, s, holder);
    TotalsIgnoreEarlier(m, res, v, v[outcome := 0], outcome + 1);
  }

  /** The totals from `from` on read only the balances from `from` on. */
  lemma {:induction false} TotalsIgnoreEarlier(m: Market, res: Resolution, v: seq<nat>, w: seq<nat>, from: nat)
    requires WellFormed(m) && |v| == |w| && forall j :: from <= j < |v| ==> v[j] == w[j]
    ensures TotalProceeds(res, v, from) == TotalProceeds(res, w, from)
    ensures TotalPayout(m, res, v, from) == TotalPayout(m, res, w, from)
    decreases |v| - from
  {
    if from < |v| {
      TotalsIgnoreEarlier(m, res, v, w, from + 1);
    }
  }

  /** claimProceeds: only for a finalized market, and only once the
      waiting period after finalization is over; then every outcome's
      balance of the sender is redeemed. */
  function Claim(m: Market, res: Resolution, s: State, market: nat, sender: nat, now: nat): (r: Result<State, Error>)
    requires WellFormed(m)
    ensures market != m.address ==> r == Err(InvalidMarket)
    ensures market == m.address && !res.finalized ==> r == Err(MarketNotFinalized)
    ensures market == m.address && res.finalized && now <= res.finalizationTime + WAITING_PERIOD ==>
      r == Err(WaitingPeriodNotOver)
    ensures r.Ok? ==>
      var s', v := r.value, Holdings(m, s, sender);
      s'.orders == s.orders && s'.books == s.books &&
      (forall j :: 0 <= j < m.numOutcomes ==> Holdings(m, s', sender)[j] == 0) &&
      Cash(s', sender) == Cash(s, sender) + TotalPayout(m, res, v, 0) &&
      s'.openInterest + TotalProceeds(res, v, 0) == s.openInterest &&
      s'.marketCash + TotalProceeds(res, v, 0) == s.marketCash &&
      s'.marketCash + Cash(s', sender) + s'.creatorFees + s'.reportingFees ==
        s.marketCash + Cash(s, sender) + s.creatorFees + s.reportingFees &&
      (forall a :: a != sender ==> Cash(s', a) == Cash(s, a) && Holdings(m, s', a) == Holdings(m, s, a))
  {
    if market != m.address then Err(InvalidMarket)
    else if !res.finalized then Err(MarketNotFinalized)
    else if now <= res.finalizationTime + WAITING_PERIOD then Err(WaitingPeriodNotOver)
    else RedeemFrom(m, res, s, sender, 0)
  }

  /** Only the gates and the market's own cash and open interest can make a
      claim fail: past the gates, with enough of both, it succeeds. */
  lemma {:induction false} ClaimSucceeds(m: Market, res: Resolution, s: State, sender: nat, from: nat)
    requires WellFormed(m) && from <= m.numOutcomes
    requires var v := Holdings(m, s, sender);
      TotalProceeds(res, v, from) <= s.marketCash && TotalProceeds(res, v, from) <= s.openInterest
    ensures RedeemFrom(m, res, s, sender, from).Ok?
    decreases m.numOutcomes - from
  {
    if from < m.numOutcomes {
      var v := Holdings(m, s, sender);
      var s1 := Redeem(m, res, s, sender, from).value;
      RedeemStep(m, res, s, s1, sender, from);
      ClaimSucceeds(m, res, s1, sender, from + 1);
    }
  }

  /** A second claim pays nothing: the first one left no shares behind. */
  lemma ClaimTwicePaysNothing(m: Market, res: Resolution, s: State, market: nat, sender: nat, now: nat)
    requires WellFormed(m) && Claim(m, res, s, market, sender, now).Ok?
    ensures var s1 := Claim(m, res, s, market, sender, now).value;
      var r2 := Claim(m, res, s1, market, sender, now);
      r2.Ok? && Cash(r2.value, sender) == Cash(s1, sender) && r2.value.openInterest == s1.openInterest
  {
    var s1 := Claim(m, res, s, market, sender, now).value;
    var v1 := Holdings(m, s1, sender);
    NothingToRedeem(m, res, v1, 0);
    ClaimSucceeds(m, res, s1, sender, 0);
  }

  /** Zero balances have no value and pay nothing. */
  lemma {:induction false} NothingToRedeem(m: Market, res: Resolution, v: seq<nat>, from: nat)
    requires WellFormed(m) && forall j :: from <= j < |v| ==> v[j] == 0
    ensures TotalProceeds(res, v, from) == 0 && TotalPayout(m, res, v, from) == 0
    decreases |v| - from
  {
    if from < |v| {
      NothingToRedeem(m, res, v, from + 1);
    }
  }

  /** The sum of the payout numerators from `from` on. */
  function NumeratorSum(res: Resolution, n: nat, from: nat): nat
    decreases n - from
  {
    if from >= n then 0 else Numerator(res, from) + NumeratorSum(res, n, from + 1)
  }

  /** k complete sets are worth k times the sum of the payout numerators,
      that is k * numTicks for a resolution whose numerators sum to it. */
  lemma {:induction false} CompleteSetsRedeemAtPar(res: Resolution, v: seq<nat>, k: nat, from: nat)
    requires forall j :: 0 <= j < |v| ==> v[j] == k
    ensures TotalProceeds(res, v, from) == k * NumeratorSum(res, |v|, from)
    decreases |v| - from
  {
    if from < |v| {
      CompleteSetsRedeemAtPar(res, v, k, from + 1);
      assert k * (Numerator(res, from) + NumeratorSum(res, |v|, from + 1)) ==
             k * Numerator(res, from) + k * NumeratorSum(res, |v|, from + 1);
    }
  }

  /** The payout after fees never exceeds the value redeemed. */
  lemma {:induction false} PayoutWithinProceeds(m: Market, res: Resolution, v: seq<nat>, from: nat)
    requires WellFormed(m)
    ensures TotalPayout(m, res, v, from) <= TotalProceeds(res, v, from)
    decreases |v| - from
  {
    if from < |v| {
      PayoutWithinProceeds(m, res, v, from + 1);
    }
  }

  /** Paying out one outcome moves its proceeds out of the market: the
      holder's share into its cash, the rest into the fee pots, and the
      collateral off the open interest. No cash is created or destroyed and
      the market's reserve is kept. */
  lemma PayOutAccounts(m: Market, s: State, holder: nat, outcome: nat, w: Winnings)
    requires outcome < m.numOutcomes && PayOut(m, s, holder, outcome, w).Ok?
    requires w.shareholderShare + w.creatorShare + w.reporterShare == w.proceeds
    ensures var s' := PayOut(m, s, holder, outcome, w).value;
      Reserve(s') == Reserve(s) && Money(s') == Money(s)
  {
    var s1 := SetHoldings(s, holder, Holdings(m, s, holder)[outcome := 0]);
    SetCashTotal(s1, holder, Cash(s1, holder) + w.shareholderShare);
  }

  lemma {:induction false} RedeemFromAccounts(m: Market, res: Resolution, s: State, holder: nat, from: nat)
    requires WellFormed(m) && from <= m.numOutcomes && RedeemFrom(m, res, s, holder, from).Ok?
    ensures var s' := RedeemFrom(m, res, s, holder, from).value;
      Reserve(s') == Reserve(s) && Money(s') == Money(s)
    decreases m.numOutcomes - from
  {
    if from < m.numOutcomes {
      RedeemFromUnrolled(m, res, s, holder, from);
      var w := DivideUpWinnings(m, res, from, Holdings(m, s, holder)[from]);
      var r := Redeem(m, res, s, holder, from);
      PayOutAccounts(m, s, holder, from, w);
      RedeemFromAccounts(m, res, r.value, holder, from + 1);
    }
  }

  /** A claim creates and destroys no cash and keeps the market's reserve. */
  lemma ClaimAccounts(m: Market, res: Resolution, s: State, market: nat, sender: nat, now: nat)
    requires WellFormed(m) && Claim(m, res, s, market, sender, now).Ok?
    ensures var s' := Claim(m, res, s, market, sender, now).value;
      Reserve(s') == Reserve(s) && Money(s') == Money(s)
  {
    RedeemFromAccounts(m, res, s, sender, 0);
  }
}
