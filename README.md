# Augur-core trading and settlement, modelled in Dafny

This project models the trading core of Augur-core, a prediction-market exchange. The core is pinned down by its Python test suite and two small helper libraries.

- **The sorted linked list of uint256 values** that the contracts use. The largest value is the head. Values are added with optional position hints and removed by value. Walking `getPrev` from the head strictly decreases, and walking `getNext` from the tail strictly increases.
- **The order lifecycle.**
  - `publicMakeOrder` escrows cash and/or shares. It files an order record whose id is the hash of its fields.
  - `publicCancelOrder` is for the owner only. It refunds the escrow in full and zeroes the record.
- **Matching.**
  - `publicTakeOrder` / `publicFillOrder` settle against one named order.
  - `publicFillBestOrder` walks the opposite side's book from the best order up to a limit price. Orders at equal prices fill first come, first served.
  - `publicTrade` / `publicBuy` / `publicSell` do the same and leave any remainder as a new resting order at the taker's limit.
- **Settlement arithmetic.**
  - A fill splits into four legs: maker's shares or cash × filler's shares or cash.
  - When both sides put up shares, a complete set is sold back. Only then are the creator fee (1%) and the reporting fee (0.01%) charged. They are borne in proportion to price and numTicks − price.
  - When both sides put up cash, a complete set is bought.
- **Claiming proceeds.**
  - The fee helpers, and `divideUpWinnings`.
  - `claimProceeds` is open only for a finalized market, and only once a 3-day waiting period is over. It burns the holder's shares of every outcome and pays them out at the payout numerators.
- **The test utilities and the hex-padding helper.**
  - `fix`, `unfix`, `longToHexString`, `bytesToLong` and `bytesToHexString` (tests/utils.py).
  - `padAndHexlify` and `stringTo32ByteHex` (source/libraries/HelperFunctions.ts).

## How the model is laid out

Costs are `amount * price` in the market's own ticks. A bid costs `price` per share and an ask `numTicks - price`. numTicks is a parameter of the market. The tests use 10000 (test_trade.py), 10^18 (test_wcl.py, test_takeOrder.py) and 40 * 10^18 (scalar markets). test_makeOrder.py divides the product by 10^18; its scenarios appear in `TradingExamples` at a coarser unit.

| file | module | what it holds |
|---|---|---|
| wrappers.dfy | Wrappers | `Option`, `Result` |
| settlement.dfy | Settlement | markets, unit costs, fees, the share-for-share split, the four settlement legs (`Settle`) |
| ledger.dfy | Ledger | the state (order table, books, balances, market cash, open interest, fees), positions, book ordering, the invariant `Good`: every order escrowed exactly and filed in its sorted book |
| order_lifecycle.dfy | OrderLifecycle | make, cancel, refund, complete-set purchase, the internal entry points |
| matching.dfy | Matching | the fill of one order (`Fill`), the best-order walk (`FillBest`), `Trade` |
| claim_proceeds.dfy | ClaimProceeds | fee helpers, `DivideUpWinnings`, redemption and `Claim` |
| exchange.dfy | Exchange | class `Exchange`: the contracts' storage as fields, the entry points as methods that update them in place and are proved against the functions above |
| sorted_linked_list.dfy | SortedList | class `SortedLinkedList` over `next`/`prev` maps with the ghost ascending sequence `Contents` |
| hex.dfy, helper_functions.dfy, test_utils.dfy | Hex, HelperFunctions, TestUtils | hex encoding, `padAndHexlify`, `fix`/`unfix` and the conversions |
| *_examples.dfy | …Examples | the tests' concrete scenarios, worked out on the model |

Every `Exchange.Exchange` method that changes state has the same contract shape. Let `spec` be the specification function applied to the old state. When `spec` succeeds, the method returns its result and the new state is the state `spec` computes. When `spec` fails, the method returns the same error and the state is unchanged, as a reverted transaction leaves it.

## Model

| member | source | states |
|---|---|---|
| Settlement.UnitCost | tests/trading/test_trade.py:41-51 | a bid's cost per share is its price; a bid's and an ask's unit costs sum to numTicks |
| Settlement.CostsComplement | tests/trading/test_takeOrder.py:28-57 | the maker's and the taker's cost per share of the same order add up to numTicks |
| Settlement.FeesRoundDown | tests/trading/test_claimProceeds.py:67-68 | the creator and reporting fees are the value divided by their divisors, rounded down |
| Settlement.FeesWithinValue | tests/trading/test_wcl.py:21 | the two fees together never exceed the value they are charged on |
| Settlement.ShareSale | tests/trading/test_wcl.py:43-50 | selling back complete sets: the two payouts plus both fees are exactly sets * numTicks, and the fees are the creator and reporting fees of that value |
| Settlement.ShareSaleProportional | tests/trading/test_wcl.py:43-50 | the after-fee value is split price : (numTicks − price): the long side gets the rounded-down share, the short side at least its share |
| Settlement.ExactShareSale | tests/trading/test_wcl.py:43-50 | where the split divides evenly, each side bears the fee exactly in proportion to price and numTicks − price |
| Settlement.SplitLegs | tests/trading/test_wcl.py:315-345 | the four legs partition the fill: the maker's shares and cash, and the filler's shares and cash, each add up to the fill |
| Settlement.SaleToParties | tests/trading/test_trade.py:527-531 | what the maker and the filler receive from a share-for-share sale plus the fees is sets * numTicks |
| Settlement.Settle | tests/trading/test_wcl.py:318-345 | the maker's escrow used and the filler's payment are the uncovered amounts times their unit costs; no value is created (cash in plus sets sold equals payouts plus fees plus sets bought); fees arise only from the share-for-share leg |
| Settlement.CashForCashBuysSets | tests/trading/test_wcl.py:132-157 | cash against cash buys complete sets: no payouts, no fees, and the two payments are amount * numTicks |
| Settlement.SharesForCashIsFeeFree | tests/trading/test_wcl.py:83-88 | shares against cash is fee-free: the maker receives exactly what the filler pays |
| SettlementExamples.TwelveSetSale | tests/trading/test_wcl.py:12-54 | the fee on 12 sets is 12*0.01 + 12*0.0001, and the after-fee value splits into 7.12728 and 4.75152 |
| SettlementExamples.BidCashFilledWithYes | tests/trading/test_wcl.py:318 | the table row's cash payouts and share movements |
| SettlementExamples.BidNoFilledWithYes | tests/trading/test_wcl.py:319 | the table row: 4.75152 to the maker, 7.12728 to the filler |
| SettlementExamples.BidCashFilledWithCash | tests/trading/test_wcl.py:320 | the table row: 12 complete sets bought |
| SettlementExamples.BidNoFilledWithCash | tests/trading/test_wcl.py:321 | the table row: the maker receives 4.8 for its NO shares |
| SettlementExamples.MixedBidFilledWithYes | tests/trading/test_wcl.py:323 | the table row: fees only on the share half; maker 4.75152, filler 14.32728 |
| SettlementExamples.MixedBidFilledWithCash | tests/trading/test_wcl.py:324 | the table row |
| SettlementExamples.CashBidFilledWithMixed | tests/trading/test_wcl.py:325 | the table row |
| SettlementExamples.NoBidFilledWithMixed | tests/trading/test_wcl.py:326 | the table row: maker 9.55152, filler 7.12728 |
| SettlementExamples.MixedBidFilledWithMixed | tests/trading/test_wcl.py:328 | the table row |
| SettlementExamples.AskYesFilledWithCash | tests/trading/test_wcl.py:342 | the table row |
| SettlementExamples.AskCashFilledWithCash | tests/trading/test_wcl.py:343 | the table row |
| SettlementExamples.AskYesFilledWithNo | tests/trading/test_wcl.py:344 | the table row: maker 7.12728, filler 4.75152 |
| SettlementExamples.AskCashFilledWithNo | tests/trading/test_wcl.py:345 | the table row |
| SettlementExamples.TakeCashBid | tests/trading/test_takeOrder.py:8-59 | taking a cash bid for 2 at 0.6: the maker's escrow pays 1.2 and the taker 0.8 for two complete sets, with no fee |
| SettlementExamples.TakeCashAsk | tests/trading/test_takeOrder.py:61-112 | the ask mirror: the maker pays 0.8 and the taker 1.2 |
| SettlementExamples.TakeCashBidScalar | tests/trading/test_takeOrder.py:114-166 | on a 40-tick scalar market the taker pays 2 * (40 − 0.6) |
| Ledger.Available | tests/trading/test_makeOrder.py:182-210 | the shares usable for a position are the least balance among the outcomes it covers (one outcome when long, all the others when short) |
| Ledger.Take | tests/trading/test_makeOrder.py:203-210 | escrowing x shares of a position lowers exactly the balances of the outcomes it covers by x |
| Ledger.Give | tests/trading/test_trade.py:527-542 | receiving x shares of a position raises exactly the balances of the outcomes it covers by x |
| Ledger.GiveTake | tests/trading/test_cancelOrder.py:55-57 | giving back escrowed shares restores the balances |
| Ledger.GiveBothHalves | tests/trading/test_claimProceeds.py:88-95 | a long and a short position of the same outcome make a complete set: one more share of every outcome |
| Ledger.Insert | tests/trading/test_trade.py:177-208 | filing an order lengthens its book by one |
| Ledger.InsertContents | tests/trading/test_trade.py:177-208 | the book after filing holds the old orders plus the new one |
| Ledger.InsertPosition | tests/trading/test_trade.py:177-208 | a new order goes after every order at least as good and before every worse one, so equal prices are first come, first served |
| Ledger.InsertSorted | tests/trading/test_trade.py:177-208 | filing keeps a book sorted best first |
| Ledger.Without | tests/trading/test_cancelOrder.py:50-52 | taking an order off a book leaves exactly the other orders |
| Ledger.WithoutPresent | tests/trading/test_cancelOrder.py:50-52 | taking off a present order shortens the book |
| Ledger.WithoutAbsent | tests/trading/test_cancelOrder.py:121-122 | taking off an absent order changes nothing |
| Ledger.WithoutFront | tests/trading/test_trade.py:53-61 | taking off the best order leaves the rest of the book in order |
| Ledger.WithoutSorted | tests/trading/test_trade.py:53-61 | taking an order off keeps a book sorted |
| Ledger.SortedHeadBest | tests/trading/test_trade.py:449-476 | no order in a sorted book is better than its head |
| Ledger.InsertNoDup | tests/trading/test_makeOrder.py:162-166 | filing a new id keeps a book free of duplicates |
| Ledger.WithoutNoDup | tests/trading/test_cancelOrder.py:50-52 | taking an order off keeps a book free of duplicates |
| Ledger.WithoutInsert | tests/trading/test_cancelOrder.py:50-57 | taking off an order just filed gives back the book |
| Ledger.AddOrderKeepsGood | tests/trading/test_makeOrder.py:34-45 | filing an order whose escrow covers its amount keeps every order escrowed exactly and every book sorted |
| Ledger.RemoveOrderKeepsGood | tests/trading/test_cancelOrder.py:50-57 | deleting an order keeps the invariant |
| Ledger.UpdateOrderKeepsGood | tests/trading/test_trade.py:85-92 | rewriting an order in place with an exact escrow keeps the invariant |
| Ledger.RemoveUndoesAdd | tests/trading/test_cancelOrder.py:50-57 | deleting an order just filed gives back the order table and every book |
| Ledger.BookOfGood | tests/trading/test_trade.py:449-476 | under the invariant every book is sorted, duplicate-free and holds live orders of its outcome and side, and every live order of an outcome and side is in that book |
| Ledger.Good | tests/trading/test_trade.py:449-476 | the invariant: every live order is escrowed exactly, every book is sorted best price first, free of duplicates and holds only live orders of its outcome and side, and every live order is filed in the book of its outcome and side (`Ledger.Filed`) |
| Ledger.Filed | tests/trading/test_makeOrder.py:37-45 | every live order is an order hash and is in the book of its outcome and side |
| Ledger.AddOrderFiled | tests/trading/test_makeOrder.py:37-45 | filing an order keeps every live order in its book |
| Ledger.RemoveAfterAdd | tests/trading/test_cancelOrder.py:50-57 | deleting an order just filed under a fresh id gives back the order table and every book |
| Ledger.GetOrder | tests/trading/test_cancelOrder.py:50-52 | an unknown id reads as the all-zero record |
| Ledger.AloneHasNoNeighbours | tests/trading/test_makeOrder.py:43-45 | an order alone in its book has no better and no worse order |
| Ledger.EmptyAccounts | tests/trading/test_claimProceeds.py:88 | a new market holds nothing beyond escrow and open interest, and no cash exists yet |
| Ledger.NoOrdersNoEscrow | tests/trading/test_cancelOrder.py:50-57 | with no live orders nothing is escrowed |
| Ledger.EscrowWithinMarketCash | tests/trading/test_makeOrder.py:84-97 | when the market holds at least escrow plus open interest, each live order's escrowed cash is within the market's cash |
| Ledger.AvailableTake | tests/trading/test_makeOrder.py:182-200 | escrowing x shares of a position lowers the shares usable for it by exactly x |
| Ledger.EscrowMoved | tests/trading/test_makeOrder.py:84-97 | moving d from the traders into escrow, with the market's cash rising by d, keeps the reserve and all cash |
| Ledger.EscrowReleased | tests/trading/test_cancelOrder.py:53-57 | releasing d of escrow back to the traders, with the market's cash falling by d, keeps the reserve and all cash |
| OrderLifecycle.DecodeOrderType | tests/trading/test_makeOrder.py:133-134 | codes 1 and 2, and only they, are order types (1 = BID, 2 = ASK); anything else is InvalidOrderType |
| OrderLifecycle.Create | tests/trading/test_makeOrder.py:68-166 | makeOrder: a wrong market, an outcome out of range, a price outside (0, numTicks), a zero amount, cash short of the escrow and an id already live each fail with their own error; otherwise the order is filed and its escrow taken. What it promises is stated by `CreateErrors`, `CreatePlaces`, `CreateAccounts` and `CreateKeepsGood` |
| OrderLifecycle.EscrowFor | tests/trading/test_makeOrder.py:182-210 | a maker escrows as many shares as it holds of the position, up to the amount, and cash for the rest at its unit cost |
| OrderLifecycle.PublicCreate | tests/trading/test_makeOrder.py:133-134 | the public entry point rejects an unknown type code and otherwise makes a BID or an ASK |
| OrderLifecycle.InternalCreate | tests/trading/test_makeOrder.py:125-130 | makeOrder, placeBid and placeAsk reject a caller that is not whitelisted |
| OrderLifecycle.CreateErrors | tests/trading/test_makeOrder.py:114-166 | making an order fails, each with its own error: wrong market, bad outcome, price outside (0, numTicks), zero amount, cash short of the escrow, an identical order already filed; otherwise it succeeds |
| OrderLifecycle.CreatePlaces | tests/trading/test_makeOrder.py:68-97 | a made order has a fresh non-zero id and the record fields asked for; the maker's cash falls and the market's rises by exactly the cash escrowed; its shares fall by the shares escrowed; nothing else changes |
| OrderLifecycle.CreateTwiceRejected | tests/trading/test_makeOrder.py:147-166 | repeating the same call never files the order id again; when the maker holds no shares of the position, or at least twice the amount, the repeat computes the same escrow and is refused: with insufficient cash when the maker cannot pay the escrow again, else as a duplicate order |
| OrderLifecycle.CreateKeepsGood | tests/trading/test_makeOrder.py:26-66 | making an order keeps every order escrowed exactly and every book sorted |
| OrderLifecycle.PlaceAccounts | tests/trading/test_makeOrder.py:84-97 | filing an order whose escrow the maker can pay keeps the market's reserve and all cash |
| OrderLifecycle.CreateAccounts | tests/trading/test_makeOrder.py:84-97 | a successful makeOrder moves the escrow from the maker to the market and keeps the reserve and all cash |
| OrderLifecycle.CreateFiles | tests/trading/test_makeOrder.py:84-97 | a successful makeOrder was for this market with a valid outcome, price and amount; it files the order under the hash of its fields and escrows the shares it computed |
| OrderLifecycle.NewIdIsFresh | tests/trading/test_makeOrder.py:162-166 | makeOrder never returns the id of an order already live |
| OrderLifecycle.EscrowRepeats | tests/trading/test_makeOrder.py:182-200 | with no shares of the position, or at least twice the amount, the escrow computed after taking the first escrow is the same |
| OrderLifecycle.RepeatRefused | tests/trading/test_makeOrder.py:162-166 | a makeOrder whose hash is already live is refused: insufficient cash if the maker cannot pay, else a duplicate order |
| OrderLifecycle.RepeatAfter | tests/trading/test_makeOrder.py:162-166 | after a first makeOrder, the same call is refused when the escrow repeats |
| OrderLifecycle.InternalCancel | tests/trading/test_cancelOrder.py:113-114 | the internal cancelOrder rejects a caller that is not whitelisted |
| OrderLifecycle.Cancel | tests/trading/test_cancelOrder.py:47-57 | cancelOrder: an id not live under that type, outcome and market is not found, another sender than the owner is refused, and otherwise the order is deleted and its escrow refunded. What it promises is stated by `CancelErrors`, `CancelErases`, `CancelAccounts` and `CancelUndoesCreate` |
| OrderLifecycle.Refund | tests/trading/test_cancelOrder.py:53-57 | refundOrder: the escrowed cash goes from the market back to the owner and the escrowed shares back into the owner's position; it fails when the market holds less than the cash. `RefundRestores` and `RefundReleases` state what it gives back |
| OrderLifecycle.RefundReleases | tests/trading/test_cancelOrder.py:53-57 | deleting an order and refunding its escrow keeps the market's reserve and all cash |
| OrderLifecycle.InternalRefund | tests/trading/test_cancelOrder.py:115-116 | the internal refundOrder rejects a caller that is not whitelisted |
| OrderLifecycle.CancelErrors | tests/trading/test_cancelOrder.py:118-127 | cancelling id 0 or an unknown id fails; another sender than the owner is refused; the owner succeeds whenever the market holds at least the escrow and the open interest, which `Exchange.Exchange.Valid` keeps in every reachable state |
| OrderLifecycle.CancelErases | tests/trading/test_cancelOrder.py:50-52 | after a cancel all eight fields of the record read zero |
| OrderLifecycle.CancelKeepsGood | tests/trading/test_cancelOrder.py:25-57 | cancelling keeps the invariant |
| OrderLifecycle.CancelAccounts | tests/trading/test_cancelOrder.py:53-57 | a successful cancel returns the escrow from the market to the owner and keeps the reserve and all cash |
| OrderLifecycle.CancelUndoesCreate | tests/trading/test_cancelOrder.py:53-57 | cancelling an order just made gives back every balance, the market's cash, the order table and the books |
| OrderLifecycle.CancelUndoesPlace | tests/trading/test_cancelOrder.py:87-91 | the same for any order filed with an exact escrow |
| OrderLifecycle.RemovePlaced | tests/trading/test_cancelOrder.py:53-57 | deleting a filed order leaves exactly the escrow to refund |
| OrderLifecycle.RefundRestores | tests/trading/test_cancelOrder.py:87-91 | refunding that escrow gives back the state before the order |
| OrderLifecycle.CompleteSetsRaiseOpenInterest | tests/trading/test_claimProceeds.py:88-95 | buying k complete sets fails exactly when cash is short; otherwise it costs k * numTicks, adds k shares of every outcome and raises open interest and market cash by k * numTicks |
| OrderLifecycle.BuyCompleteSets | tests/trading/test_claimProceeds.py:88-95 | publicBuyCompleteSets: amount * numTicks of the buyer's cash goes into the market and into open interest, and the buyer gets amount shares of every outcome; it fails when the buyer's cash is short. `CompleteSetsRaiseOpenInterest` and `BuyCompleteSetsAccounts` state this |
| OrderLifecycle.BuyCompleteSetsAccounts | tests/trading/test_claimProceeds.py:88-95 | buying complete sets moves their price into the market as open interest and keeps the reserve and all cash |
| Matching.Shrunk | tests/trading/test_trade.py:85-92 | a partly filled order keeps its side, outcome, price and owner; its amount and escrows drop by what the fill used |
| Matching.ShrunkKeepsEscrow | tests/trading/test_trade.py:284-292 | the shrunk order is still escrowed exactly for what remains |
| Matching.AfterFill | tests/trading/test_trade.py:53-61 | a fully filled order leaves the table and its book; a partly filled one stays in place; every other order is untouched |
| Matching.AfterFillKeepsGood | tests/trading/test_trade.py:68-92 | either way the invariant holds |
| Matching.AfterFillAccounts | tests/trading/test_trade.py:53-61 | after a fill the order's escrowed cash falls by the cash part of the fill times its unit cost; balances, market cash, open interest and fees are untouched |
| Matching.SettleBalances | tests/trading/test_wcl.py:406-416 | settling a fill moves balances only, not orders or books |
| Matching.PayParties | tests/trading/test_wcl.py:409-416 | paying the parties changes only cash |
| Matching.SwapShares | tests/trading/test_wcl.py:409-416 | moving the shares changes only share balances |
| Matching.PayPartiesMoves | tests/trading/test_wcl.py:409-416 | the filler pays its cost and both parties receive their payouts; nobody else's cash moves |
| Matching.SwapSharesMoves | tests/trading/test_wcl.py:409-416 | the filler's offered shares leave it and it receives the position it wanted; the maker receives the position it asked for; nobody else's shares move |
| Matching.SettleConserves | tests/trading/test_wcl.py:409-416 | a settled fill conserves cash across the two parties, the market and the fees; open interest moves by the sets bought minus the sets sold; the shares move as the legs say |
| Matching.PayPartiesTotal | tests/trading/test_wcl.py:409-416 | paying the parties changes the traders' total by what they receive minus what the filler pays |
| Matching.FlowsBalance | tests/trading/test_wcl.py:347-416 | in one fill, what the filler pays plus the escrow used plus the sets sold back equals what the parties and the fees receive plus the sets bought |
| Matching.SettleAccounts | tests/trading/test_wcl.py:347-416 | settling keeps all cash and the orders; the market's cash and open interest move by the flows of the four legs |
| Matching.FillerShares | tests/trading/test_wcl.py:315-345 | the filler offers shares it holds, up to the fill |
| Matching.Fill | tests/trading/test_wcl.py:347-416 | a successful fill of one order fills min(amount, order's amount) and keeps the invariant |
| Matching.FillAccounts | tests/trading/test_wcl.py:347-416 | a successful fill keeps the market's reserve and all cash |
| Matching.FillLeavesAmount | tests/trading/test_trade.py:53-61 | a fill of the whole amount erases the order; a partial one lowers its amount by exactly what was filled |
| Matching.FillShape | tests/trading/test_trade.py:53-61 | a full fill deletes the order from its book, a partial one keeps it in place, and no other order changes |
| Matching.FillOrder | tests/trading/test_wcl.py:43-54 | publicFillOrder returns what is left of the amount asked for, and fails exactly when the fill fails |
| Matching.CashTakeBuysSets | tests/trading/test_takeOrder.py:28-59 | taking a cash order in full with cash zeroes the order, costs each side exactly its own unit cost, buys amount complete sets, charges no fee, and leaves nothing to fill |
| Matching.FillBest | tests/trading/test_trade.py:449-476 | the walk fills at most the amount and keeps the invariant; it stops when nothing is left or the best order does not cross the limit, and then no live order of that book crosses (`FillBestLeavesNoCross`); it adds no orders; orders beyond the limit are untouched; it takes orders from the front of the book only |
| Matching.StoppedLeavesNoCross | tests/trading/test_trade.py:210-247 | under the invariant, when the walk stopped with shares left, no live order of the consumed book crosses the limit, not only the best one |
| Matching.FillBestLeavesNoCross | tests/trading/test_trade.py:210-247 | after a walk that leaves shares unfilled, no live order of the consumed outcome and side crosses the limit |
| Matching.FillFront | tests/trading/test_trade.py:144-175 | the same guarantees as `FillBest`, for a walk that starts by filling the best order |
| Matching.RemainingKept | tests/trading/test_trade.py:449-476 | orders left unchanged offer the same shares |
| Matching.Remaining | tests/trading/test_trade.py:449-476 | the shares still offered by a book: the sum of the amounts of its live orders |
| Matching.Accounted | tests/trading/test_trade.py:177-208 | from one state to another a book lost exactly the shares taken, and the market's reserve and all cash are unchanged |
| Matching.RemainingAfterFront | tests/trading/test_trade.py:53-61 | filling the front order lowers what the book offers by exactly the shares filled |
| Matching.FrontRemaining | tests/trading/test_trade.py:144-175 | a fill of the best order lowers what its book offers by exactly the shares filled |
| Matching.FrontAccounted | tests/trading/test_trade.py:144-175 | a fill of the best order takes its shares off the book and keeps the reserve and all cash |
| Matching.AccountedChain | tests/trading/test_trade.py:177-208 | two steps that each take shares off a book and keep the reserve and all cash make one that takes their sum |
| Matching.FillBestFront | tests/trading/test_trade.py:177-208 | where the best order crosses, the walk fills it by some 0 < filled ≤ amount, keeps the invariant and goes on from there with the rest |
| Matching.FillBestAccounts | tests/trading/test_trade.py:449-476 | the walk takes exactly the amount it filled off the book, never more than it was asked, and keeps the market's reserve and all cash |
| Matching.WalkOnFrom | tests/trading/test_trade.py:177-208 | the guarantees of the rest of the walk carry over to the walk from the state before the step |
| Matching.FillBestStops | tests/trading/test_trade.py:210-247 | when nothing is left or the best order does not cross, the walk changes nothing and returns the whole amount |
| Matching.FillBestStep | tests/trading/test_trade.py:177-208 | otherwise it fills some of the best order and walks on from there with the rest |
| Matching.FillBestFails | tests/trading/test_trade.py:177-208 | and the first failed fill is the walk's failure |
| Matching.FillFrontLeaves | tests/trading/test_trade.py:177-208 | after a fill of the best order, what is left is smaller and the walk from there ends where the whole walk ends |
| Matching.FillBestGoesOn | tests/trading/test_trade.py:177-208 | where the best order crosses, the walk is the step from the front |
| Matching.StepKeepsOutside | tests/trading/test_trade.py:218-247 | an order beyond the limit survives every step of the walk |
| Matching.StepTakesFront | tests/trading/test_trade.py:185-206 | orders are consumed strictly from the front, so equal prices fill first come, first served |
| Matching.PublicFillBestOrder | tests/trading/test_trade.py:427-447 | the entry point checks the market and the type code; a bidder (code 1) walks the asks and an asker (code 2) the bids |
| Matching.DecodeDirection | tests/trading/test_trade.py:81-83 | direction codes 0 (buy) and 1 (sell), and only they, are accepted |
| Matching.Trade | tests/trading/test_trade.py:95-142 | a trade keeps the invariant; its accounting is `Matching.TradeAccounts` |
| Matching.PublicTrade | tests/trading/test_trade.py:68-92 | publicTrade with code 0 is publicBuy and with code 1 publicSell; other codes fail |
| Matching.TradeLeftover | tests/trading/test_trade.py:126-142 | a trade reports "no leftover" exactly when the walk filled everything; otherwise the rest rests as a new order of the taker at its limit price, escrowed like any made order |
| Matching.TradeAccounts | tests/trading/test_trade.py:95-142 | a trade keeps the market's reserve and all cash, and its walk takes exactly the filled amount off the book it consumes |
| Matching.TradeLeavesNoCross | tests/trading/test_trade.py:210-247 | when a trade leaves a remainder to rest, no live order of the book it consumed crosses its limit price |
| ClaimProceeds.CalculateProceeds | tests/trading/test_claimProceeds.py:69-70 | shares of an outcome with numerator 0 are worth nothing; winning shares are worth at least one tick each |
| ClaimProceeds.CalculateCreatorFee | tests/trading/test_claimProceeds.py:67 | the creator fee is the value divided by the creator fee divisor, rounded down |
| ClaimProceeds.CalculateReportingFee | tests/trading/test_claimProceeds.py:68 | the reporting fee is the value divided by the reporting fee divisor, rounded down |
| ClaimProceeds.DivideUpWinnings | tests/trading/test_claimProceeds.py:71-75 | the proceeds are split into the creator fee, the reporting fee and the shareholder's share, which add up to the proceeds |
| ClaimProceeds.Redeem | tests/trading/test_claimProceeds.py:98-111 | redeeming leaves orders and books alone |
| ClaimProceeds.PayOut | tests/trading/test_claimProceeds.py:98-111 | paying out leaves orders and books alone |
| ClaimProceeds.RedeemFrom | tests/trading/test_claimProceeds.py:98-112 | redeeming outcomes from some point on zeroes those balances and no others; pays the holder the total after fees; lowers open interest and market cash by the total value; conserves cash; touches no other trader |
| ClaimProceeds.RedeemFromUnrolled | tests/trading/test_claimProceeds.py:98-103 | redemption goes outcome by outcome, and the first failure is the result |
| ClaimProceeds.RedeemStep | tests/trading/test_claimProceeds.py:98-111 | one outcome redeemed: its balance is zero, the holder is paid its share, open interest and market cash drop by its value |
| ClaimProceeds.Claim | tests/trading/test_claimProceeds.py:191-219 | a claim is refused for another market, before finalization and until the waiting period is over; a successful one burns every share of the sender and pays out its value after fees |
| ClaimProceeds.ClaimSucceeds | tests/trading/test_claimProceeds.py:215-219 | past the gates, with enough market cash and open interest, the claim succeeds |
| ClaimProceeds.ClaimTwicePaysNothing | tests/trading/test_claimProceeds.py:108-111 | a second claim succeeds and pays nothing |
| ClaimProceeds.NothingToRedeem | tests/trading/test_claimProceeds.py:106-107 | zero balances have no value and pay nothing |
| ClaimProceeds.CompleteSetsRedeemAtPar | tests/trading/test_claimProceeds.py:112 | k complete sets are worth k times the sum of the payout numerators |
| ClaimProceeds.PayoutWithinProceeds | tests/trading/test_claimProceeds.py:84-86 | the payout after fees never exceeds the value redeemed |
| ClaimProceeds.PayOutAccounts | tests/trading/test_claimProceeds.py:98-111 | paying out proceeds split among holder, creator and reporters keeps the market's reserve and all cash |
| ClaimProceeds.RedeemFromAccounts | tests/trading/test_claimProceeds.py:98-112 | redeeming keeps the market's reserve and all cash |
| ClaimProceeds.ClaimAccounts | tests/trading/test_claimProceeds.py:191-219 | a claim keeps the market's reserve and all cash |
| ClaimExamples.Helpers | tests/trading/test_claimProceeds.py:62-70 | calculateCreatorFee(3) = 0.03, calculateReportingFee(5) = 0.0005; proceeds are 7 * numTicks for the winner and 0 for the loser |
| ClaimExamples.DivideUpThirteen | tests/trading/test_claimProceeds.py:71-75 | 13 winning shares: 1% to the creator, 0.01% to reporting, 98.99% to the holder |
| ClaimExamples.Gates | tests/trading/test_claimProceeds.py:191-219 | refused before finalization and at exactly 3 days; accepted 3 days and 1 second after |
| ClaimExamples.BinaryFirstClaim | tests/trading/test_claimProceeds.py:77-106 | the YES holder is paid numTicks less 1.01% and keeps no shares |
| ClaimExamples.BinaryRedemption | tests/trading/test_claimProceeds.py:77-112 | the NO holder is then paid nothing; no shares remain; open interest is one numTicks |
| ClaimExamples.ScalarFirstClaim | tests/trading/test_claimProceeds.py:154-178 | the long holder of the scalar market gets 3/4 of the value less fees |
| ClaimExamples.ScalarRedemption | tests/trading/test_claimProceeds.py:154-184 | the short holder then gets 1/4 of the value less fees |
| TradingExamples.MakeCashBid | tests/trading/test_makeOrder.py:26-45 | a cash bid for one share at 0.1 escrows 0.1 in cash and no shares, has no neighbours and moves exactly its escrow to the market |
| TradingExamples.MakeCashAsk | tests/trading/test_makeOrder.py:47-66 | a cash ask at 0.1 escrows 0.9 |
| TradingExamples.MakeAskWithPartialShares | tests/trading/test_makeOrder.py:168-210 | an ask for 2 with 1.2 sets escrows 1.2 YES shares and 0.32 cash; the NO shares stay with the maker |
| TradingExamples.MakeOrderFailures | tests/trading/test_makeOrder.py:133-166 | type 3, price 3, amount 0, a non-market address and a repeated order are all refused |
| Exchange.Exchange.constructor | tests/trading/test_makeOrder.py:26-33 | a new exchange for a market starts empty and valid |
| Exchange.Exchange.EscrowFunds | tests/trading/test_makeOrder.py:84-97 | moves an order's escrow from its owner to the market, as `TakeEscrow` says |
| Exchange.Exchange.RefundOrder | tests/trading/test_cancelOrder.py:53-57 | refunds an escrow in place, as `Refund` says |
| Exchange.Exchange.MakeOrder | tests/trading/test_makeOrder.py:26-97 | publicMakeOrder on the stored state, proved against `Create` (whose properties are the OrderLifecycle lemmas) |
| Exchange.Exchange.CancelOrder | tests/trading/test_cancelOrder.py:25-91 | publicCancelOrder on the stored state, proved against `Cancel` |
| Exchange.Exchange.BuyCompleteSets | tests/trading/test_claimProceeds.py:88-95 | publicBuyCompleteSets on the stored state, proved against `BuyCompleteSets` |
| Exchange.Exchange.PayForSets | tests/trading/test_claimProceeds.py:88-95 | paying for complete sets gives the new state of buying them |
| Exchange.Exchange.CreateShares | tests/trading/test_claimProceeds.py:88-95 | a loop that adds the sets to every outcome's balance |
| Exchange.Exchange.Redeem | tests/trading/test_claimProceeds.py:98-111 | redeems one outcome in place, as `Redeem` says |
| Exchange.Exchange.PayOut | tests/trading/test_claimProceeds.py:98-111 | pays out one outcome in place, as `PayOut` says |
| Exchange.Exchange.Claim | tests/trading/test_claimProceeds.py:191-219 | claimProceeds: the gates, then a loop over the outcomes, proved against `Claim` |
| Exchange.Exchange.SettleFill | tests/trading/test_wcl.py:406-416 | settles a fill in place, as `SettleBalances` says |
| Exchange.Exchange.MoveFunds | tests/trading/test_wcl.py:406-416 | pays the parties and moves the shares in place |
| Exchange.Exchange.PayParties | tests/trading/test_wcl.py:409-416 | the cash movements of a fill, in place |
| Exchange.Exchange.SwapShares | tests/trading/test_wcl.py:409-416 | the share movements of a fill, in place |
| Exchange.Exchange.ApplyFill | tests/trading/test_trade.py:53-92 | deletes a filled order or shrinks a partly filled one in place |
| Exchange.Exchange.FillOne | tests/trading/test_wcl.py:43-54 | fills one order in place, proved against `Fill` |
| Exchange.Exchange.TakeOrder | tests/trading/test_takeOrder.py:28-59 | publicTakeOrder, proved against `FillOrder` |
| Exchange.Exchange.FillBestOrder | tests/trading/test_trade.py:449-476 | the loop over best orders, proved against `FillBest` |
| Exchange.Exchange.FillFrontOrder | tests/trading/test_trade.py:177-208 | one iteration: fills the best order, and the walk from the new state ends where the whole walk ends |
| Exchange.Exchange.PublicFillBestOrder | tests/trading/test_trade.py:427-447 | publicFillBestOrder, proved against `PublicFillBestOrder` |
| Exchange.Exchange.Trade | tests/trading/test_trade.py:95-142 | the walk, then the leftover order, with every change rolled back on failure; proved against `Trade` |
| Exchange.Exchange.PublicTrade | tests/trading/test_trade.py:68-92 | publicTrade, proved against `PublicTrade` |
| SortedList.NextLink | tests/libraries/test_sortedLinkedList.py:100-104 | the next link of a value is the least larger value, or 0 when it is the largest |
| SortedList.PrevLink | tests/libraries/test_sortedLinkedList.py:100-104 | the prev link of a value is the greatest smaller value, or 0 when it is the smallest |
| SortedList.LinkedInsert | tests/libraries/test_sortedLinkedList.py:142-161 | linking a value in between its neighbours keeps the links consistent with the ascending sequence with the value inserted |
| SortedList.LinkedDelete | tests/libraries/test_sortedLinkedList.py:163-181 | unlinking a value joins its neighbours and moves an end when it was one |
| SortedList.ReverseDecreasing | tests/libraries/test_sortedLinkedList.py:244-250 | read from the head down, the values strictly decrease |
| SortedList.SortedLinkedList.constructor | tests/libraries/test_sortedLinkedList.py:30-36 | a new list is empty |
| SortedList.SortedLinkedList.IsEmpty | tests/libraries/test_sortedLinkedList.py:35 | true exactly when the list holds no value |
| SortedList.SortedLinkedList.GetCount | tests/libraries/test_sortedLinkedList.py:36 | the number of values held |
| SortedList.SortedLinkedList.Contains | tests/libraries/test_sortedLinkedList.py:203 | true exactly for the values held |
| SortedList.SortedLinkedList.GetHead | tests/libraries/test_sortedLinkedList.py:38-42 | fails on an empty list, else the largest value |
| SortedList.SortedLinkedList.GetTail | tests/libraries/test_sortedLinkedList.py:38-42 | fails on an empty list, else the smallest value |
| SortedList.SortedLinkedList.HasNext | tests/libraries/test_sortedLinkedList.py:139 | true exactly for a held value with a larger one held |
| SortedList.SortedLinkedList.HasPrev | tests/libraries/test_sortedLinkedList.py:140 | true exactly for a held value with a smaller one held |
| SortedList.SortedLinkedList.GetNext | tests/libraries/test_sortedLinkedList.py:104 | the least held value above, failing where there is none |
| SortedList.SortedLinkedList.GetPrev | tests/libraries/test_sortedLinkedList.py:101 | the greatest held value below, failing where there is none |
| SortedList.SortedLinkedList.TryGetNext | tests/libraries/test_sortedLinkedList.py:231-240 | fails for a value not held, else the next value or 0 past the head |
| SortedList.SortedLinkedList.TryGetPrev | tests/libraries/test_sortedLinkedList.py:232-242 | fails for a value not held, else the previous value or 0 past the tail |
| SortedList.SortedLinkedList.Remove | tests/libraries/test_sortedLinkedList.py:72-84 | reports whether the value was held; afterwards it is not, the others are, and the list stays linked in order |
| SortedList.SortedLinkedList.FindStart | tests/libraries/test_sortedLinkedList.py:194-219 | the search starts at the first hint that is held, or at the tail |
| SortedList.SortedLinkedList.Locate | tests/libraries/test_sortedLinkedList.py:186-207 | the loop finds the neighbours between which the value belongs |
| SortedList.SortedLinkedList.LinkIn | tests/libraries/test_sortedLinkedList.py:142-161 | links the value in between them, keeping the list in order |
| SortedList.SortedLinkedList.Add | tests/libraries/test_sortedLinkedList.py:44-65 | 0 is refused and nothing changes; any other value is held afterwards, with the others, whatever the hints |
| SortedList.SortedLinkedList.WalkDown | tests/libraries/test_sortedLinkedList.py:245-250 | the getPrev loop from the head visits the values from the largest down |
| SortedList.SortedLinkedList.WalkUp | tests/libraries/test_sortedLinkedList.py:252-257 | the getNext loop from the tail visits the values from the smallest up |
| SortedList.SortedLinkedList.OrderValidation | tests/libraries/test_sortedLinkedList.py:244-257 | doOrderValidation: strictly decreasing from the head, strictly increasing from the tail |
| SortedListExamples.InitialState | tests/libraries/test_sortedLinkedList.py:30-42 | a fresh list is empty, count 0, and its ends cannot be read |
| SortedListExamples.RequireNotZero | tests/libraries/test_sortedLinkedList.py:44-50 | adding 0 is refused |
| SortedListExamples.AddOneItem | tests/libraries/test_sortedLinkedList.py:52-65 | adding 42 twice leaves 42 as both head and tail |
| SortedListExamples.MakeEmpty | tests/libraries/test_sortedLinkedList.py:67-84 | the second remove of 42 reports false and the list is empty |
| SortedListExamples.AddTwoItems | tests/libraries/test_sortedLinkedList.py:86-117 | head 43, tail 42, each the other's neighbour; removing 42 leaves 43 at both ends |
| SortedListExamples.AddThreeItems | tests/libraries/test_sortedLinkedList.py:119-140 | 42, 41, 43 come out sorted, with no neighbour past the ends |
| SortedListExamples.SixItems | tests/libraries/test_sortedLinkedList.py:142-158 | the six values are held in ascending order |
| SortedListExamples.AddMultipleItems | tests/libraries/test_sortedLinkedList.py:150-158 | the neighbours of 45, 35, 40 and 41, and the count 6 |
| SortedListExamples.RemoveMultipleItems | tests/libraries/test_sortedLinkedList.py:163-184 | removing 42 joins 41 and 43; removing 35 and 45 moves the ends |
| SortedListExamples.Hints | tests/libraries/test_sortedLinkedList.py:186-207 | a held hint and an absent hint both give the sorted placement |
| SortedListExamples.MultipleHints | tests/libraries/test_sortedLinkedList.py:209-219 | several hints still add 2 below all the others |
| SortedListExamples.TryFunctions | tests/libraries/test_sortedLinkedList.py:221-242 | the try-getters give 10 and 3 around 5, 0 past the ends, and fail for 11 |
| Hex.Hexlify | source/libraries/HelperFunctions.ts:41 | two lower-case hex digits per byte |
| Hex.UnhexlifyHexlify | source/libraries/HelperFunctions.ts:41 | hex decoding reads back the bytes encoded |
| Hex.HexlifyAppend | source/libraries/HelperFunctions.ts:36-41 | the hex of a concatenation is the concatenation of the hexes |
| Hex.HexlifyZeroBytes | source/libraries/HelperFunctions.ts:33 | NUL bytes encode as "00" each |
| Hex.DigitValue | tests/utils.py:16 | both cases of hex digit are read, as Python's long(s, 16) does |
| HelperFunctions.PadCount | source/libraries/HelperFunctions.ts:32-34 | the pad is length minus twice the length of s characters when that is positive, else none |
| HelperFunctions.Padded | source/libraries/HelperFunctions.ts:36-40 | the padded string is the string plus its pad |
| HelperFunctions.PrefixedHex | source/libraries/HelperFunctions.ts:41 | "0x" followed by two digits per character |
| HelperFunctions.PaddedHexReadsBack | source/libraries/HelperFunctions.ts:36-41 | decoding the hex part gives back the padded string's codes |
| HelperFunctions.HexOfPadded | source/libraries/HelperFunctions.ts:36-41 | direction "right" puts the zero digits after the string's hex; any other direction puts them before |
| HelperFunctions.PadAndHexlify | source/libraries/HelperFunctions.ts:30-42 | the loop builds the pad; the result is "0x", then the string's hex, with 2·pad zero digits after it ("right") or before it (otherwise) |
| HelperFunctions.StringTo32ByteHex | source/libraries/HelperFunctions.ts:44-46 | as written: 128 minus twice the length of s hex digits for a string of at most 32 characters |
| HelperFunctions.StringTo32ByteHexOverlong | source/libraries/HelperFunctions.ts:24-46 | as written, "abc" gives 122 digits, and every string shorter than 32 characters gives more than 64 |
| HelperFunctions.PadAndHexlifyBytes | source/libraries/HelperFunctions.ts:24-42 | the padding counted in bytes: a string of at most `length` characters gives exactly 2·length digits |
| HelperFunctions.StringTo32ByteHexCorrected | source/libraries/HelperFunctions.ts:44-46 | every string of at most 32 characters gives exactly 64 digits that read back as the string followed by zero bytes |
| TestUtils.TruncDivTowardZero | tests/utils.py:7 | Python's long() of an exact quotient truncates toward zero, on both signs |
| TestUtils.RoundHalfEvenNearest | tests/utils.py:7 | the decimal context rounds to the nearest multiple, a tie to the even one |
| TestUtils.RoundWithinPrecision | tests/utils.py:7 | a coefficient of at most 28 digits is kept exactly; any rounded coefficient has at most 28 digits |
| TestUtils.SignificantClose | tests/utils.py:7 | rounding to 28 significant digits moves a value by at most half a unit in its 28th digit |
| TestUtils.TimesOneExact | tests/utils.py:7 | multiplying a 28-digit coefficient by 10**18 and truncating gives the shifted value |
| TestUtils.Fix | tests/utils.py:6-7 | fix(n, m): the decimal n times the decimal m, each product rounded half even to 28 significant digits, times 10^18, truncated toward zero; `FixExact`, `FixWithinPrecision` and `FixRoundsPastPrecision` state what it gives |
| TestUtils.FixExact | tests/utils.py:6-7 | a decimal with at most 18 fractional digits is fixed to its value rounded to 28 significant digits, half even, times 10^18; within 28 digits that is exact |
| TestUtils.FixWithinPrecision | tests/utils.py:6-7 | a decimal of at most 28 digits is fixed to its value times 10^18, truncated toward zero |
| TestUtils.FixTruncatesTowardZero | tests/utils.py:6-7 | finer decimals are truncated toward zero, negative ones included |
| TestUtils.FixWhole | tests/utils.py:6-7 | a whole number is fixed to its value rounded to 28 significant digits times 10^18 |
| TestUtils.FixRoundsPastPrecision | tests/utils.py:6-7 | 10^28 + 1 loses its last digit: it is fixed as 10^28 * 10^18 |
| TestUtils.FixRoundsLastDigit | tests/utils.py:6-7 | a 29-digit decimal is rounded half even to 28 digits before the shift |
| TestUtils.Unfix | tests/utils.py:9-10 | unfix is floor division by 10^18 |
| TestUtils.UnfixFix | tests/utils.py:6-10 | unfix undoes fix for whole numbers of at most 28 digits; a longer one comes back rounded to 28 significant digits |
| TestUtils.UnfixFixLosesDigit | tests/utils.py:6-10 | unfix(fix(10^28 + 1)) is 10^28 |
| TestUtils.HexSlice | tests/utils.py:12-13 | hex()[2:-1] drops the "0x" and the last character: the "L" of a long, the last digit of an int |
| TestUtils.LongToHexString | tests/utils.py:12-13 | longToHexString(v): Python 2's hex(v) with its first two characters and its last one cut off; `LongToHexStringOfLong`, `LongToHexStringOfInt`, `LongToHexStringOfNegative` and `LongToHexStringOfZero` state what that leaves |
| TestUtils.LongToHexStringOfLong | tests/utils.py:12-13 | for a long, the bare hex digits of the value, which read back as the value |
| TestUtils.LongToHexStringOfInt | tests/utils.py:12-13 | for an int, the last hex digit is lost: the digits of value / 16, empty below 16 |
| TestUtils.LongToHexStringOfNegative | tests/utils.py:12-13 | a negative value keeps the "x" of "-0x" |
| TestUtils.LongToHexStringOfZero | tests/trading/test_trade.py:57 | the int 0 gives the empty string, the long 0 gives "0" |
| TestUtils.ParseHexDigits | tests/utils.py:12-13 | the digits of a value read back as the value |
| TestUtils.ParseHexlify | tests/utils.py:15-16 | reading a byte string's hex is reading it big-endian in base 256 |
| TestUtils.BytesToLong | tests/utils.py:15-16 | fails on the empty string, else the big-endian value |
| TestUtils.BigEndianLeadingZero | tests/utils.py:15-16 | a leading zero byte does not change the value |
| TestUtils.BytesToHexString | tests/utils.py:18-19 | bytesToHexString: the hex digits of the bytes read as one big-endian long; it fails where bytesToLong fails, on the empty string |
| TestUtils.BytesToHexStringDropsLeadingZeros | tests/utils.py:18-19 | leading zero bytes are not represented in bytesToHexString; the result reads back as the big-endian value |

## Left out

- The Solidity contracts themselves are not part of this model. The model implements what the tests assert of them.
- Market finalization and reporting are not modelled. `Claim` takes the outcome as a `Resolution` parameter: finalized or not, when, and the payout numerators.
- The clock is a parameter (`now`) of `Claim`.
- Gas: the minimum-gas sentinel of the trade test (tests/trading/test_trade.py:10-28) is gas metering, not trading semantics. The gas price is only stored in the order record.
- Events and logs are left out: the log helpers of tests/utils.py:21-37 and the test accounts of source/libraries/HelperFunctions.ts:48-73. The model gives the resulting state.
- Ether wrapping, `approve` and allowances are left out. There is one cash balance per trader, and a maker's shares are usable up to its balance.
- Trade group ids are left out because they only label events.
- The better/worse order-id hints of makeOrder and trade are left out. The book position is computed from the prices, which is where a valid hint would put the order.
- Minimum order size: the source rejects a one-unit order (tests/trading/test_makeOrder.py:139-146). The model rejects only a zero amount, because the contracts' rule is not visible.
- The division by 10^18 in test_makeOrder.py's costs is not modelled. Costs are `amount * price`, and those scenarios are worked out at a coarser unit in `TradingExamples`.
- Open interest is kept per market, not per universe.
- When a maker's escrowed shares only partly cover a partial fill, the model uses the shares before the cash. No test pins this order.
- The emergency stop and the controller's whitelist are left out. The whitelist appears only as the `trusted` set of the internal entry points.
- The test-suite floats are not modelled. Expected fees are checked in exact integers against the decimal literals.
- `padAndHexlify` is modelled on ASCII strings only, which its doc comment asks for. There is no Unicode encoding.
- The sorted-list test `test_sortedLinkedListAddMultipleItems` is split over several examples (`AddThreeItems`, `SixItems`, `AddMultipleItems`, `RemoveMultipleItems`) to keep each proof small.
- Matching.Trade: its own contract states only the invariant. What it does with the leftover is stated by `Matching.TradeLeftover` and `Matching.TradeLeavesNoCross`, the walk by `Matching.FillBest`, and its accounting by `Matching.TradeAccounts`.
- FillBest: the filler's own cash and shares are stated one fill at a time (`Matching.FillBestStep`, `Matching.SettleConserves`), not summed over the whole walk. Over the walk, `Matching.FillBestAccounts` states the shares taken off the book, the market's reserve and all cash.
- FillFront: the same as for FillBest. The filler's own cash and shares are stated one fill at a time, not summed over the walk that `FillFront` starts.
- TestUtils.Fix: takes the decimal already parsed into its digits and scale. The parsing of strings and floats by `Decimal()`, the context's exponent limits and its traps are not modelled. The 28-digit, half-even rounding of each product is.

## Findings

| source | as written | input that shows it | evidently intended | confidence | as-written member | corrected member |
|---|---|---|---|---|---|---|
| source/libraries/HelperFunctions.ts:30-46 | the pad counts `length` minus twice the string's length characters, and each character becomes two hex digits, so `stringTo32ByteHex` gives 128 minus twice the string's length digits | `stringTo32ByteHex("abc")` gives "0x" and 122 digits (61 bytes) | 32 bytes: 64 hex digits, the string's codes followed by zero bytes, as the name and the doc comment (length of the result minus "0x") say | high; not executed | HelperFunctions.StringTo32ByteHexOverlong | HelperFunctions.StringTo32ByteHexCorrected |
