# Verified model of flumine's simulated exchange

flumine is a Betfair trading framework. This project models the parts of it that decide money and
order in a backtest, and proves what every run of them keeps:

- **Matching and settlement.** A simulated order fills against the book, against traded volume from
  a place in the queue, and at the starting price, and settles with dead heats
  (`Simulation`, `Fills`, `Accounting`, `Outcomes`, `Settlement`, on top of `Rounding`, `Exchange`,
  `Wap`).
- **Exposure and limits.** The blotter's worst cases, the control that caps them, and the link from
  both to settled profit (`Exposure`, `WorstCase`, `Cap`, `CapRuns`).
- **Orders, trades and transactions.** Status changes with the mutual recursion between order and
  trade, requests and their controls, batched and delayed packages, replaces, and the backtest as a
  state machine (`Lifecycle`, `Requests`, `Packaging`, `Protocol`, `TradeSteps`, `Completion`,
  `BacktestRuns`, `Matching`, `OneTradeRuns`, `TwoRunnersRun`), with the loops of an update on the
  objects themselves (`Market`, `Execution`, `Lists`).
- **Feeds and tables.** Traded volume between updates, the merge of market streams, the blotter's
  indexes and the price ladder (`Analytics`, `Merge`, `Blotter`, `PriceLadder`).

## Reading guide

Every amount is an integer: prices in hundredths, sizes in pence, products of the two in hundredths
of a penny, the place in the queue in half pence. Python's `round(x, 2)` is the nearest integer with
ties to even on that scale; it is a specification (`RoundDiv`) with a method that computes it.

What the source changes in place is a class here, with the source's fields. Its methods are proved
equal to functions on the object's state (`PlaceStep`, `TradeAll`, `SetOrderStatus`, `Act`, ...),
and the results about all inputs and all runs are lemmas about those functions. A run is a list of
events or steps; a property of every reachable state is a lemma over every such list. The orders of a
backtest are covered by both kinds: each is in a state that a run of the exchange leads to
(`BacktestRuns.OrdersAreRuns`), and `Matching.WhatAnUpdateDoes` says which step of it an update makes.

The results about money are exact where the code is. Where it rounds, the slack is written out: an
average price is off by at most half a hundredth times the size, a reported sum or profit by half a
penny, the stake of a LAY starting price fill by half a penny times the starting price less one. On a
losing selection nothing is rounded, and the bounds are exact.

## Where the code and what it promises differ

- A LAY order at a limit can be matched beyond its size at a starting price below the limit, its
  cancelled size going negative (`Accounting.LayOverfillsBelowLimit` says exactly when,
  `Accounting.LayOverfills` shows a run).
- A negative size reduction passes the guard of a cancel and adds to the remainder
  (`TradeSteps.CancelRequestOutcome`), so that more can be matched than was ordered
  (`Accounting.NegativeReductionOverfills`). It is the only step that adds to what an order can lose
  (`Settlement.StepNoWorse`), and no control looks at it (`CapRuns.NegativeCancelBreaksCap`).
- The result of a pass over traded volume depends on the order of the map while an order is still in
  the queue (`Fills.WhenOrderIsIrrelevant` says exactly where it cannot,
  `Accounting.IterationOrderMatters` shows a run); it does not in even pence.
- The exposure control is documented to keep `max_selection_exposure` when an order is executed, but
  a REPLACE is checked before the order has its new price (`CapRuns.RaisedReplaceBreaksCap`), what was
  left of the cap at the request may be gone when it is executed (`CapRuns.RoomIsLost`;
  `Cap.RoomAtRequest` says what is enough), a cancel is not checked, and an order marked in violation
  after it was placed is not counted, its matched part included (`CapRuns.ViolationBreaksCap`).
  `Cap.ActKeepsCap` says exactly which of these keep the cap, `Cap.CapIsInvariant` which runs do.
- A replace is a cancel and a placement, and the cancel stays when the placement is refused
  (`TradeSteps.WhenReplaced` says when, `BacktestRuns.RefusedReplaceReopens` what is left).
- A control violation on the last incomplete order of a live trade leaves the trade live
  (`Lifecycle.NeverLeftComplete`, `OneTradeRuns.StrandedByRefusal`).
- A control that refuses a request while another is in flight, or an order placed twice, leaves an
  order in a status that no waiting request or package accounts for, or the other way round
  (`BacktestRuns.InFlightExclusivity` says exactly when neither happens).
- One pass over the live orders may leave one of a complete trade (`Completion.WhenOnePassClears` says
  when it does not, `OneTradeRuns.LeftByOnePass` shows a run); two do not (`Completion.TwoPassesClear`).
- An order placed in a trade that is already complete is taken off the live orders while it waits, and
  is never matched (`Completion.WhenOpenOrderIsLost`, `OneTradeRuns.OpenOrderIsLost`).
  `BacktestRuns.OpenOrdersAreLive` says exactly in which runs every open order is live throughout.

## Model

| member | source | states |
|---|---|---|
| Exposure.ExposureBoundsSettlement | flumine/markets/blotter.py:85-151 | over every run of the exchange after a selection's exposure was computed, the orders' summed reported profit is at least minus that exposure and the risk of what cancels by a negative size added, which is nothing where no reduction is negative: exactly if the selection loses; if it wins, alone or in a dead heat of any number, up to an explicit sum of rounding terms |
| Exposure.ExactExposureBoundsSettlement | flumine/markets/blotter.py:85-96 | before anything reported is rounded the same holds without slack for every number of winners, but for the stakes of LAY starting price fills, which the exchange rounds |
| WorstCase.WorstCaseIsExact | flumine/markets/blotter.py:98-142 | the reported worst cases, with orders on close already reconciled at what they matched, are minima over all runs of the exchange, for whatever sizes cancels add to orders that can still grow: on a loss no run loses more than the worst case and the risk of what was added and one loses just that; on a win the same up to the rounding of what is reported and of LAY starting price stakes |
| WorstCase.FillIsReachable | flumine/backtest/simulated.py:323-355 | every partial fill of what remains, at the limit, is reached by some run from every reachable state |
| WorstCase.SelectionExposureIsExact | flumine/markets/blotter.py:85-96 | the exposure is no more than can be lost: it is zero exactly when neither reported worst case is a loss, and otherwise some run in which no cancel adds anything loses just that on the worse outcome, exactly on a loss and up to the rounding of what is reported on a win, for every selection whose orders on close are still open |
| Cap.CapIsInvariant | flumine/controls/tradingcontrols.py:133-199 | over every run of requests, executed replaces, cancels by any size, violations and anything else the exchange does, both worst cases stay within `max_selection_exposure` at every point exactly when every action has room for what it takes; so they do in every run without a violation of a placed order, a raised LAY and a cancel by a negative size. A loss is exact, a win up to a slack that does not grow with the number of placements |
| Cap.ActKeepsCap | flumine/controls/tradingcontrols.py:133-199 | an action keeps the cap exactly when what it takes is left of it: an accepted order its exposure, a replace the rise of a LAY price on what remains, a cancel by a negative size the risk of that size, and anything else nothing |
| Cap.PlainHasRoom | flumine/controls/tradingcontrols.py:159-199 | while no placed order is in violation, what the control accepts has room, and so has everything but a raised LAY and a cancel by a negative size |
| Cap.RoomAtRequest | flumine/controls/tradingcontrols.py:168-199 | a replace that had room when it was requested for what its order then had and what is taken or added in between still has it when it is executed |
| Cap.AcceptedReplaceIsSafe | flumine/controls/tradingcontrols.py:168-199 | where the price does not rise against it and no placed order is in violation, a replace the control accepted leaves the worst case the control looked at within the cap, wherever that was before, but for what cancels added to the order beyond its size |
| CapRuns.RaisedReplaceBreaksCap | flumine/execution/transaction.py:90-99 | a run in which the control accepts a LAY that uses up the cap and then its replace to a higher price, which breaks it |
| CapRuns.NegativeCancelBreaksCap | flumine/backtest/simulated.py:197-209 | a run in which a cancel by minus 10.00 of an order that uses up the cap breaks it |
| CapRuns.ViolationBreaksCap | flumine/markets/blotter.py:105-108 | a run in which the control accepts the same order again because the first is marked in violation, which breaks the cap |
| CapRuns.RoomIsLost | flumine/controls/tradingcontrols.py:168-199 | a run in which a replace has room when it is requested and breaks the cap because of an order accepted in between |
| Cap.CapBoundsSettlement | flumine/controls/tradingcontrols.py:133-199 | end to end: over every run in which every action has room, negative cancels and violations included, the selection settles within the cap on every outcome |
| Cap.AcceptsIsTheCap | flumine/controls/tradingcontrols.py:159-199 | the control accepts exactly what keeps the worst case within the limits (for LAY up to the rounding of the reported worst case) |
| Accounting.ImmediateFillIsOptimal | flumine/backtest/simulated.py:252-272 | no other allocation over the acceptable levels fills more, or gives the side a better price-weighted sum for the same total |
| Fills.WalkIsOptimal | flumine/backtest/simulated.py:256-272 | any allocation of a total over acceptable levels is worth no more to the side than the walk for that total |
| Fills.WalkFillsAllItCan | flumine/backtest/simulated.py:252-272 | on a book sorted best first the walk fills the smaller of the size and everything offered at the limit or better |
| BacktestRuns.InFlightExclusivity | flumine/backtest/backtest.py:109-185 | at every point of a run an order that is pending, cancelling, updating or replacing is in exactly one pending list or queued package, of the matching kind, and every other order is in none, exactly when no control refuses a request while another is in flight and no order is placed again unless it still waits; refused replaces and negative size reductions included |
| BacktestRuns.WhenRefusalKeepsExclusivity | flumine/execution/transaction.py:138-148 | a refusal by a control keeps this exactly when the order had no request in flight |
| BacktestRuns.WhenPlacingAgainKeepsExclusivity | flumine/execution/transaction.py:55-64 | placing an order again, which turns it pending and raises, keeps this exactly when the order was still waiting to be placed |
| BacktestRuns.TradeLiveness | flumine/order/trade.py:51-77 | after every such run a trade whose orders have all been placed or refused, some placed, is in its runner context's live trades exactly when one of its orders is incomplete, unless `complete` says it should have been completed; without refusals `complete` is never true and the equivalence holds outright |
| BacktestRuns.OrdersAreSound | flumine/backtest/backtest.py:153-170 | after every such run each placed order satisfies the size accounting, and a live order that is executable or waiting has something left; while no reduction is negative nothing is cancelled below zero, but for LAY orders a starting price reconciled |
| BacktestRuns.OrdersAreRuns | flumine/backtest/backtest.py:109-185 | after every such run the state of every order placed is one that a run of the exchange leads to from its creation, so that every result about runs of an order holds of the orders of a backtest |
| Matching.WhatAnUpdateDoes | flumine/backtest/backtest.py:109-170 | over every such run, all that a market update does to a live order: a due package is delivered to it on the market before the update, then it makes one step of the exchange with the update if it is executable, and it ends execution complete exactly if nothing is left of it or it is reconciled |
| Matching.FrontFillsFromOwnRunner | flumine/markets/middleware.py:136-142 | an executable order at the front of its queue fills, in such an update, by the smaller of its remainder and the rounded halves of what traded on its own runner at its limit or better |
| TwoRunnersRun.OnlyItsRunnerFills | flumine/markets/middleware.py:136-142 | a run with an order on each of two runners in which just the one whose runner traded is filled |
| BacktestRuns.OpenOrdersAreLive | flumine/backtest/backtest.py:153-170 | at every point of such a run every open order is in the live orders exactly when no update, on coming to complete orders, finds a live one open in a complete trade; so it is when no order is placed in a complete trade, and then the trade of an open order is live |
| TradeSteps.WhenReplaced | flumine/execution/simulatedexecution.py:107-155 | a replace succeeds, is refused or raises exactly by the market's status, the order's type, the runner, the version and the price the client accepts |
| BacktestRuns.ReplaceIsAtomic | flumine/execution/simulatedexecution.py:116-155 | where the exchange takes the replacement the replace conserves stake across both orders, and the trade goes pending and back to live without completing or leaving its context |
| BacktestRuns.RefusedReplaceReopens | flumine/execution/simulatedexecution.py:135-155 | where it does not the cancel is not undone: the order is executable with nothing left and the trade holds an order never placed, so it cannot complete |
| BacktestRuns.ReplaceRefusedForItsVersion | flumine/execution/simulatedexecution.py:135-155 | a replace that is refused, for a version the market has left |
| BacktestRuns.OnlyDueIsDelivered | flumine/backtest/backtest.py:175-185 | an update takes out of the queue exactly the packages whose delay has passed and keeps the others in order, and where one of them raises keeps them all |
| Merge.ProcessEvent | flumine/backtest/backtest.py:58-80 | the event loop terminates and processes every update once, in order of publish time, each stream in its own order |
| Packaging.ExactlyOnce | flumine/execution/transaction.py:43-136 | over any sequence of requests, executes and exits, per kind and version what was sent followed by what waits is what was accepted, in order; `_pending_orders` says whether anything waits; after an exit nothing does |
| Packaging.PackagesAreWellFormed | flumine/execution/transaction.py:157-174 | every package ever sent is non-empty and within the limit of its kind |
| Packaging.PackagesCarry | flumine/execution/transaction.py:101-136 | the packages of an execute carry every order as often as it was requested |
| Fills.QueueClosedForm | flumine/backtest/simulated.py:323-355 | a pass over traded volume leaves queue max(0, Q - H) and fills min(R, max(0, H - Q)), off by at most half a penny per traded price and exact in even pence |
| Fills.FrontClosedForm | flumine/backtest/simulated.py:337-355 | at the front of the queue the fill is min(R, sum of the halves of the traded sizes, each rounded), in odd pence too |
| Fills.IterationOrderIsIrrelevant | flumine/backtest/simulated.py:326-335 | at the front of the queue, with nothing left, or in even pence the iteration order of the traded map changes neither queue, size, remainder nor average price |
| Fills.WhenOrderIsIrrelevant | flumine/backtest/simulated.py:326-355 | an order is out of reach of the iteration order, whatever has traded, exactly at the front of the queue, with nothing left, or as a LAY at the lowest price |
| Accounting.IterationOrderMatters | flumine/backtest/simulated.py:143-147 | a placement behind a penny after which the same traded map fills a penny in one order and nothing in the other |
| Accounting.SizeAccounting | flumine/backtest/simulated.py:375-387 | over every run the remainder is never negative, the size matched is the sum of the matches, the buckets add up to the size; while size reductions are not negative nothing is cancelled below zero or matched beyond the size but for a LAY that a starting price below its limit filled |
| Accounting.LimitPriceIsHonoured | flumine/backtest/simulated.py:370-373 | unless a starting price fills the order, reconciled or not, its rounded average matched price is at the limit or better |
| Accounting.OnCloseMatchesOnce | flumine/backtest/simulated.py:294-315 | over every run an order on close matches at most once, at a starting price its bound accepts, for its whole liability |
| Accounting.SpFlag | flumine/backtest/simulated.py:357-364 | an update reconciles an order exactly when the market is reconciled, a price is known, the order is not reconciled and is on close or persists by taking the starting price |
| Outcomes.NeverReconciled | flumine/backtest/simulated.py:36-59 | over every run a LIMIT order that is never set to take the starting price is never reconciled, so every match and its rounded average honour the limit without exception |
| Accounting.SpAtMostOnce | flumine/backtest/simulated.py:38-44 | over every run an order is reconciled at a starting price at most once |
| Accounting.SpFillRisk | flumine/backtest/simulated.py:274-315 | a BACK fill takes the whole remainder or liability; a LAY fill risks its risk or liability to within half a penny of stake |
| Accounting.SpOutcome | flumine/backtest/simulated.py:274-321 | exactly when a starting price fills an order, and when it lapses it instead |
| Accounting.LayOverfillsBelowLimit | flumine/backtest/simulated.py:283-289 | a LAY LIMIT order, partly cancelled or not, is matched beyond its size exactly when its risk buys more stake at the starting price than its unmatched size, and its cancelled size goes negative exactly when it buys more than what remains and was cancelled |
| Accounting.LayOverfills | flumine/backtest/simulated.py:283-289 | a run in which a LAY of 10.00 is matched for 20.00 |
| PriceLadder.MakePrices | flumine/utils.py:78-85 | for any valid band table the list is every in-range tick multiple in strictly increasing order and then the maximum price, increasing as a whole exactly when that lies above, and the ladder when the table ends there |
| PriceLadder.NearestIsNearest | flumine/utils.py:91-101 | for every real price no price of the table between the two constants it is clamped to is nearer than the one returned, and of two equally near it is the higher |
| PriceLadder.NearestIsMonotone | flumine/utils.py:91-101 | rounding to the ladder keeps order |
| PriceLadder.NearestFixesTheLadder | flumine/utils.py:91-101 | a price is its own nearest price exactly when it is on the table and within the constants |
| Analytics.TradedTelescopes | flumine/markets/middleware.py:183-197 | over any run the total emitted at a price is the rise of its listed volume plus everything it fell on the way |
| Analytics.EmittedIsTheRise | flumine/markets/middleware.py:168-197 | so it is at least the rise, and equal to it exactly when the volume never falls or disappears |
| Lifecycle.ContextLimits | flumine/strategy/strategy.py:138-173 | over every run of validated placements and completions live trades are duplicate-free, placed, and never more than `max_live_trade_count` |
| Lifecycle.WhenRequestIsLetThrough | flumine/strategy/strategy.py:138-173 | over every run, a request is let through exactly if it is another order of a live trade and the strategy allows it, or both counts are below their limits and the waits since the last placement and the last completion are over |
| Lifecycle.NeverLeftComplete | flumine/order/order.py:87-92 | no update leaves a live trade with all orders complete, except exactly the one that makes the last of them a violation |
| OneTradeRuns.StrandedByRefusal | flumine/order/order.py:115-118 | a run of the backtest that ends with nothing waiting, every order complete and their trade live and in its context's live trades |
| Simulation.Simulated.Place | flumine/backtest/simulated.py:61-166 | placement takes the state to PlaceStep of the old one, failures and voids included |
| Accounting.PlaceOutcome | flumine/backtest/simulated.py:61-152 | exactly when a LIMIT placement succeeds, what it fills at once, where it queues, and whether a failure voids or lapses the size |
| Outcomes.QueuePosition | flumine/backtest/simulated.py:143-147 | a placement that meets no offer matches nothing and queues behind the first level at the order's own price on the other side, or behind nothing where no level has it; one that meets an offer does not queue |
| Outcomes.OnCloseAcceptance | flumine/backtest/simulated.py:155-166 | an order on close is taken exactly on an open market with a starting price to come, not in play, with its runner there and for its version, and waits unmatched |
| Accounting.PlaceKeeps | flumine/backtest/simulated.py:61-166 | placement keeps an order sound; a failed one leaves nothing and matches nothing |
| Simulation.Simulated.MatchOrQueue | flumine/backtest/simulated.py:97-152 | a LIMIT order lapses on refused price improvement, matches at once, or joins the queue |
| Simulation.Simulated.JoinQueue | flumine/backtest/simulated.py:143-147 | the queue position is the size of the first level shown at the order's own price, and as before where none is |
| Simulation.Simulated.ProcessPriceMatched | flumine/backtest/simulated.py:252-272 | the loop over the book appends exactly the fills of the walk |
| Simulation.Simulated.Call | flumine/backtest/simulated.py:36-59 | one market update: starting price first, then lapse on suspension, then traded volume |
| Outcomes.UpdateOutcome | flumine/backtest/simulated.py:36-59 | everything an update can do to an order: wait for or take the starting price, lapse at a suspension it had not seen if it is a LAPSE order, or fill from what traded after its queue, each exactly when |
| Accounting.SuspensionLapses | flumine/backtest/simulated.py:49-54 | a LAPSE order loses its remainder exactly at a suspended update of a version it has not seen |
| Simulation.Simulated.ProcessSp | flumine/backtest/simulated.py:274-321 | reconciliation at a starting price for each order type and side |
| Simulation.Simulated.ProcessTraded | flumine/backtest/simulated.py:323-335 | the loop over traded prices processes those at the limit or better |
| Simulation.Simulated.CalculateProcessTraded | flumine/backtest/simulated.py:337-355 | half of a traded size works off the queue, then the order |
| Simulation.Simulated.UpdateMatched | flumine/backtest/simulated.py:370-373 | a match is appended and both averages recomputed |
| Simulation.Simulated.Cancel | flumine/backtest/simulated.py:190-214 | the cancel takes the state to CancelStep of the old one |
| TradeSteps.CancelRequestOutcome | flumine/order/order.py:306-319 | a cancel request is refused by its guard only above the remainder; once executed it takes the reduction, or everything for None or zero, and adds to the remainder exactly when the reduction is negative |
| TradeSteps.UpdateRequestOutcome | flumine/order/order.py:321-332 | when an update request is accepted, and that the order has the new persistence from then on |
| TradeSteps.ReplaceRequestOutcome | flumine/order/order.py:334-350 | when a replace request is accepted, and that it changes nothing but the price it is for |
| Accounting.NegativeReductionOverfills | flumine/backtest/simulated.py:197-209 | a run in which a cancel by minus 5.00 lets an order of 10.00 be matched for 15.00 |
| Simulation.Simulated.Update | flumine/backtest/simulated.py:216-243 | an update changes only the persistence, where it is enabled and something remains |
| Outcomes.PersistenceDecides | flumine/backtest/simulated.py:216-243 | after an update request is executed the persistence it asked for, if the market was open and let it change, decides whether the next market update reconciles or lapses the order |
| Simulation.Simulated.Profit | flumine/backtest/simulated.py:389-416 | the branches for one, two and more winners are one mix of 1/n of a win and (n - 1)/n of a loss, rounded to the penny |
| Settlement.ProfitIsTheMix | flumine/backtest/simulated.py:389-416 | the reported profit is that mix of the exact match profits to within the rounding of average and result; a loss is exact |
| Settlement.StepNoWorse | flumine/backtest/simulated.py:36-59 | no step of the exchange lowers what an order loses at worst on either outcome by more than the risk of what it adds, but for the rounded stake of a LAY starting price fill; a floor falls at all exactly when the step is a cancel by a negative size, executed on an open market |
| Settlement.RunSettlesAboveFloor | flumine/backtest/simulated.py:389-416 | no run settles an order below the floor it started from less the risk of what cancels added on the way |
| Wap.ComputeAverage | flumine/utils.py:185-195 | the loop computes total size and the rounded average price |
| Wap.AverageIsClose | flumine/utils.py:185-195 | size is the exact total and the price is off by at most half a hundredth |
| Wap.AverageHonoursLimit | flumine/utils.py:185-195 | if every match honours a limit so does the rounded average |
| Rounding.Round | flumine/utils.py:195 | rounding to 2dp on scaled integers: nearest, ties to even |
| Rounding.RoundMonotone | flumine/utils.py:195 | rounding keeps order |
| Exposure.GetExposures | flumine/markets/blotter.py:98-151 | the loop over the orders computes sums over those neither excluded nor in violation |
| Exposure.GetSelectionExposure | flumine/markets/blotter.py:85-96 | the least exposure that is not negative and covers both reported worst cases |
| Exposure.ReportedParts | flumine/markets/blotter.py:134-151 | the matched figures are the exact profit of the orders at a limit, rounded on a win, and the parts add up to the worst cases and so to the floors |
| Exposure.ExposuresAreFloors | flumine/markets/blotter.py:134-142 | the reported worst case on a loss is the exact floor, on a win it is off by the rounding of averages and two sums |
| Exposure.CalculateMatchedExposure | flumine/utils.py:147-166 | profit of the matched bets on both outcomes |
| Exposure.CalculateUnmatchedExposure | flumine/utils.py:169-182 | the unmatched bets that hurt on each outcome |
| Cap.ValidateExposure | flumine/controls/tradingcontrols.py:144-199 | the decision of the control for a PLACE |
| PriceLadder.Arange | flumine/utils.py:72-75 | all multiples from start up to stop |
| PriceLadder.OwnTableIsValid | flumine/utils.py:14-27 | the exchange's own cutoffs form a valid band table |
| PriceLadder.OwnLadder | flumine/utils.py:14-27 | the ladder of the exchange's own table, band by band |
| PriceLadder.NearestIsOnLadder | flumine/utils.py:91-101 | the nearest price is on the table for every price exactly when both constants are |
| PriceLadder.TicksAwayMoves | flumine/utils.py:137-144 | moves stay on the ladder and keep order, and are undone by moving back unless an end was passed |
| Packaging.ComputeChunks | flumine/utils.py:54-56 | the loop yields consecutive chunks |
| Packaging.ChunksSplit | flumine/utils.py:54-56 | chunks lose nothing and are full except for the last |
| Packaging.PackSends | flumine/execution/transaction.py:150-174 | the packages of a list send each version's orders once, in order |
| Packaging.GroupsAreFilters | flumine/execution/transaction.py:153-156 | grouping by version gives each version's orders in request order |
| Packaging.SentByKind | flumine/execution/transaction.py:101-126 | an execute sends placements, then cancels, then updates, then replaces |
| Matching.WhenARequestIsDue | flumine/backtest/backtest.py:175-185 | a request is due at the first update more than its latency later, with the bet delay for a placement or a replace; in the open transaction it waits for that to be executed |
| Matching.WhenATransactionIsDue | flumine/backtest/backtest.py:175-185 | what an execute of the open transaction sends joins the queue in its order and is due by the same latencies from then on |
| Requests.MarketTransaction.PlaceOrder | flumine/execution/transaction.py:43-70 | the control, the pending status, the blotter, the runner context and the list, in that order; placing an order twice raises with the order pending and not collected |
| Requests.MarketTransaction.CancelOrder | flumine/execution/transaction.py:72-79 | the control, the order's guard and status, and the list |
| Requests.MarketTransaction.UpdateOrder | flumine/execution/transaction.py:81-88 | the control, the order's guard, its persistence and status, and the list |
| Requests.MarketTransaction.ReplaceOrder | flumine/execution/transaction.py:90-99 | the control before the new price is set, the order's guard and status, and the list with its market version |
| Packaging.Transaction.CreateOrderPackage | flumine/execution/transaction.py:150-174 | the loops group and chunk a list of requests |
| Packaging.Transaction.Execute | flumine/execution/transaction.py:101-136 | all lists are packed, handed on and cleared |
| Packaging.Transaction.Exit | flumine/execution/transaction.py:179-181 | leaving the transaction executes what is pending |
| Lifecycle.RunnerContext.Place | flumine/strategy/runnercontext.py:19-25 | a trade is entered once in each list |
| Lifecycle.RunnerContext.Reset | flumine/strategy/runnercontext.py:27-35 | a trade leaves the live trades |
| Lifecycle.TradeObject.SetStatus | flumine/order/trade.py:51-56 | the status change and the completion it may trigger |
| Lifecycle.TradeObject.MarkComplete | flumine/order/trade.py:58-65 | completion and the reset of the runner context |
| Lifecycle.TradeObject.IsComplete | flumine/order/trade.py:67-77 | live with all orders complete |
| Lifecycle.TradeObject.Enter | flumine/order/trade.py:168-170 | entering the trade makes it pending |
| Lifecycle.TradeObject.Leave | flumine/order/trade.py:172-174 | leaving it makes it live, or complete if its orders are |
| Lifecycle.TradeObject.CreateOrder | flumine/order/trade.py:79-98 | a new order is appended to the trade |
| Lifecycle.OrderObject.SetStatus | flumine/order/order.py:87-118 | the status change, the cleared update data and the completion of the trade |
| Lifecycle.OrderUpdateOutcome | flumine/order/order.py:87-92 | the mutual recursion resolved: exactly when an order update completes its trade, and that it resets the context once |
| Lifecycle.TradeUpdateOutcome | flumine/order/trade.py:51-65 | the same for a trade update |
| Lifecycle.OrderObject.Cancel | flumine/order/order.py:306-319 | the guards of a cancel request |
| Lifecycle.OrderObject.Update | flumine/order/order.py:321-332 | the guards of an update request and the new persistence |
| Lifecycle.OrderObject.Replace | flumine/order/order.py:334-350 | the guards of a replace request |
| Execution.SimulatedExecution.ExecutePlace | flumine/execution/simulatedexecution.py:33-51 | the loop over a package of orders that may share trades and contexts, each placed inside its trade unless refused since: exactly the delivery of the package on the market's value |
| Execution.SimulatedExecution.ExecuteCancel | flumine/execution/simulatedexecution.py:56-76 | the same loop for cancels |
| Execution.SimulatedExecution.ExecuteUpdate | flumine/execution/simulatedexecution.py:82-101 | the same loop for updates |
| Execution.SimulatedExecution.ExecuteReplace | flumine/execution/simulatedexecution.py:107-155 | the same loop for replaces: cancel, new order of the trade, its placement and its entry into the live orders; a cancel that fails raises there and leaves its trade pending and the orders after it as they were |
| Matching.DeliverOneDoes | flumine/execution/simulatedexecution.py:33-155 | what the delivery of a package of each kind does to an order: the step of the exchange and the status it leaves, executable unless the placement failed, the cancel left nothing or a replacement took its place |
| Execution.SimulatedMiddleware.ProcessSimulatedOrders | flumine/markets/middleware.py:136-142 | the loop over the live orders matches the executable ones, with the completion a starting price brings |
| Matching.WhatMatchingDoes | flumine/markets/middleware.py:136-142 | every live executable order makes one step of the exchange with the book and its own runner's starting price and traded volume, and completes exactly if that reconciles it; every other order stays as it is |
| Execution.Backtest.ProcessBacktestOrders | flumine/backtest/backtest.py:153-170 | the loop over the live orders as they were completes those that are done and removes those of complete trades from the list it walks a copy of |
| Completion.WhatOnePassCompletes | flumine/backtest/backtest.py:153-170 | over a pass an order it looks at becomes execution complete exactly if it is at a limit with nothing left, or on close and reconciled, and otherwise stays; what is matched never changes |
| BacktestRuns.CompleteAllKeeps | flumine/backtest/backtest.py:153-170 | after the pass no live executable order has nothing left, and every invariant of the market holds |
| Completion.TwoPassesClear | flumine/backtest/backtest.py:153-170 | a pass completes every live order that is done; the next takes off exactly the live orders of complete trades that are left |
| Completion.WhatOnePassLeaves | flumine/backtest/backtest.py:153-170 | which trades one pass leaves complete and which live orders it takes off, told before it: an order goes exactly when its trade is complete or will be by the time the pass has looked at the orders up to it |
| Completion.WhenOnePassClears | flumine/backtest/backtest.py:153-170 | one pass leaves no live order of a complete trade exactly when no order of a trade it will complete comes before the one that completes it |
| OneTradeRuns.LeftByOnePass | flumine/backtest/backtest.py:153-170 | a run of the backtest whose last update leaves a live order of a complete trade |
| Completion.WhenOpenOrderIsLost | flumine/backtest/backtest.py:168-169 | a pass takes an open order with something left off the live orders exactly when its trade was complete before |
| OneTradeRuns.OpenOrderIsLost | flumine/backtest/backtest.py:168-169 | a run in which an order placed in a complete trade is taken off the live orders while it waits and then becomes executable, so that no update matches it |
| BacktestRuns.StepKeeps | flumine/backtest/backtest.py:109-147 | every step keeps the invariants behind the results about runs of a backtest; due packages are executed against the book before the update |
| Analytics.RunnerAnalytics.Call | flumine/markets/middleware.py:168-181 | the effect of an update, with the shortcut for an unchanged list |
| Analytics.RunnerAnalytics.CalculateTraded | flumine/markets/middleware.py:183-197 | the loops compute the difference and cache the new volumes |
| Analytics.LastEntryCounts | flumine/markets/middleware.py:183-186 | of the entries listed for a price the last one counts |
| Analytics.ShortcutAgrees | flumine/markets/middleware.py:173-174 | the shortcut reports what the full difference would |
| Blotter.BlotterIndex.SetItem | flumine/markets/blotter.py:166-173 | a fresh order extends every index by itself: each stays the insertion-ordered filter of all orders by its key |
| Blotter.BlotterIndex.CompleteOrder | flumine/markets/blotter.py:155-156 | a live order leaves the live orders, which stay a duplicate-free part of all orders |
| Blotter.BlotterIndex.StrategySelectionOrders | flumine/markets/blotter.py:47-51 | exactly the orders with that strategy, selection and handicap, in insertion order |

## Left out

- Exposure.ExposureBoundsSettlement: for a winning selection the bound carries the stated rounding slack, because the code compares exposures and profits that are rounded separately; `Exposure.ExactExposureBoundsSettlement` is the bound before that rounding.
- Cap.CapIsInvariant: a replace is an action whether or not the control accepted it earlier, so every run of the code is among the runs.
- BacktestRuns.InFlightExclusivity: removed runners, closed markets and a replace whose cancel fails, which ends the backtest with an exception, leave the modelled code. One market and one open transaction, any number of immediate ones.
- BacktestRuns.TradeLiveness: over the runs that are orderly (`BacktestRuns.InFlightExclusivity`); `offset_orders`, which nothing in the repository fills, are taken as empty.
- Execution.SimulatedExecution.ExecuteReplace: where a cancel fails, the order without a size that the code has appended to the trade when it raises is not in the model.
- Lifecycle.ContextLimits: the base `validate_order`; strategies may override it.
- The dispatch of queued packages and the loop over the queue are functions on the market's value (`Protocol.Check`); the loops over a package and over the live orders are on the objects.
- `get_exposures` reads the orders as values; the blotter's indexes hold what an order is filed under.
- Runner removal: voids, reduction factors and `_calculate_matched`; a void after a partial cancel makes the remainder negative, and scaled prices can worsen a hedged position.
- `process_closed_market` and the market's number of winners: the outcome of a selection is a parameter.
- The minimum size checks of `OrderValidation`, `MarketValidation` and the client controls: further refusals of a request, a parameter of a run where it matters. That a LIMIT size or a liability is positive is modelled.
- Order limits per package come from betfairlightweight, which is not part of this model: any positive limits.
- Starting prices and offers at or below 1.00, which no exchange quotes; such a starting price divides by zero in the code.
- Binary floating point: all amounts are exact decimals.
- Clocks, identifiers, logging, responses and market notes: time is an input of each step, orders are named by their place.
- Streams, files, sessions, thread pools, workers, live execution and the processing of exchange replies.
