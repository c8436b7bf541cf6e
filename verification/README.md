# Verified model of tradebin-mm

tradebin-mm is a market-making bot for an on-chain order book. It keeps a ladder of
orders around the spread, trades with itself to make volume, and sends everything through
one broadcaster. This project models that logic in Dafny and proves what it keeps.

* **Prices** are decimals with 18 places, kept as raw integers (`Decimals.dfy`). Their
  text form is modelled down to the characters (`PriceText.dfy`), because the ladder looks
  its own orders up by trimmed text. `GridTruncation.dfy` reads the number of decimals off
  the printed step, as the code does.
* **The order filler** (`Orders.dfy`, `StableSorting.dfy`, `CancelSelection.dfy`,
  `StartPrice.dfy`, `Ladder.dfy`, `OrderFiller.dfy`) cancels what is too much, finds the
  start price, and lays the two ladders. `IsLadder` says what a ladder is without any loop;
  the loop is proved to produce exactly that. `SpreadMode.dfy` proves that new orders do not
  cross the book, `HistoryMode.dfy` exactly when they do without spread mode,
  `FixedPoint.dfy` that the book a cycle leaves behind leads the next cycle to the same
  price and to nothing new, `CycleRuns.dfy` carries this over runs of cycles, and
  `FillerRuns.dfy` over what runs of `FillOrderBook` submit. `FillerOutcome.dfy` says what one
  run does in terms of configuration, answers and batches alone.
* **The volume maker** (`VolumeProtocol.dfy`, `Volume.dfy`, `VolumeOutcome.dfy`) is a class
  whose every cycle is a run of a small machine; the budget and cadence theorems are about
  all runs of it.
* **The broadcaster** (`SequenceProtocol.dfy`, `Broadcaster.dfy`) is proved the same way
  against a chain that foreign transactions and late deliveries move at any time.
* **The cache, the read-through and the keyed lock** (`CacheProtocol.dfy`,
  `MemoryCache.dfy`, `OrderProvider.dfy`, `KeyedLock.dfy`) are state machines over their
  critical sections, with the classes beside them.

Random draws are functions of an arbitrary natural number, so every statement holds for
every draw. Clock readings, query answers, accepted or refused submissions and lost answers
are parameters or arbitrary choices. A broadcast's services are a parameter that says which of
them answer favourably.

## What the proofs found

* The start price is found again by the next cycle exactly in the cases of
  `FixedPoint.KeepsStart`. With orders on both sides it always is. With h half-spread steps
  and start price P: an empty book needs h = 0 or P > (h+1)·step; a book with buys only needs
  h ≤ 1; a book with sells only needs h = 0 or P ≤ (h+1)·step.
* Between two best prices the start is half of the gap in whole steps below the best sell,
  and one step lower exactly when the gap misses the next even number of steps by no more than
  the two roundings add (`StartPrice.RoundsUp`). With a step of 1, a buy the least bit above 1
  and a sell at 3 start at 2. It never happens while the step is at most two thirds of 10^18
  grid units.
* The carousel's budget bound, initial + (max − min), holds over all runs exactly when
  `VolumeProtocol.OverrunsOnce` does. It fails when the minimum is zero (a configured minimum
  between 0 and 1 passes validation and is cut to zero), extra volume is added every time,
  and a positive amount and extra can be drawn.
* In history mode new orders cross the book exactly when the last price is positive and
  between the best prices (an empty side counts as zero), and truncated it is the best buy
  of a non-empty side (after a buy) or the best sell (after a sell). Otherwise, and whenever
  the last price is not used, every new sell is above the best buy and every new buy below
  the best sell.
* A step with more than six decimals is not on the grid that prices are truncated to; one
  of 10^-7 truncates prices to whole numbers.
* A cache entry can be lost before its own callback, without being replaced, exactly when
  another timer of its key is pending. A `Set` leaves one behind exactly when a callback of
  the key had already fired, or such a timer was already there: neither is stopped.
* A spread strategy that spends everything under a zero minimum is kept by every cycle and
  never trades again.
* A cached order's key belongs to that order alone exactly when market, type and id have no
  underscore. The read-through only needs type and id to have none.
* Two comments differ from the code, and the code is what is modelled: `MustRandomInt` draws
  below its maximum, not up to it, and `MakeVolume` goes on after logging that it is stopped
  by a maximum of zero.

## Assumptions

* `step > 0`, and for the theorems about spread mode the step is a multiple of 10^-6 and the
  book's prices are positive, on the grid of the step's decimals, sorted away from the spread
  and uncrossed. The ladder loop itself needs none of this for its termination bound.
* The minimum order amount does not exceed the maximum, and the extra minimum does not exceed
  a positive extra maximum: the random draw panics otherwise, and validation does not check it.
* The volume strategy is "carousel" or "spread"; the latter needs both book sides non-empty.
* Simulation and broadcast refuse a wrong sequence, and the chain's next sequence only grows.

## Model

| member | source | states |
|---|---|---|
| PriceText.TextRoundTrip | app/internal/amount.go:11-22 | parsing the trimmed 18-decimal text gives the decimal back, for every decimal of either sign |
| PriceText.TextInjective | app/orders.go:184-184 | two decimals have the same canonical text exactly when they are equal, so the text lookup is numeric |
| PriceText.CanonicalOfAnyText | app/orders.go:145-154 | an owned order is found at a price exactly when its text, however written, denotes that price |
| PriceText.TextIsTrimmed | app/internal/amount.go:11-22 | the canonical text has no zero too many before the whole part or at the end of the decimals, and no dot without decimals |
| PriceText.TrimCuts | app/internal/amount.go:11-22 | for any text: without a dot it is kept, else exactly the zeros at its end go, and a dot that then stands last |
| PriceText.ParseValue | app/orders.go:149-149 | the value of every decimal text, each digit in its place |
| PriceText.ParsesIff | app/orders.go:149-149 | exactly an optional minus sign, digits, and at most eighteen digits after a dot are a decimal |
| PriceText.TrailingZeroIsNothing | app/orders.go:148-150 | a further zero after the dot leaves the value |
| PriceText.RenderRoundTrip | app/volume.go:279-279 | the untrimmed text has eighteen decimals and parses back |
| Orders.BuildPricesMap | app/orders.go:145-154 | the map holds the texts of exactly the owned prices, and membership by text is membership by value |
| Orders.MustRandomInt | app/internal/orders.go:33-51 | the draw lies in the range, strictly below the maximum unless the range is one value |
| Orders.EveryValueIsDrawn | app/internal/orders.go:43-47 | every value from the minimum up to below the maximum can be drawn |
| GridTruncation.StepDecimalsLeast | app/internal/amount.go:27-28 | the counted decimals are the least that write the printed step, at most six |
| GridTruncation.StepOnGridIff | app/internal/amount.go:24-38 | the step lies on its own grid exactly when it is a multiple of 10^-6 |
| GridTruncation.TruncateIsGreatest | app/internal/amount.go:30-34 | truncation gives the greatest grid price not above the input |
| GridTruncation.TruncateIdempotent | app/internal/amount.go:30-34 | truncating twice is truncating once, and grid prices are kept |
| GridTruncation.TruncateMonotone | app/internal/amount.go:30-34 | truncation keeps the order of prices |
| GridTruncation.TruncateCommutesWithSteps | app/orders.go:125-136 | truncation commutes with moving by whole steps, so rungs stay on the grid |
| GridTruncation.PrintsNearest | app/internal/amount.go:27-27 | the printed step is the nearest with six decimals |
| GridTruncation.TruncateTowardZero | app/internal/amount.go:34-34 | negative prices are truncated as mirror images |
| GridTruncation.TinyStepTruncatesToWholes | app/internal/amount.go:27-34 | a step of 10^-7 makes every price truncate to a whole number |
| StartPrice.HalfStepsExact | app/orders.go:309-309 | for every gap and step: half of the gap in whole steps, plus one exactly when the gap misses the next even number of steps by no more than the roundings |
| StartPrice.NoRoundingUp | app/orders.go:309-309 | on a grid of u with 3·step ≤ 2·10^18·u nothing is rounded up |
| StartPrice.StartExactly | app/orders.go:302-312 | the exact start price between any two book prices |
| StartPrice.RoundedUpStart | app/orders.go:309-310 | a gap of less than two steps that is nevertheless taken for two |
| StartPrice.StartPriceBounds | app/orders.go:302-312 | the raw start lies above the best buy and not above the best sell, whole steps below the sell, its distances less than two steps apart |
| StartPrice.WholeGapIsHalved | app/orders.go:302-312 | on a gap of k whole steps the start is exactly k/2 steps, rounded down, below the best sell |
| StartPrice.AlignedStart | app/orders.go:120-128 | on an aligned book the start price survives truncation and lies inside the spread |
| Ladder.ScanIsMembership | app/orders.go:195-214 | on a sorted list of one type the early-exit scan finds a price exactly when the list has it |
| Ladder.ClimbIsLadder | app/orders.go:180-239 | the ladder's rungs are one step apart and of the right kind, none follows once enough are counted, and the end has its reason |
| Ladder.LadderIsClimb | app/orders.go:180-239 | no other ladder meets that description |
| Ladder.ClimbCoverage | app/orders.go:182-239 | rung i lies i steps from the start and is owned, on the book, or newly placed |
| Ladder.ClimbAccounting | app/orders.go:182-239 | placed and owned rungs together equal the needed number exactly when no non-positive price was reached |
| Ladder.PlacedOrders | app/orders.go:216-239 | placed prices are positive, neither owned nor on the book, and run strictly away from the spread |
| Ladder.PassesBounded | app/orders.go:182-239 | rungs are at most the needed orders plus the distinct book prices still ahead |
| Ladder.PassesAtMost | app/orders.go:182-239 | for any book, rungs are at most the needed orders plus the length of the book |
| OrderFiller.Filler.ScanBook | app/orders.go:195-214 | the loop over the book computes the early-exit scan |
| OrderFiller.Filler.VisitRung | app/orders.go:183-232 | one pass classifies the price as a ladder does, or stops for a mismatch or a non-positive price, and adds the one message of a placed rung |
| OrderFiller.Filler.LayLadder | app/orders.go:180-239 | the loop ends within the pass bound for any book, reports a type mismatch exactly when the ladder meets one, and its messages place exactly the ladder |
| OrderFiller.Filler.FillOrders | app/orders.go:156-249 | one batch with the placed rungs at their canonical texts is submitted, or nothing when there are none or the types mismatch |
| OrderFiller.Filler.FillBothSides | app/orders.go:131-140 | sells climb from the start price, then buys descend from one step below it, only if the sells went through |
| OrderFiller.Filler.CancelExtraOrders | app/orders.go:315-333 | at most one cancel batch a side, the sells only after the buys were accepted, the wallet's prices unchanged by the sort |
| OrderFiller.Filler.CancelOrders | app/orders.go:335-348 | the first orders of the list are cancelled, each by market, id and type |
| OrderFiller.Filler.FillOrderBook | app/orders.go:87-143 | the whole cycle: which batches are submitted in which order, and which error is returned, for every answer of the queries |
| FillerOutcome.HoldsBack | app/orders.go:365-382 | no create message and no error when the last trade is unknown, or had another maker or another taker and the hold-back has not passed |
| FillerOutcome.FillsOtherwise | app/orders.go:109-143 | in every other case the placed rungs of both ladders are submitted in order with amounts in range, the buys only after accepted sells; which error is returned when |
| FillerOutcome.SortedNeverMismatches | app/orders.go:197-199 | on a sorted book of one type the ladder never meets another type |
| FillerOutcome.FirstSell | app/orders.go:169-178 | the place ⌊S/2⌋ steps above the start price holds the first new sell whenever it is free |
| FillerOutcome.FirstBuy | app/orders.go:136-137 | the place one step and ⌊S/2⌋ steps below the start price holds the first new buy whenever it is free |
| FillerOutcome.NearestNewOrders | app/orders.go:169-178 | the nearest new sell and buy are then exactly 2·⌊S/2⌋+1 steps apart |
| FillerOutcome.NewSellsOnSteps | app/orders.go:233-238 | every new sell is whole steps above the first place |
| FillerOutcome.NewBuysOnSteps | app/orders.go:233-238 | every new buy is whole steps below the first place |
| FillerOutcome.StartWithoutTrade | app/orders.go:257-271 | an unknown, non-positive or outlying last price leaves the start to the spread |
| FillerOutcome.StartInTheMiddle | app/orders.go:302-312 | on a healthy book with both sides the start is half of the gap in whole steps below the best sell |
| FillerOutcome.StartOnOpenBook | app/orders.go:283-300 | with an empty side: the best sell, or one step above the best buy, or the configured price cut to the grid |
| FillerOutcome.CancelsExactly | app/orders.go:99-107 | nothing is cancelled up to five orders above both counts; beyond, each side is cut to its own count, the farthest orders first, the sells only after accepted buys |
| StableSorting.SortStable | app/internal/orders.go:19-30 | the array is sorted in place to the stable sort of its old contents |
| StableSorting.StableSortSorts | app/internal/orders.go:19-30 | the result is sorted and keeps the order of equal prices |
| StableSorting.StableSortUnique | app/internal/orders.go:19-30 | no other arrangement is sorted and stable |
| CancelSelection.SortOrdersByPrice | app/internal/orders.go:13-31 | ascending or, reversed, descending by price, in place |
| CancelSelection.CancelPartitions | app/orders.go:315-348 | cancelled and kept orders together are the wallet's orders of the side, as multisets |
| CancelSelection.Kept | app/orders.go:316-330 | exactly the smaller of the number of orders and the configured count stay |
| CancelSelection.SurvivorsAreCloser | app/orders.go:315-348 | every kept order is at least as close to the spread as every cancelled one, on both sides |
| CancelSelection.CancelledOnce | app/orders.go:335-340 | no order is cancelled twice |
| SpreadMode.NewSellsDoNotCross | app/orders.go:120-134 | in spread mode every new sell is above the best buy |
| SpreadMode.NewBuysDoNotCross | app/orders.go:120-140 | in spread mode every new buy is below the best sell |
| SpreadMode.SpreadStaysEmpty | app/orders.go:169-178 | any new sell exceeds any new buy by at least 2·⌊S/2⌋+1 steps |
| HistoryMode.HistoryModeCrossing | app/orders.go:251-281 | without spread mode, for every answer of the history and every healthy book, all new orders stay clear of the other side exactly when the last trade was not used, or was not at the best price of its own side |
| HistoryMode.StartFromLastTrade | app/orders.go:267-280 | a used last trade starts at its truncated price, one step up after a sell |
| HistoryMode.CrossesAtOwnBest | app/orders.go:273-280 | otherwise a sell is placed at the best buy, or a buy at the best sell |
| FixedPoint.SameStartBothSides | app/orders.go:302-312 | the first rungs P+h·step and P−(h+1)·step, with the old best prices, give the start price P again |
| FixedPoint.StartAgain | app/orders.go:120-137 | the second cycle starts from the same price if and only if KeepsStart holds |
| FixedPoint.NothingNew | app/orders.go:182-239 | climbing again over rungs that are owned or on the book by now places nothing |
| FixedPoint.SecondCycleIsDone | app/orders.go:87-143 | the second cycle finds the same start price and places neither sells nor buys |
| FillerRuns.FilledSends | app/orders.go:216-249 | the price texts of the messages a run submitted denote exactly the prices its ladders placed |
| FillerRuns.OnlyFirstRunCreates | app/orders.go:87-143 | if every run sees the book and own orders of the run before with the messages that run submitted, no run after the first submits a create message, and none fails |
| CycleRuns.BookAfterJoins | app/orders.go:248-248 | a book that shows the placed orders beside the old levels exists for every ladder |
| CycleRuns.RunsExist | app/orders.go:87-143 | from any sorted book, runs of undisturbed cycles of every length exist, whatever the trade history answers |
| CycleRuns.StaysHealthy | app/orders.go:87-143 | an undisturbed cycle keeps the book sorted, aligned, uncrossed and showing all own orders |
| CycleRuns.RunPlacesOnce | app/orders.go:87-143 | over a whole run of cycles the start price never changes and only the first cycle places orders |
| SequenceProtocol.StepKeepsInv | app/service/broadcaster.go:119-279 | every step of a broadcast, a foreign transaction and a late delivery keep the sequence invariant |
| SequenceProtocol.CacheNeverAhead | app/service/broadcaster.go:123-126 | over every run a valid cache is behind the chain by exactly the foreign transactions and late deliveries since the last acknowledged broadcast: never ahead, and equal if and only if there were none |
| SequenceProtocol.SequencesNeverReused | app/service/broadcaster.go:274-278 | over every run accepted transactions have strictly increasing sequences |
| SequenceProtocol.OneRefusalPerDivergence | app/service/broadcaster.go:217-220 | over every run there are no more refusals for a wrong sequence than moves of the chain the broadcaster did not see |
| SequenceProtocol.RefusalResynchronises | app/service/broadcaster.go:269-273 | after a refusal the next broadcast queries, and is not refused for its sequence again until somebody else moves the chain |
| SequenceProtocol.LostAnswer | app/service/broadcaster.go:265-267 | a transport error leaves the cache; if the transaction did arrive the cache is one behind and the next simulation fails |
| Broadcaster.Broadcaster.Broadcast | app/service/broadcaster.go:108-282 | one call is a run of the protocol; the first step that fails decides the error; one transaction with the messages, sequence and account is handed to the chain exactly when everything before succeeded; each exit leaves the cache valid, invalid or untouched |
| Broadcaster.Broadcaster.ChooseSequence | app/service/broadcaster.go:119-151 | a valid cache is used as it is, else sequence and account number come from the chain |
| Broadcaster.SucceedsIff | app/service/broadcaster.go:108-282 | a broadcast succeeds if and only if there are messages, every service answers favourably, and the sequence is the chain's next one at simulation and at broadcast |
| Broadcaster.BroadcasterNeverAhead | app/service/broadcaster.go:63-75 | the exact lag of the cache and the account number, for any broadcaster between two calls |
| CacheProtocol.GetIsLatestOrMiss | app/cache/memory_cache.go:38-48 | over every interleaving Get returns the latest Set of the key or misses, and a present entry's own timer has not run |
| CacheProtocol.GetAnswers | app/cache/memory_cache.go:38-74 | over every interleaving Get answers the data of the last Set exactly unless a callback of the key has run since |
| CacheProtocol.QuiescentIsEmpty | app/cache/memory_cache.go:61-65 | once no timer is pending the cache is empty |
| CacheProtocol.SetLeavesStaleIff | app/cache/memory_cache.go:56-71 | a Set leaves a stale pending callback exactly when one of the key was out of reach of Stop |
| CacheProtocol.EntryLivesUntilOwnCallback | app/cache/memory_cache.go:61-65 | over every run without a Set of its key, an entry that no stale timer threatens is there exactly until its own callback |
| CacheProtocol.LostEarlyIff | app/cache/memory_cache.go:56-71 | some run loses an entry before its own callback if and only if a stale timer of its key, armed or fired, is pending |
| CacheProtocol.StaleCallbackDropsNewEntry | app/cache/memory_cache.go:56-71 | a callback that waits while Set replaces its entry deletes the new one |
| MemoryCache.InMemoryCache.Get | app/cache/memory_cache.go:39-48 | the entry's data, or nothing |
| MemoryCache.InMemoryCache.Set | app/cache/memory_cache.go:51-74 | the protocol's Set: old timer stopped if still armed, new timer and entry stored |
| MemoryCache.InMemoryCache.RunCallback | app/cache/memory_cache.go:61-65 | the callback deletes its key, whichever entry stands there |
| OrderProvider.KeyInjective | app/data_provider/order.go:198-200 | two orders share a key exactly when they are the same, if type and id have no underscore |
| OrderProvider.KeyIsOwnIff | app/data_provider/order.go:198-200 | among all orders, a key belongs to one alone if and only if market, type and id have no underscore |
| OrderProvider.ReadThroughAgrees | app/data_provider/order.go:99-132 | over every interleaving a returned order is one the chain returned for that market, type and id, and a hit's timer has not run |
| OrderProvider.OrderDataProvider.GetCachedOrder | app/data_provider/order.go:99-132 | a hit changes nothing, a miss answers and stores what the chain says for that very order, an error stores nothing |
| KeyedLock.MutualExclusion | app/lock/in_memory.go:21-32 | over every interleaving no two threads are in one key's section |
| KeyedLock.OneMutexPerKey | app/lock/in_memory.go:22-22 | threads that loaded a key at any two moments hold the same mutex, and different keys never share one |
| KeyedLock.BlockedOnlyByOwnKey | app/lock/in_memory.go:21-24 | a waiting thread can acquire exactly when no thread is in its key's section |
| KeyedLock.UnlockFreesOwnMutex | app/lock/in_memory.go:27-32 | unlocking finds and frees the very mutex that was locked |
| KeyedLock.InMemoryLocker.Load | app/lock/in_memory.go:21-23 | load-or-store keeps the first mutex of a key |
| KeyedLock.InMemoryLocker.Unlock | app/lock/in_memory.go:27-32 | the holder's unlock is the protocol's two steps |
| VolumeProtocol.CarouselBudget | app/volume.go:184-190 | over every run of these configurations a strategy acknowledges at most its first budget plus max − min |
| VolumeProtocol.CarouselBudgetIff | app/volume.go:232-242 | that bound holds over all runs if and only if the configuration is one of OverrunsOnce |
| VolumeProtocol.OverrunsWithoutEnd | app/volume.go:337-342 | with a zero minimum and an extra trade every time, a spent strategy is kept and overruns by any margin |
| VolumeProtocol.OverrunIsLast | app/volume.go:337-342 | only an extra trade overruns, and with a positive minimum only a replacement can follow |
| VolumeProtocol.RemainsWhatIsLeft | app/dto/volume_strategy.go:36-42 | over every run, whatever the configuration, what remains is the first budget less the acknowledged volume, clamped at zero, so never negative |
| VolumeProtocol.TradesOnlySpend | app/volume.go:184-190 | from every state a run reaches, whatever the configuration, what remains never grows while the strategy lives and shrinks with each trade until it is zero |
| VolumeProtocol.CanTradeIff | app/volume.go:337-348 | a strategy with enough budget to be kept can trade exactly when a positive amount can be drawn and something remains or a carousel can add extra volume |
| VolumeProtocol.SpreadConserves | app/volume.go:290-294 | acknowledged amounts equal initial minus remaining, each lies in [min, max], the budget in [5·min, 5·max], and trades are at most initial / min |
| VolumeProtocol.ExtraCadence | app/volume.go:507-510 | without failures the count is the number of all trades, and (N−1)/extraEvery of the first N carry extra volume |
| Volume.ChosenSideTrades | app/volume.go:396-460 | the chosen side can be paid and traded; a carousel prefers its own first order, else the smaller one |
| Volume.SpreadPossibleIff | app/volume.go:262-277 | the spread price is possible exactly when the spread is at least one step wide |
| Volume.VolumeMaker.MakeBaseStrategy | app/volume.go:483-523 | a fresh strategy with a budget drawn from [5·min, 5·max] and the old count, or none without orders |
| Volume.VolumeMaker.GetStrategy | app/volume.go:323-384 | the strategy is kept exactly when it can trade on, replaced when the wallet has orders for the chosen side, else dropped |
| Volume.VolumeMaker.MakeCarouselOrder | app/volume.go:207-255 | the amount is the least of a draw, the level and, without extra, the budget; the messages add the extra on both sides |
| Volume.VolumeMaker.MakeSpreadOrder | app/volume.go:257-317 | equal opposite orders one step inside the spread, of the lesser of a draw and the budget, or none exactly when there is no room |
| Volume.VolumeMaker.AckOrder | app/volume.go:184-190 | the remaining amount, the count and the last run change as a trade of the protocol |
| Volume.VolumeMaker.MakeVolume | app/volume.go:100-182 | one cycle is a run of the protocol; for all answers of the queries, which strategy is used, when a batch is sent and when none, what it holds, which error is returned, and that acceptance is the trade while refusal drops the strategy |
| VolumeOutcome.KeepsIff | app/volume.go:337-384 | a strategy is kept exactly when its minimum is left and a carousel's level is one whole own order of the same price, type and amount |
| VolumeOutcome.ReplacesWith | app/volume.go:386-460 | the side of a new strategy from balances, books, own levels and last trade; its budget, count and first due time; none without own orders |
| VolumeOutcome.EndsWith | app/volume.go:100-182 | which failure or delay ends a cycle, and with which error |
| VolumeOutcome.TradesIff | app/volume.go:100-182 | a batch is sent exactly when everything answers, the trade is due, no last trade stands in the way, and price and amount come out right |
| VolumeOutcome.TradeAmount | app/volume.go:230-242 | the amount is the draw, cut to the level and to what remains as the code does; the extra amount is drawn exactly in its slot |
| VolumeOutcome.CarouselBatch | app/volume.go:207-255 | one order at the level's price that the level and the extra volume beside it fill, leaving the level its non-negative rest |
| VolumeOutcome.KeptCarouselTradesWithItself | app/volume.go:350-384 | a kept carousel trades against one whole own order of the other side at the same price that is large enough |
| VolumeOutcome.SpreadBatch | app/volume.go:257-317 | two equal opposite orders, the strategy's first, at the price one step inside the spread |
| Volume.SendsIff | app/volume.go:100-182 | a batch is sent exactly when all queries answer, a strategy is there, it is time, the market is quiet and has room, and the amount comes out positive; with a positive minimum draw and budget never prevent it |
| Volume.SpentSpreadIsKept | app/volume.go:337-348 | with a zero minimum a spread strategy that has nothing left is kept by every cycle and sends nothing |
| Volume.PlannedIsEnabled | app/volume.go:230-242 | the drawn, capped trade is one the protocol allows exactly when its amount is positive |
| Volume.MakerKeepsBudget | app/volume.go:184-190 | the budget statements for any maker between two cycles |
| Volume.VolumeStrategy.SetRemainingAmount | app/dto/volume_strategy.go:36-42 | the remaining amount is set and clamped at zero |

## Left out

- GridTruncation.Millionths: rounds the exact step to six decimals, so the inexactness of float64 for very large steps is not modelled.
- PriceText.Parse: does not accept the second sign that the big-integer parser of the SDK lets through.
- StableSorting.SortStable: sorts by insertion; the library's own sorting algorithm is not modelled, only what determines its result.
- FixedPoint.AfterCycle: nothing is traded or cancelled between the two cycles (nor between the runs of FillerRuns.SeesSent), and the wallet's own list is complete (the query's page limit is not modelled).
- SequenceProtocol.Apply: the chain has one next sequence; a transaction that is accepted and later evicted, which would lower it, is not modelled.
- Volume.IsMyOrder: compares amounts as integers, the code as texts; the chain writes an amount in one way only.
- Size limits of decimals and integers, and wrap-around of 64-bit counters and sequences.
- Configured strategy texts other than "carousel" and "spread", which the code treats differently in two places.
- Wallet addresses and market ids inside create messages, logging, fees and gas.
- The goroutines of the two book queries and the loop that collects the wallet's own orders; their answers are parameters.
- Loading the configuration, the grpc client, wallet derivation, withdrawing, cancelling everything, the restart loop: plumbing around the modelled logic.
