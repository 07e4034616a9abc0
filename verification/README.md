# Verified models of the NSE dashboard

Dafny models of the parts of the NSE dashboard that carry state, concurrency or numeric loops, with proofs of what those
parts are for. Each module names the source file it models. Prices and money are exact reals; Python's rounding to cents is
kept where a rounded value is used again (the summary that the opening checks of the paper portfolio read, and the capital
that the backtester carries from trade to trade).

| module | models |
|---|---|
| `MaxPain` | the max-pain strike of an option chain |
| `Series`, `Chartink`, `SuperTrend` | pandas exponential means with missing cells, the MACD trend screen, the SuperTrend bands |
| `Projections` | bear, base and bull price paths |
| `Idempotency`, `IdempotencyProtocol` | the task stores, one call of `execute_once`, and all interleavings of its callers |
| `MarketScan`, `AlertStore` | the buy and sell lists of a scan, saved scans and alerts behind claimed task keys |
| `RateLimiting` | the token bucket and the reconnect loop |
| `Position`, `Portfolio`, `PaperPortfolioService` | one paper position, the account as a function of its state, the mutable service |
| `TradeSimulation`, `Backtest`, `BacktestReport` | one simulated trade, the capital slots, drawdown and streaks |
| `Cache`, `SingleFlight` | the expiring cache and the double-checked market scan |
| `PurgedSplit` | walk-forward folds with an embargo |

The mutable parts of the source are classes and loops here. Each method is proved against a function of the old state, and
the properties are proved about runs of those functions.

## Where the code does less than expected

- A task result of None overwrites a stored value. A worker that was already past the result check can complete with None
  after another one completed with a value; the next check then runs the operation again.
  `IdempotencyProtocol.StickyExactly` shows that stored values stay visible in every run in which none expires if and only
  if the operations cannot return both values and None. Even then an operation can run as often as workers got past the
  check before the first result (`IdempotencyProtocol.CompletionBound`, attained by `IdempotencyProtocol.BoundAttained`).
- The docstring of the memory store promises the ownership semantics of the Redis store, but only the memory store checks
  ownership when it completes. In either store a worker owns its lock exactly until it expires
  (`IdempotencyProtocol.OwnsExactly`), so the difference shows once a Redis lock has expired:
  `IdempotencyProtocol.StaleOwnerWrites` is a run in which the result of such a worker is written over a running owner.
- `build_projections` says that it requires a positive market capitalisation, but only refuses a missing or zero one. Its
  caller drops capitalisations below 500 crore, so this shows in direct calls only. With a negative one and no earnings, all
  prices are negative and ordered bear above base above bull (`Projections.ScenariosOrdered`). With a positive current price
  such a projection is reported for a single year; for a longer range the growth rate is complex and rounding it raises,
  unless all last prices round to zero (`Projections.ReportedExactly`). With earnings `Projections.OrderedExactly` gives the
  exact condition for 0 < bear < base < bull and `Projections.EitherOrder` instances of both orders and of ordered negative
  prices. A negative current price with a positive capitalisation raises in the same way.
- `PaperPortfolioService.get` with market prices can lift the high water mark more than 10% above the equity at cost without
  pausing the account, and it saves before it marks, so a restart can bring back an older mark. `Portfolio.LatchedExactly`
  and `Portfolio.RestartsExactly` give the exact conditions over all runs, `Portfolio.ReportCanUnlatch` a run that shows
  both.
- After a gap the lower SuperTrend band can lie above the upper one, and the bullish line can fall on the bar after a flip
  (`SuperTrend.LineCanFallAfterFlip`, with the exact conditions in `SuperTrend.Chart.BandsOrderedExactly` and
  `SuperTrend.Chart.LineTrailsExactly`).
- Alerts alternate only as long as scans are saved in time order; `AlertStore.LateRowExactly` says exactly which late alerts
  break the alternation.
- `size_position` accepts a negative cost setting. If it outweighs the stop distance, the quantity is the largest within
  both caps only in the two corner cases of `Position.SizeIsLargestExactly`; `Position.NegativeCostSizesNothing` is an
  instance.
- `run_backtest` records capital in whole cents, so a share of the capital that is not whole cents changes with its first
  trade; and in diversified mode with no slots, which the request schema refuses, the final capital is zero
  (`Backtest.ConservedExactly`, with an instance in `Backtest.ThirdsLoseCents`).
- Slippage above 10000 basis points, which the request schema accepts, makes a stop the better outcome
  (`TradeSimulation.TradeBounds`). A stop can then leave less than nothing, and on a curve below zero the reported drawdown
  need not be the worst drop (`BacktestReport.WorstDropExactly`, with an instance in `BacktestReport.DebtFallsFurther`).

## Model

| member | source | states |
|---|---|---|
| MaxPain.CalculateMaxPain | nse_dashboard/options/max_pain.py:8-30 | The reported strike costs least over every real settlement price, is the smallest such listed strike, any equally cheap lower settlement lies below every strike, and the table holds the payout of exactly the listed strikes; an empty chain is refused |
| MaxPain.PayoutConvex | nse_dashboard/options/max_pain.py:15-24 | Total payout is convex in the settlement and linear between settlements with no strike between them |
| MaxPain.PayoutSlope | nse_dashboard/options/max_pain.py:15-24 | Between two settlements without a strike between them the payout rises by the distance for every share, open interest times lot size, of the calls below and falls by it for every share of the puts above |
| MaxPain.PayoutMonotoneOutside | nse_dashboard/options/max_pain.py:15-24 | Payout never rises below every strike and never falls above every strike |
| MaxPain.PayoutSides | nse_dashboard/options/max_pain.py:17-19 | A chain of calls pays more as the settlement rises and nothing at or below its strikes; puts the other way round |
| MaxPain.BestStrikeIsGlobal | nse_dashboard/options/max_pain.py:25 | A strike least among the listed ones is least among all real settlements |
| MaxPain.Strikes | nse_dashboard/options/max_pain.py:12 | The strikes are listed once each in increasing order |
| Series.EwmMirror | nse_dashboard/trading/chartink.py:52-59 | The exponential mean of a mirrored series, with missing cells, is the mirrored mean |
| Series.MeanExactly | nse_dashboard/trading/chartink.py:40-59 | A mean starts with the first present cell, follows its recurrence while no cell is missing, and is shown from the required number of cells on |
| Series.MeanOverGap | nse_dashboard/trading/chartink.py:40-59 | Over missing cells the mean stays, and the next cell is blended with the old weight faded once per bar |
| Series.TrueRangeExactly | nse_dashboard/trading/indicators.py:36-41 | The true range is the largest of the bar's own range and its two distances from the close before |
| Series.AverageRangeDefined | nse_dashboard/trading/indicators.py:36-41 | The average range is missing exactly on the first period - 1 bars and never negative |
| Series.AverageRangeRecurs | nse_dashboard/trading/indicators.py:36-41 | The average range follows period * now = (period - 1) * before + range from the first true range on |
| Chartink.ScreenReflects | nse_dashboard/trading/chartink.py:47-84 | Reflecting every bar about any price turns BUY into SELL, SELL into BUY, keeps HOLD, and exchanges the two condition sets entry by entry, for every bar sequence |
| Chartink.ScreenExactly | nse_dashboard/trading/chartink.py:61-84 | BUY and SELL are each equivalent to their eight conditions written out on the series at the last two bars |
| Chartink.NeverTwice | nse_dashboard/trading/chartink.py:61-84 | Two consecutive completed bars never both give BUY, nor both SELL |
| Chartink.EmaRecurs | nse_dashboard/trading/chartink.py:52-59 | A moving average starts with the first close and follows (span + 1) * now = (span - 1) * before + 2 * close |
| Chartink.MacdRecurs | nse_dashboard/trading/chartink.py:52-56 | MACD is the 12-bar average less the 26-bar one, its signal line the 9-bar average of it, the histogram their difference |
| Chartink.MovementExactly | nse_dashboard/trading/chartink.py:31-34 | Directional movement goes to the side that moved further outward, in full, and to neither on a tie |
| Chartink.IndexRecurs | nse_dashboard/trading/chartink.py:36-40 | A directional index is the Wilder mean of its movement in percent of the average range, missing while that is missing or zero |
| Chartink.DxExactly | nse_dashboard/trading/chartink.py:41-42 | DX is the spread of the two indices in percent of their sum, and zero when both are |
| Chartink.AdxRecurs | nse_dashboard/trading/chartink.py:43 | ADX is the Wilder mean of DX from its first value on, shown from the fourteenth one on |
| Chartink.DirectionReflects | nse_dashboard/trading/chartink.py:29-44 | Under reflection +DI and -DI trade places and ADX is unchanged on every bar |
| Chartink.MacdReflects | nse_dashboard/trading/chartink.py:54-56 | Under reflection MACD, its signal line and the histogram change sign on every bar |
| Chartink.AdxIsPercentage | nse_dashboard/trading/chartink.py:36-43 | +DI, -DI and ADX lie in [0, 100] wherever they are defined |
| Chartink.IndexIsPercentage | nse_dashboard/trading/chartink.py:38-40 | A directional index lies in [0, 100], and a zero average range comes with zero movement, so the division gives NaN and not infinity |
| Chartink.NeverBoth | nse_dashboard/trading/chartink.py:62-84 | No reading satisfies the buy and the sell conditions together |
| Chartink.OneSidedMarket | nse_dashboard/trading/chartink.py:31-34 | Without a lower low the screen never says SELL, without a higher high never BUY |
| Chartink.TrendIsFollowed | nse_dashboard/trading/chartink.py:51-84 | While closes never fall MACD is not negative and the screen never says SELL; while they never rise it never says BUY |
| Series.FasterMeanLeads | nse_dashboard/trading/chartink.py:52-59 | On a rising series the mean with the larger weight is the higher one, and none exceeds the last value |
| SuperTrend.Compute | nse_dashboard/trading/indicators.py:52-82 | For every multiplier and every period from one on, the in-place loop fills the line, trend and flip columns as specified, and nothing before the first average range |
| SuperTrend.BandsExactly | nse_dashboard/trading/indicators.py:55-59 | The basic bands of a bar add up to its high and low and lie two multiples of the average range apart |
| SuperTrend.StartExactly | nse_dashboard/trading/indicators.py:63-66 | The chart starts on bar period - 1, bullish if and only if that bar closes in the upper half of its range |
| SuperTrend.ChartReflects | nse_dashboard/trading/indicators.py:52-79 | Reflecting every bar about any price exchanges and reflects the bands and, unless the first bar closes in the middle of its range, turns every trend around and reflects the line |
| SuperTrend.Chart.FlipsExactly | nse_dashboard/trading/indicators.py:75-78 | The trend turns bearish exactly on a close below the lower band, bullish exactly on a close above the upper one |
| SuperTrend.Chart.UpperIsRunningMinimum | nse_dashboard/trading/indicators.py:67-70 | The final upper band is the least basic upper band since its last reset |
| SuperTrend.Chart.LowerIsRunningMaximum | nse_dashboard/trading/indicators.py:71-74 | The final lower band is the greatest basic lower band since its last reset |
| SuperTrend.Chart.ResetsExist | nse_dashboard/trading/indicators.py:66-74 | Every bar has a last reset of either band |
| SuperTrend.Chart.BandsOrderedExactly | nse_dashboard/trading/indicators.py:67-74 | The lower band is at most the upper one if and only if every basic lower band since the last lower reset is at most every basic upper band since the last upper reset |
| SuperTrend.Chart.LineTrails | nse_dashboard/trading/indicators.py:75-79 | Along a run of one regime past its flip bar the bullish line never falls and the bearish line never rises; from the very first bar this takes a multiplier that is not negative |
| SuperTrend.Chart.CloseRespectsLine | nse_dashboard/trading/indicators.py:75-79 | On a bar without a flip the close is on the regime's side of the line; on the very first bar this takes a multiplier that is not negative |
| SuperTrend.Chart.LineTrailsExactly | nse_dashboard/trading/indicators.py:66-79 | For every multiplier a regime trails from its very first bar, in either direction, if and only if that bar does not both close beyond its own line and give way to a lower (bearish: higher) basic band on the next bar |
| SuperTrend.LineCanFallAfterFlip | nse_dashboard/trading/indicators.py:66-79 | Four bars on which a period of two and a multiplier of one half lift the lower band above the upper one at a gap and let the line fall right after the bullish flip |
| Projections.BuildProjections | nse_dashboard/services/growth_radar.py:325-430 | Coverage, empty-range, zero-price and complex-growth outcomes, each exactly where it occurs; every row holds the scenario's value of its year; with a positive market capitalisation 0 < bear < base < bull in every year |
| Projections.ReportedExactly | nse_dashboard/services/growth_radar.py:424-428 | With a positive market capitalisation or without earnings, projections are reported if and only if the current price is not zero and the range is one year, or price and capitalisation have one sign, or the last bull price rounds to zero |
| Projections.RowsGrow | nse_dashboard/services/growth_radar.py:363-369 | The growth that successive revenues imply starts at the clamped growth and the scenario's difference, and its distance to 6% shrinks to 78% every year |
| Projections.RowsMargins | nse_dashboard/services/growth_radar.py:370-375 | The margin moves to the scenario's margin in four equal steps, stays a year and then loses 0.15 points a year, never below one percent |
| Projections.RowsMultiples | nse_dashboard/services/growth_radar.py:383-395 | The distance of the reported multiple to 10, before the scenario's factor, shrinks to 82% every year |
| Projections.MultiplesFade | nse_dashboard/services/growth_radar.py:381-387 | The three multiples fade from their starting values to 10, 1.5 and 16 at 82% a year |
| Projections.RowsEarnings | nse_dashboard/services/growth_radar.py:377-380 | Positive earnings grow by the implied revenue growth and 0.8 of the margin gained since the start, by 4% at least |
| Projections.RowsPrices | nse_dashboard/services/growth_radar.py:376-389 | A year's price is the mean per share of the equity at the row's EV/EBITDA multiple, of price/sales and, with positive earnings, of price/earnings |
| Projections.RowsChanges | nse_dashboard/services/growth_radar.py:390-402 | Years follow each other, and both growth figures of a row are those of its price |
| Projections.FirstRows | nse_dashboard/services/growth_radar.py:356-375 | The first rows of the three scenarios: growth 7 points apart, margin changes of -0.5, 0.25 and 0.75, multiples in the ratio 0.78 : 1 : 1.22 |
| Projections.InputsExactly | nse_dashboard/services/growth_radar.py:340-351 | Shares at the current price, no debt where none is reported, a margin of one percent at least |
| Projections.GrowthInput | nse_dashboard/services/growth_radar.py:343-346 | Starting growth is the yearly one, else the trailing one, else ten percent, moved into 6 to 30 |
| Projections.MultipleInputs | nse_dashboard/services/growth_radar.py:348-350 | Starting multiples are the reported ones, by default 18, 12 and the current price/sales, moved into their ranges |
| Projections.ScenariosOrdered | nse_dashboard/services/growth_radar.py:356-389 | In every year revenue and positive earnings are strictly and margins weakly ordered; prices are strictly ordered and positive with positive shares, and without earnings only then |
| Projections.PriceOrder | nse_dashboard/services/growth_radar.py:369-389 | Any dominating scenario has the higher, positive price in every year |
| Projections.PriceOrderReversed | nse_dashboard/services/growth_radar.py:336-343 | With a negative share count and no earnings every price is negative and the order turns around |
| Projections.OrderedExactly | nse_dashboard/services/growth_radar.py:336-389 | With a negative share count and positive earnings a year has 0 < bear < base < bull if and only if the starting earnings of the shares owed exceed a threshold |
| Projections.ThresholdIgnoresEarnings | nse_dashboard/services/growth_radar.py:379-385 | That threshold is the same for all starting earnings |
| Projections.PriceOrderExactly | nse_dashboard/services/growth_radar.py:336-389 | With a negative share count and positive earnings any dominating scenario has the higher price in exactly the years in which its lead in earnings value times the shares owed exceeds its lead in equity |
| Projections.EitherOrder | nse_dashboard/services/growth_radar.py:336-389 | With a negative market capitalisation large earnings keep the order of the first year, small ones turn it around, and in between prices can be in order and all negative |
| Projections.EpsOrder | nse_dashboard/services/growth_radar.py:379-381 | Earnings stay strictly ordered from the first year although their growth is only weakly ordered |
| Projections.ProjectPath | nse_dashboard/services/growth_radar.py:363-403 | The yearly loop yields the specified rows unless the current price or a price before the last year is zero, and then fails on a division by zero |
| Idempotency.MemoryIdempotencyStore.Acquire | nse_dashboard/infrastructure/idempotency.py:83-90 | A free key is locked with a new token, a locked one is left alone |
| Idempotency.MemoryIdempotencyStore.Complete | nse_dashboard/infrastructure/idempotency.py:92-98 | The owner's result is stored and the key freed; anyone else changes nothing |
| Idempotency.MemoryIdempotencyStore.Release | nse_dashboard/infrastructure/idempotency.py:100-103 | Only the owner's lock is freed |
| Idempotency.ExecuteOnce | nse_dashboard/infrastructure/idempotency.py:106-125 | An uninterrupted call returns the remembered result, stops at a lock, or runs once and leaves the key unlocked |
| IdempotencyProtocol.MutualExclusion | nse_dashboard/infrastructure/idempotency.py:48-125 | In every interleaving at most one worker is inside a key's operation, plus one per expiry of its lock; in the memory store at most one |
| IdempotencyProtocol.ExclusionAttained | nse_dashboard/infrastructure/idempotency.py:48-68 | For every number n of expiries a Redis run puts n + 1 workers inside the operation of a key |
| IdempotencyProtocol.CompleteKeepsOwnership | nse_dashboard/infrastructure/idempotency.py:92-98 | In the memory store completing never finds its ownership lost |
| IdempotencyProtocol.OwnsExactly | nse_dashboard/infrastructure/idempotency.py:48-103 | In either store and every run a worker that holds a token owns its key's lock if and only if that lock has not expired |
| IdempotencyProtocol.StaleOwnerWrites | nse_dashboard/infrastructure/idempotency.py:53-59 | A Redis run in which a worker whose lock has expired still writes its result while another worker owns the lock and runs |
| IdempotencyProtocol.ReleaseSparesOthers | nse_dashboard/infrastructure/idempotency.py:61-68 | Releasing never frees a lock that another worker owns, even after the releaser's own lock expired |
| IdempotencyProtocol.NoOrphanLocks | nse_dashboard/infrastructure/idempotency.py:119-125 | When every worker of a key is done the key is unlocked |
| IdempotencyProtocol.LookupIsLastResult | nse_dashboard/infrastructure/idempotency.py:79-81 | The result check sees the last result written for the key, or possibly none if in Redis a result of the key has expired |
| IdempotencyProtocol.StickyExactly | nse_dashboard/infrastructure/idempotency.py:113-116 | In either store, once a value is stored no later check leads to a run, in every run in which no result expires, if and only if operations cannot return both values and None; the memory store has no other runs, and in Redis with expiry no value stays for good |
| IdempotencyProtocol.CompletionBound | nse_dashboard/infrastructure/idempotency.py:113-121 | In either store, with operations that return values and while no result of the key expires, completions after a stored value are at most the workers that were already past the check |
| IdempotencyProtocol.BoundAttained | nse_dashboard/infrastructure/idempotency.py:113-121 | For every number of workers past the check and either store a run attains that bound |
| IdempotencyProtocol.TwoWorkersRun | nse_dashboard/infrastructure/idempotency.py:113-121 | In either store two workers that both checked first both run the operation, and the second result replaces the first |
| MarketScan.ComputeMarketScan | nse_dashboard/services/signals.py:93-151 | Every symbol is scored or failed, the lists are those of the scored items over the sectors of the universe, a scan lists each symbol at most once, and every scored signal is listed or outranked by five others of its sector |
| MarketScan.SectorNamesFacts | nse_dashboard/services/signals.py:121 | The sectors of a scan are exactly those of the universe, once each and in alphabetical order |
| MarketScan.ListsAreBest | nse_dashboard/services/signals.py:123-134 | At most five signals per sector and side, best first, and nothing left out beats a listed one |
| MarketScan.SectorLists | nse_dashboard/services/signals.py:121-137 | Buys have the highest scores of their sector and sells the lowest, at most five, in order of score, and items of equal score in the order in which they were scored |
| MarketScan.EachSymbolOnce | nse_dashboard/services/signals.py:121-137 | The candidates of a scan carry distinct symbols, none of them on hold |
| MarketScan.CandidatesInOrder | nse_dashboard/infrastructure/postgres.py:123-128 | The candidates of a scan are the buys and then the sells of each sector in turn |
| AlertStore.PostgresSnapshotRepository.ClaimTaskKey | nse_dashboard/infrastructure/postgres.py:111-118 | A key is claimed by its first insertion only |
| AlertStore.PostgresSnapshotRepository.SaveMarketScan | nse_dashboard/infrastructure/postgres.py:63-84 | The tables after saving a scan, with or without a run key |
| AlertStore.PostgresSnapshotRepository.SaveAlerts | nse_dashboard/infrastructure/postgres.py:120-160 | The tables after the alert loop, and the count of created rows |
| AlertStore.TextIdentifies | nse_dashboard/infrastructure/postgres.py:69 | The prefixed texts of different task keys differ |
| AlertStore.OneScanPerKey | nse_dashboard/infrastructure/postgres.py:63-84 | However tasks repeat and interleave, a run key saves one scan once claimed and none before |
| AlertStore.ScansAreTasks | nse_dashboard/infrastructure/postgres.py:63-84 | Every saved scan is that of a task, under the key of that task |
| AlertStore.OneAlertBatchPerKey | nse_dashboard/infrastructure/postgres.py:129-160 | However tasks repeat and interleave, a key without a claim has no alerts, and all alerts of a claimed key are the batch of one task, whole and unchanged and of one creation time, with none before it and none after |
| AlertStore.AlertsAreCandidates | nse_dashboard/infrastructure/postgres.py:132-159 | Every alert of a key holds symbol, sector, signal and score of a candidate of the one scan that the key saved, with its time |
| AlertStore.RerunChangesNothing | nse_dashboard/infrastructure/postgres.py:130-131 | Repeating an alert task changes no table |
| AlertStore.AlertsAlternate | nse_dashboard/infrastructure/postgres.py:133-140 | For scans that list a symbol once and are saved in increasing time order consecutive alerts of a symbol carry different signals |
| AlertStore.ComputedAlertsAlternate | nse_dashboard/infrastructure/postgres.py:120-160 | When the scans are computed ones and the first tasks of the keys run in the order of their scans, consecutive alerts of a symbol carry different signals, whatever tasks are repeated in between |
| AlertStore.ScanIsRecorded | nse_dashboard/infrastructure/postgres.py:133-159 | After a new scan the newest alert of every listed symbol carries the scan's signal |
| AlertStore.StoredExactly | nse_dashboard/infrastructure/postgres.py:133-159 | An item becomes an alert if and only if the newest alert of its symbol carries another signal and its key has none of that symbol and signal |
| AlertStore.LateRowExactly | nse_dashboard/infrastructure/postgres.py:133-159 | An alert that arrives out of order keeps the alternation if and only if it is suppressed, newer than every alert of its symbol, or older than all of them and different from the oldest; strictly between two alerts it always repeats one |
| AlertStore.LateScanRepeats | nse_dashboard/infrastructure/postgres.py:134-140 | A run in which a scan saved after a newer one repeats the signal before it |
| RateLimiting.RateLimiter.Create | nse_dashboard/infrastructure/brokers/base.py:41-57 | Rates and bursts that are not positive are refused, otherwise the bucket starts full |
| RateLimiting.RateLimiter.Acquire | nse_dashboard/infrastructure/brokers/base.py:59-70 | An uncontended call returns after at most one sleep, and after none exactly when a token is there |
| RateLimiting.WindowBound | nse_dashboard/infrastructure/brokers/base.py:59-70 | Whatever the clock does, any window of attempts grants at most capacity + rate * forward movement of the clock; with a monotone clock that is capacity + rate * duration |
| RateLimiting.GrantedExactly | nse_dashboard/infrastructure/brokers/base.py:63-68 | For every clock an attempt is granted if and only if no window ending at it would exceed its allowance |
| RateLimiting.AfterValid | nse_dashboard/infrastructure/brokers/base.py:63-67 | Tokens stay between zero and the capacity |
| RateLimiting.Bucket.WaitIsLeast | nse_dashboard/infrastructure/brokers/base.py:63-70 | A refused caller finds a token exactly from the end of the time it is told to sleep on |
| RateLimiting.BackwardClockOverspends | nse_dashboard/infrastructure/brokers/base.py:63-65 | With a clock that steps back, the duration of a window is no bound |
| RateLimiting.WithReconnect | nse_dashboard/infrastructure/brokers/base.py:156-168 | The call ends at the first outcome that is not retryable or at the last attempt, sleeping the capped exponential delays in between |
| RateLimiting.DelaysGrow | nse_dashboard/infrastructure/brokers/base.py:167 | From the first retry on delays never shrink and never exceed the maximum |
| RateLimiting.ReconnectPolicy.DelayStep | nse_dashboard/infrastructure/brokers/base.py:156-168 | The first delay is the initial one, each further one the product with the multiplier, capped |
| Position.PaperPosition.EvaluateClose | nse_dashboard/trading/portfolio.py:33-57 | One session updates the position and decides as specified |
| Position.StopRatchets | nse_dashboard/trading/portfolio.py:36-40 | Over any run of sessions and partial sales the stop never falls, a partial exit is never forgotten and the terms never change |
| Position.StopExactly | nse_dashboard/trading/portfolio.py:36-40 | Over every run the stop is the largest of the starting stop, the entry once a close gained one initial risk, every supertrend, and every highest close so far less 2.5 average ranges |
| Position.ProtectiveExactly | nse_dashboard/trading/portfolio.py:41-43 | A session decides on the protective stop if and only if its close is at or below one of those |
| Position.HighestIsRunningMaximum | nse_dashboard/trading/portfolio.py:36 | The highest close is the maximum of the entry and all closes |
| Position.BreakevenForever | nse_dashboard/trading/portfolio.py:37-39 | From a close at one risk unit of gain on the stop is at the entry or above |
| Position.DecisionFacts | nse_dashboard/trading/portfolio.py:41-56 | Any decision but an exit has its close above the stop, exits sell everything, partial exits at least one share, and the 63-session rule is never the reason |
| Position.DecisionExactly | nse_dashboard/trading/portfolio.py:41-56 | Every other rule applies exactly when it does and none before it, with 2 days, 40 sessions and an RSI of 75 |
| Position.ReportExactly | nse_dashboard/trading/portfolio.py:33-57 | The fields a session changes, the quantity of each action and the reported gain and stop |
| Position.RunAddsUp | nse_dashboard/services/paper_portfolio.py:99-118 | Over every run shares left, gains taken and sessions held add up |
| Position.PartialExitOnce | nse_dashboard/trading/portfolio.py:52-56 | A partial exit is decided at most once |
| Position.SizeIsLargest | nse_dashboard/trading/portfolio.py:91-104 | A number of shares is within the size exactly when what they would lose at the stop with costs stays within the share of equity at risk and their value within the largest share of a position |
| Position.SizeIsLargestExactly | nse_dashboard/trading/portfolio.py:93-99 | For every cost setting and risk budget that is sized at all, the size is the largest within both caps if and only if a share carries positive risk, or not even one share fits the value cap, or exactly one does and its negative risk is the whole budget |
| Position.NegativeCostSizesNothing | nse_dashboard/trading/portfolio.py:91-104 | A cost of -2000 basis points sizes nothing although a hundred shares are within both caps |
| Portfolio.RunsAreSound | nse_dashboard/services/paper_portfolio.py:61-136 | Every run conserves money, holds at most ten distinct symbols and keeps the mark above the equity at cost; with nonnegative exit prices cash stays nonnegative and holdings at cost within four times cash plus 4.5 cents of rounding; without reports at market prices a 10% drawdown always means a pause |
| Portfolio.MarkAndPauseLatch | nse_dashboard/trading/portfolio.py:73-76 | The mark never falls and only a month review lifts a pause |
| Portfolio.ReviewKeeps | nse_dashboard/services/paper_portfolio.py:134-136 | A month review leaves the account paused exactly when the drawdown is still 10% |
| Portfolio.OpensExactly | nse_dashboard/services/paper_portfolio.py:61-88 | An order opens a position if and only if its symbol is not held, the account is unpaused, less than 8% down and holds fewer than ten positions, a size can be computed, and the wanted quantity is positive and fits cash, exposure and sector |
| Portfolio.PurchaseExactly | nse_dashboard/services/paper_portfolio.py:89-97 | The position an opened order leaves, field by field, and the cash it takes |
| Portfolio.FirstRefusals | nse_dashboard/services/paper_portfolio.py:61-67 | A held symbol is refused before anything is summarized, the circuit breaker before anything else |
| Portfolio.ExitExactly | nse_dashboard/services/paper_portfolio.py:99-119 | When an exit is refused, and what it does to cash, gains and positions |
| Portfolio.EvaluateExactly | nse_dashboard/services/paper_portfolio.py:121-132 | An evaluation updates the position of its symbol alone |
| Portfolio.GetExactly | nse_dashboard/services/paper_portfolio.py:53-59 | A report marks at cost and then at market prices and changes nothing else |
| Portfolio.SummaryExactly | nse_dashboard/trading/portfolio.py:69-88 | The figures of a summary and its thresholds of 6, 8 and 10 percent |
| Portfolio.ValueExactly | nse_dashboard/trading/portfolio.py:71 | Holdings count at the given price or else at cost, and by sector at cost |
| Portfolio.OpenIsGuarded | nse_dashboard/services/paper_portfolio.py:61-97 | A position opens only unpaused, below 8% drawdown, in an unheld symbol and within the cash and sector limits, and opening changes neither equity nor drawdown |
| Portfolio.OpenKeepsSolvent | nse_dashboard/services/paper_portfolio.py:80-82 | The exposure check on rounded figures keeps holdings at cost within four times the remaining cash, to 4.5 cents |
| Portfolio.OpenIsSized | nse_dashboard/services/paper_portfolio.py:71-76 | Without a quantity of its own an order opens the largest position within its risk share, halved from 6% drawdown on, and a tenth of the equity |
| Portfolio.ReportKeeps | nse_dashboard/services/paper_portfolio.py:53-59 | Exactly when a report at market prices leaves the 10% circuit breaker intact |
| Portfolio.LatchedExactly | nse_dashboard/services/paper_portfolio.py:53-136 | Over every run, reports at market prices included, a 10% drawdown at cost comes with a pause if and only if the last summary was not that of a report which lifted the mark 10% above the equity at cost |
| Portfolio.ReportCanUnlatch | nse_dashboard/services/paper_portfolio.py:53-59 | A run of one opening and one report at market prices after which a 10% drawdown at cost comes without a pause, and a restart falls back to an older mark |
| Portfolio.RestoreRebuilds | nse_dashboard/services/paper_portfolio.py:21-51 | A restored snapshot is the account that was saved, every field of every position included, and the account itself if and only if that is latched |
| Portfolio.RestoreIsInvisible | nse_dashboard/services/paper_portfolio.py:21-51 | At any moment of any run, saving and restoring changes no later answer, whatever commands follow, if and only if a 10% drawdown at cost comes with a pause at that moment |
| Portfolio.ExitTellsApart | nse_dashboard/services/paper_portfolio.py:21-51 | Where it does not, selling one share at a price that brings the equity back to the mark leaves the running account unpaused and the restored one paused |
| Portfolio.RestartsExactly | nse_dashboard/services/paper_portfolio.py:13-59 | After every run a restart from the repository keeps cash, gains and positions and loses at most part of the mark or a pause; it gives back the running account if and only if the last save was not that of a report whose market prices raised the mark or paused the account |
| PaperPortfolioService.PaperPortfolio.Summarize | nse_dashboard/trading/portfolio.py:69-88 | The summary and the mark and pause that it leaves behind |
| PaperPortfolioService.Service.constructor | nse_dashboard/services/paper_portfolio.py:13-33 | A new service holds the restored account or a fresh one, and the snapshot it came from |
| PaperPortfolioService.Service.GetReport | nse_dashboard/services/paper_portfolio.py:53-59 | A report saves at cost before it looks at market prices, and returns what it saved with the summary at market prices |
| PaperPortfolioService.Service.OpenPosition | nse_dashboard/services/paper_portfolio.py:61-97 | Opening changes the objects and the stored snapshot and answers as the account function says, refusals included |
| PaperPortfolioService.Service.Exit | nse_dashboard/services/paper_portfolio.py:99-119 | So does an exit, which removes a position that is sold out |
| PaperPortfolioService.Service.EvaluatePosition | nse_dashboard/services/paper_portfolio.py:121-132 | So does an evaluation, which also returns the position's decision |
| PaperPortfolioService.Service.ResumeAtMonthReview | nse_dashboard/services/paper_portfolio.py:134-136 | So does a month review |
| TradeSimulation.SimulateTrade | nse_dashboard/five_percent_strategy/backtester.py:78-144 | The scan returns the specified trade, or none without bars to hold |
| TradeSimulation.TradeExactly | nse_dashboard/five_percent_strategy/backtester.py:78-144 | A trade is filled at the next bar's open with slippage, has stop and target around that price, closes where these say, and books what selling there returns after slippage and costs |
| TradeSimulation.LooksForward | nse_dashboard/five_percent_strategy/backtester.py:86-118 | Two signals of one date and symbol whose histories agree after their bars give the same trade: nothing at or before the signal's bar matters |
| TradeSimulation.WindowExactly | nse_dashboard/five_percent_strategy/backtester.py:86-96 | The bars a position may be held on are those right after the signal's, as many as configured |
| TradeSimulation.CloseIsUnique | nse_dashboard/five_percent_strategy/backtester.py:99-118 | The trade closes at the first bar touching stop or target, the stop winning on the same bar, or at the last close, and nowhere else |
| TradeSimulation.TradeFacts | nse_dashboard/five_percent_strategy/backtester.py:120-144 | A trade exits after its signal, within the holding period, and books its net return on the capital |
| TradeSimulation.TradeBounds | nse_dashboard/five_percent_strategy/backtester.py:90-125 | The multiplier of every trade lies between those of a stop and of a target, the stop being the worse one if and only if slippage does not exceed the price |
| Backtest.RunDiversified | nse_dashboard/five_percent_strategy/backtester.py:167-187 | The slot loop computes the specified run |
| Backtest.RunCompounding | nse_dashboard/five_percent_strategy/backtester.py:188-203 | The compounding loop is the run with one slot and strict separation |
| Backtest.RunIsOrderly | nse_dashboard/five_percent_strategy/backtester.py:174-185 | The (signal date, exit date] intervals of one slot are pairwise disjoint, and strictly apart when compounding |
| Backtest.OpenTradesBounded | nse_dashboard/five_percent_strategy/backtester.py:170-185 | On no date are more trades open than there are slots |
| Backtest.TakenExactly | nse_dashboard/five_percent_strategy/backtester.py:171-182 | A signal becomes a trade exactly when the limit is not reached, it has bars to hold, and fewer trades are open than there are slots |
| Backtest.DiversifiedConserves | nse_dashboard/five_percent_strategy/backtester.py:168-187 | Final capital is initial capital plus the recorded gains, to half a cent per slot, exactly for whole-cent shares |
| Backtest.CompoundingConserves | nse_dashboard/five_percent_strategy/backtester.py:189-203 | The same for the single capital of the compounding mode |
| Backtest.CurveExactly | nse_dashboard/five_percent_strategy/backtester.py:186 | Every point of the equity curve is the initial total and the gains recorded so far, to half a cent per slot and half a cent |
| Backtest.ConservedExactly | nse_dashboard/five_percent_strategy/backtester.py:168-187 | Either mode conserves capital if and only if there is a slot and the slot's share is whole cents, or no trade is permitted or tradable; without slots the capital is lost |
| Backtest.ThirdsLoseCents | nse_dashboard/five_percent_strategy/backtester.py:168-187 | A backtest of 10000 over three slots whose capital does not change by the recorded gain |
| Backtest.RunIsBounded | nse_dashboard/five_percent_strategy/backtester.py:125-139 | For every configuration a slot's capital stays within its start times the powers of the larger multiplier, up to half a cent per trade; where a stop leaves something after slippage and costs it lies between the powers of the worst and the best multiplier |
| Backtest.CompoundingBounds | nse_dashboard/five_percent_strategy/backtester.py:189-203 | Both bounds for all trades of the compounding mode, the second one where a stop leaves something |
| BacktestReport.MaxDrawdownPct | nse_dashboard/five_percent_strategy/backtester.py:222-227 | The single pass computes the worst fall from a running peak; from a positive start that is the worst drop over all ordered pairs of points if and only if no negative point falls further from the least positive point before it |
| BacktestReport.ChangeExactly | nse_dashboard/five_percent_strategy/backtester.py:225-227 | A change in percent, and none where there is nothing to compare with |
| BacktestReport.DebtFallsFurther | nse_dashboard/five_percent_strategy/backtester.py:222-227 | A curve that goes below zero and falls further from a point in between than from its peak |
| BacktestReport.LongestStreak | nse_dashboard/five_percent_strategy/backtester.py:269-277 | The length of the longest contiguous block with one result |
| BacktestReport.RunBacktest | nse_dashboard/five_percent_strategy/backtester.py:147-205 | The report of either mode holds the run, its worst fall from a peak, the exact condition under which that is its worst drop, which holds where a stop leaves something, and its longest streaks |
| Cache.MemoryTtlCache.Get | nse_dashboard/infrastructure/cache.py:31-40 | A read returns a live value and drops a dead one |
| Cache.MemoryTtlCache.Set | nse_dashboard/infrastructure/cache.py:42-46 | A write is dated, a time to live that is not positive writes nothing |
| Cache.MemoryTtlCache.SetIfAbsent | nse_dashboard/infrastructure/cache.py:48-59 | Only an absent or dead entry is written |
| Cache.CacheIsPlainMap | nse_dashboard/infrastructure/cache.py:24-63 | No caller can tell the evicting cache from a map that keeps every dated write |
| Cache.ReadsAreFresh | nse_dashboard/infrastructure/cache.py:31-63 | Under a monotone clock the cache reads a value exactly while the key's last write, not deleted since, is younger than its time to live |
| SingleFlight.ScanMarket | nse_dashboard/services/signals.py:61-77 | One call with others writing while it waits: answered by a live entry at either check, otherwise scanning and caching |
| SingleFlight.ScansAreSpaced | nse_dashboard/services/signals.py:61-77 | An unforced scan's locked check comes at least the cache time after every earlier scan's write |
| SingleFlight.OneScanAtATime | nse_dashboard/services/signals.py:67-77 | At most one caller is inside the lock |
| SingleFlight.CachedAnswersAreFresh | nse_dashboard/services/signals.py:62-71 | Every cached answer is a completed scan younger than its time to live |
| PurgedSplit.Splits | nse_dashboard/services/ml_forecast_service.py:84-103 | The splits are the folds in order, less those without training rows |
| PurgedSplit.OneFold | nse_dashboard/services/ml_forecast_service.py:92-102 | A fold trains on exactly the rows before its embargo and tests on exactly those of its dates, and always has test rows |
| PurgedSplit.WindowFits | nse_dashboard/services/ml_forecast_service.py:90-96 | No fold window runs past the unique dates, so the empty-window branch is unreachable |
| PurgedSplit.FoldSizeExactly | nse_dashboard/services/ml_forecast_service.py:90-93 | The fold size is the largest with room for one more fold, so fewer than folds + 1 unique dates follow the last test window |
| PurgedSplit.EmbargoHolds | nse_dashboard/services/ml_forecast_service.py:98-101 | Every training date plus the embargo precedes every test date of its fold |
| PurgedSplit.FoldsAdvance | nse_dashboard/services/ml_forecast_service.py:91-103 | Test rows of different folds are disjoint and chronological, training rows are nested |
| PurgedSplit.LeftOutExactly | nse_dashboard/services/ml_forecast_service.py:102-103 | A fold is left out exactly when the embargo before its first test date reaches back to the first of all dates |
| PurgedSplit.LaterFoldsReported | nse_dashboard/services/ml_forecast_service.py:91-103 | After a fold that is reported all later ones are, so the folds left out are the first ones |

## Left out

- Floating point: all arithmetic is exact; rounding to cents is modelled only where a rounded value is used again.
- Resampling and cleaning of bars: the models start from completed bars whose close lies in their range, one a day, and for the backtester with a positive open.
- The strength score of the Chartink screen: it uses the ratio of two averages, which reflection does not preserve, and is not part of the promised inverse; the displayed features and reasons are also left out.
- Projections.BuildProjections: the implied annual growth rate needs roots, and only whether it is a real number is modelled; the displayed rounding is dropped.
- Projections.ScenariosOrdered: with a negative market capitalisation and positive earnings it claims no price order; Projections.OrderedExactly does.
- Idempotency.MemoryIdempotencyStore.Acquire: tokens come from a counter, which stands for `uuid4` never repeating; crashes of a worker between two store calls and connection errors are not modelled.
- AlertStore.PostgresSnapshotRepository.SaveAlerts: a transaction is one atomic call, and among alerts with equal creation times the last inserted counts as the newest; under increasing scan times no such ties exist.
- AlertStore.OneScanPerKey: the run key of a saved scan is recorded beside the row, because the table keeps only the payload.
- RateLimiting.RateLimiter.Acquire: the clock and the sleep are a nondeterministic clock that never steps back and sleeps at least as long as asked.
- Symbol normalisation, ISO dates and the defaults of missing request fields in the paper portfolio: requests arrive resolved, dates are day numbers.
- Portfolio.OpenIsGuarded: the sector cap is checked at opening only; a losing exit elsewhere can push a sector above it, so it is not an invariant.
- PaperPortfolioService.PaperPortfolio.Summarize: the dictionary of positions is a list in insertion order whose keys are the symbols.
- Signal generation of the backtester: signals are given, sorted by date where that matters; close-only histories, win rates, average returns and the profit factor are left out.
- SuperTrend.Compute: a period of zero, on which the source divides by zero, is excluded.
- SingleFlight.ScansAreSpaced: the dashboard entry is written by scans only; the worker pipeline, which writes it from another process, is not modelled.
- Every scoring ladder, the HTTP routes, the Celery wiring, the market-data clients, the option Greeks and the learned models.
